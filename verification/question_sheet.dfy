/**
 * The teacher's question-sheet upload (`upload_soal` in routes/guru_routes.py):
 * the required-field check, and the pass over the sheet's rows that sorts them
 * into a multiple-choice list and an essay list before the exam is created.
 *
 * A sheet row is given as the text of its cells (what `str(row[...])` yields),
 * except the weight cell, which is the number the spreadsheet reader produced
 * or blank. Parsing the two date-times is a parameter of the upload.
 */
module QuestionSheet {
  import opened Wrappers
  import opened Text
  import opened Models

  /** The `bobot` cell of a sheet row: a number, or blank (read as NaN). */
  datatype WeightCell = Number(value: real) | Blank

  /** One row of the uploaded sheet, by column name. */
  datatype Row = Row(tipe: string, soal: string, a: string, b: string, c: string, d: string, kunci: string, bobot: WeightCell)

  /** Python's `int(x)` on a float: drops the fraction, rounding toward zero. */
  function TruncToZero(x: real): (n: int)
    ensures 0.0 <= x ==> 0 <= n && n as real <= x < n as real + 1.0
    ensures x < 0.0 ==> n <= 0 && n as real - 1.0 < x <= n as real
  {
    if x >= 0.0 then x.Floor else -((-x).Floor)
  }

  /** The row type as the handler compares it: stripped, then lower-cased. */
  function NormalizeType(tipe: string): string {
    Lower(Strip(tipe))
  }

  predicate IsPgRow(row: Row) { NormalizeType(row.tipe) == "pg" }

  predicate IsEssayRow(row: Row) { NormalizeType(row.tipe) == "essay" }

  /** `int(row['bobot'])` succeeds on every essay row; other rows never read the cell. */
  predicate WeightConverts(row: Row) { IsEssayRow(row) ==> row.bobot.Number? }

  predicate AllWeightsConvert(rows: seq<Row>) {
    forall i :: 0 <= i < |rows| ==> WeightConverts(rows[i])
  }

  /** The record a multiple-choice row becomes. */
  function PgRecord(row: Row): PgQuestion {
    PgQuestion(row.soal, row.a, row.b, row.c, row.d, Upper(row.kunci))
  }

  /** The record an essay row becomes. */
  function EssayRecord(row: Row): EssayQuestion
    requires row.bobot.Number?
  {
    EssayQuestion(row.soal, TruncToZero(row.bobot.value))
  }

  /** The multiple-choice list the upload builds from `rows`. */
  function PgList(rows: seq<Row>): seq<PgQuestion> {
    if rows == [] then []
    else
      var last := rows[|rows| - 1];
      PgList(rows[..|rows| - 1]) + (if IsPgRow(last) then [PgRecord(last)] else [])
  }

  /** The essay list the upload builds from `rows`. */
  function EssayList(rows: seq<Row>): seq<EssayQuestion>
    requires AllWeightsConvert(rows)
  {
    if rows == [] then []
    else
      var last := rows[|rows| - 1];
      assert WeightConverts(last);
      EssayList(rows[..|rows| - 1]) + (if IsEssayRow(last) then [EssayRecord(last)] else [])
  }

  /** The outcome of the pass over the rows: both lists, or the row whose weight `int()` rejects. */
  datatype Classified = Classified(pg: seq<PgQuestion>, essay: seq<EssayQuestion>) | WeightError(row: nat)

  /**
   * The row loop of the upload: each row whose normalised type is "pg" is
   * appended to the multiple-choice list, each "essay" row to the essay list,
   * and every other row is skipped. A blank weight on an essay row raises, which
   * ends the pass at that row.
   */
  method ClassifyRows(rows: seq<Row>) returns (out: Classified)
    ensures out.Classified? <==> AllWeightsConvert(rows)
    ensures out.Classified? ==> out.pg == PgList(rows) && out.essay == EssayList(rows)
    ensures out.WeightError? ==>
      out.row < |rows| && IsEssayRow(rows[out.row]) && rows[out.row].bobot.Blank?
      && AllWeightsConvert(rows[..out.row])
  {
    var pg: seq<PgQuestion> := [];
    var essay: seq<EssayQuestion> := [];
    var i := 0;
    while i < |rows|
      invariant 0 <= i <= |rows|
      invariant AllWeightsConvert(rows[..i])
      invariant pg == PgList(rows[..i])
      invariant essay == EssayList(rows[..i])
    {
      var row := rows[i];
      var tipe := Lower(Strip(row.tipe));
      assert rows[..i + 1][..i] == rows[..i];
      if tipe == "pg" {
        pg := pg + [PgQuestion(row.soal, row.a, row.b, row.c, row.d, Upper(row.kunci))];
      } else if tipe == "essay" {
        if row.bobot.Blank? {
          return WeightError(i);
        }
        essay := essay + [EssayQuestion(row.soal, TruncToZero(row.bobot.value))];
      }
      i := i + 1;
    }
    assert rows[..i] == rows;
    out := Classified(pg, essay);
  }

  /** The file part of the upload: the chosen file's name and the sheet it holds. */
  datatype ExcelFile = ExcelFile(fileName: string, sheet: seq<Row>)

  /**
   * The upload request: the title, the two date-time fields and the file, each
   * `None` when the request does not carry that key at all.
   */
  datatype UploadForm = UploadForm(judul: Option<string>, waktuMulai: Option<string>,
                                   waktuSelesai: Option<string>, excel: Option<ExcelFile>)

  datatype UploadOutcome = BadRequest | MissingField | BadTimeFormat | BadWeight(row: nat) | Created(ujian: Ujian)

  /** A key the handler looks up is absent, which makes the lookup answer with a 400 error. */
  predicate KeysAbsent(form: UploadForm) {
    form.judul.None? || form.waktuMulai.None? || form.waktuSelesai.None? || form.excel.None?
  }

  /**
   * The required-field check, on a request that carries every key: a blank title
   * (after strip), an empty date-time field, or no file chosen.
   */
  predicate FieldsMissing(form: UploadForm) {
    !KeysAbsent(form) &&
    (Strip(form.judul.value) == [] || form.waktuMulai.value == [] || form.waktuSelesai.value == []
     || form.excel.value.fileName == [])
  }

  /** A title made only of whitespace counts as missing, and so does an empty one. */
  lemma BlankTitleRejected(form: UploadForm)
    requires !KeysAbsent(form) && AllSpace(form.judul.value)
    ensures FieldsMissing(form)
  {
    StripSpec(form.judul.value);
  }

  /** The duration every uploaded exam gets. */
  const DefaultDurasiMenit := 60

  /**
   * The POST branch of the upload handler. `parseTime` stands for
   * `datetime.strptime(_, '%Y-%m-%dT%H:%M')`, `None` where it raises.
   */
  method UploadSoal(mapelId: int, form: UploadForm, parseTime: string -> Option<int>) returns (out: UploadOutcome)
    ensures out == BadRequest <==> KeysAbsent(form)
    ensures out == MissingField <==> FieldsMissing(form)
    ensures out == BadTimeFormat <==>
      !KeysAbsent(form) && !FieldsMissing(form)
      && (parseTime(form.waktuMulai.value).None? || parseTime(form.waktuSelesai.value).None?)
    ensures out.BadWeight? <==>
      !KeysAbsent(form) && !FieldsMissing(form)
      && parseTime(form.waktuMulai.value).Some? && parseTime(form.waktuSelesai.value).Some?
      && !AllWeightsConvert(form.excel.value.sheet)
    ensures out.BadWeight? ==>
      var sheet := form.excel.value.sheet;
      out.row < |sheet| && IsEssayRow(sheet[out.row]) && sheet[out.row].bobot.Blank?
      && AllWeightsConvert(sheet[..out.row])
    ensures out.Created? ==>
      !KeysAbsent(form) && AllWeightsConvert(form.excel.value.sheet) &&
      out.ujian == Ujian(mapelId, Strip(form.judul.value),
                         parseTime(form.waktuMulai.value).value, parseTime(form.waktuSelesai.value).value,
                         60, PgList(form.excel.value.sheet), EssayList(form.excel.value.sheet))
    ensures out.Created? ==> out.ujian.judul != [] && out.ujian.durasiMenit == 60
  {
    if KeysAbsent(form) {
      return BadRequest;
    }
    var judul := Strip(form.judul.value);
    var waktuMulai := form.waktuMulai.value;
    var waktuSelesai := form.waktuSelesai.value;
    var file := form.excel.value;
    if judul == [] || waktuMulai == [] || waktuSelesai == [] || file.fileName == [] {
      return MissingField;
    }
    var mulai := parseTime(waktuMulai);
    var selesai := parseTime(waktuSelesai);
    if mulai.None? || selesai.None? {
      return BadTimeFormat;
    }
    var classified := ClassifyRows(file.sheet);
    if classified.WeightError? {
      return BadWeight(classified.row);
    }
    out := Created(Ujian(mapelId, judul, mulai.value, selesai.value, DefaultDurasiMenit,
                         classified.pg, classified.essay));
  }

  // Properties of the two lists.

  /** Building the list over two stretches of rows is building it over each and concatenating: order is kept. */
  lemma {:induction false} PgListAppend(xs: seq<Row>, ys: seq<Row>)
    ensures PgList(xs + ys) == PgList(xs) + PgList(ys)
    decreases |ys|
  {
    if ys == [] {
      assert xs + ys == xs;
    } else {
      var zs := ys[..|ys| - 1];
      assert (xs + ys)[..|xs + ys| - 1] == xs + zs;
      PgListAppend(xs, zs);
    }
  }

  /** The same for the essay list. */
  lemma {:induction false} EssayListAppend(xs: seq<Row>, ys: seq<Row>)
    requires AllWeightsConvert(xs + ys)
    ensures AllWeightsConvert(xs) && AllWeightsConvert(ys)
    ensures EssayList(xs + ys) == EssayList(xs) + EssayList(ys)
    decreases |ys|
  {
    assert forall i :: 0 <= i < |xs| ==> xs[i] == (xs + ys)[i];
    assert forall i :: 0 <= i < |ys| ==> ys[i] == (xs + ys)[|xs| + i];
    if ys == [] {
      assert xs + ys == xs;
    } else {
      var zs := ys[..|ys| - 1];
      assert (xs + ys)[..|xs + ys| - 1] == xs + zs;
      assert forall i :: 0 <= i < |xs + zs| ==> (xs + zs)[i] == (xs + ys)[i];
      EssayListAppend(xs, zs);
    }
  }

  /**
   * The multiple-choice row at index `j` lands in the list at the position
   * given by the number of multiple-choice rows before it.
   */
  lemma PgRowPosition(rows: seq<Row>, j: nat)
    requires j < |rows| && IsPgRow(rows[j])
    ensures |PgList(rows[..j])| < |PgList(rows)|
    ensures PgList(rows)[|PgList(rows[..j])|] == PgRecord(rows[j])
  {
    assert rows == rows[..j] + ([rows[j]] + rows[j + 1..]);
    PgListAppend(rows[..j], [rows[j]] + rows[j + 1..]);
    PgListAppend([rows[j]], rows[j + 1..]);
    assert PgList([rows[j]]) == [PgRecord(rows[j])] by {
      assert [rows[j]][..0] == [];
    }
  }

  /** Every multiple-choice record comes from a multiple-choice row. */
  lemma {:induction false} PgListFromPgRows(rows: seq<Row>, k: nat)
    requires k < |PgList(rows)|
    ensures exists j :: 0 <= j < |rows| && IsPgRow(rows[j]) && PgList(rows)[k] == PgRecord(rows[j])
    decreases |rows|
  {
    var init := rows[..|rows| - 1];
    if k < |PgList(init)| {
      PgListFromPgRows(init, k);
      var j :| 0 <= j < |init| && IsPgRow(init[j]) && PgList(init)[k] == PgRecord(init[j]);
      assert rows[j] == init[j];
    } else {
      assert IsPgRow(rows[|rows| - 1]);
    }
  }

  /** The essay row at index `j` lands in the essay list at the position given by the number of essay rows before it. */
  lemma EssayRowPosition(rows: seq<Row>, j: nat)
    requires j < |rows| && IsEssayRow(rows[j]) && AllWeightsConvert(rows)
    ensures AllWeightsConvert(rows[..j]) && rows[j].bobot.Number?
    ensures |EssayList(rows[..j])| < |EssayList(rows)|
    ensures EssayList(rows)[|EssayList(rows[..j])|] == EssayQuestion(rows[j].soal, TruncToZero(rows[j].bobot.value))
  {
    assert WeightConverts(rows[j]);
    assert rows == rows[..j] + ([rows[j]] + rows[j + 1..]);
    EssayListAppend(rows[..j], [rows[j]] + rows[j + 1..]);
    EssayListAppend([rows[j]], rows[j + 1..]);
    assert EssayList([rows[j]]) == [EssayRecord(rows[j])] by {
      assert [rows[j]][..0] == [];
    }
  }

  /** Every essay record comes from an essay row, with its prompt and its truncated weight. */
  lemma {:induction false} EssayListFromEssayRows(rows: seq<Row>, k: nat)
    requires AllWeightsConvert(rows) && k < |EssayList(rows)|
    ensures exists j :: 0 <= j < |rows| && IsEssayRow(rows[j]) && rows[j].bobot.Number?
                          && EssayList(rows)[k] == EssayQuestion(rows[j].soal, TruncToZero(rows[j].bobot.value))
    decreases |rows|
  {
    var init := rows[..|rows| - 1];
    assert AllWeightsConvert(init) by {
      assert forall i :: 0 <= i < |init| ==> init[i] == rows[i];
    }
    if k < |EssayList(init)| {
      EssayListFromEssayRows(init, k);
      var j :| 0 <= j < |init| && IsEssayRow(init[j]) && init[j].bobot.Number?
        && EssayList(init)[k] == EssayQuestion(init[j].soal, TruncToZero(init[j].bobot.value));
      assert rows[j] == init[j];
    } else {
      assert IsEssayRow(rows[|rows| - 1]);
    }
  }

  /** Number of rows whose normalised type is "pg". */
  function PgRowCount(rows: seq<Row>): (n: nat)
    ensures n <= |rows|
  {
    if rows == [] then 0
    else PgRowCount(rows[..|rows| - 1]) + (if IsPgRow(rows[|rows| - 1]) then 1 else 0)
  }

  /** Number of rows whose normalised type is "essay". */
  function EssayRowCount(rows: seq<Row>): (n: nat)
    ensures n <= |rows|
  {
    if rows == [] then 0
    else EssayRowCount(rows[..|rows| - 1]) + (if IsEssayRow(rows[|rows| - 1]) then 1 else 0)
  }

  /** Each list holds one record per row of its own type. */
  lemma {:induction false} ListLengths(rows: seq<Row>)
    requires AllWeightsConvert(rows)
    ensures |PgList(rows)| == PgRowCount(rows)
    ensures |EssayList(rows)| == EssayRowCount(rows)
    decreases |rows|
  {
    if rows != [] {
      var init := rows[..|rows| - 1];
      assert AllWeightsConvert(init) by {
        assert forall i :: 0 <= i < |init| ==> init[i] == rows[i];
      }
      ListLengths(init);
    }
  }

  /** Every stored answer key is upper-case: it holds no lower-case ASCII letter. */
  lemma PgKeysUpperCase(rows: seq<Row>)
    ensures forall k :: 0 <= k < |PgList(rows)| ==> NoLowerAscii(PgList(rows)[k].kunci)
  {
    forall k | 0 <= k < |PgList(rows)| ensures NoLowerAscii(PgList(rows)[k].kunci) {
      PgListFromPgRows(rows, k);
      var j :| 0 <= j < |rows| && IsPgRow(rows[j]) && PgList(rows)[k] == PgRecord(rows[j]);
      UpperHasNoLower(rows[j].kunci);
    }
  }

  /** A row the upload keeps: its normalised type is "pg" or "essay". */
  predicate IsKeptRow(row: Row) { IsPgRow(row) || IsEssayRow(row) }

  /** Number of rows the upload keeps. */
  function KeptRows(rows: seq<Row>): (n: nat)
    ensures n <= |rows|
  {
    if rows == [] then 0
    else KeptRows(rows[..|rows| - 1]) + (if IsKeptRow(rows[|rows| - 1]) then 1 else 0)
  }

  /** Every kept row lands in exactly one of the two lists. */
  lemma {:induction false} ListsHoldKeptRows(rows: seq<Row>)
    requires AllWeightsConvert(rows)
    ensures |PgList(rows)| + |EssayList(rows)| == KeptRows(rows)
    decreases |rows|
  {
    if rows != [] {
      var init := rows[..|rows| - 1];
      assert AllWeightsConvert(init) by {
        assert forall i :: 0 <= i < |init| ==> init[i] == rows[i];
      }
      ListsHoldKeptRows(init);
    }
  }

  /** All rows are kept exactly when every row is "pg" or "essay". */
  lemma {:induction false} AllRowsKept(rows: seq<Row>)
    ensures KeptRows(rows) == |rows| <==> forall i :: 0 <= i < |rows| ==> IsKeptRow(rows[i])
    decreases |rows|
  {
    if rows != [] {
      var init := rows[..|rows| - 1];
      AllRowsKept(init);
      assert forall i :: 0 <= i < |init| ==> init[i] == rows[i];
    }
  }

  /**
   * Rows of any other type are dropped: the two lists together are no longer
   * than the sheet, and exactly as long when every row is "pg" or "essay".
   */
  lemma PartitionSize(rows: seq<Row>)
    requires AllWeightsConvert(rows)
    ensures |PgList(rows)| + |EssayList(rows)| <= |rows|
    ensures |PgList(rows)| + |EssayList(rows)| == |rows| <==>
      forall i :: 0 <= i < |rows| ==> IsPgRow(rows[i]) || IsEssayRow(rows[i])
  {
    ListsHoldKeptRows(rows);
    AllRowsKept(rows);
  }

  /** A row's type is "pg" exactly when, stripped, it is the two letters p and g in any case. */
  lemma PgTypeExactly(tipe: string)
    ensures NormalizeType(tipe) == "pg" <==>
      var t := Strip(tipe);
      |t| == 2 && (t[0] == 'p' || t[0] == 'P') && (t[1] == 'g' || t[1] == 'G')
  {
    LowerEqualsWord(Strip(tipe), "pg");
  }

  /** A row's type is "essay" exactly when, stripped, it spells essay in any mix of cases. */
  lemma EssayTypeExactly(tipe: string)
    ensures NormalizeType(tipe) == "essay" <==>
      var t := Strip(tipe);
      |t| == 5 && (t[0] == 'e' || t[0] == 'E') && (t[1] == 's' || t[1] == 'S')
      && (t[2] == 's' || t[2] == 'S') && (t[3] == 'a' || t[3] == 'A') && (t[4] == 'y' || t[4] == 'Y')
  {
    LowerEqualsWord(Strip(tipe), "essay");
    var t := Strip(tipe);
    if |t| == 5 {
      assert "essay"[0] == 'e' && "essay"[1] == 's' && "essay"[2] == 's' && "essay"[3] == 'a' && "essay"[4] == 'y';
    }
  }

  /** " PG " counts as a multiple-choice row and "Essay" as an essay row. */
  lemma TypeExamples()
    ensures NormalizeType(" PG ") == "pg"
    ensures NormalizeType("Essay") == "essay"
  {
    PgTypeExactly(" PG ");
    StripKeepsUntrimmed("PG");
    assert Strip(" PG ") == "PG" by {
      assert TrimStart(" PG ") == TrimStart("PG ");
      assert TrimStart("PG ") == "PG ";
      assert TrimEnd("PG ") == TrimEnd("PG");
    }
    EssayTypeExactly("Essay");
    StripKeepsUntrimmed("Essay");
  }
}
