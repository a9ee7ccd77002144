/**
 * The student's exam page (`ujian` in routes/siswa_routes.py): the time-window
 * guard, the in-place shuffle of the multiple-choice list, the positional
 * scoring of the submitted answers, and the submission record built from the
 * score.
 *
 * `random.shuffle` is CPython's Fisher-Yates pass; the numbers it draws from
 * the global generator are an input (`draws[i]` is the draw made at index `i`,
 * a number in `0..i`). The clock reading is the input `now`.
 */
module ExamSession {
  import opened Text
  import opened Models

  // The time window.

  /** The exam may be taken at `now`: from its start to its end, both included. */
  predicate InWindow(ujian: Ujian, now: int) {
    ujian.waktuMulai <= now <= ujian.waktuSelesai
  }

  // The shuffle.

  /** `s` with the elements at `i` and `j` exchanged (Python's `x[i], x[j] = x[j], x[i]`). */
  function Swap<T>(s: seq<T>, i: nat, j: nat): (r: seq<T>)
    requires i < |s| && j < |s|
    ensures |r| == |s| && multiset(r) == multiset(s)
    ensures r[i] == s[j] && r[j] == s[i]
    ensures forall k :: 0 <= k < |s| && k != i && k != j ==> r[k] == s[k]
  {
    s[i := s[j]][j := s[i]]
  }

  /** Draws that `random.shuffle` can make on a list of length `n`: at index `i`, a number in `0..i`. */
  predicate ValidDraws(draws: seq<nat>, n: nat) {
    |draws| == n && forall i :: 0 <= i < n ==> draws[i] <= i
  }

  /** The Fisher-Yates steps at indices `i - 1` down to 1, applied to `s`. */
  function ShuffleSteps<T>(s: seq<T>, draws: seq<nat>, i: nat): (r: seq<T>)
    requires ValidDraws(draws, |s|) && i <= |s|
    ensures |r| == |s| && multiset(r) == multiset(s)
    decreases i
  {
    if i <= 1 then s else ShuffleSteps(Swap(s, i - 1, draws[i - 1]), draws, i - 1)
  }

  /** The order `random.shuffle` leaves a list of length `|s|` in, given its draws. */
  function Shuffle<T>(s: seq<T>, draws: seq<nat>): seq<T>
    requires ValidDraws(draws, |s|)
  {
    ShuffleSteps(s, draws, |s|)
  }

  /** A shuffled list holds exactly the questions it held before, each as often. */
  lemma ShuffleIsPermutation<T>(s: seq<T>, draws: seq<nat>)
    requires ValidDraws(draws, |s|)
    ensures |Shuffle(s, draws)| == |s| && multiset(Shuffle(s, draws)) == multiset(s)
    ensures forall x :: x in Shuffle(s, draws) <==> x in s
  {
    var r := Shuffle(s, draws);
    forall x ensures x in r <==> x in s {
      assert x in r <==> x in multiset(r);
      assert x in s <==> x in multiset(s);
    }
  }

  /** `random.shuffle(a)`: reorders `a` in place, from the last index down to index 1. */
  method ShuffleInPlace<T>(a: array<T>, draws: seq<nat>)
    requires ValidDraws(draws, a.Length)
    modifies a
    ensures a[..] == Shuffle(old(a[..]), draws)
    ensures multiset(a[..]) == multiset(old(a[..]))
  {
    var i := a.Length;
    while i > 1
      invariant 0 <= i <= a.Length
      invariant ShuffleSteps(a[..], draws, i) == Shuffle(old(a[..]), draws)
    {
      var j := draws[i - 1];
      ghost var before := a[..];
      var t := a[i - 1];
      a[i - 1] := a[j];
      a[j] := t;
      assert a[..] == Swap(before, i - 1, j);
      i := i - 1;
    }
  }

  // Scoring.

  /** Number of answers that equal, position by position, the key of the question at that position. */
  function Matches(pg: seq<PgQuestion>, answers: seq<string>): nat
    requires |answers| <= |pg|
  {
    if answers == [] then 0
    else
      var i := |answers| - 1;
      Matches(pg, answers[..i]) + (if answers[i] == pg[i].kunci then 1 else 0)
  }

  /** There are never more matches than answers. */
  lemma {:induction false} MatchesAtMostAnswers(pg: seq<PgQuestion>, answers: seq<string>)
    requires |answers| <= |pg|
    ensures Matches(pg, answers) <= |answers|
  {
    if answers != [] {
      MatchesAtMostAnswers(pg, answers[..|answers| - 1]);
    }
  }

  /**
   * The exact score of `answers` against `pg`: 100 per matching answer,
   * divided by the number of questions, or 0 for an exam without questions.
   */
  function Score(pg: seq<PgQuestion>, answers: seq<string>): real
    requires |answers| <= |pg|
  {
    if |pg| == 0 then 0.0 else (Matches(pg, answers) * 100) as real / |pg| as real
  }

  /** Arithmetic of `100 * m / n` for `0 < n`: one more match adds `100 / n`, and the value is 0 or 100 at the ends. */
  lemma ShareFacts(m: nat, n: nat)
    requires 0 < n
    ensures ((m + 1) * 100) as real / n as real == (m * 100) as real / n as real + 100.0 / n as real
    ensures 0.0 <= (m * 100) as real / n as real
    ensures (m * 100) as real / n as real == 0.0 <==> m == 0
    ensures m <= n ==> (m * 100) as real / n as real <= 100.0
    ensures (m * 100) as real / n as real == 100.0 <==> m == n
  {
    var x := (m * 100) as real;
    var d := n as real;
    assert ((m + 1) * 100) as real == x + 100.0;
    assert (x + 100.0) / d == x / d + 100.0 / d;
    assert x / d == 100.0 <==> x == d * 100.0;
    if m <= n {
      assert x <= d * 100.0;
      assert (d * 100.0) / d == 100.0;
    }
  }

  datatype GradeOutcome = Graded(skor: real) | IndexError(index: nat)

  /** Each answer changes the score by nothing or by one question's worth, `100 / len(pg)`. */
  lemma ScoreStep(pg: seq<PgQuestion>, answers: seq<string>, i: nat)
    requires i < |answers| && i < |pg|
    ensures Score(pg, answers[..i + 1]) ==
      Score(pg, answers[..i]) + (if answers[i] == pg[i].kunci then 100.0 / |pg| as real else 0.0)
  {
    assert answers[..i + 1][..i] == answers[..i];
    ShareFacts(Matches(pg, answers[..i]), |pg|);
  }

  /**
   * The scoring loop: answer `i` earns `100 / len(pg)` when it equals the key
   * of `pg[i]`. An answer beyond the last question raises `IndexError`.
   */
  method Grade(pg: seq<PgQuestion>, answers: seq<string>) returns (out: GradeOutcome)
    ensures out.IndexError? <==> |answers| > |pg|
    ensures out.IndexError? ==> out.index == |pg|
    ensures out.Graded? ==> out.skor == Score(pg, answers)
  {
    var skor: real := 0.0;
    var i := 0;
    while i < |answers|
      invariant 0 <= i <= |answers| && i <= |pg|
      invariant skor == Score(pg, answers[..i])
    {
      if i >= |pg| {
        return IndexError(i);
      }
      ScoreStep(pg, answers, i);
      if answers[i] == pg[i].kunci {
        skor := skor + (if |pg| > 0 then 100.0 / |pg| as real else 0.0);
      }
      i := i + 1;
    }
    assert answers[..i] == answers;
    out := Graded(skor);
  }

  /** The score lies between 0 and 100. */
  lemma ScoreBounds(pg: seq<PgQuestion>, answers: seq<string>)
    requires |answers| <= |pg|
    ensures 0.0 <= Score(pg, answers) <= 100.0
  {
    if |pg| > 0 {
      MatchesAtMostAnswers(pg, answers);
      ShareFacts(Matches(pg, answers), |pg|);
    }
  }

  /** No matching answer exactly when no answer equals the key at its position. */
  lemma {:induction false} MatchesZero(pg: seq<PgQuestion>, answers: seq<string>)
    requires |answers| <= |pg|
    ensures Matches(pg, answers) == 0 <==> forall i :: 0 <= i < |answers| ==> answers[i] != pg[i].kunci
  {
    if answers != [] {
      var i := |answers| - 1;
      MatchesZero(pg, answers[..i]);
      assert forall k :: 0 <= k < i ==> answers[..i][k] == answers[k];
    }
  }

  /** Every answer matches exactly when the match count is the number of answers. */
  lemma {:induction false} MatchesAll(pg: seq<PgQuestion>, answers: seq<string>)
    requires |answers| <= |pg|
    ensures Matches(pg, answers) == |answers| <==> forall i :: 0 <= i < |answers| ==> answers[i] == pg[i].kunci
  {
    if answers != [] {
      var i := |answers| - 1;
      MatchesAll(pg, answers[..i]);
      MatchesAtMostAnswers(pg, answers[..i]);
      assert forall k :: 0 <= k < i ==> answers[..i][k] == answers[k];
    }
  }

  /** The score is 0 exactly when no answer matches. */
  lemma ScoreZero(pg: seq<PgQuestion>, answers: seq<string>)
    requires |answers| <= |pg|
    ensures Score(pg, answers) == 0.0 <==> forall i :: 0 <= i < |answers| ==> answers[i] != pg[i].kunci
  {
    MatchesZero(pg, answers);
    if |pg| > 0 {
      ShareFacts(Matches(pg, answers), |pg|);
    }
  }

  /** The score is 100 exactly when every question is answered and every answer matches. */
  lemma ScoreFull(pg: seq<PgQuestion>, answers: seq<string>)
    requires |answers| <= |pg|
    ensures Score(pg, answers) == 100.0 <==>
      |pg| > 0 && |answers| == |pg| && forall i :: 0 <= i < |answers| ==> answers[i] == pg[i].kunci
  {
    if |pg| > 0 {
      MatchesAll(pg, answers);
      MatchesAtMostAnswers(pg, answers);
      ShareFacts(Matches(pg, answers), |pg|);
    }
  }

  /**
   * Answers are compared exactly, without changing case: against keys with no
   * lower-case letter (as the upload stores them), an answer holding a
   * lower-case letter never scores.
   */
  lemma LowerCaseAnswerNeverMatches(pg: seq<PgQuestion>, answers: seq<string>, i: nat)
    requires |answers| <= |pg| && i < |answers|
    requires NoLowerAscii(pg[i].kunci)
    requires exists k :: 0 <= k < |answers[i]| && IsLowerAscii(answers[i][k])
    ensures answers[i] != pg[i].kunci
    ensures Score(pg, answers[..i + 1]) == Score(pg, answers[..i])
  {
    ScoreStep(pg, answers, i);
  }

  // The submission record.

  /** The keywords the submit handler passes to the `JawabanSiswa` constructor, as written and in order. */
  const SubmitKeywordsAsWritten: seq<string> :=
    ["siswa_id", "ujian_id", "jawaban_pg", "jawaban_essay", "nilai_pg", "total_nilai", "waktu_selesai"]

  /** The same keywords with the submission time passed under the column's own name. */
  const SubmitKeywords: seq<string> :=
    ["siswa_id", "ujian_id", "jawaban_pg", "jawaban_essay", "nilai_pg", "total_nilai", "waktu_submit"]

  datatype Construction = Built(record: JawabanSiswa) | InvalidKeyword(name: string)

  /** The index of the first keyword that names no attribute of the row class, or `|keywords|` when there is none. */
  function FirstUnknown(keywords: seq<string>): (i: nat)
    ensures i <= |keywords|
    ensures forall k :: 0 <= k < i ==> keywords[k] in JawabanSiswaAttributes
    ensures i < |keywords| ==> keywords[i] !in JawabanSiswaAttributes
  {
    if keywords == [] || keywords[0] !in JawabanSiswaAttributes then 0
    else 1 + FirstUnknown(keywords[1..])
  }

  /**
   * The ORM's default constructor: it walks the keywords in order and raises on
   * the first one that is not an attribute of the row class. Otherwise it builds
   * the row. The score columns `nilai_pg` and `total_nilai` take the score when
   * named and their default 0 when not, and `nilai_essay` is never named here,
   * so it keeps its default 0. The other columns take their values from the
   * arguments.
   */
  function ConstructJawabanSiswa(keywords: seq<string>, siswaId: int, ujianId: int, answers: seq<string>,
                                 form: map<string, string>, skor: real, submitted: int): (c: Construction)
    ensures c.InvalidKeyword? <==> exists k :: 0 <= k < |keywords| && keywords[k] !in JawabanSiswaAttributes
    ensures c.InvalidKeyword? ==>
      c.name !in JawabanSiswaAttributes &&
      exists i :: 0 <= i < |keywords| && keywords[i] == c.name
        && forall k :: 0 <= k < i ==> keywords[k] in JawabanSiswaAttributes
    ensures c.Built? ==>
      c.record.nilaiEssay == 0.0
      && ("nilai_pg" in keywords ==> c.record.nilaiPg == skor)
      && ("nilai_pg" !in keywords ==> c.record.nilaiPg == 0.0)
      && ("total_nilai" in keywords ==> c.record.totalNilai == skor)
      && ("total_nilai" !in keywords ==> c.record.totalNilai == 0.0)
      && c.record.siswaId == siswaId && c.record.ujianId == ujianId
      && c.record.jawabanPg == answers && c.record.jawabanEssay == form
      && c.record.waktuSubmit == submitted
  {
    var i := FirstUnknown(keywords);
    if i < |keywords| then InvalidKeyword(keywords[i])
    else
      var nilaiPg := if "nilai_pg" in keywords then skor else 0.0;
      var totalNilai := if "total_nilai" in keywords then skor else 0.0;
      Built(JawabanSiswa(siswaId, ujianId, answers, form, nilaiPg, 0.0, totalNilai, submitted))
  }

  /** The record built exactly as the handler is written: it never gets built. */
  function SubmitRecordAsWritten(siswaId: int, ujianId: int, answers: seq<string>,
                                 form: map<string, string>, skor: real, now: int): Construction
  {
    ConstructJawabanSiswa(SubmitKeywordsAsWritten, siswaId, ujianId, answers, form, skor, now)
  }

  /** As written, every submission is refused over the keyword `waktu_selesai`. */
  lemma SubmitAsWrittenAlwaysRaises(siswaId: int, ujianId: int, answers: seq<string>,
                                    form: map<string, string>, skor: real, now: int)
    ensures SubmitRecordAsWritten(siswaId, ujianId, answers, form, skor, now) ==
      InvalidKeyword("waktu_selesai")
  {
    assert "waktu_selesai" !in JawabanSiswaAttributes;
    assert FirstUnknown(SubmitKeywordsAsWritten) == 6;
  }

  /**
   * The record with the submission time under `waktu_submit`: it is built, with
   * the same score as both the multiple-choice mark and the total, and the essay
   * mark at 0.
   */
  function SubmitRecord(siswaId: int, ujianId: int, answers: seq<string>,
                        form: map<string, string>, skor: real, now: int): (r: JawabanSiswa)
    ensures r.nilaiPg == skor && r.totalNilai == r.nilaiPg && r.nilaiEssay == 0.0
    ensures r.siswaId == siswaId && r.ujianId == ujianId && r.jawabanPg == answers
    ensures r.jawabanEssay == form && r.waktuSubmit == now
  {
    assert FirstUnknown(SubmitKeywords) == |SubmitKeywords|;
    assert SubmitKeywords[4] == "nilai_pg" && SubmitKeywords[5] == "total_nilai";
    var c := ConstructJawabanSiswa(SubmitKeywords, siswaId, ujianId, answers, form, skor, now);
    c.record
  }

  // The handler.

  /** A GET request, or a POST carrying the list of answers and the whole form. */
  datatype Request = Get | Post(jawabanPg: seq<string>, form: map<string, string>)

  datatype Response =
    | OutsideWindow
    | ExamPage(pg: seq<PgQuestion>, essay: seq<EssayQuestion>)
    | Submitted(record: JawabanSiswa)
    | AnswerIndexError

  /**
   * The exam handler: outside the window it only redirects; inside it shuffles
   * the multiple-choice list and then either shows the page (GET) or grades the
   * answers against the shuffled list and builds the submission (POST).
   */
  method ServeUjian(ujian: Ujian, ujianId: int, siswaId: int, now: int, req: Request, draws: seq<nat>)
    returns (resp: Response)
    requires ValidDraws(draws, |ujian.soalPg|)
    ensures !InWindow(ujian, now) <==> resp == OutsideWindow
    ensures resp.ExamPage? <==> InWindow(ujian, now) && req.Get?
    ensures resp.ExamPage? ==>
      resp.pg == Shuffle(ujian.soalPg, draws) && multiset(resp.pg) == multiset(ujian.soalPg)
      && resp.essay == ujian.soalEssay
    ensures resp == AnswerIndexError <==>
      InWindow(ujian, now) && req.Post? && |req.jawabanPg| > |ujian.soalPg|
    ensures resp.Submitted? ==>
      req.Post? && |req.jawabanPg| <= |ujian.soalPg| &&
      resp.record == SubmitRecord(siswaId, ujianId, req.jawabanPg, req.form,
                                  Score(Shuffle(ujian.soalPg, draws), req.jawabanPg), now)
  {
    if now < ujian.waktuMulai || now > ujian.waktuSelesai {
      return OutsideWindow;
    }
    var stored := ujian.soalPg;
    var a := new PgQuestion[|stored|](k requires 0 <= k < |stored| => stored[k]);
    assert a[..] == stored;
    ShuffleInPlace(a, draws);
    var pg := a[..];
    ShuffleIsPermutation(stored, draws);
    match req {
      case Get =>
        resp := ExamPage(pg, ujian.soalEssay);
      case Post(answers, form) =>
        var graded := Grade(pg, answers);
        if graded.IndexError? {
          return AnswerIndexError;
        }
        resp := Submitted(SubmitRecord(siswaId, ujianId, answers, form, graded.skor, now));
    }
  }

  /** A stored submission carries one score as both marks, between 0 and 100, and no essay mark. */
  lemma SubmittedRecordMarks(ujian: Ujian, ujianId: int, siswaId: int, now: int, answers: seq<string>,
                             form: map<string, string>, draws: seq<nat>)
    requires ValidDraws(draws, |ujian.soalPg|) && |answers| <= |ujian.soalPg|
    ensures var r := SubmitRecord(siswaId, ujianId, answers, form, Score(Shuffle(ujian.soalPg, draws), answers), now);
      r.nilaiPg == r.totalNilai && 0.0 <= r.nilaiPg <= 100.0 && r.nilaiEssay == 0.0
  {
    ShuffleIsPermutation(ujian.soalPg, draws);
    ScoreBounds(Shuffle(ujian.soalPg, draws), answers);
  }
}
