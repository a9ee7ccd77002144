# CBT_Sekolah exam engine, modelled in Dafny

CBT_Sekolah is a school computer-based-testing web application. This project
models the two parts of it that hold real logic. Both sit inside request
handlers:

- **Question-sheet upload** (`upload_soal`, `routes/guru_routes.py`). A
  teacher submits a title, two date-times and a spreadsheet. The handler
  rejects the request when a required field is empty. It then walks the sheet's
  rows in order. A row whose `tipe`, stripped and lower-cased, is `"pg"`
  becomes a multiple-choice record: `soal`, options `a` to `d`, and the
  upper-cased `kunci`. A row whose type is `"essay"` becomes an essay record:
  `soal` and `bobot = int(row['bobot'])`. Every other row is dropped. The exam
  is created with a fixed 60-minute duration.
- **Taking an exam** (`ujian`, `routes/siswa_routes.py`). Outside the window
  `waktu_mulai <= now <= waktu_selesai` the handler only redirects. Inside it,
  the multiple-choice list is shuffled in place, and the essay list is left as
  stored. On submit, answer `i` earns `100 / len(pg)` when it is exactly equal
  to `pg[i]['kunci']`. The score is written to both `nilai_pg` and
  `total_nilai`.

Files:

- `wrappers.dfy`: `Option`.
- `text.dfy`: the Python string methods the handlers call (`strip`, `lower`,
  `upper`) and their properties.
- `models.dfy`: record shapes taken from `models.py` (`Ujian`, `JawabanSiswa`,
  and the question records stored as JSON).
- `question_sheet.dfy`: the upload. `ClassifyRows` is the row loop, proved
  against the list functions `PgList` and `EssayList`. `UploadSoal` is the
  handler's POST branch.
- `exam_session.dfy`: the exam page. It has the time window, `random.shuffle`
  as an in-place Fisher–Yates pass over an array (`ShuffleInPlace`), the
  scoring loop (`Grade`, proved against the closed form `Score`), the
  submission record, and the handler `ServeUjian`.

Modelling choices:

- Time is an integer, and the clock reading `now` is an input.
- `datetime.strptime` is the function parameter `parseTime`. It returns `None`
  where Python raises.
- `random.shuffle` is modelled as CPython's algorithm. For `i` from
  `len - 1` down to 1 it swaps `x[i]` with `x[j]`, where `j` is drawn from
  `0..i`. The draws are an input: `draws[i]` is the draw made at index `i`.
- Sheet cells are their `str()` text. The weight cell is either a number or
  blank (NaN). Python's `int()` truncates a number toward zero and raises on
  NaN. That exception aborts the upload, so it is modelled as the `BadWeight`
  outcome.
- Scores are exact reals.

## Model

| member | source | states |
|---|---|---|
| `QuestionSheet.UploadSoal` | CBT_Sekolah/routes/guru_routes.py:35-83 | A request without one of the keys `judul`, `waktu_mulai`, `waktu_selesai` or `excel` gets `BadRequest` (the 400 the key lookup raises), before any other check. A request with all four is rejected with `MissingField` exactly when the stripped title, either date-time field or the file name is empty. A bad date-time gives `BadTimeFormat`, and a blank essay weight gives `BadWeight` at the first essay row whose weight is blank. Otherwise the exam is created with the stripped, non-empty title, the parsed times, duration 60, and the two lists the sheet defines. |
| `QuestionSheet.BlankTitleRejected` | CBT_Sekolah/routes/guru_routes.py:36-43 | A whitespace-only title counts as missing, so no exam is created. |
| `QuestionSheet.ClassifyRows` | CBT_Sekolah/routes/guru_routes.py:53-69 | The row loop gives exactly `PgList(rows)` and `EssayList(rows)`. If some essay row has a blank weight, it stops at the first such row. |
| `QuestionSheet.TruncToZero` | CBT_Sekolah/routes/guru_routes.py:68 | `int()` of a weight drops the fraction toward zero: the result lies within 1 of the input, on its side of zero. |
| `QuestionSheet.PgListAppend` | CBT_Sekolah/routes/guru_routes.py:56-64 | The multiple-choice list of a concatenation is the concatenation of the lists. Order is kept and each row contributes independently. |
| `QuestionSheet.EssayListAppend` | CBT_Sekolah/routes/guru_routes.py:56-69 | The same holds for the essay list. |
| `QuestionSheet.PgRowPosition` | CBT_Sekolah/routes/guru_routes.py:56-64 | The multiple-choice row at index `j` sits in the list at the position equal to the number of multiple-choice rows before it. Its record is `soal` and `a`-`d` copied, with `kunci` upper-cased. |
| `QuestionSheet.EssayRowPosition` | CBT_Sekolah/routes/guru_routes.py:65-69 | The essay row at index `j` sits in the essay list at the position equal to the number of essay rows before it. Its record is its `soal` and `bobot = int(row['bobot'])`. |
| `QuestionSheet.EssayListFromEssayRows` | CBT_Sekolah/routes/guru_routes.py:65-69 | Every essay record comes from a row whose normalised type is `"essay"`, with that row's `soal` and truncated weight. |
| `QuestionSheet.ListLengths` | CBT_Sekolah/routes/guru_routes.py:56-69 | The multiple-choice list has one record per `"pg"` row and the essay list one per `"essay"` row. |
| `QuestionSheet.PgListFromPgRows` | CBT_Sekolah/routes/guru_routes.py:57-64 | Every multiple-choice record comes from a row whose normalised type is `"pg"`. |
| `QuestionSheet.PgKeysUpperCase` | CBT_Sekolah/routes/guru_routes.py:63 | Every stored answer key has no lower-case ASCII letter. |
| `QuestionSheet.ListsHoldKeptRows` | CBT_Sekolah/routes/guru_routes.py:56-69 | The two lists together hold one record per row of type `"pg"` or `"essay"`. |
| `QuestionSheet.AllRowsKept` | CBT_Sekolah/routes/guru_routes.py:56-69 | Every row is kept exactly when every row has type `"pg"` or `"essay"`. |
| `QuestionSheet.PartitionSize` | CBT_Sekolah/routes/guru_routes.py:56-69 | `len(pg) + len(essay) <= len(rows)`. Equality holds exactly when every row is `"pg"` or `"essay"`. |
| `QuestionSheet.PgTypeExactly` | CBT_Sekolah/routes/guru_routes.py:57-58 | A row goes to the multiple-choice list exactly when its stripped type is `p` then `g`, each in either case. |
| `QuestionSheet.EssayTypeExactly` | CBT_Sekolah/routes/guru_routes.py:57-65 | A row goes to the essay list exactly when its stripped type spells `essay` in any mix of cases. |
| `QuestionSheet.TypeExamples` | CBT_Sekolah/routes/guru_routes.py:57-65 | `" PG "` is a multiple-choice type and `"Essay"` is an essay type. |
| `Text.StripSpec` | CBT_Sekolah/routes/guru_routes.py:36 | `strip()` gives the empty string exactly when its input is all whitespace. Otherwise the result neither starts nor ends with whitespace. |
| `Text.StripIdempotent` | CBT_Sekolah/routes/guru_routes.py:36 | Stripping a stripped title changes nothing. |
| `Text.LowerAt` | CBT_Sekolah/routes/guru_routes.py:57 | `lower()` maps each character on its own and leaves no upper-case ASCII letter. |
| `Text.LowerEqualsWord` | CBT_Sekolah/routes/guru_routes.py:57-58 | `lower()` gives a lower-case word exactly when its input spells that word in any mix of cases. |
| `Text.UpperHasNoLower` | CBT_Sekolah/routes/guru_routes.py:63 | `upper()` leaves no lower-case ASCII letter. |
| `ExamSession.ServeUjian` | CBT_Sekolah/routes/siswa_routes.py:17-52 | Outside the window the response is the redirect and nothing else; inside it never is. A GET shows the shuffled multiple-choice list, which is a permutation of the stored one, next to the unchanged essay list. A POST with more answers than questions fails on the index. Any other POST stores the record scored against that request's own shuffle. |
| `ExamSession.ShuffleInPlace` | CBT_Sekolah/routes/siswa_routes.py:29 | The in-place shuffle leaves the array in the order `Shuffle` gives and with the same multiset of questions. |
| `ExamSession.ShuffleSteps` | CBT_Sekolah/routes/siswa_routes.py:29 | Each run of swap steps keeps the length and the multiset of elements. |
| `ExamSession.ShuffleIsPermutation` | CBT_Sekolah/routes/siswa_routes.py:27-29 | The shuffled list has the same length, multiset and members as the stored one. |
| `ExamSession.Swap` | CBT_Sekolah/routes/siswa_routes.py:29 | One swap exchanges the two positions, keeps every other position, and keeps the multiset. |
| `ExamSession.Grade` | CBT_Sekolah/routes/siswa_routes.py:32-36 | The loop raises `IndexError` exactly when there are more answers than questions. Otherwise it gives exactly `Score` = matches × 100 / `len(pg)`, or 0 when there are no questions. |
| `ExamSession.ScoreStep` | CBT_Sekolah/routes/siswa_routes.py:34-36 | Each answer adds either 0 or `100 / len(pg)`, and adds the latter exactly when it equals the key at its position. |
| `ExamSession.MatchesAtMostAnswers` | CBT_Sekolah/routes/siswa_routes.py:34-35 | There are never more matches than answers. |
| `ExamSession.ScoreBounds` | CBT_Sekolah/routes/siswa_routes.py:33-36 | `0 <= score <= 100` whenever there are no more answers than questions. |
| `ExamSession.MatchesZero` | CBT_Sekolah/routes/siswa_routes.py:34-35 | There are no matches exactly when no answer equals the key at its position. |
| `ExamSession.MatchesAll` | CBT_Sekolah/routes/siswa_routes.py:34-35 | Every answer matches exactly when the match count equals the number of answers. |
| `ExamSession.ScoreZero` | CBT_Sekolah/routes/siswa_routes.py:33-36 | The score is 0 exactly when no answer matches. |
| `ExamSession.ScoreFull` | CBT_Sekolah/routes/siswa_routes.py:33-36 | The score is 100 exactly when there is at least one question, every question is answered and every answer matches. An exam with no questions scores 0. |
| `ExamSession.ShareFacts` | CBT_Sekolah/routes/siswa_routes.py:36 | For `100 * m / n`: one more match adds `100 / n`, the value is 0 only at `m = 0`, at most 100 when `m <= n`, and 100 only at `m = n`. |
| `ExamSession.LowerCaseAnswerNeverMatches` | CBT_Sekolah/routes/siswa_routes.py:35 | Answers are compared without case folding. An answer with a lower-case letter never matches an upper-cased key and adds nothing. |
| `ExamSession.ConstructJawabanSiswa` | CBT_Sekolah/models.py:55-70 | The row constructor fails exactly when some keyword names neither a column nor a relationship of `JawabanSiswa`. It reports the first such keyword in call order. Otherwise it builds the row: `nilai_pg` and `total_nilai` hold the score when named and their default 0 when not, and `nilai_essay` keeps its default 0. |
| `ExamSession.FirstUnknown` | CBT_Sekolah/models.py:55-70 | Finds the first keyword that is neither a column nor a relationship: every keyword before it is one. |
| `ExamSession.SubmitAsWrittenAlwaysRaises` | CBT_Sekolah/routes/siswa_routes.py:38-46 | As written, building the submission always fails on the keyword `waktu_selesai`. |
| `ExamSession.SubmitRecord` | CBT_Sekolah/routes/siswa_routes.py:38-46 | The submission record has `nilai_pg == total_nilai ==` the score and `nilai_essay` at its default 0. The answers, the whole form, the student, the exam and the time are stored as given. |
| `ExamSession.SubmittedRecordMarks` | CBT_Sekolah/routes/siswa_routes.py:43-44 | A stored submission has equal marks between 0 and 100 and no essay mark. |

## Findings

| source | as written | input that shows it | evidently intended | confidence | as-written member | corrected member |
|---|---|---|---|---|---|---|
| CBT_Sekolah/routes/siswa_routes.py:45 | `JawabanSiswa(..., waktu_selesai=datetime.now())`. `JawabanSiswa` has no attribute `waktu_selesai` (models.py:55-70), so the ORM's default constructor raises `TypeError`. | Any POST inside the exam window with no more answers than questions. | Pass the time as `waktu_submit`, the column at models.py:66, so that the record is stored. | high, not executed | `ExamSession.SubmitAsWrittenAlwaysRaises` | `ExamSession.SubmitRecord` |

`ServeUjian` uses the corrected record.

## Left out

- Login, role checks, ownership checks and `get_or_404` (guru_routes.py:27-33, siswa_routes.py:20-21) are session and database glue.
- `ExamSession.ConstructJawabanSiswa`: the accepted names are the columns and relationships only. The ORM also accepts other class-level names (`query`, `metadata`, `registry`, `__table__`); those are not modelled. The handler passes none of them. `nilai_essay` is never taken from a keyword: when named, the ORM stores the passed value; the model has no argument for it and keeps 0. The other columns (`siswa_id`, `ujian_id`, `jawaban_pg`, `jawaban_essay`, `waktu_submit`) take the argument values whether or not their keyword is named; an unnamed one would be NULL or its default in the ORM. The built record is therefore right only for keyword lists that name each of those columns, and it is built only from the handler's two lists, which do.
- Flash messages, redirects and template rendering are modelled only as outcome constructors.
- Storing the exam and the submission (`db.session.add`/`commit`) is left out. The JSON encoding of `soal_pg`, `soal_essay` and the answers is treated as exact: the lists are stored as they are.
- `QuestionSheet.UploadSoal`: a sheet missing a column the row loop reads (`tipe`, `soal`, `a`-`d`, `kunci`; `bobot` on an essay row) raises `KeyError` at the first row that reads it. Rows here always carry every column, so the model creates the exam where the handler fails.
- `pd.read_excel` is left out, and so are failures while reading the file. The sheet is an input sequence of rows. Text in the `bobot` column is not modelled: the cell is a number or blank.
- `Text.Lower`, `Text.Upper`: only ASCII letters change case. Python's full Unicode mapping also changes other letters and can change length (`'ß'.upper()` is `'SS'`). For the comparison with `"pg"` and `"essay"` this makes no difference. It does matter for keys with non-ASCII letters.
- `random.shuffle`'s generator is not modelled. The draws are an input, and no determinism or per-student reproducibility is claimed. The GET and the POST make separate draws, so grading uses a fresh order.
- `round(skor, 2)` and float accumulation are not modelled. The score is kept exact.
- The handler reads the clock twice. Both readings are the single input `now`.
- The `else 0` of `100 / len(pg) if pg else 0` is never reached. With no questions, any answer has already failed on `pg[i]`.
- No other exam behaviour is modelled, because the code has none: no duplicate-submission guard, no check that an exam's end follows its start, no answer lookup by question id, no reduction of the multiple-choice maximum by essay weights, no regrading, and no free-text question extractor.
- `admin_routes.py`, `app.py`, `config.py` and `static/js/script.js` are not part of this model. They hold CRUD, login, configuration and browser handlers.
