/**
 * The shapes of the stored records the two handlers read and write: an exam
 * (`Ujian`) with its question lists, and a student's submission
 * (`JawabanSiswa`). Date-times are integers on one clock; the JSON text columns
 * `soal_pg` and `soal_essay` are kept as the lists they encode.
 */
module Models {

  /** One multiple-choice question: prompt, options a to d, and the answer key. */
  datatype PgQuestion = PgQuestion(soal: string, a: string, b: string, c: string, d: string, kunci: string)

  /** One essay question: prompt and its weight. */
  datatype EssayQuestion = EssayQuestion(soal: string, bobot: int)

  /** An exam row. */
  datatype Ujian = Ujian(
    mapelId: int,
    judul: string,
    waktuMulai: int,
    waktuSelesai: int,
    durasiMenit: int,
    soalPg: seq<PgQuestion>,
    soalEssay: seq<EssayQuestion>)

  /** A submission row. `jawabanEssay` holds the whole submitted form. */
  datatype JawabanSiswa = JawabanSiswa(
    siswaId: int,
    ujianId: int,
    jawabanPg: seq<string>,
    jawabanEssay: map<string, string>,
    nilaiPg: real,
    nilaiEssay: real,
    totalNilai: real,
    waktuSubmit: int)

  /**
   * The columns of a `JawabanSiswa` row and its relationships `siswa` and
   * `ujian`: the attributes of the row class that the constructor's keywords
   * can name here. Other class-level names (`query`, `metadata` and the like)
   * are not listed.
   */
  const JawabanSiswaAttributes: set<string> := {
    "id", "siswa_id", "ujian_id", "jawaban_pg", "jawaban_essay",
    "nilai_pg", "nilai_essay", "total_nilai", "waktu_submit",
    "siswa", "ujian"
  }
}
