/** The student record: one row of the marks table after extraction. */
module Students {
  import opened Chars

  /** The three literal status tokens `Pass`, `Fail` and `IC` (incomplete). */
  datatype Status = Pass | Fail | IC

  function StatusText(st: Status): string {
    match st
    case Pass => "Pass"
    case Fail => "Fail"
    case IC => "IC"
  }

  /**
    A record as appended to the table: the normalised registration number,
    the CA mark as a number, the grade token and the status.
   */
  datatype Record = Record(regNo: string, caMarksPercent: real, grade: string, status: Status)

  /** A normalised registration number: `IT` followed by exactly eight digits. */
  predicate IsRegNo(id: string) {
    |id| == 10 && id[..2] == "IT" && AllDigits(id[2..])
  }
}
