/**
 * The local grader's `grade_excel_worksheet`: open both workbooks, check the
 * two named sheets, scan row 1 and report `score`, `feedback`, and on success
 * also `matches` and `total_cells`.
 */
module Grader {
  import opened Wrappers
  import opened Cells
  import opened Scoring

  /** The result dictionary; a key the grading function does not set is `None`. */
  datatype ResultDict = ResultDict(
    score: Option<real>,
    feedback: Option<Feedback>,
    matches: Option<nat>,
    totalCells: Option<nat>)

  const SolutionSheetMissing := "Error: Solution worksheet not found."

  /** An error result: score 0 and a message, with neither `matches` nor `total_cells`. */
  function Failure(message: string): ResultDict
  {
    ResultDict(Some(0.0), Some(Message(message)), None, None)
  }

  /** A completed scan: the score, the summary, and both counters. */
  function Scored(c: Counts): ResultDict
  {
    ResultDict(Some(ScoreOf(c.matches, c.total)), Some(Summary(c.matches, c.total)), Some(c.matches), Some(c.total))
  }

  /**
   * Grades a submission against the reference. Both workbooks are opened before
   * either sheet is looked up, so a reference that cannot be read is reported
   * even when the submission lacks its sheet; of the two sheet checks the
   * submission's comes first.
   */
  method GradeWorksheet(student: WorkbookLoad, solution: WorkbookLoad) returns (r: ResultDict)
    ensures student.Unreadable? ==> r == Failure(ReadFailure(student.reason))
    ensures student.Opened? && solution.Unreadable? ==> r == Failure(ReadFailure(solution.reason))
    ensures student.Opened? && solution.Opened? && StudentSheetName !in student.book ==>
      r == Failure(StudentSheetMissing)
    ensures (student.Opened? && solution.Opened? && StudentSheetName in student.book &&
             SolutionSheetName !in solution.book) ==> r == Failure(SolutionSheetMissing)
    ensures SheetsPresent(student, solution) ==>
      r == Scored(RowCounts(student.book[StudentSheetName], solution.book[SolutionSheetName]))
    ensures r.matches.Some? <==> SheetsPresent(student, solution)
    ensures r.totalCells.Some? <==> SheetsPresent(student, solution)
    ensures r.matches.Some? ==> r.matches.value <= r.totalCells.value
    ensures r.score.Some? && r.feedback.Some?
    ensures 0.0 <= r.score.value <= 1.0
    ensures r.totalCells == Some(0) ==> r.score == Some(0.0)
  {
    if student.Unreadable? {
      return Failure(ReadFailure(student.reason));
    }
    if solution.Unreadable? {
      return Failure(ReadFailure(solution.reason));
    }
    if StudentSheetName !in student.book {
      return Failure(StudentSheetMissing);
    }
    if SolutionSheetName !in solution.book {
      return Failure(SolutionSheetMissing);
    }
    var studentSheet := student.book[StudentSheetName];
    var solutionSheet := solution.book[SolutionSheetName];
    var matches, total := CountRow(studentSheet, solutionSheet);
    r := Scored(Counts(matches, total));
  }
}
