/**
 * The row scorer shared by both graders: walk row 1 from column 5 ("E") up to
 * the larger `max_column` of the two sheets, count the columns where both
 * cells are non-empty, and among those the columns whose values are equal.
 */
module Scoring {
  import opened Wrappers
  import opened Cells

  /** Sheet names the graders look up in the submission and in the reference workbook. */
  const StudentSheetName := "blank"
  const SolutionSheetName := "solution"

  /** The feedback for a submission without its named sheet (the same in both graders). */
  const StudentSheetMissing := "Error: Worksheet '" + StudentSheetName + "' not found in your submission."

  /** The feedback for an exception raised while opening or reading a workbook. */
  function ReadFailure(reason: string): string
  {
    "Error grading your submission: " + reason
  }

  /** Columns 1 to 4 (A to D) hold identifying data; answers start at column E. */
  const FirstAnswerColumn: nat := 5

  /** `matches` and `total_cells` as the scan leaves them. */
  datatype Counts = Counts(matches: nat, total: nat)

  /**
   * The feedback text: a fixed message, or the two-line summary
   * "Your score: <percent>%" / "You correctly matched <matches> out of <total> cells."
   */
  datatype Feedback = Message(text: string) | Summary(matches: nat, total: nat)

  /** Both workbooks opened and both named sheets present: the case in which the scan runs. */
  predicate SheetsPresent(student: WorkbookLoad, solution: WorkbookLoad)
  {
    student.Opened? && solution.Opened?
    && StudentSheetName in student.book && SolutionSheetName in solution.book
  }

  /** The last column the scan visits: `max(solution.max_column, student.max_column)`. */
  function LastColumn(student: Sheet, solution: Sheet): (last: nat)
    ensures last >= student.maxColumn && last >= solution.maxColumn
    ensures last == student.maxColumn || last == solution.maxColumn
  {
    if solution.maxColumn >= student.maxColumn then solution.maxColumn else student.maxColumn
  }

  /** How many answer columns lie in 5..last. */
  function AnswerColumns(last: nat): nat
  {
    if last < FirstAnswerColumn then 0 else last - FirstAnswerColumn + 1
  }

  /** Column `col` counts toward `total_cells`: neither cell is empty. */
  predicate Comparable(student: Sheet, solution: Sheet, col: nat)
  {
    Cell(student, col).Some? && Cell(solution, col).Some?
  }

  /** Column `col` counts toward `matches`: both cells non-empty and equal under `==`. */
  predicate Matching(student: Sheet, solution: Sheet, col: nat)
  {
    Comparable(student, solution, col) && PyEq(Cell(student, col).value, Cell(solution, col).value)
  }

  /** The counters after the scan has visited columns 5..last, one column at a time. */
  function Tally(student: Sheet, solution: Sheet, last: nat): (c: Counts)
    ensures c.matches <= c.total <= AnswerColumns(last)
    decreases last
  {
    if last < FirstAnswerColumn then Counts(0, 0)
    else
      var before := Tally(student, solution, last - 1);
      if !Comparable(student, solution, last) then before
      else if Matching(student, solution, last) then Counts(before.matches + 1, before.total + 1)
      else Counts(before.matches, before.total + 1)
  }

  /** The counters after the whole scan. */
  function RowCounts(student: Sheet, solution: Sheet): Counts
  {
    Tally(student, solution, LastColumn(student, solution))
  }

  /** Reference definition: the answer columns up to `last` where both cells are non-empty. */
  function ComparableColumns(student: Sheet, solution: Sheet, last: nat): set<nat>
  {
    set col: nat | FirstAnswerColumn <= col <= last && Comparable(student, solution, col)
  }

  /** Reference definition: the answer columns up to `last` whose two values are equal. */
  function MatchingColumns(student: Sheet, solution: Sheet, last: nat): set<nat>
  {
    set col: nat | FirstAnswerColumn <= col <= last && Matching(student, solution, col)
  }

  /** Extending the scan by one column adds that column to the comparable set when it is comparable. */
  lemma ComparableColumnsStep(student: Sheet, solution: Sheet, last: nat)
    requires last >= FirstAnswerColumn
    ensures last !in ComparableColumns(student, solution, last - 1)
    ensures ComparableColumns(student, solution, last) ==
            ComparableColumns(student, solution, last - 1) + (if Comparable(student, solution, last) then {last} else {})
  {
  }

  /** Extending the scan by one column adds that column to the matching set when it matches. */
  lemma MatchingColumnsStep(student: Sheet, solution: Sheet, last: nat)
    requires last >= FirstAnswerColumn
    ensures last !in MatchingColumns(student, solution, last - 1)
    ensures MatchingColumns(student, solution, last) ==
            MatchingColumns(student, solution, last - 1) + (if Matching(student, solution, last) then {last} else {})
  {
  }

  /**
   * The scan counts exactly the comparable columns and, among them, exactly
   * the matching ones.
   */
  lemma {:induction false} TallyCountsColumns(student: Sheet, solution: Sheet, last: nat)
    ensures Tally(student, solution, last).total == |ComparableColumns(student, solution, last)|
    ensures Tally(student, solution, last).matches == |MatchingColumns(student, solution, last)|
    ensures MatchingColumns(student, solution, last) <= ComparableColumns(student, solution, last)
    decreases last
  {
    if last < FirstAnswerColumn {
      assert ComparableColumns(student, solution, last) == {};
      assert MatchingColumns(student, solution, last) == {};
    } else {
      TallyCountsColumns(student, solution, last - 1);
      ComparableColumnsStep(student, solution, last);
      MatchingColumnsStep(student, solution, last);
    }
  }

  /** Columns beyond both sheets' `max_column` are empty, so scanning further changes nothing. */
  lemma {:induction false} TallyBeyondLastColumn(student: Sheet, solution: Sheet, last: nat)
    requires last >= LastColumn(student, solution)
    ensures Tally(student, solution, last) == RowCounts(student, solution)
    decreases last
  {
    if last > LastColumn(student, solution) {
      assert !Comparable(student, solution, last);
      TallyBeyondLastColumn(student, solution, last - 1);
    }
  }

  /** Two scans whose columns 5..last count alike give the same counters. */
  lemma {:induction false} TallyCongruent(s1: Sheet, t1: Sheet, s2: Sheet, t2: Sheet, last: nat)
    requires forall col: nat :: FirstAnswerColumn <= col <= last ==>
      (Comparable(s1, t1, col) <==> Comparable(s2, t2, col)) && (Matching(s1, t1, col) <==> Matching(s2, t2, col))
    ensures Tally(s1, t1, last) == Tally(s2, t2, last)
    decreases last
  {
    if last >= FirstAnswerColumn {
      TallyCongruent(s1, t1, s2, t2, last - 1);
    }
  }

  /** The result of the scan depends only on what the two sheets hold in column 5 and beyond. */
  lemma LeadingColumnsIgnored(s1: Sheet, t1: Sheet, s2: Sheet, t2: Sheet)
    requires forall col: nat :: col >= FirstAnswerColumn ==> Cell(s1, col) == Cell(s2, col)
    requires forall col: nat :: col >= FirstAnswerColumn ==> Cell(t1, col) == Cell(t2, col)
    ensures RowCounts(s1, t1) == RowCounts(s2, t2)
  {
    var last := if LastColumn(s1, t1) >= LastColumn(s2, t2) then LastColumn(s1, t1) else LastColumn(s2, t2);
    TallyBeyondLastColumn(s1, t1, last);
    TallyBeyondLastColumn(s2, t2, last);
    TallyCongruent(s1, t1, s2, t2, last);
  }

  /**
   * A column where the submission cell is empty counts for nothing: whatever the
   * reference holds there, the counters are the same.
   */
  lemma EmptyStudentCellIgnored(student: Sheet, t1: Sheet, t2: Sheet, col: nat)
    requires Cell(student, col).None?
    requires forall other: nat :: other != col ==> Cell(t1, other) == Cell(t2, other)
    ensures RowCounts(student, t1) == RowCounts(student, t2)
  {
    var last := if LastColumn(student, t1) >= LastColumn(student, t2) then LastColumn(student, t1) else LastColumn(student, t2);
    TallyBeyondLastColumn(student, t1, last);
    TallyBeyondLastColumn(student, t2, last);
    TallyCongruent(student, t1, student, t2, last);
  }

  /**
   * A column where the reference cell is empty counts for nothing: whatever the
   * submission holds there, the counters are the same.
   */
  lemma EmptySolutionCellIgnored(s1: Sheet, s2: Sheet, solution: Sheet, col: nat)
    requires Cell(solution, col).None?
    requires forall other: nat :: other != col ==> Cell(s1, other) == Cell(s2, other)
    ensures RowCounts(s1, solution) == RowCounts(s2, solution)
  {
    var last := if LastColumn(s1, solution) >= LastColumn(s2, solution) then LastColumn(s1, solution) else LastColumn(s2, solution);
    TallyBeyondLastColumn(s1, solution, last);
    TallyBeyondLastColumn(s2, solution, last);
    TallyCongruent(s1, solution, s2, solution, last);
  }

  /**
   * The column scan: `matches` and `total_cells` start at 0 and each column
   * 5..max_col adds to them only when both cells are non-empty.
   */
  method CountRow(student: Sheet, solution: Sheet) returns (matches: nat, total: nat)
    ensures Counts(matches, total) == RowCounts(student, solution)
    ensures total == |ComparableColumns(student, solution, LastColumn(student, solution))|
    ensures matches == |MatchingColumns(student, solution, LastColumn(student, solution))|
    ensures matches <= total <= AnswerColumns(LastColumn(student, solution))
  {
    matches, total := 0, 0;
    var maxCol := LastColumn(student, solution);
    var col := FirstAnswerColumn;
    while col <= maxCol
      invariant FirstAnswerColumn <= col
      invariant col <= maxCol + 1 || col == FirstAnswerColumn
      invariant Counts(matches, total) == Tally(student, solution, col - 1)
    {
      var studentCell, solutionCell := Cell(student, col), Cell(solution, col);
      if studentCell.Some? && solutionCell.Some? {
        total := total + 1;
        if PyEq(studentCell.value, solutionCell.value) {
          matches := matches + 1;
        }
      }
      col := col + 1;
    }
    TallyCountsColumns(student, solution, maxCol);
  }

  /** A reference with nothing from column E on gives no comparable column, so the score is 0 and nothing divides by 0. */
  lemma EmptyReferenceScoresZero(student: Sheet, solution: Sheet)
    requires forall col :: col in solution.row1 ==> col < FirstAnswerColumn
    ensures RowCounts(student, solution) == Counts(0, 0)
    ensures ScoreOf(RowCounts(student, solution).matches, RowCounts(student, solution).total) == 0.0
  {
    var last := LastColumn(student, solution);
    TallyCountsColumns(student, solution, last);
    assert ComparableColumns(student, solution, last) == {};
  }

  /** Reference Y N Y Y against submission Y N N Y in columns E to H: 3 of 4 cells match. */
  lemma YesNoRowExample()
    ensures var solution: Sheet := SheetData(8, map[5 := Text("Y"), 6 := Text("N"), 7 := Text("Y"), 8 := Text("Y")]);
            var student: Sheet := SheetData(8, map[5 := Text("Y"), 6 := Text("N"), 7 := Text("N"), 8 := Text("Y")]);
            RowCounts(student, solution) == Counts(3, 4) && ScoreOf(3, 4) == 0.75
  {
    var solution: Sheet := SheetData(8, map[5 := Text("Y"), 6 := Text("N"), 7 := Text("Y"), 8 := Text("Y")]);
    var student: Sheet := SheetData(8, map[5 := Text("Y"), 6 := Text("N"), 7 := Text("N"), 8 := Text("Y")]);
    assert Tally(student, solution, 4) == Counts(0, 0);
    assert Matching(student, solution, 5) && Matching(student, solution, 6);
    assert Comparable(student, solution, 7) && !Matching(student, solution, 7);
    assert Matching(student, solution, 8);
    assert Tally(student, solution, 5) == Counts(1, 1);
    assert Tally(student, solution, 6) == Counts(2, 2);
    assert Tally(student, solution, 7) == Counts(2, 3);
  }

  /** `matches / total_cells`, or 0 when no column was comparable: a fraction in [0, 1]. */
  function ScoreOf(matches: nat, total: nat): (score: real)
    ensures total == 0 ==> score == 0.0
    ensures total > 0 ==> score * (total as real) == matches as real
    ensures matches <= total ==> 0.0 <= score <= 1.0
  {
    if total > 0 then matches as real / total as real else 0.0
  }
}
