/**
 * The platform autograder: a part-ID gate, the choice of the submitted
 * spreadsheet, staging it at a fixed path, and its own copy of the grading function,
 * whose result carries only `score` and `feedback`.
 */
module Autograder {
  import opened Wrappers
  import opened Cells
  import opened Scoring
  import opened Paths

  const SubmissionLocation := "/shared/submission"
  const SubmissionDestination := "/grader/submission.xlsx"
  const CourseraPartId := "Lg9eS"

  const SolutionSheetMissing := "Error: Internal error - Solution worksheet not found."
  const WrongPart := "Please verify that you have submitted to the proper part of the assignment."
  const WrongExtension :=
    "Your submission file does not have the right file extension. Please submit an Excel file (.xlsx, .xlsm)."
  const CopyFailed := "Error processing your submission file."
  const NoPartId := "Please provide the partId."

  /** A score and its feedback: the grading function's result, and what is posted as `fractionalScore` and `feedback`. */
  datatype Grade = Grade(score: real, feedback: Feedback)

  /**
   * This grader's copy of the scan. It behaves as the local grader does, except
   * that a missing reference sheet is reported as an internal error and the
   * counters are not returned.
   */
  method GradeWorksheet(student: WorkbookLoad, solution: WorkbookLoad) returns (r: Grade)
    ensures student.Unreadable? ==> r == Grade(0.0, Message(ReadFailure(student.reason)))
    ensures student.Opened? && solution.Unreadable? ==> r == Grade(0.0, Message(ReadFailure(solution.reason)))
    ensures student.Opened? && solution.Opened? && StudentSheetName !in student.book ==>
      r == Grade(0.0, Message(StudentSheetMissing))
    ensures (student.Opened? && solution.Opened? && StudentSheetName in student.book &&
             SolutionSheetName !in solution.book) ==> r == Grade(0.0, Message(SolutionSheetMissing))
    ensures SheetsPresent(student, solution) ==>
      var c := RowCounts(student.book[StudentSheetName], solution.book[SolutionSheetName]);
      r == Grade(ScoreOf(c.matches, c.total), Summary(c.matches, c.total))
    ensures 0.0 <= r.score <= 1.0
    ensures r.feedback.Summary? <==> SheetsPresent(student, solution)
  {
    if student.Unreadable? {
      return Grade(0.0, Message(ReadFailure(student.reason)));
    }
    if solution.Unreadable? {
      return Grade(0.0, Message(ReadFailure(solution.reason)));
    }
    if StudentSheetName !in student.book {
      return Grade(0.0, Message(StudentSheetMissing));
    }
    if SolutionSheetName !in solution.book {
      return Grade(0.0, Message(SolutionSheetMissing));
    }
    var matches, total := CountRow(student.book[StudentSheetName], solution.book[SolutionSheetName]);
    r := Grade(ScoreOf(matches, total), Summary(matches, total));
  }

  /** A submission missing its sheet and a reference missing its sheet are told apart. */
  lemma MissingSheetMessagesDistinct()
    ensures StudentSheetMissing != SolutionSheetMissing
  {
    assert StudentSheetMissing[..8] == "Error: W";
  }

  /** `Path(f).suffix.lower() in ['.xlsx', '.xlsm']`. */
  predicate IsAcceptedSuffix(name: string)
    ensures IsAcceptedSuffix(name) ==> |Suffix(name)| == 5 && |name| > 5
  {
    Lower(Suffix(name)) == Xlsx || Lower(Suffix(name)) == Xlsm
  }

  /**
   * The suffix test accepts exactly the names that pass the `endswith` test of
   * the other entry points and are longer than the extension itself.
   */
  lemma AcceptedSuffixIff(name: string)
    ensures IsAcceptedSuffix(name) <==> HasExcelExtension(name) && |name| > 5
  {
    if IsAcceptedSuffix(name) {
      var i := SuffixStart(name).value;
      LowerTail(name, i);
    }
    if HasExcelExtension(name) && |name| > 5 {
      SuffixOfExcelName(name);
      LowerTail(name, |name| - 5);
    }
  }

  /** A file named just ".xlsx" passes the `endswith` test but not the suffix test. */
  lemma BareExtensionRejected()
    ensures HasExcelExtension(Xlsx) && !IsAcceptedSuffix(Xlsx)
  {
    assert Lower(Xlsx) == Xlsx;
    AcceptedSuffixIff(Xlsx);
  }

  /** The first element of `s` that satisfies `accept`, in order. */
  function FirstWhere<T>(s: seq<T>, accept: T -> bool): (r: Option<T>)
    ensures r.Some? ==> r.value in s && accept(r.value)
  {
    if s == [] then None
    else if accept(s[0]) then Some(s[0])
    else FirstWhere(s[1..], accept)
  }

  /**
   * `FirstWhere` finds an element exactly when some element is accepted, and the
   * element it finds is accepted and preceded only by rejected elements.
   */
  lemma {:induction false} FirstWhereIsFirst<T>(s: seq<T>, accept: T -> bool)
    ensures FirstWhere(s, accept).None? <==> forall i :: 0 <= i < |s| ==> !accept(s[i])
    ensures FirstWhere(s, accept).Some? ==>
      exists i :: 0 <= i < |s| && s[i] == FirstWhere(s, accept).value && accept(s[i]) &&
                  forall j :: 0 <= j < i ==> !accept(s[j])
  {
    if s != [] && !accept(s[0]) {
      var rest := s[1..];
      FirstWhereIsFirst(rest, accept);
      if FirstWhere(rest, accept).Some? {
        var k :| 0 <= k < |rest| && rest[k] == FirstWhere(rest, accept).value && accept(rest[k]) &&
                 forall j :: 0 <= j < k ==> !accept(rest[j]);
        forall j | 0 <= j < k + 1
          ensures !accept(s[j])
        {
          if j > 0 { assert s[j] == rest[j - 1]; }
        }
        assert s[k + 1] == rest[k];
      } else {
        forall i | 0 <= i < |s|
          ensures !accept(s[i])
        {
          if i > 0 { assert s[i] == rest[i - 1]; }
        }
      }
    }
  }

  /** The first name in listing order whose suffix is accepted. */
  function FirstAccepted(listing: seq<string>): (learner: Option<string>)
    ensures learner.Some? ==> learner.value in listing && IsAcceptedSuffix(learner.value)
  {
    FirstWhere(listing, IsAcceptedSuffix)
  }

  /**
   * The autograder picks a file exactly when some listed name has an accepted
   * suffix, and picks the first such name: every earlier name is rejected.
   */
  lemma FirstAcceptedIsFirst(listing: seq<string>)
    ensures FirstAccepted(listing).None? <==> forall i :: 0 <= i < |listing| ==> !IsAcceptedSuffix(listing[i])
    ensures FirstAccepted(listing).Some? ==>
      exists i :: 0 <= i < |listing| && listing[i] == FirstAccepted(listing).value && IsAcceptedSuffix(listing[i]) &&
                  forall j :: 0 <= j < i ==> !IsAcceptedSuffix(listing[j])
  {
    FirstWhereIsFirst(listing, IsAcceptedSuffix);
  }

  /** The search loop: the first accepted entry wins and later ones are ignored. */
  method FindLearnerFile(listing: seq<string>) returns (learner: Option<string>)
    ensures learner == FirstAccepted(listing)
  {
    learner := None;
    var k := 0;
    while k < |listing|
      invariant 0 <= k <= |listing|
      invariant FirstAccepted(listing) == FirstAccepted(listing[k..])
    {
      if IsAcceptedSuffix(listing[k]) {
        learner := Some(listing[k]);
        break;
      }
      assert listing[k..][1..] == listing[k + 1..];
      k := k + 1;
    }
  }

  /** What the autograder does to the outside world, in order. */
  datatype Step = ListSubmissions | CopySubmission(source: string, destination: string) | GradeSubmission

  /**
   * `main(part_id)` under the script's top-level handler. The directory listing
   * (`None` when listing raises), the copy outcome and the grading result are
   * inputs; `sent` is the one feedback posted and `steps` what was done before.
   */
  method Autograde(partId: string, listing: Option<seq<string>>, copied: bool, graded: Grade)
    returns (sent: Grade, steps: seq<Step>)
    ensures partId != CourseraPartId ==> sent == Grade(0.0, Message(WrongPart)) && steps == []
    ensures partId == CourseraPartId ==> |steps| >= 1 && steps[0] == ListSubmissions
    ensures partId == CourseraPartId && listing.None? ==>
      sent == Grade(0.0, Message(NoPartId)) && steps == [ListSubmissions]
    ensures (partId == CourseraPartId && listing.Some? && FirstAccepted(listing.value).None?) ==>
      sent == Grade(0.0, Message(WrongExtension)) && steps == [ListSubmissions]
    ensures (partId == CourseraPartId && listing.Some? && FirstAccepted(listing.value).Some?) ==>
      var copy := CopySubmission(SubmissionLocation + "/" + FirstAccepted(listing.value).value, SubmissionDestination);
      if copied then sent == graded && steps == [ListSubmissions, copy, GradeSubmission]
      else sent == Grade(0.0, Message(CopyFailed)) && steps == [ListSubmissions, copy]
    ensures GradeSubmission in steps <==> partId == CourseraPartId && listing.Some? &&
                                          FirstAccepted(listing.value).Some? && copied
    ensures GradeSubmission !in steps ==> sent.score == 0.0 && sent.feedback.Message?
  {
    if partId != CourseraPartId {
      return Grade(0.0, Message(WrongPart)), [];
    }
    steps := [ListSubmissions];
    if listing.None? {
      return Grade(0.0, Message(NoPartId)), steps;
    }
    var learner := FindLearnerFile(listing.value);
    if learner.None? {
      return Grade(0.0, Message(WrongExtension)), steps;
    }
    steps := steps + [CopySubmission(SubmissionLocation + "/" + learner.value, SubmissionDestination)];
    if !copied {
      return Grade(0.0, Message(CopyFailed)), steps;
    }
    steps := steps + [GradeSubmission];
    sent := graded;
  }
}
