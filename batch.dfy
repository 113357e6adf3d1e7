/**
 * The batch tool: grade every given spreadsheet with the local grader and
 * collect one report record per file, turning failures into `Error` records
 * instead of stopping; and the choice of files from the command line.
 */
module Batch {
  import opened Wrappers
  import opened Scoring
  import opened Grader
  import opened Paths

  const ResultsFolder := "results"

  datatype Status = Success | Error

  /** One row of the report. */
  datatype Record = Record(
    filename: string,
    path: string,
    score: real,
    percentage: real,
    matches: nat,
    total: nat,
    feedback: Feedback,
    status: Status)

  /** What calling the grading function on one path did: it returned a result dictionary, or raised. */
  datatype Attempt = Returned(result: ResultDict) | Raised(message: string)

  /** Where the feedback of a graded file is saved: `results/<stem>_feedback.txt`. */
  function FeedbackFile(path: string): (f: string)
    ensures EndsWith(f, "_feedback.txt")
  {
    ResultsFolder + "/" + Stem(Basename(path)) + "_feedback.txt"
  }

  /** The feedback of a graded file lies directly in the results folder, named after the file's stem. */
  lemma FeedbackFileLocation(path: string)
    ensures Basename(FeedbackFile(path)) == Stem(Basename(path)) + "_feedback.txt"
    ensures FeedbackFile(path) == ResultsFolder + "/" + Basename(FeedbackFile(path))
  {
    var stem := Stem(Basename(path));
    StemSuffixWithoutSlash(Basename(path));
    NotInConcat(stem, "_feedback.txt", '/');
    BasenameOfJoin(ResultsFolder, stem + "_feedback.txt");
    assert FeedbackFile(path) == ResultsFolder + "/" + (stem + "_feedback.txt");
  }

  /** An `Error` record: every number zero. */
  function ErrorRecord(path: string, feedback: Feedback): Record
  {
    Record(Basename(path), path, 0.0, 0.0, 0, 0, feedback, Error)
  }

  /** The text of the `KeyError` raised by `result['feedback']` when that key is missing. */
  const MissingFeedbackKey := "Error: 'feedback'"

  /**
   * The record of one path. A result with a score gives a `Success` record with
   * the counters it carries (0 for a missing one); a result without a score, or
   * an exception, gives an `Error` record.
   */
  function RecordFor(path: string, attempt: Attempt): (rec: Record)
    ensures rec.filename == Basename(path) && rec.path == path
    ensures rec.status == Success <==>
      attempt.Returned? && attempt.result.score.Some? && attempt.result.feedback.Some?
    ensures rec.status == Success ==>
      rec.score == attempt.result.score.value && rec.percentage == 100.0 * rec.score &&
      rec.matches == attempt.result.matches.GetOr(0) && rec.total == attempt.result.totalCells.GetOr(0) &&
      rec.feedback == attempt.result.feedback.value
    ensures rec.status == Error ==> rec.score == 0.0 && rec.percentage == 0.0 && rec.matches == 0 && rec.total == 0
    ensures attempt.Raised? ==> rec.feedback == Message("Error: " + attempt.message)
    ensures attempt.Returned? && attempt.result.score.None? ==>
      rec.feedback == attempt.result.feedback.GetOr(Message("Unknown error"))
  {
    match attempt
    case Raised(message) => ErrorRecord(path, Message("Error: " + message))
    case Returned(r) =>
      if r.score.None? then ErrorRecord(path, r.feedback.GetOr(Message("Unknown error")))
      else if r.feedback.None? then ErrorRecord(path, Message(MissingFeedbackKey))
      else Record(Basename(path), path, r.score.value, 100.0 * r.score.value,
                  r.matches.GetOr(0), r.totalCells.GetOr(0), r.feedback.value, Success)
  }

  /**
   * The records one path contributes AS WRITTEN: the `Success` record is appended
   * before the feedback file is written, so when that write raises (`saved` is
   * its exception text) the same handler appends an `Error` record as well.
   */
  function RecordsAsWritten(path: string, attempt: Attempt, saved: Option<string>): (recs: seq<Record>)
    ensures |recs| >= 1 && recs[0] == RecordFor(path, attempt)
    ensures |recs| == 2 <==> RecordFor(path, attempt).status == Success && saved.Some?
    ensures |recs| <= 2
    ensures |recs| == 2 ==> recs[1] == ErrorRecord(path, Message("Error: " + saved.value))
    ensures |recs| == 2 ==> recs[1].status == Error && recs[1].filename == recs[0].filename
  {
    var rec := RecordFor(path, attempt);
    if rec.status == Success && saved.Some? then [rec, ErrorRecord(path, Message("Error: " + saved.value))]
    else [rec]
  }

  /** The results list AS WRITTEN, for paths graded by `grade` and feedback files written by `save`. */
  function BatchAsWritten(paths: seq<string>, grade: string -> Attempt, save: string -> Option<string>): (results: seq<Record>)
    ensures |paths| <= |results| <= 2 * |paths|
  {
    if paths == [] then []
    else
      var last := paths[|paths| - 1];
      BatchAsWritten(paths[..|paths| - 1], grade, save) + RecordsAsWritten(last, grade(last), save(FeedbackFile(last)))
  }

  /** The intended results list: one record per path, in input order. */
  function OnePerPath(paths: seq<string>, grade: string -> Attempt): (results: seq<Record>)
    ensures |results| == |paths|
  {
    if paths == [] then []
    else OnePerPath(paths[..|paths| - 1], grade) + [RecordFor(paths[|paths| - 1], grade(paths[|paths| - 1]))]
  }

  /** Record `i` of the intended list is the record of path `i`. */
  lemma {:induction false} OnePerPathAt(paths: seq<string>, grade: string -> Attempt, i: nat)
    requires i < |paths|
    ensures OnePerPath(paths, grade)[i] == RecordFor(paths[i], grade(paths[i]))
  {
    var n := |paths|;
    if i < n - 1 {
      OnePerPathAt(paths[..n - 1], grade, i);
      assert paths[..n - 1][i] == paths[i];
    }
  }

  /** As written, when every feedback file is saved the results are the intended one record per path. */
  lemma {:induction false} AsWrittenWhenSaved(paths: seq<string>, grade: string -> Attempt, save: string -> Option<string>)
    requires forall i :: 0 <= i < |paths| ==> save(FeedbackFile(paths[i])).None?
    ensures BatchAsWritten(paths, grade, save) == OnePerPath(paths, grade)
  {
    if paths != [] {
      var n := |paths|;
      var init, last := paths[..n - 1], paths[n - 1];
      assert forall i :: 0 <= i < |init| ==> init[i] == paths[i];
      AsWrittenWhenSaved(init, grade, save);
      OneRecordWhenSaved(last, grade(last), save(FeedbackFile(last)));
    }
  }

  /** A path whose feedback file is saved contributes just its record. */
  lemma OneRecordWhenSaved(path: string, attempt: Attempt, saved: Option<string>)
    requires saved.None?
    ensures RecordsAsWritten(path, attempt, saved) == [RecordFor(path, attempt)]
  {
  }

  /**
   * As written, one graded file whose feedback cannot be saved yields two
   * records, a `Success` and an `Error` for the same file.
   */
  lemma WriteFailureDuplicatesRecord()
    ensures var paths := ["a.xlsx"];
            var grade := (p: string) => Returned(Scored(Counts(3, 4)));
            var save := (f: string) => Some("disk full");
            var results := BatchAsWritten(paths, grade, save);
            |results| == 2 && results[0].status == Success && results[1].status == Error &&
            results[0].filename == results[1].filename
  {
    var paths := ["a.xlsx"];
    var grade := (p: string) => Returned(Scored(Counts(3, 4)));
    var save := (f: string) => Some("disk full");
    assert paths[..0] == [];
    assert RecordFor("a.xlsx", grade("a.xlsx")).status == Success;
  }

  /**
   * `batch_grade` with one record per path (see the findings): `False` and no
   * results for no paths; otherwise one record per path, in input order, and
   * `True`. A path whose grading fails gets an `Error` record and the loop goes on.
   */
  method BatchGrade(paths: seq<string>, grade: string -> Attempt) returns (ok: bool, results: seq<Record>)
    ensures paths == [] ==> !ok && results == []
    ensures paths != [] ==> results == OnePerPath(paths, grade)
    ensures |results| == |paths|
    ensures forall i :: 0 <= i < |paths| ==> results[i] == RecordFor(paths[i], grade(paths[i]))
    ensures forall i :: 0 <= i < |paths| ==> results[i].filename == Basename(paths[i]) && results[i].path == paths[i]
    ensures ok <==> results != []
  {
    if paths == [] {
      return false, [];
    }
    results := [];
    for k := 0 to |paths|
      invariant results == OnePerPath(paths[..k], grade)
    {
      assert paths[..k + 1][..k] == paths[..k];
      var path := paths[k];
      var attempt := grade(path);
      results := results + [RecordFor(path, attempt)];
    }
    assert paths[..|paths|] == paths;
    forall i | 0 <= i < |paths|
      ensures results[i] == RecordFor(paths[i], grade(paths[i]))
    {
      OnePerPathAt(paths, grade, i);
    }
    ok := results != [];
  }

  /** Every result of the local grader gives a `Success` record with its counters. */
  lemma GraderResultIsSuccess(path: string, r: ResultDict)
    requires r.score.Some? && r.feedback.Some?
    ensures RecordFor(path, Returned(r)).status == Success
    ensures RecordFor(path, Returned(r)).matches == r.matches.GetOr(0)
    ensures RecordFor(path, Returned(r)).total == r.totalCells.GetOr(0)
  {
  }

  /** What the file system says a command-line argument is, with the matches of the two globs for a directory. */
  datatype ArgKind = Directory(xlsxMatches: seq<string>, xlsmMatches: seq<string>) | RegularFile | Neither

  datatype Arg = Arg(text: string, kind: ArgKind)

  /** The files one argument contributes: a directory's matches, or the argument itself if it is a spreadsheet file. */
  function ArgFiles(arg: Arg): (files: seq<string>)
    ensures forall f :: f in files ==> FromArg(arg, f)
    ensures arg.kind.RegularFile? && HasExcelExtension(arg.text) ==> files == [arg.text]
    ensures arg.kind.Neither? ==> files == []
  {
    match arg.kind
    case Directory(xlsx, xlsm) => xlsx + xlsm
    case RegularFile => if HasExcelExtension(arg.text) then [arg.text] else []
    case Neither => []
  }

  /** The files the arguments contribute, in argument order. */
  function Collected(args: seq<Arg>): (files: seq<string>)
    ensures (forall i :: 0 <= i < |args| ==> args[i].kind.Neither?) ==> files == []
  {
    if args == [] then [] else Collected(args[..|args| - 1]) + ArgFiles(args[|args| - 1])
  }

  /** `f` is one of a directory argument's matches, or is a regular-file argument with a spreadsheet extension. */
  predicate FromArg(arg: Arg, f: string)
  {
    (arg.kind.Directory? && f in arg.kind.xlsxMatches + arg.kind.xlsmMatches) ||
    (arg.kind.RegularFile? && f == arg.text && HasExcelExtension(f))
  }

  /**
   * Every collected file is a directory match or an explicit regular-file
   * argument whose name ends in ".xlsx" or ".xlsm" in any letter case.
   */
  lemma {:induction false} CollectedOrigin(args: seq<Arg>, f: string)
    requires f in Collected(args)
    ensures exists i :: 0 <= i < |args| && FromArg(args[i], f)
  {
    var n := |args|;
    if f in ArgFiles(args[n - 1]) {
      assert args[n - 1].kind.Directory? || args[n - 1].kind.RegularFile?;
    } else {
      CollectedOrigin(args[..n - 1], f);
      var i :| 0 <= i < n - 1 && FromArg(args[..n - 1][i], f);
      assert args[..n - 1][i] == args[i];
    }
  }

  /** An explicit regular-file argument with a spreadsheet extension is always collected. */
  lemma {:induction false} ExplicitSpreadsheetCollected(args: seq<Arg>, i: nat)
    requires i < |args| && args[i].kind.RegularFile? && HasExcelExtension(args[i].text)
    ensures args[i].text in Collected(args)
  {
    var n := |args|;
    if i < n - 1 {
      assert args[..n - 1][i] == args[i];
      ExplicitSpreadsheetCollected(args[..n - 1], i);
    }
  }

  /**
   * `main`'s choice of files: with no arguments, the current directory's ".xlsx"
   * then ".xlsm" matches; otherwise, argument by argument, a directory's
   * matches, a regular file with a spreadsheet extension, and nothing else.
   */
  method CollectFiles(args: seq<Arg>, cwdXlsx: seq<string>, cwdXlsm: seq<string>) returns (files: seq<string>)
    ensures args == [] ==> files == cwdXlsx + cwdXlsm
    ensures args != [] ==> files == Collected(args)
  {
    if args == [] {
      return cwdXlsx + cwdXlsm;
    }
    files := [];
    for k := 0 to |args|
      invariant files == Collected(args[..k])
    {
      assert args[..k + 1][..k] == args[..k];
      var arg := args[k];
      assert Collected(args[..k + 1]) == files + ArgFiles(arg);
      match arg.kind {
        case Directory(xlsx, xlsm) =>
          files := files + xlsx;
          files := files + xlsm;
        case RegularFile =>
          if HasExcelExtension(arg.text) {
            files := files + [arg.text];
          }
        case Neither =>
      }
    }
    assert args[..|args|] == args;
  }
}
