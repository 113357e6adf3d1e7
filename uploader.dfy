/**
 * The single-file uploader: check the file, copy it into the uploads folder
 * under a time-stamped name (unless it is already there), grade the copy and
 * save the feedback beside it.
 */
module Uploader {
  import opened Wrappers
  import opened Scoring
  import opened Grader
  import opened Paths

  const UploadFolder := "uploads"

  /** `<stem>_<timestamp><suffix>`: the name the upload is saved under. */
  function UploadedName(name: string, timestamp: string): (uploaded: string)
    ensures |uploaded| == |name| + 1 + |timestamp|
    ensures Stem(name) <= uploaded && EndsWith(uploaded, Suffix(name))
  {
    Stem(name) + "_" + timestamp + Suffix(name)
  }

  /** `os.path.join(UPLOAD_FOLDER, ...)` of the uploaded name of the file's base name. */
  function Destination(filePath: string, timestamp: string): (dest: string)
    ensures UploadFolder + "/" <= dest
    ensures EndsWith(dest, UploadedName(Basename(filePath), timestamp))
  {
    UploadFolder + "/" + UploadedName(Basename(filePath), timestamp)
  }

  /** `str(dest_path).rsplit('.', 1)[0] + "_feedback.txt"`. */
  function FeedbackPath(dest: string): (f: string)
    ensures EndsWith(f, "_feedback.txt")
  {
    BeforeLastDot(dest) + "_feedback.txt"
  }

  /** The uploaded copy lies directly in the uploads folder, under its uploaded name. */
  lemma BasenameOfDestination(filePath: string, timestamp: string)
    requires '/' !in timestamp
    ensures Basename(Destination(filePath, timestamp)) == UploadedName(Basename(filePath), timestamp)
  {
    var name := Basename(filePath);
    StemSuffixWithoutSlash(name);
    var stem, sfx := Stem(name), Suffix(name);
    NotInConcat("_", timestamp, '/');
    NotInConcat(stem, "_" + timestamp, '/');
    NotInConcat(stem + "_" + timestamp, sfx, '/');
    BasenameOfJoin(UploadFolder, UploadedName(name, timestamp));
  }

  /**
   * For a timestamp without '.', pathlib reads an uploaded name back as the
   * original stem plus "_<timestamp>", with the original suffix. This holds for
   * the bare name ".xlsx" too, whose suffix is empty on both sides.
   */
  lemma UploadedNameKeepsStemAndSuffix(name: string, timestamp: string)
    requires HasExcelExtension(name)
    requires '.' !in timestamp
    ensures Suffix(UploadedName(name, timestamp)) == Suffix(name)
    ensures Stem(UploadedName(name, timestamp)) == Stem(name) + "_" + timestamp
  {
    if |name| > 5 {
      ExcelSuffixIsExcel(name);
      var uploaded := UploadedName(name, timestamp);
      var head := Stem(name) + "_" + timestamp;
      assert uploaded == head + Suffix(name);
      ExcelExtensionOfConcat(head, Suffix(name));
      ExcelSuffixIsExcel(uploaded);
      assert uploaded[|uploaded| - 5..] == Suffix(name);
      assert Stem(uploaded) + Suffix(uploaded) == uploaded;
    } else {
      BareUploadedName(name, timestamp);
    }
  }

  /** The bare name ".xlsx" is uploaded as ".xlsx_<timestamp>", which has no suffix. */
  lemma BareUploadedName(name: string, timestamp: string)
    requires HasExcelExtension(name) && |name| == 5
    requires '.' !in timestamp
    ensures Suffix(name) == "" && Stem(name) == name
    ensures UploadedName(name, timestamp) == name + "_" + timestamp
    ensures SuffixStart(name + "_" + timestamp).None?
  {
    SuffixOfExcelName(name);
    ExtensionCharacters(name, if EndsWith(Lower(name), Xlsx) then Xlsx else Xlsm);
    var uploaded := name + "_" + timestamp;
    forall j | 0 < j < |uploaded|
      ensures uploaded[j] != '.'
    {
      if j >= 6 { assert uploaded[j] == timestamp[j - 6]; }
    }
  }

  /**
   * The upload keeps the file's stem and suffix around the timestamp: for a
   * timestamp without '.' or '/' (the "%Y%m%d_%H%M%S" format), the copy lies in
   * the uploads folder and pathlib reads its name back as that stem plus
   * "_<timestamp>" and the same suffix.
   */
  lemma DestinationKeepsStemAndSuffix(filePath: string, timestamp: string)
    requires HasExcelExtension(filePath)
    requires '.' !in timestamp && '/' !in timestamp
    ensures var name := Basename(filePath);
            var uploaded := Basename(Destination(filePath, timestamp));
            Destination(filePath, timestamp) == UploadFolder + "/" + uploaded &&
            Suffix(uploaded) == Suffix(name) && Stem(uploaded) == Stem(name) + "_" + timestamp
  {
    ExcelNameOfExcelPath(filePath);
    BasenameOfDestination(filePath, timestamp);
    UploadedNameKeepsStemAndSuffix(Basename(filePath), timestamp);
  }

  /**
   * The feedback of an uploaded name is saved under that name without its
   * extension. For the bare name ".xlsx", whose only '.' is its first character,
   * that leaves just the folder: the feedback goes to "uploads/_feedback.txt".
   */
  lemma FeedbackPathOfUploadedName(name: string, timestamp: string)
    requires HasExcelExtension(name)
    ensures |name| > 5 ==>
      FeedbackPath(UploadFolder + "/" + UploadedName(name, timestamp)) ==
      UploadFolder + "/" + (Stem(name) + "_" + timestamp) + "_feedback.txt"
    ensures |name| == 5 && '.' !in timestamp ==>
      FeedbackPath(UploadFolder + "/" + UploadedName(name, timestamp)) == UploadFolder + "/_feedback.txt"
  {
    if |name| > 5 {
      FeedbackPathOfLongName(name, timestamp);
    } else if '.' !in timestamp {
      FeedbackPathOfBareName(name, timestamp);
    }
  }

  /** The feedback of "uploads/<stem>_<timestamp><suffix>" is "uploads/<stem>_<timestamp>_feedback.txt": only the suffix is dropped. */
  lemma FeedbackPathOfLongName(name: string, timestamp: string)
    requires HasExcelExtension(name) && |name| > 5
    ensures FeedbackPath(UploadFolder + "/" + UploadedName(name, timestamp)) ==
            UploadFolder + "/" + (Stem(name) + "_" + timestamp) + "_feedback.txt"
  {
    ExcelSuffixIsExcel(name);
    var head := UploadFolder + "/" + (Stem(name) + "_" + timestamp);
    var dest := UploadFolder + "/" + UploadedName(name, timestamp);
    assert dest == head + Suffix(name);
    ExcelExtensionOfConcat(head, Suffix(name));
    BeforeLastDotOfExcelPath(dest);
    assert dest[..|dest| - 5] == head;
  }

  /** "uploads/.xlsx_<timestamp>" has its only '.' right after the folder, so its feedback is "uploads/_feedback.txt". */
  lemma FeedbackPathOfBareName(name: string, timestamp: string)
    requires HasExcelExtension(name) && |name| == 5
    requires '.' !in timestamp
    ensures FeedbackPath(UploadFolder + "/" + UploadedName(name, timestamp)) == UploadFolder + "/_feedback.txt"
  {
    BareUploadedName(name, timestamp);
    var folder := UploadFolder + "/";
    var dest := folder + (name + "_" + timestamp);
    assert UploadFolder + "/" + UploadedName(name, timestamp) == dest;
    var rest := name + "_" + timestamp;
    assert forall j :: 0 < j < |rest| ==> rest[j] != '.';
    assert dest[|folder|] == '.';
    forall j | |folder| < j < |dest|
      ensures dest[j] != '.'
    {
      assert dest[j] == rest[j - |folder|];
    }
    assert forall j :: 0 <= j < |folder| ==> dest[j] == folder[j];
    var head := BeforeLastDot(dest);
    assert |head| == |folder|;
    assert head == folder;
    assert folder + "_feedback.txt" == UploadFolder + "/_feedback.txt";
  }

  /**
   * The feedback of an uploaded copy is saved as `uploads/<stem>_<timestamp>_feedback.txt`:
   * only the extension is dropped. A file named just ".xlsx" is copied to
   * "uploads/.xlsx_<timestamp>" and its feedback goes to "uploads/_feedback.txt".
   */
  lemma FeedbackPathOfUpload(filePath: string, timestamp: string)
    requires HasExcelExtension(filePath)
    ensures |Basename(filePath)| > 5 ==>
      FeedbackPath(Destination(filePath, timestamp)) ==
      UploadFolder + "/" + (Stem(Basename(filePath)) + "_" + timestamp) + "_feedback.txt"
    ensures |Basename(filePath)| <= 5 && '.' !in timestamp ==>
      FeedbackPath(Destination(filePath, timestamp)) == UploadFolder + "/_feedback.txt"
  {
    ExcelNameOfExcelPath(filePath);
    FeedbackPathOfUploadedName(Basename(filePath), timestamp);
  }

  /** A file graded where it lies has its feedback saved beside it, under its name minus the extension. */
  lemma FeedbackPathInPlace(filePath: string)
    requires HasExcelExtension(filePath)
    ensures FeedbackPath(filePath) == filePath[..|filePath| - 5] + "_feedback.txt"
  {
    BeforeLastDotOfExcelPath(filePath);
  }

  /** What the uploader does to the outside world, in order. */
  datatype Step = CopyFile(source: string, destination: string) | GradeFile(path: string) | SaveFeedback(path: string, feedback: Feedback)

  /** How `upload_and_grade` ends: it returns its flag, or an exception escapes it. */
  datatype Outcome = Returns(flag: bool) | Raises

  /** The file exists and passes the extension test, after the uploads folder was made. */
  predicate Admitted(folderMade: bool, fileExists: bool, filePath: string)
  {
    folderMade && fileExists && HasExcelExtension(filePath)
  }

  /**
   * `upload_and_grade(file_path)`. Whether `os.makedirs` succeeds, whether the
   * file exists, the timestamp, whether it already lies in the uploads folder,
   * whether the copy succeeds, what the grading function returns and whether the
   * feedback file can be written are inputs; `outcome` is how the call ends and
   * `steps` what was done (a `SaveFeedback` step is the attempted write).
   */
  method UploadAndGrade(filePath: string, folderMade: bool, fileExists: bool, timestamp: string, inUploads: bool,
                        copied: bool, graded: ResultDict, written: bool)
    returns (outcome: Outcome, steps: seq<Step>)
    ensures !folderMade ==> outcome == Raises && steps == []
    ensures folderMade && !fileExists ==> outcome == Returns(false) && steps == []
    ensures folderMade && !HasExcelExtension(filePath) ==> outcome == Returns(false) && steps == []
    ensures Admitted(folderMade, fileExists, filePath) && !inUploads && !copied ==>
      outcome == Returns(false) && steps == [CopyFile(filePath, Destination(filePath, timestamp))]
    ensures Admitted(folderMade, fileExists, filePath) && !inUploads && copied ==>
      var dest := Destination(filePath, timestamp);
      if graded.score.None? || graded.feedback.None? then steps == [CopyFile(filePath, dest), GradeFile(dest)]
      else steps == [CopyFile(filePath, dest), GradeFile(dest), SaveFeedback(FeedbackPath(dest), graded.feedback.value)]
    ensures Admitted(folderMade, fileExists, filePath) && inUploads ==>
      if graded.score.None? || graded.feedback.None? then steps == [GradeFile(filePath)]
      else steps == [GradeFile(filePath), SaveFeedback(FeedbackPath(filePath), graded.feedback.value)]
    ensures outcome == Returns(true) <==>
      Admitted(folderMade, fileExists, filePath) && (inUploads || copied) &&
      graded.score.Some? && graded.feedback.Some? && written
    ensures outcome == Raises <==>
      !folderMade ||
      (Admitted(folderMade, fileExists, filePath) && (inUploads || copied) &&
       graded.score.Some? && (graded.feedback.None? || !written))
  {
    if !folderMade {
      return Raises, [];
    }
    if !fileExists {
      return Returns(false), [];
    }
    if !HasExcelExtension(filePath) {
      return Returns(false), [];
    }
    if inUploads {
      if graded.score.None? {
        return Returns(false), [GradeFile(filePath)];
      }
      if graded.feedback.None? {
        // printing `result['feedback']` raises `KeyError`
        return Raises, [GradeFile(filePath)];
      }
      var save := SaveFeedback(FeedbackPath(filePath), graded.feedback.value);
      return if written then Returns(true) else Raises, [GradeFile(filePath), save];
    }
    var dest := Destination(filePath, timestamp);
    if !copied {
      return Returns(false), [CopyFile(filePath, dest)];
    }
    if graded.score.None? {
      return Returns(false), [CopyFile(filePath, dest), GradeFile(dest)];
    }
    if graded.feedback.None? {
      return Raises, [CopyFile(filePath, dest), GradeFile(dest)];
    }
    var save := SaveFeedback(FeedbackPath(dest), graded.feedback.value);
    return if written then Returns(true) else Raises, [CopyFile(filePath, dest), GradeFile(dest), save];
  }
}
