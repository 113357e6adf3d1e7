# Spreadsheet row grader — a Dafny model

This project models the core of a coursework grader for spreadsheets. A
learner's workbook is compared with a reference workbook. Both sheets are
scanned on row 1, from column E (5) up to the larger of the two sheets'
`max_column`. A column is *comparable* when both cells are non-empty, and it
is a *match* when the two values are equal under Python's `==`. The score is
`matches / total_cells`, or 0 when no column was comparable.

Around that scorer sit three entry points, and each is modelled:

- the platform autograder (`autograder.py`): a part-ID gate, the choice of
  the first `.xlsx`/`.xlsm` file in the submission listing, staging it at a
  fixed path, and its own copy of the scorer;
- the batch tool (`batch.py`): one report record per file, turning failures
  into `Error` records, and the choice of files from the command line;
- the single-file uploader (`uploader.py`): existence and extension checks,
  a time-stamped destination name, and the path of the saved feedback.

Files:

- `wrappers.dfy`: `Option`.
- `cells.dfy`: cell values and Python's `==` on them. A sheet is its
  `max_column` plus the non-empty cells of row 1, all in columns
  1..`max_column`. A workbook maps sheet names to sheets. Opening a
  workbook gives either the workbook or the exception text.
- `scoring.dfy`: the column scan shared by both graders (`CountRow`, a
  loop). It is proved against the specification `Tally`, and `Tally` is
  proved equal to counting two sets of columns. The file also holds the
  score rule and the invariance lemmas.
- `grader.dfy`, `autograder.dfy`, `batch.dfy`, `uploader.dfy`: one module
  per source file.
- `paths.dfy`: `lower`, `endswith`, `rfind`, `basename`, pathlib's
  `name`/`stem`/`suffix`, and `rsplit('.', 1)[0]`.

The score is a Dafny `real`, which is an exact rational, not a float. The
success feedback is the value `Summary(matches, total)`, which stands for the
two-line text with the percentage and "matched X out of Y cells". The
graders' I/O collaborators are inputs: workbook loading, directory listings,
copy outcomes, timestamps and the grading function's result as seen by the entry
points. The entry-point methods return what they did as a list of steps, so
the model can say "grading is not run" and "nothing is copied".

In these places the model follows what the code does:

- Cell equality is Python `==`, not a type-sensitive comparison. Text never
  equals a number and text comparison is case-sensitive. But `1 == 1.0 == True`
  (`Cells.NumericKindsMix`).
- The autograder does not require exactly one spreadsheet in the submission
  directory. It takes the first entry, in listing order, whose lower-cased
  pathlib suffix is `.xlsx` or `.xlsm`.
- Only the autograder calls a missing reference sheet an internal error. The
  local grader says "Error: Solution worksheet not found."
- Both workbooks are opened before either sheet is looked up. So an
  unreadable reference is reported even when the submission lacks its sheet.

## Model

| member | source | states |
|---|---|---|
| `Cells.PyEq` | grader.py:59 | Python `==` on two cell values: text is only ever equal to text, and then exactly when the characters are identical |
| `Cells.PyEqIsEquivalence` | grader.py:59 | Cell equality is reflexive, symmetric and transitive |
| `Cells.TextComparison` | grader.py:59 | Text equals text exactly when the characters are identical, so "Y" differs from "y". Text never equals a number or a boolean |
| `Cells.NumericKindsMix` | autograder.py:82 | `1 == 1.0 == True` and `0 == False`, but `2 != True`: equality is not type-sensitive among numbers and booleans |
| `Cells.Cell` | grader.py:54-55 | A cell beyond `max_column` (or in column 0) is empty. A cell is non-empty exactly when row 1 holds a value there |
| `Scoring.LastColumn` | grader.py:50 | The scan's last column is one of the two `max_column`s and is at least both |
| `Scoring.Tally` | grader.py:53-60 | After scanning columns 5..last, `matches <= total_cells <= max(0, last - 4)` |
| `Scoring.ComparableColumnsStep` | grader.py:57-58 | Scanning one more column adds it to the comparable set exactly when both cells are non-empty |
| `Scoring.MatchingColumnsStep` | grader.py:59-60 | Scanning one more column adds it to the matching set exactly when both cells are non-empty and equal |
| `Scoring.TallyCountsColumns` | grader.py:53-60 | `total_cells` is the number of columns in 5..last where both cells are non-empty. `matches` is the number of those columns whose values are equal, and those columns are a subset of the comparable ones |
| `Scoring.TallyBeyondLastColumn` | grader.py:50-53 | Scanning past both `max_column`s changes nothing |
| `Scoring.TallyCongruent` | grader.py:53-60 | Two scans whose columns count alike, column by column, end with the same counters |
| `Scoring.LeadingColumnsIgnored` | grader.py:52-53 | Columns 1–4 never affect `matches` or `total_cells`: sheets that agree from column 5 on score alike, whatever else differs |
| `Scoring.EmptyStudentCellIgnored` | grader.py:57 | A column with an empty submission cell is excluded: changing the reference cell there leaves the counters unchanged |
| `Scoring.EmptySolutionCellIgnored` | autograder.py:80 | A column with an empty reference cell is excluded: changing the submission cell there leaves the counters unchanged |
| `Scoring.CountRow` | grader.py:47-60 | The loop ends with `Tally` over columns 5..max(max_column). It counts exactly the comparable and the matching columns, with `matches <= total_cells <= max(0, max_col - 4)` |
| `Scoring.EmptyReferenceScoresZero` | grader.py:63 | A reference with no value from column E on gives `total_cells == 0` and score 0, with no division |
| `Scoring.YesNoRowExample` | grader.py:47-63 | Reference Y N Y Y against submission Y N N Y in E..H gives 3 matches out of 4 and score 0.75 |
| `Scoring.ScoreOf` | grader.py:63 | The score is 0 when `total_cells` is 0. Otherwise score × `total_cells` = `matches`. It lies in [0, 1] whenever `matches <= total_cells` |
| `Grader.GradeWorksheet` | grader.py:14-78 | An unreadable submission is reported first, then an unreadable reference, each as score 0 with "Error grading your submission: …". Next a missing "blank" sheet gives score 0 and "Worksheet 'blank' not found", and only then a missing "solution" sheet gives score 0 and "Solution worksheet not found." Otherwise the result is the scan's score and summary. `matches` and `total_cells` are present exactly on that success path, with `matches <= total_cells`. The score always lies in [0, 1] and is 0 when `total_cells` is 0 |
| `Autograder.GradeWorksheet` | autograder.py:41-99 | The same error order and the same scan as the local grader. A missing reference sheet says "Internal error". The result has only score and feedback, the score lies in [0, 1], and a summary is given exactly when both sheets are present |
| `Autograder.MissingSheetMessagesDistinct` | autograder.py:54-64 | The missing-submission-sheet and missing-reference-sheet messages differ |
| `Autograder.IsAcceptedSuffix` | autograder.py:112-113 | `Path(f).suffix.lower()` in the two extensions: an accepted suffix is five characters long and shorter than the name |
| `Autograder.AcceptedSuffixIff` | autograder.py:112-113 | The suffix test accepts a name exactly when the name passes the case-insensitive `endswith(('.xlsx', '.xlsm'))` test and is longer than five characters |
| `Autograder.BareExtensionRejected` | autograder.py:112-113 | A file named just ".xlsx" passes the `endswith` test but has no pathlib suffix, so the autograder ignores it |
| `Autograder.FirstWhere` | autograder.py:110-115 | What the first-match search finds is an element of the sequence and is accepted |
| `Autograder.FirstWhereIsFirst` | autograder.py:110-115 | The first-match search finds something exactly when some element is accepted. What it finds is accepted, and every earlier element is rejected |
| `Autograder.FirstAccepted` | autograder.py:110-115 | A chosen submission is a listed name with an accepted suffix |
| `Autograder.FirstAcceptedIsFirst` | autograder.py:110-115 | The chosen submission is the first listed name with an accepted suffix, and none is chosen exactly when no name qualifies |
| `Autograder.FindLearnerFile` | autograder.py:110-115 | The loop with `break` returns `FirstAccepted` of the listing: later matches are ignored |
| `Autograder.Autograde` | autograder.py:101-148 | A wrong part ID posts score 0 and the wrong-part message before the directory is examined. A listing that raises posts "Please provide the partId.". No accepted file posts score 0 and the extension message. Otherwise the first accepted file is copied from "/shared/submission/<name>" to "/grader/submission.xlsx". A failed copy posts score 0 and "Error processing your submission file." without grading. Grading runs exactly when the part ID matches, a file was found and the copy succeeded. Without grading the posted score is 0 |
| `Paths.Lower` | uploader.py:27 | `lower()` keeps the length and lower-cases each character in place |
| `Paths.LastIndexOf` | uploader.py:60 | `rfind`: the index found holds the character and nothing after it does. None means the character does not occur |
| `Paths.Basename` | batch.py:38 | The base name has no '/' and ends the path. A path without '/' is its own base name |
| `Paths.BasenameAfterLastSlash` | batch.py:38 | The base name is everything after the last '/': it is the whole path, or the character before it is a '/'. Together with `Basename`'s contract this fixes the result |
| `Paths.SuffixStart` | uploader.py:34 | pathlib's suffix starts at the last '.' when that '.' is neither the first nor the last character. There is no suffix exactly when the name has no such '.': every interior '.' is then followed by a final '.' |
| `Paths.Suffix` | uploader.py:34 | The suffix ends the name and is empty, or is a '.' followed by at least one more character and no further '.'. It is empty exactly when there is no suffix start |
| `Paths.Stem` | uploader.py:34 | Stem followed by suffix gives back the name |
| `Paths.BeforeLastDot` | uploader.py:60 | `rsplit('.', 1)[0]` is a prefix of the string. It is the whole string exactly when there is no '.', and otherwise it stops just before the last '.' |
| `Paths.ExcelExtensionDot` | uploader.py:27 | A name that passes the extension test has its last '.' exactly five characters from the end |
| `Paths.BeforeLastDotOfExcelPath` | uploader.py:60 | On a path that passes the extension test, `rsplit('.', 1)[0]` removes exactly the five-character extension |
| `Paths.SuffixOfExcelName` | uploader.py:34 | A name that passes the extension test has its last five characters as its suffix, unless it is the bare extension, whose suffix is empty |
| `Paths.BasenameOfJoin` | uploader.py:34 | Joining a folder and a name without '/' gives a path whose base name is that name |
| `Paths.ExcelNameOfExcelPath` | uploader.py:27-33 | A path passes the extension test exactly when its base name does |
| `Paths.ExcelExtensionByLastFive` | uploader.py:27 | The extension test `HasExcelExtension` (`s.lower().endswith(('.xlsx', '.xlsm'))`) holds exactly when the string has at least five characters and its last five, lower-cased, are ".xlsx" or ".xlsm" |
| `Batch.FeedbackFile` | batch.py:49-50 | The feedback file's name ends in "_feedback.txt" |
| `Batch.FeedbackFileLocation` | batch.py:49-50 | The feedback of a graded file lies directly in `results/`, named `<stem>_feedback.txt` after the file's base name |
| `Batch.RecordFor` | batch.py:32-75 | The record keeps the path and its base name. It is `Success` exactly when the grading function returned a result with a score and a feedback, and then it copies score, 100 × score, the feedback, and `matches`/`total_cells` (0 when absent). Otherwise it is `Error` with every number 0. An exception gives the feedback "Error: <message>", and a result without a score gives its feedback or "Unknown error" |
| `Batch.RecordsAsWritten` | batch.py:36-75 | As written, a path contributes its record, plus a second record exactly when the record is `Success` and saving the feedback file raised. That second record is an `Error` record for the same file, with every number 0 and the feedback "Error: <exception text>" |
| `Batch.BatchAsWritten` | batch.py:29-75 | The results list as written has at least one and at most two records per path |
| `Batch.OnePerPath` | batch.py:29-75 | The intended results list has one record per path |
| `Batch.OnePerPathAt` | batch.py:29-75 | Record i of the intended list is the record of path i |
| `Batch.AsWrittenWhenSaved` | batch.py:29-75 | When every feedback file is saved, the results as written are the intended list: one record per path, in input order |
| `Batch.OneRecordWhenSaved` | batch.py:48-52 | A path whose feedback file is saved contributes exactly one record |
| `Batch.WriteFailureDuplicatesRecord` | batch.py:37-52 | As written, one graded file whose feedback cannot be saved yields two records for the same file: `Success`, then `Error` |
| `Batch.BatchGrade` | batch.py:17-116 | Empty input gives `False` and no results. Otherwise there is one record per path, in input order, with `filename` the base name of that path. A failed grading becomes an `Error` record and the loop goes on. The result is `True` exactly when `results` is non-empty |
| `Batch.GraderResultIsSuccess` | batch.py:36-46 | Every result of the local grader (score and feedback present) gives a `Success` record carrying its counters |
| `Batch.ArgFiles` | batch.py:130-137 | An argument contributes only files that come from it. A regular file with a spreadsheet extension contributes exactly itself, and an argument that is neither a file nor a directory contributes nothing |
| `Batch.Collected` | batch.py:130-139 | Arguments that are neither files nor directories collect nothing |
| `Batch.CollectedOrigin` | batch.py:130-139 | Every collected file is a directory match, or an explicit regular-file argument ending in ".xlsx"/".xlsm" in any letter case |
| `Batch.ExplicitSpreadsheetCollected` | batch.py:136-137 | An explicit regular-file argument with a spreadsheet extension (any case) is always collected |
| `Batch.CollectFiles` | batch.py:122-139 | With no arguments, the current directory's ".xlsx" then ".xlsm" matches are collected. Otherwise the files are collected argument by argument |
| `Uploader.UploadedName` | uploader.py:34 | The uploaded name starts with the original stem, ends with the original suffix, and is one character longer than the name and the timestamp together |
| `Uploader.Destination` | uploader.py:32-34 | The destination lies under "uploads/" and ends with the uploaded name of the file's base name |
| `Uploader.FeedbackPath` | uploader.py:60 | The feedback path ends in "_feedback.txt" |
| `Uploader.BasenameOfDestination` | uploader.py:32-34 | The upload lies directly in the uploads folder under `<stem>_<timestamp><suffix>` |
| `Uploader.UploadedNameKeepsStemAndSuffix` | uploader.py:33-34 | For every name that passes the extension test and a timestamp without '.', pathlib reads the uploaded name back with the original suffix and with the original stem plus "_<timestamp>". That includes the bare name ".xlsx", whose suffix is empty on both sides |
| `Uploader.BareUploadedName` | uploader.py:33-34 | The bare name ".xlsx" has no suffix, and it is uploaded as ".xlsx_<timestamp>", which has no suffix either |
| `Uploader.DestinationKeepsStemAndSuffix` | uploader.py:32-34 | For every path that passes the extension test, the destination is `uploads/<name>`, where `<name>` keeps the original stem and suffix around the timestamp |
| `Uploader.FeedbackPathOfUploadedName` | uploader.py:60 | The feedback of an uploaded name longer than the extension is saved as `uploads/<stem>_<timestamp>_feedback.txt`. For the bare name ".xlsx" and a timestamp without '.', everything after the folder goes and the feedback is saved as `uploads/_feedback.txt` |
| `Uploader.FeedbackPathOfLongName` | uploader.py:60 | A long uploaded name loses just its suffix: `uploads/<stem>_<timestamp>_feedback.txt` |
| `Uploader.FeedbackPathOfBareName` | uploader.py:60 | "uploads/.xlsx_<timestamp>" has its only '.' right after the folder, so its feedback is `uploads/_feedback.txt` |
| `Uploader.FeedbackPathOfUpload` | uploader.py:60 | The feedback of an uploaded copy is `uploads/<stem>_<timestamp>_feedback.txt` when the base name is longer than the extension. For a file named just ".xlsx" and a timestamp without '.', it is `uploads/_feedback.txt` |
| `Uploader.FeedbackPathInPlace` | uploader.py:60 | A file graded where it lies has its feedback saved beside it, as its path minus the extension plus "_feedback.txt" |
| `Uploader.UploadAndGrade` | uploader.py:16-67 | A failed `os.makedirs` raises before anything else. Otherwise, a missing file, or one not ending in ".xlsx"/".xlsm" in any case, returns `False` with nothing copied or graded. A file outside the uploads folder is copied to the time-stamped destination, and a failed copy returns `False` without grading. A file already in the uploads folder is graded in place with no copy. A result without a score returns `False`. A result with a score but no feedback raises (`KeyError`). A result with both saves its feedback at the derived feedback path: the call returns `True` when the write succeeds and raises when it fails. `True` is returned exactly in that case |

## Findings

| source | as written | input that shows it | evidently intended | confidence | as-written member | corrected member |
|---|---|---|---|---|---|---|
| batch.py:36-75 | The `Success` record is appended before the feedback file is written, inside the same `try`. If that write raises, the `except` branch appends an `Error` record for the same file | One path that grades successfully and whose `results/<stem>_feedback.txt` cannot be written (e.g. the results folder is not writable): `results` gets two records, `Success` then `Error`, with the same filename | One record per path, whose score is not changed by a failed feedback write; the write failure is reported separately | medium, not executed | `Batch.WriteFailureDuplicatesRecord` | `Batch.BatchGrade` |

## Left out

- Workbook loading (`openpyxl.load_workbook` with cached formula values) is not modelled. Its outcome is an input: a workbook, or the text of the exception it raised.
- Cell values other than text, integers, finite floats and booleans are left out. That excludes dates and times, and NaN, which is unequal to itself under `==`.
- `ws.cell()` creates empty cells as a side effect. Those cells are discarded with the workbook and do not change the already computed scan bound.
- Percent formatting (`f"{percentage:.2f}%"`, `score * 100` as a float) is not modelled. The success feedback is the value `Summary(matches, total)`, and the batch record's percentage is the exact real 100 × score.
- The batch statistics (average, minimum, maximum) are left out. So are the pandas report and its CSV/xlsx files, and `os.makedirs`. An exception while writing the report would escape `batch_grade`; that is not modelled.
- Printing, `json.dumps` to stdout and to `/shared/feedback.json` (`send_feedback`), stderr, `input()`, `sys.argv` and `os.environ` are I/O. The part ID, the listings, the copy outcomes and the grading function's results are parameters.
- Timestamps (`time.strftime`, `datetime.now`) are opaque input strings.
- `os.path.abspath` and directory equality are left out. "Already in the uploads folder" is a boolean input.
- `glob` matching (case-sensitive patterns, hidden files, order) is left out. A directory argument's ".xlsx" and ".xlsm" matches are inputs.
- `str.lower()` is modelled on ASCII letters only. No other character lower-cases to '.', 'x', 'l', 's' or 'm', so the extension tests are unaffected.
- pathlib's normalisation of paths (trailing '/', '.' components) is left out. `Basename` is the text after the last '/', as `os.path.basename` computes it. For the file names handled here, that is also pathlib's `name`.
- The autograder's top-level `except` is modelled only for its one reachable cause, a listing that raises. The copy and the grading function catch their own exceptions.
- Uploader.UploadAndGrade: an exception that escapes is the outcome `Raises`, without its type or message.
- A chartsheet named "blank" or "solution" cannot be represented: a workbook maps each sheet name to a worksheet. In the source such a sheet has no `max_column`, so the scan raises `AttributeError`, which the grading functions' `except` reports as "Error grading your submission: …".
- Batch.BatchGrade: models the corrected loop from the findings, in which a failed feedback write goes to the diagnostic channel and does not add a record. That write itself is I/O and is not represented. The source's behaviour is modelled by `Batch.RecordsAsWritten` and `Batch.BatchAsWritten`.
- `main` of the uploader and the final prints of the batch tool only print and call the modelled operations.
