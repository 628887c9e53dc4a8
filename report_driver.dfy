/**
  The driver `run` of tests/flake8_json_reporter_test.py, which calls a
  reporter's lifecycle methods in the order flake8 does. It is proved to
  write exactly the calls' texts of ReportRun, which is `json.dumps` of the
  whole report.
 */
module ReportDriver {
  import opened Optional
  import opened JsonText
  import opened Reporters
  import opened ReportRun
  import opened ReportDocument

  /** The `format` calls `run` makes for a file's violations, after its
      `beginning`. */
  method ReportViolations(formatter: DefaultJson, violations: seq<Violation>) returns (r: Outcome)
    requires formatter.Valid()
    requires formatter.reportedErrorsCount == Some(0)
    modifies formatter
    ensures formatter.Valid()
    ensures r == Ok
    ensures formatter.output == old(formatter.output) + Render(EntrySteps(violations))
    ensures formatter.filesReportedCount == old(formatter.filesReportedCount)
    ensures formatter.reportedErrorsCount == Some(|violations|)
  {
    ghost var done := formatter.output;
    assert violations[..0] == [];
    r := Ok;
    var j := 0;
    while j < |violations|
      invariant 0 <= j <= |violations|
      invariant formatter.Valid()
      invariant r == Ok
      invariant formatter.filesReportedCount == old(formatter.filesReportedCount)
      invariant formatter.reportedErrorsCount == Some(j)
      invariant formatter.output == done + Render(EntrySteps(violations[..j]))
    {
      ghost var text := Render(EntrySteps(violations[..j]));
      ghost var current := formatter.output;
      r := formatter.Format(violations[j]);
      EntryText(current, violations[j], j > 0);
      EntryProgress(violations, j);
      AppendAssoc(done, text, StepText(Entry(violations[j], j > 0)));
      j := j + 1;
    }
    assert violations[..j] == violations;
  }

  /** The calls `run` makes for one file, the `i`-th: `beginning`, one
      `format` per violation, `finished`. Every call ends normally because
      `start` has set the file counter. */
  method ReportFile(formatter: DefaultJson, file: FileReport, ghost i: nat) returns (r: Outcome)
    requires formatter.Valid()
    requires formatter.filesReportedCount == Some(i)
    modifies formatter
    ensures formatter.Valid()
    ensures r == Ok
    ensures formatter.output == old(formatter.output) + Render(FileSteps(file, i > 0))
    ensures formatter.filesReportedCount == Some(i + 1)
    ensures formatter.reportedErrorsCount == Some(|file.1|)
  {
    var (filename, violations) := file;
    ghost var before := formatter.output;
    r := formatter.Beginning(filename);
    KeyText(before, filename, i > 0);
    r := ReportViolations(formatter, violations);
    r := formatter.Finished(filename);
    FileText(file, i > 0);
    ghost var key := StepText(FileKey(filename, i > 0));
    ghost var entries := Render(EntrySteps(violations));
    assert formatter.output == before + key + entries + "]";
    AppendAssoc(before, key, entries);
    AppendAssoc(before, key + entries, "]");
  }

  /** `run`: drive a reporter through one whole run. Every call ends
      normally, and the output is the text of the run's calls. */
  method Run(formatter: DefaultJson, files: seq<FileReport>) returns (r: Outcome)
    requires formatter.Valid()
    modifies formatter
    ensures formatter.Valid()
    ensures r == Ok
    ensures formatter.output == old(formatter.output) + Render(RunSteps(files))
    ensures formatter.output == old(formatter.output) + Serialize(ReportValue(files))
    ensures formatter.filesReportedCount == Some(|files|)
    ensures |files| == 0 ==> formatter.reportedErrorsCount == old(formatter.reportedErrorsCount)
    ensures |files| > 0 ==> formatter.reportedErrorsCount == Some(|files[|files| - 1].1|)
  {
    ghost var before := formatter.output;
    formatter.Start();
    r := Ok;
    assert files[..0] == [];
    assert Render([Open] + FilesSteps(files[..0])) == "{";
    var i := 0;
    while i < |files|
      invariant 0 <= i <= |files|
      invariant formatter.Valid()
      invariant r == Ok
      invariant formatter.filesReportedCount == Some(i)
      invariant i == 0 ==> formatter.reportedErrorsCount == old(formatter.reportedErrorsCount)
      invariant i > 0 ==> formatter.reportedErrorsCount == Some(|files[i - 1].1|)
      invariant formatter.output == before + Render([Open] + FilesSteps(files[..i]))
    {
      ghost var text := Render([Open] + FilesSteps(files[..i]));
      r := ReportFile(formatter, files[i], i);
      FileProgress(files, i);
      AppendAssoc(before, text, Render(FileSteps(files[i], i > 0)));
      i := i + 1;
    }
    assert files[..i] == files;
    ghost var text := Render([Open] + FilesSteps(files));
    formatter.Stop();
    RunProgress(files);
    AppendAssoc(before, text, "}");
    ReportText(files);
  }
}
