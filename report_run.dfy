/**
  A whole reporting run: `start`, then for each file `beginning`, `format`
  for each of its violations and `finished`, then `stop` (the order flake8
  drives a formatter in, and the order of `run` in
  tests/flake8_json_reporter_test.py). The pieces each call writes are
  given by position alone, independently of the reporter's counters; the
  driver below proves that the counters put every separator where the
  position says, and the lemmas prove that the pieces make up exactly what
  `json.dumps` would write for the whole report at once.
 */
module ReportRun {
  import opened Optional
  import opened JsonText
  import opened Reporters

  /** A file name with the violations reported for it, in order. */
  type FileReport = (string, seq<Violation>)

  /** One lifecycle call of a run; `separated` says whether what it writes
      starts with `", "`. */
  datatype Step =
    | Open
    | FileKey(filename: string, separated: bool)
    | Entry(violation: Violation, separated: bool)
    | CloseFile
    | Close

  /** What the call writes. */
  function StepText(step: Step): string
  {
    match step
    case Open => "{"
    case FileKey(filename, separated) => (if separated then ", " else "") + Quote(filename) + ": ["
    case Entry(violation, separated) => (if separated then ", " else "") + ViolationText(violation)
    case CloseFile => "]"
    case Close => "}"
  }

  /** What a sequence of calls writes, in order. */
  function Render(steps: seq<Step>): string
  {
    if |steps| == 0 then "" else StepText(steps[0]) + Render(steps[1..])
  }

  /** The `format` calls for a file's violations: every one but the first
      is separated. */
  function EntrySteps(violations: seq<Violation>): (steps: seq<Step>)
    ensures |steps| == |violations|
  {
    if |violations| == 0 then []
    else
      var n := |violations| - 1;
      EntrySteps(violations[..n]) + [Entry(violations[n], n > 0)]
  }

  /** The calls for one file. */
  function FileSteps(file: FileReport, separated: bool): seq<Step>
  {
    [FileKey(file.0, separated)] + EntrySteps(file.1) + [CloseFile]
  }

  /** The calls for all files: every file but the first is separated. */
  function FilesSteps(files: seq<FileReport>): seq<Step>
  {
    if |files| == 0 then []
    else
      var n := |files| - 1;
      FilesSteps(files[..n]) + FileSteps(files[n], n > 0)
  }

  /** The calls of a whole run. */
  function RunSteps(files: seq<FileReport>): seq<Step>
  {
    [Open] + FilesSteps(files) + [Close]
  }

  /** Writing two call sequences one after the other writes their texts
      one after the other. */
  lemma {:induction false} RenderAppend(a: seq<Step>, b: seq<Step>)
    ensures Render(a + b) == Render(a) + Render(b)
    decreases |a|
  {
    if |a| == 0 {
      assert a + b == b;
    } else {
      assert (a + b)[1..] == a[1..] + b;
      RenderAppend(a[1..], b);
    }
  }

  lemma RenderOne(step: Step)
    ensures Render([step]) == StepText(step)
  {
  }

  lemma AppendAssoc(a: string, b: string, c: string)
    ensures a + b + c == a + (b + c)
  {
  }

  /** What `beginning` appends is the text of a file key. */
  lemma KeyText(before: string, filename: string, separated: bool)
    ensures before + (if separated then ", " else "") + Quote(filename) + ": ["
         == before + StepText(FileKey(filename, separated))
  {
    AppendAssoc(before, (if separated then ", " else "") + Quote(filename), ": [");
    AppendAssoc(before, if separated then ", " else "", Quote(filename));
  }

  /** What `format` appends is the text of an entry. */
  lemma EntryText(before: string, violation: Violation, separated: bool)
    ensures before + (if separated then ", " else "") + ViolationText(violation)
         == before + StepText(Entry(violation, separated))
  {
    AppendAssoc(before, if separated then ", " else "", ViolationText(violation));
  }

  /** Writing one more `format` call of a file. */
  lemma {:induction false} EntryProgress(violations: seq<Violation>, n: nat)
    requires n < |violations|
    ensures Render(EntrySteps(violations[..n + 1]))
         == Render(EntrySteps(violations[..n])) + StepText(Entry(violations[n], n > 0))
  {
    assert violations[..n + 1][..n] == violations[..n];
    var last := Entry(violations[n], n > 0);
    RenderAppend(EntrySteps(violations[..n]), [last]);
    RenderOne(last);
  }

  /** A file writes its key, its violations and the closing bracket. */
  lemma {:induction false} FileText(file: FileReport, separated: bool)
    ensures Render(FileSteps(file, separated))
         == StepText(FileKey(file.0, separated)) + Render(EntrySteps(file.1)) + "]"
  {
    var key := FileKey(file.0, separated);
    assert FileSteps(file, separated) == [key] + (EntrySteps(file.1) + [CloseFile]);
    RenderAppend([key], EntrySteps(file.1) + [CloseFile]);
    RenderAppend(EntrySteps(file.1), [CloseFile]);
    RenderOne(key);
    RenderOne(CloseFile);
  }

  /** Writing one more file. */
  lemma {:induction false} FileProgress(files: seq<FileReport>, n: nat)
    requires n < |files|
    ensures Render([Open] + FilesSteps(files[..n + 1]))
         == Render([Open] + FilesSteps(files[..n])) + Render(FileSteps(files[n], n > 0))
  {
    assert files[..n + 1][..n] == files[..n];
    assert [Open] + FilesSteps(files[..n + 1]) == ([Open] + FilesSteps(files[..n])) + FileSteps(files[n], n > 0);
    RenderAppend([Open] + FilesSteps(files[..n]), FileSteps(files[n], n > 0));
  }

  /** The whole run writes the files' text, then the closing brace. */
  lemma {:induction false} RunProgress(files: seq<FileReport>)
    ensures Render(RunSteps(files)) == Render([Open] + FilesSteps(files)) + "}"
  {
    RenderAppend([Open] + FilesSteps(files), [Close]);
    RenderOne(Close);
  }

  /** The run of no files writes an empty object. */
  lemma EmptyRun()
    ensures Render(RunSteps([])) == "{}"
  {
    RunProgress([]);
    RenderOne(Open);
  }

  /** A call that starts its list entry with a `", "` between files. */
  predicate IsFileSeparator(step: Step)
  {
    step.FileKey? && step.separated
  }

  /** A call that starts its list entry with a `", "` between violations. */
  predicate IsEntrySeparator(step: Step)
  {
    step.Entry? && step.separated
  }

  /** How many of the calls satisfy `p`. */
  function Count(steps: seq<Step>, p: Step -> bool): nat
  {
    if |steps| == 0 then 0 else (if p(steps[0]) then 1 else 0) + Count(steps[1..], p)
  }

  lemma {:induction false} CountAppend(a: seq<Step>, b: seq<Step>, p: Step -> bool)
    ensures Count(a + b, p) == Count(a, p) + Count(b, p)
    decreases |a|
  {
    if |a| == 0 {
      assert a + b == b;
    } else {
      assert (a + b)[1..] == a[1..] + b;
      CountAppend(a[1..], b, p);
    }
  }

  lemma CountOne(step: Step, p: Step -> bool)
    ensures Count([step], p) == if p(step) then 1 else 0
  {
    assert [step][1..] == [];
  }

  /** M violations of a file are written with exactly M - 1 separators,
      and no file separator. */
  lemma {:induction false} EntrySeparatorCount(violations: seq<Violation>)
    ensures Count(EntrySteps(violations), IsEntrySeparator) == if |violations| == 0 then 0 else |violations| - 1
    ensures Count(EntrySteps(violations), IsFileSeparator) == 0
    decreases |violations|
  {
    if |violations| > 0 {
      var n := |violations| - 1;
      var last := Entry(violations[n], n > 0);
      EntrySeparatorCount(violations[..n]);
      CountAppend(EntrySteps(violations[..n]), [last], IsEntrySeparator);
      CountAppend(EntrySteps(violations[..n]), [last], IsFileSeparator);
      CountOne(last, IsEntrySeparator);
      CountOne(last, IsFileSeparator);
    }
  }

  /** The calls for one file hold exactly the separators of its
      violations, and a file separator exactly when the file is separated. */
  lemma {:induction false} FileSeparatorCounts(file: FileReport, separated: bool)
    ensures Count(FileSteps(file, separated), IsEntrySeparator) == if |file.1| == 0 then 0 else |file.1| - 1
    ensures Count(FileSteps(file, separated), IsFileSeparator) == if separated then 1 else 0
  {
    var key := FileKey(file.0, separated);
    assert FileSteps(file, separated) == [key] + (EntrySteps(file.1) + [CloseFile]);
    EntrySeparatorCount(file.1);
    CountAppend([key], EntrySteps(file.1) + [CloseFile], IsEntrySeparator);
    CountAppend([key], EntrySteps(file.1) + [CloseFile], IsFileSeparator);
    CountAppend(EntrySteps(file.1), [CloseFile], IsEntrySeparator);
    CountAppend(EntrySteps(file.1), [CloseFile], IsFileSeparator);
    CountOne(key, IsEntrySeparator);
    CountOne(key, IsFileSeparator);
    CountOne(CloseFile, IsEntrySeparator);
    CountOne(CloseFile, IsFileSeparator);
  }

  /** N files are written with exactly N - 1 file separators. */
  lemma {:induction false} FilesSeparatorCount(files: seq<FileReport>)
    ensures Count(FilesSteps(files), IsFileSeparator) == if |files| == 0 then 0 else |files| - 1
    decreases |files|
  {
    if |files| > 0 {
      var n := |files| - 1;
      FilesSeparatorCount(files[..n]);
      CountAppend(FilesSteps(files[..n]), FileSteps(files[n], n > 0), IsFileSeparator);
      FileSeparatorCounts(files[n], n > 0);
    }
  }

  /** A whole run over N files writes exactly N - 1 file separators. */
  lemma RunSeparatorCount(files: seq<FileReport>)
    ensures Count(RunSteps(files), IsFileSeparator) == if |files| == 0 then 0 else |files| - 1
  {
    FilesSeparatorCount(files);
    CountAppend([Open] + FilesSteps(files), [Close], IsFileSeparator);
    CountAppend([Open], FilesSteps(files), IsFileSeparator);
    CountOne(Open, IsFileSeparator);
    CountOne(Close, IsFileSeparator);
  }
}
