/**
  The document a run writes, taken as a whole. Written call by call, a run
  comes out exactly as `json.dumps` of one dict that maps each file name to
  the list of its violations' dicts, so reading the output back as JSON
  gives every file with every violation, in order.
 */
module ReportDocument {
  import opened Optional
  import opened JsonText
  import opened JsonReader
  import opened JsonRoundTrip
  import opened Reporters
  import opened ReportRun

  /** The dict `dictionary_from` returns, as a JSON value. */
  function ViolationValue(v: Violation): Value
  {
    Object(DictionaryFrom(v))
  }

  /** The list of a file's violation dicts. */
  function ViolationValues(violations: seq<Violation>): (r: seq<Value>)
    ensures |r| == |violations|
  {
    seq(|violations|, j requires 0 <= j < |violations| => ViolationValue(violations[j]))
  }

  /** A file's member of the report: its name mapped to its list. */
  function FileMember(file: FileReport): (string, Value)
  {
    (file.0, Array(ViolationValues(file.1)))
  }

  function ReportMembers(files: seq<FileReport>): (r: seq<(string, Value)>)
    ensures |r| == |files|
  {
    seq(|files|, i requires 0 <= i < |files| => FileMember(files[i]))
  }

  /** The whole report as one JSON value. */
  function ReportValue(files: seq<FileReport>): Value
  {
    Object(ReportMembers(files))
  }

  /** The `format` calls of a file write its violations' texts joined
      by `", "`. */
  lemma {:induction false} EntriesText(violations: seq<Violation>)
    ensures Render(EntrySteps(violations)) == Join(ItemTexts(ViolationValues(violations)), ", ")
    decreases |violations|
  {
    if |violations| == 0 {
      assert ItemTexts(ViolationValues(violations)) == [];
    } else {
      var n := |violations| - 1;
      var parts := ItemTexts(ViolationValues(violations[..n]));
      var p := ViolationText(violations[n]);
      assert ItemTexts(ViolationValues(violations)) == parts + [p];
      EntriesText(violations[..n]);
      EntryProgress(violations, n);
      assert violations[..n + 1] == violations;
      if n == 0 {
        assert parts == [];
        assert [] + [p] == [p];
      } else {
        JoinAppend(parts, p, ", ");
        AppendAssoc(Join(parts, ", "), ", ", p);
      }
    }
  }

  lemma FileMemberRegroup(separator: string, key: string, entries: string)
    ensures separator + key + ": [" + entries + "]" == separator + (key + ": " + ("[" + entries + "]"))
  {
    assert ": [" == ": " + "[";
  }

  /** The calls for one file write its member of the report, after a
      separator when the file is not the first. */
  lemma FileMemberText(file: FileReport, separated: bool)
    ensures Render(FileSteps(file, separated)) == (if separated then ", " else "") + MemberText(FileMember(file))
  {
    FileText(file, separated);
    EntriesText(file.1);
    FileMemberRegroup(if separated then ", " else "", Quote(file.0), Render(EntrySteps(file.1)));
  }

  /** The calls for all files write the report's members joined by `", "`. */
  lemma {:induction false} FilesText(files: seq<FileReport>)
    ensures Render(FilesSteps(files)) == Join(MemberTexts(ReportMembers(files)), ", ")
    decreases |files|
  {
    if |files| == 0 {
      assert MemberTexts(ReportMembers(files)) == [];
    } else {
      var n := |files| - 1;
      var parts := MemberTexts(ReportMembers(files[..n]));
      var p := MemberText(FileMember(files[n]));
      assert MemberTexts(ReportMembers(files)) == parts + [p];
      FilesText(files[..n]);
      RenderAppend(FilesSteps(files[..n]), FileSteps(files[n], n > 0));
      FileMemberText(files[n], n > 0);
      if n == 0 {
        assert parts == [];
        assert [] + [p] == [p];
      } else {
        JoinAppend(parts, p, ", ");
        AppendAssoc(Join(parts, ", "), ", ", p);
      }
    }
  }

  /** Streaming the report call by call writes exactly what `json.dumps`
      writes for the whole report at once. */
  lemma ReportText(files: seq<FileReport>)
    ensures Render(RunSteps(files)) == Serialize(ReportValue(files))
  {
    FilesText(files);
    RunProgress(files);
    RenderAppend([Open], FilesSteps(files));
    RenderOne(Open);
  }

  /** The violation a dict describes, when it has exactly the keys of
      `dictionary_from`, in its order, with values of the right types. */
  function ViolationOf(d: seq<(string, Value)>): Option<Violation>
  {
    if && |d| == 6
       && d[0].0 == "code" && d[0].1.Str?
       && d[1].0 == "filename" && d[1].1.Str?
       && d[2].0 == "line_number" && d[2].1.Int?
       && d[3].0 == "column_number" && d[3].1.Int?
       && d[4].0 == "text" && d[4].1.Str?
       && d[5].0 == "physical_line" && d[5].1.Str?
    then Some(Violation(d[0].1.s, d[1].1.s, d[2].1.n, d[3].1.n, d[4].1.s, d[5].1.s))
    else None
  }

  /** The violations a list of dicts describes. */
  function ViolationsOf(items: seq<Value>): Option<seq<Violation>>
  {
    if |items| == 0 then Some([])
    else if !items[0].Object? then None
    else
      match (ViolationOf(items[0].members), ViolationsOf(items[1..]))
      case (Some(v), Some(vs)) => Some([v] + vs)
      case _ => None
  }

  /** The files a report's members describe. */
  function FilesOf(members: seq<(string, Value)>): Option<seq<FileReport>>
  {
    if |members| == 0 then Some([])
    else if !members[0].1.Array? then None
    else
      match (ViolationsOf(members[0].1.items), FilesOf(members[1..]))
      case (Some(vs), Some(files)) => Some([(members[0].0, vs)] + files)
      case _ => None
  }

  /** The files a report describes. */
  function ReportOf(report: Value): Option<seq<FileReport>>
  {
    if report.Object? then FilesOf(report.members) else None
  }

  /** Reads a report back from the text of a run. */
  function ReadReport(text: string): Option<seq<FileReport>>
  {
    match ReadDocument(text)
    case None => None
    case Some(report) => ReportOf(report)
  }

  /** A dict describes a violation if and only if it is that violation's
      `dictionary_from`. */
  lemma ViolationOfDictionary(d: seq<(string, Value)>, v: Violation)
    ensures ViolationOf(d) == Some(v) <==> d == DictionaryFrom(v)
  {
    if ViolationOf(d) == Some(v) {
      assert d == DictionaryFrom(v);
    }
  }

  lemma {:induction false} ViolationsOfValues(violations: seq<Violation>)
    ensures ViolationsOf(ViolationValues(violations)) == Some(violations)
    decreases |violations|
  {
    if |violations| > 0 {
      assert ViolationValues(violations)[1..] == ViolationValues(violations[1..]);
      ViolationsOfValues(violations[1..]);
      ViolationOfDictionary(DictionaryFrom(violations[0]), violations[0]);
      assert [violations[0]] + violations[1..] == violations;
    }
  }

  lemma {:induction false} FilesOfMembers(files: seq<FileReport>)
    ensures FilesOf(ReportMembers(files)) == Some(files)
    decreases |files|
  {
    if |files| > 0 {
      assert ReportMembers(files)[1..] == ReportMembers(files[1..]);
      FilesOfMembers(files[1..]);
      ViolationsOfValues(files[0].1);
      assert [(files[0].0, files[0].1)] + files[1..] == files;
    }
  }

  /** Whatever files and violations a run reports, reading its output
      back as JSON gives them all again, in order. */
  lemma ReadRunOutput(files: seq<FileReport>)
    ensures ReadReport(Render(RunSteps(files))) == Some(files)
  {
    ReportText(files);
    ReadDocumentSerialize(ReportValue(files));
    FilesOfMembers(files);
  }
}
