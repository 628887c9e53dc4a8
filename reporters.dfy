/**
  The compact JSON reporter of flake8-json (`DefaultJSON` in
  src/flake8_json_reporter/reporters.py). It writes one JSON object, keyed by
  file name, whose values are lists of violation objects, and it writes it
  piece by piece as flake8 reports, without holding the document: the only
  state is two counters that decide where a `", "` separator goes.
 */
module Reporters {
  import opened Optional
  import opened JsonText

  /** A violation as flake8 hands it to the reporter. */
  datatype Violation = Violation(
    code: string,
    filename: string,
    lineNumber: int,
    columnNumber: int,
    text: string,
    physicalLine: string)

  /** The attributes `dictionary_from` copies, in the order it lists them. */
  const AttributeNames: seq<string> :=
    ["code", "filename", "line_number", "column_number", "text", "physical_line"]

  /** `getattr(violation, name)` for the attributes above, as JSON values. */
  function Attribute(v: Violation, name: string): Value
    requires name in AttributeNames
  {
    if name == "code" then Str(v.code)
    else if name == "filename" then Str(v.filename)
    else if name == "line_number" then Int(v.lineNumber)
    else if name == "column_number" then Int(v.columnNumber)
    else if name == "text" then Str(v.text)
    else Str(v.physicalLine)
  }

  /** `dictionary_from`: a dict with the six attributes as keys, in the
      order listed, each mapped to the violation's value unchanged. */
  function DictionaryFrom(v: Violation): (d: seq<(string, Value)>)
    ensures d == [
      ("code", Str(v.code)),
      ("filename", Str(v.filename)),
      ("line_number", Int(v.lineNumber)),
      ("column_number", Int(v.columnNumber)),
      ("text", Str(v.text)),
      ("physical_line", Str(v.physicalLine))]
  {
    seq(|AttributeNames|, i requires 0 <= i < |AttributeNames| =>
      (AttributeNames[i], Attribute(v, AttributeNames[i])))
  }

  /** What `format` writes for a violation, before any separator. */
  function ViolationText(v: Violation): string
  {
    Serialize(Object(DictionaryFrom(v)))
  }

  /** How a lifecycle call ends: normally, or with the `AttributeError`
      Python raises when it reads a counter that was never set. */
  datatype Outcome = Ok | AttributeError(attribute: string)

  /** `DefaultJSON`. The sink (a file or standard output) is the string
      `output`; every write appends to it. A counter is `None` until the
      call that first assigns it has run. */
  class DefaultJson {
    var newline: string
    var output: string
    var filesReportedCount: Option<nat>
    var reportedErrorsCount: Option<nat>

    /** After construction the line ending is empty, so the output is the
        plain concatenation of what was written. */
    ghost predicate Valid()
      reads this
    {
      newline == ""
    }

    /** A new reporter whose base formatter chose `baseNewline`; the base
        constructor ends by calling `after_init`. */
    constructor (baseNewline: string)
      ensures Valid()
      ensures output == ""
      ensures filesReportedCount == None && reportedErrorsCount == None
    {
      newline := baseNewline;
      output := "";
      filesReportedCount := None;
      reportedErrorsCount := None;
      new;
      AfterInit();
    }

    /** `after_init`: force the line ending to be empty. */
    method AfterInit()
      modifies this`newline
      ensures newline == ""
    {
      newline := "";
    }

    /** `write_line`: the line and the line ending go to the sink. */
    method WriteLine(line: string)
      modifies this`output
      ensures output == old(output) + line + newline
    {
      output := output + line + newline;
    }

    /** `start`: open the document and set the file counter to zero. */
    method Start()
      requires Valid()
      modifies this`output, this`filesReportedCount
      ensures Valid()
      ensures output == old(output) + "{"
      ensures filesReportedCount == Some(0)
    {
      WriteLine("{");
      filesReportedCount := Some(0);
    }

    /** `stop`: close the document; no counter changes. */
    method Stop()
      requires Valid()
      modifies this`output
      ensures Valid()
      ensures output == old(output) + "}"
    {
      WriteLine("}");
    }

    /** `beginning`: write the file's key and open its list, after a
        separator if and only if a file was finished before; reset the
        violation counter. Before `start` there is no file counter. */
    method Beginning(filename: string) returns (r: Outcome)
      requires Valid()
      modifies this`output, this`reportedErrorsCount
      ensures Valid()
      ensures filesReportedCount == old(filesReportedCount)
      ensures old(filesReportedCount).None? ==>
        && r == AttributeError("files_reported_count")
        && output == old(output)
        && reportedErrorsCount == old(reportedErrorsCount)
      ensures old(filesReportedCount).Some? ==>
        && r == Ok
        && output == old(output) + (if old(filesReportedCount).value > 0 then ", " else "") + Quote(filename) + ": ["
        && reportedErrorsCount == Some(0)
    {
      var jsonFilename := Quote(filename);
      if filesReportedCount.None? {
        return AttributeError("files_reported_count");
      }
      if filesReportedCount.value > 0 {
        WriteLine(", " + jsonFilename + ": [");
      } else {
        WriteLine(jsonFilename + ": [");
      }
      reportedErrorsCount := Some(0);
      r := Ok;
    }

    /** `finished`: count the file, then close its list. The violation
        counter is untouched. */
    method Finished(filename: string) returns (r: Outcome)
      requires Valid()
      modifies this`output, this`filesReportedCount
      ensures Valid()
      ensures reportedErrorsCount == old(reportedErrorsCount)
      ensures old(filesReportedCount).None? ==>
        && r == AttributeError("files_reported_count")
        && output == old(output)
        && filesReportedCount == old(filesReportedCount)
      ensures old(filesReportedCount).Some? ==>
        && r == Ok
        && output == old(output) + "]"
        && filesReportedCount == Some(old(filesReportedCount).value + 1)
    {
      if filesReportedCount.None? {
        return AttributeError("files_reported_count");
      }
      filesReportedCount := Some(filesReportedCount.value + 1);
      WriteLine("]");
      r := Ok;
    }

    /** `format`: write the violation as a JSON object, after a separator
        if and only if the file already has a violation; count it. Before
        any `beginning` there is no violation counter. */
    method Format(violation: Violation) returns (r: Outcome)
      requires Valid()
      modifies this`output, this`reportedErrorsCount
      ensures Valid()
      ensures filesReportedCount == old(filesReportedCount)
      ensures old(reportedErrorsCount).None? ==>
        && r == AttributeError("reported_errors_count")
        && output == old(output)
        && reportedErrorsCount == old(reportedErrorsCount)
      ensures old(reportedErrorsCount).Some? ==>
        && r == Ok
        && output == old(output) + (if old(reportedErrorsCount).value > 0 then ", " else "") + ViolationText(violation)
        && reportedErrorsCount == Some(old(reportedErrorsCount).value + 1)
    {
      var formatted := Serialize(Object(DictionaryFrom(violation)));
      if reportedErrorsCount.None? {
        return AttributeError("reported_errors_count");
      }
      if reportedErrorsCount.value > 0 {
        WriteLine(", " + formatted);
      } else {
        WriteLine(formatted);
      }
      reportedErrorsCount := Some(reportedErrorsCount.value + 1);
      r := Ok;
    }
  }
}
