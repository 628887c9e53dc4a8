# flake8-json: the compact JSON reporter

flake8-json adds JSON output formats to flake8. This project models its
compact reporter, `DefaultJSON` (src/flake8_json_reporter/reporters.py).
flake8 drives a reporter through a fixed sequence of calls: `start`, then
for each checked file `beginning`, `format` once per violation and
`finished`, then `stop`. The reporter streams one JSON object to its sink.
The object maps each file name to the list of that file's violations, and
each violation is a dict with six keys. The reporter never holds the
document. It keeps only two counters, and they decide where a `", "`
separator goes. `after_init` forces the line ending to be empty, so the
output is the plain concatenation of the fragments written.

The model has these modules:

- `JsonText` (json_text.dfy): `json.dumps` with Python's default settings
  for strings, integers, lists and dicts. Defaults means `ensure_ascii`
  escapes with lower-case hex, surrogate pairs above U+FFFF, and the
  separators `", "` and `": "`. `Optional` is the `Option` type.
- `JsonReader` and `JsonRoundTrip` (json_reader.dfy, json_round_trip.dfy): a
  reader for that compact layout only: no whitespace besides the `", "`
  and `": "` separators, integers as in section 6 of RFC 8259 (no
  fraction or exponent), and the string escapes of section 7 except a
  lone surrogate escape, which it refuses. The round-trip lemmas prove that
  reading serialised text gives the value back. This makes the reader an
  independent partner of `json.dumps`.
- `Reporters` (reporters.dfy): the `Violation` record, `dictionary_from`,
  and the class `DefaultJson` with one method per lifecycle call. The sink
  is the string field `output`. A counter that Python has not yet assigned
  is `None`. Reading it returns the `AttributeError` outcome, and nothing
  is written.
- `ReportRun` (report_run.dfy): what a whole run writes, call by call, as a
  sequence of `Step`s. Whether a step starts with `", "` depends only on
  its position, not on any counter. It also proves the separator counts.
- `ReportDocument` (report_document.dfy): the report as one JSON value. It
  proves that the streamed text equals `json.dumps` of that value. It also
  proves that reading the text back gives every file and violation again,
  in order.
- `ReportDriver` (report_driver.dfy): the `run` driver of the test module.
  It is proved to leave exactly that text in the sink, and every call ends
  normally.

## Model

| member | source | states |
|---|---|---|
| `Reporters.DictionaryFrom` | src/flake8_json_reporter/reporters.py:50-62 | exactly six entries with keys `code`, `filename`, `line_number`, `column_number`, `text`, `physical_line` in that order, each value copied unchanged from the violation |
| `Reporters.DefaultJson.constructor` | src/flake8_json_reporter/reporters.py:12-14 | after construction, which ends with `after_init`, the line ending is empty whatever the base formatter chose; the sink is empty and neither counter is set |
| `Reporters.DefaultJson.AfterInit` | src/flake8_json_reporter/reporters.py:12-14 | the line ending becomes `''` |
| `Reporters.DefaultJson.WriteLine` | src/flake8_json_reporter/reporters.py:16-24 | the line followed by the line ending is appended to the sink; nothing already written changes |
| `Reporters.DefaultJson.Start` | src/flake8_json_reporter/reporters.py:26-30 | appends exactly `{` and sets the file counter to 0 |
| `Reporters.DefaultJson.Stop` | src/flake8_json_reporter/reporters.py:32-34 | appends exactly `}`; no counter changes |
| `Reporters.DefaultJson.Beginning` | src/flake8_json_reporter/reporters.py:36-43 | appends `json.dumps(filename) + ": ["`, with `", "` before it if and only if the file counter is positive; resets the violation counter to 0 and keeps the file counter; with no file counter set it raises `AttributeError` and writes nothing |
| `Reporters.DefaultJson.Finished` | src/flake8_json_reporter/reporters.py:45-48 | adds exactly 1 to the file counter and appends exactly `]`; the violation counter is untouched; with no file counter set it raises `AttributeError` and writes nothing |
| `Reporters.DefaultJson.Format` | src/flake8_json_reporter/reporters.py:64-71 | appends `json.dumps(dictionary_from(v))`, with `", "` before it if and only if the violation counter is positive, and adds exactly 1 to that counter; before any `beginning` it raises `AttributeError` and writes nothing |
| `ReportDriver.ReportViolations` | tests/flake8_json_reporter_test.py:33-34 | the `format` calls for one file append its violations' texts, each after the first preceded by `", "`; the violation counter ends at the number of violations |
| `ReportDriver.ReportFile` | tests/flake8_json_reporter_test.py:31-35 | `beginning`, the `format` calls and `finished` for the i-th file append that file's steps, with a leading `", "` exactly when i > 0, and leave the file counter at i + 1 and the violation counter at the file's number of violations |
| `ReportDriver.Run` | tests/flake8_json_reporter_test.py:29-36 | a whole run raises nothing, appends exactly the text of its steps, which is `json.dumps` of the whole report dict, leaves the file counter at the number of files, and leaves the violation counter at the last file's number of violations (unchanged when there are no files) |
| `ReportRun.EmptyRun` | src/flake8_json_reporter/reporters.py:26-34 | a run with no files writes exactly `{}` |
| `ReportRun.EntrySeparatorCount` | src/flake8_json_reporter/reporters.py:64-71 | a file with M violations gets exactly M - 1 violation separators (none when M = 0) and no file separator |
| `ReportRun.FileSeparatorCounts` | src/flake8_json_reporter/reporters.py:36-71 | the calls for one file carry exactly its M - 1 violation separators, and a file separator exactly when the file is not the first |
| `ReportRun.FilesSeparatorCount` | src/flake8_json_reporter/reporters.py:36-48 | N files get exactly N - 1 file separators |
| `ReportRun.RunSeparatorCount` | src/flake8_json_reporter/reporters.py:26-48 | a whole run over N files, including `{` and `}`, has exactly N - 1 file separators (none when N = 0) |
| `ReportDocument.EntriesText` | src/flake8_json_reporter/reporters.py:64-71 | the `format` calls of a file write the same text as `", ".join` of the violations' `json.dumps` |
| `ReportDocument.FileMemberText` | src/flake8_json_reporter/reporters.py:36-48 | the calls for one file write exactly its `"name": [...]` member of the report dict, after `", "` when it is not the first |
| `ReportDocument.FilesText` | src/flake8_json_reporter/reporters.py:36-48 | the calls for all files write the report's members joined by `", "` |
| `ReportDocument.ReportText` | src/flake8_json_reporter/reporters.py:26-71 | streaming a run call by call writes exactly `json.dumps` of the dict mapping each file name to the list of its violation dicts |
| `ReportDocument.ViolationOfDictionary` | src/flake8_json_reporter/reporters.py:50-62 | a dict describes a violation if and only if it is that violation's `dictionary_from`, so no two violations share a dict |
| `ReportDocument.ViolationsOfValues` | src/flake8_json_reporter/reporters.py:66 | a list of violation dicts is read back as the same violations, in order |
| `ReportDocument.FilesOfMembers` | src/flake8_json_reporter/reporters.py:36-48 | the report's members are read back as the same files with the same violations, in order |
| `ReportDocument.ReadRunOutput` | src/flake8_json_reporter/reporters.py:26-71 | reading a run's output back as JSON gives every file with every violation, in order |
| `JsonText.QuoteIsAscii` | src/flake8_json_reporter/reporters.py:38 | with the default `ensure_ascii`, `json.dumps` of a file name is printable ASCII throughout |
| `JsonRoundTrip.ReadQuote` | src/flake8_json_reporter/reporters.py:38 | the quoted, escaped form of any string reads back as the same string, leaving what follows untouched |
| `JsonRoundTrip.ReadIntToString` | src/flake8_json_reporter/reporters.py:66 | the decimal form of any integer reads back as the same integer |
| `JsonRoundTrip.ReadSerialize` | src/flake8_json_reporter/reporters.py:66 | the text of any value reads back as the same value, leaving what follows untouched |
| `JsonRoundTrip.ReadDocumentSerialize` | src/flake8_json_reporter/reporters.py:66 | the text of any value is a whole JSON document that reads back as that value |

## Left out

- `_write` (reporters.py:16-20): the choice between the output file and
  standard output, and the `tee` copy, are I/O. The sink is one string
  that every write appends to.
- `BaseFormatter.start` and `BaseFormatter.write` (called at reporters.py:28
  and :24) are flake8 code outside this repository and are not part of this
  model. `write_line` is modelled as appending the line and the line ending.
- `json.dumps` is modelled only for the values a report holds: strings,
  integers, lists and dicts, with Python's default settings. Floats, `None`,
  other settings and `json`'s internals are not modelled.
- `JsonText.Quote`, `Reporters.Violation`: a Dafny `string` holds only
  Unicode scalar values, so a Python `str` holding a lone surrogate is
  outside the model. One arises, for instance, from a file name decoded
  with `surrogateescape`, which `json.dumps` writes as a lone `\udcXX`
  escape; the reader above refuses such an escape too.
- `Reporters.Violation`: `physical_line` is a string. flake8 may pass
  `None` for it, which `json.dumps` writes as `null`; that case is not
  modelled.
- `ReportDriver.Run`: it takes the files as a sequence of pairs. The test
  passes a dict, whose keys are distinct; the model also allows a repeated
  file name.
- `FormattedJSON`, the indented layout, is imported by the test module but
  its source is not part of this model. The CodeClimate reporter is not
  part of it either.
- setup.py is packaging only.
