# pycomma `Comma` in Dafny

A model of the `Comma` class of pycomma (`pycomma/comma.py`): a table of
delimited text that starts empty and is filled once by `prepare`, which reads
the header (from the file's first line, or set beforehand with `set_header`)
and then one data row per remaining line; `to_json` turns the rows into one
dictionary per row keyed by the header names, and `show_file_dimensions`
reports the table's size.

Modules:

- `Errors`: the exceptions the class can raise (`NoHeader`, `ManualHeaderDisabled`,
  the `ValueError` of `str.split("")` as `EmptySeparator`, the `IndexError`
  of a short row as `IndexOutOfRange`, the `ValueError` of `readline()` on a
  closed file as `ClosedFile`), a `Result` and a `Status` type.
- `PyStr`: the Python built-ins the class relies on: `str.split(sep)`,
  `str.count(sep)`, `sep.join(...)` and `str.replace("\n", "")`.
- `TextFile`: the file object as its sequence of lines, a read cursor and a
  closed flag; `readline()` returns `""` at the end of the lines and raises
  once the file is closed. A real file never holds an empty line
  (`IsTextFile`); when the modelled lines do, the reading loop stops at it
  as it would at the end of the file.
- `Parsing`: the split-and-strip of one line and what the reading loop of
  `__extract_data_from_file` produces from the lines left in the file.
- `Records`: what `to_json` builds, as a function, with its properties.
- `PyComma`: `PrepareStep`, one call of `prepare` as a function of the
  configuration, the table and the file cursor, with the lifecycle lemmas;
  and the class `Comma`, whose methods are proved to do what `PrepareStep`,
  `ExtractData` and `ToJsonOf` say.
- `Scenarios`: clients of the class that replay the situations the
  repository's tests set up, proved from the class's contracts alone.

Where the tests and the code disagree, the model follows the code: a second
`prepare` is ignored and reports success (`pycomma/comma.py:58-59`), although
`pycomma/tests/test_prepare.py:28-29` expects it to raise; `set_header` with
`includes_header=False` stores the header even after `prepare`.

An empty delimiter is accepted by the constructor; Python's `str.split("")`
then raises `ValueError`. The model keeps that path: reading the header
consumes the first line and fails, and reading the data fails on the first
non-empty line (an empty file yields no rows and no error).

A successful `prepare` closes the file object (`pycomma/comma.py:36`). The
model keeps that state on the file, so a second `Comma` built on the same
file object raises at its first `readline()`.

## Model

| member | source | states |
|---|---|---|
| PyStr.SplitCount | pycomma/comma.py:23 | `split` yields exactly one more piece than there are non-overlapping occurrences of the delimiter |
| PyStr.JoinSplit | pycomma/comma.py:23 | joining the pieces of `split` with the delimiter gives the original string back |
| PyStr.SplitPiecesFree | pycomma/comma.py:23 | no piece of `split` contains the delimiter |
| PyStr.SplitFirstLeftmost | pycomma/comma.py:23 | matching is leftmost: when the delimiter occurs, the first piece is followed by it in the string and no occurrence starts inside the first piece (so `"aaa".split("aa")` is `["", "a"]`) |
| PyStr.SplitRest | pycomma/comma.py:23 | after the first piece and the delimiter that ends it, the remaining pieces are the split of the rest of the string, so together with the leftmost first piece every piece is determined |
| PyStr.LastPieceNonEmpty | pycomma/comma.py:23-24 | a line ending in a character outside the delimiter (such as its "\n") has a non-empty last piece |
| PyStr.SplitWithoutSeparator | pycomma/comma.py:23 | a string without the delimiter splits into the one-element list of itself |
| PyStr.ContainsChar | pycomma/comma.py:23 | for a one-character delimiter, substring containment is membership of the character |
| PyStr.RemoveNewlinesMeaning | pycomma/comma.py:24 | `replace("\n", "")` leaves no newline, never lengthens the string and keeps every other character's count |
| PyStr.RemoveNewlinesAppend | pycomma/comma.py:24 | removing newlines distributes over concatenation |
| PyStr.RemoveNewlinesNoop | pycomma/comma.py:24 | removing newlines from a string without any leaves it unchanged |
| TextFile.LineFile.ReadLine | pycomma/comma.py:22 | `readline()` returns the line under the cursor and advances past it, or returns "" at end of file and stays there; on a closed file it raises and the cursor stays |
| TextFile.LineFile.Close | pycomma/comma.py:36 | after `close()` the file is closed |
| Parsing.ParseLineFields | pycomma/comma.py:23-24 | a parsed line has one field per split piece (delimiter count + 1); every field but the last is the split piece unchanged and holds no delimiter; the last holds no "\n" |
| Parsing.ParseLineRejoin | pycomma/comma.py:31-32 | joining the fields with the delimiter reproduces the line, with "\n" removed from its final segment only |
| Parsing.ParseTextLineRejoin | pycomma/comma.py:31-32 | for a line as `readline()` returns it and a delimiter without "\n", the rejoined fields are the line without its terminator |
| Parsing.Consumed | pycomma/comma.py:29-34 | the loop never reads more lines than remain |
| Parsing.RowsReadAhead | pycomma/comma.py:29-34 | each `readline()` turns the rows owed for the lines from the cursor into the row of the line just read plus the rows of the lines after it |
| Parsing.ConsumedReadAhead | pycomma/comma.py:29-34 | each `readline()` moves one line from the lines still to be consumed to the cursor |
| Parsing.RowsUpToFirstEmpty | pycomma/comma.py:28-34 | the loop gives one row per line before the first "" in file order, each the parse of its line, and consumes the "" as well |
| Parsing.RowsOfTextFile | pycomma/comma.py:28-37 | on a text file the loop reads every remaining line: as many rows as remaining lines, row j the parse of line j, each rejoining to its line without the terminator |
| Records.RecordKeys | pycomma/comma.py:78-81 | the keys of a record are exactly the header names |
| Records.RecordAt | pycomma/comma.py:80-81 | a header name maps to the row's cell under its last occurrence, so a later duplicate overwrites an earlier one |
| Records.ToJsonMeaning | pycomma/comma.py:75-86 | `to_json` raises exactly when some row is shorter than the header; otherwise "headers" is the header, "data" has one record per row in order, keyed by the header names, each name mapped to the cell at its last index |
| Records.DistinctHeaderRecords | pycomma/comma.py:75-86 | with distinct header names and wide enough rows, record k maps `header[i]` to `data[k][i]` for every i |
| PyComma.ReadDataStep | pycomma/comma.py:54-56 | reading the data never moves the cursor backwards nor past the end of the file |
| PyComma.PrepareStep | pycomma/comma.py:39-59 | one call of `prepare` never moves the cursor backwards nor past the end of the file |
| PyComma.PrepareLifecycle | pycomma/comma.py:36-59 | a table is prepared after a call exactly when the call succeeded; a successful first call leaves the file closed; a call failing with one of the modelled errors leaves the table unchanged; a prepared table is left unchanged by every later call, which reports success |
| PyComma.PrepareNeedsHeader | pycomma/comma.py:43-47 | with `includes_header` false, `prepare` raises the no-header error if and only if the header is empty, and then changes neither table nor file |
| PyComma.PrepareOnClosedFile | pycomma/comma.py:22-36 | on a closed file, an unprepared table whose `prepare` gets as far as reading raises at `readline()` and nothing changes |
| PyComma.PrepareEmptyDelimiter | pycomma/comma.py:41-42 | with `includes_header` true and an empty delimiter, `prepare` consumes the header line, raises, and leaves the table as it was and the file open |
| PyComma.PrepareWithFileHeader | pycomma/comma.py:40-42 | with `includes_header` true, `prepare` sets the header to the parse of the first unread line, the data to the parses of all later lines in order, marks the table prepared, reads the file to its end and closes it, and the dimensions become (delimiter count of the header line + 1, number of later lines) |
| PyComma.PrepareWithManualHeader | pycomma/comma.py:43-56 | with `includes_header` false and a header set, `prepare` keeps that header, sets the data to the parses of all unread lines in order, and closes the file |
| PyComma.Comma.constructor | pycomma/comma.py:5-19 | the defaults are `includes_header=True`, `delimiter=","`, `console_mode=False`, and a new table is empty and unprepared |
| PyComma.Comma.ExtractHeaderFromFile | pycomma/comma.py:21-25 | reads exactly one line and returns its parse, or the `split` error for an empty delimiter, or the `readline()` error on a closed file |
| PyComma.Comma.ExtractDataFromFile | pycomma/comma.py:27-37 | the loop returns the rows `ExtractData` specifies for the unread lines, leaves the cursor after the lines it consumed and closes the file on success; on a closed file it raises at once |
| PyComma.Comma.ReadRowsFrom | pycomma/comma.py:30-34 | the `while line:` loop returns exactly the rows owed for the line it holds and the lines after the cursor (one parse per line, in order, up to the first "") and moves the cursor past the lines it consumed |
| PyComma.Comma.Prepare | pycomma/comma.py:39-59 | the new header, data, prepared flag, cursor, closed flag and outcome are exactly those of `PrepareStep` on the old state |
| PyComma.Comma.SetHeader | pycomma/comma.py:64-70 | with `includes_header` true it raises and keeps the header; otherwise it stores the given header, which `get_header` then returns unchanged |
| PyComma.Comma.ToJson | pycomma/comma.py:75-86 | the nested loops return exactly `ToJsonOf` of the header and data, raising on the first row shorter than the header |
| PyComma.Comma.ShowFileDimensions | pycomma/comma.py:88-89 | the dimensions are the number of header names and the number of data rows |
| Scenarios.PrepareWithEmptyManualHeader | pycomma/tests/test_prepare.py:41-50 | after `set_header([])`, `prepare` raises and the table stays unprepared with no data |
| Scenarios.PrepareTwice | pycomma/comma.py:58-59 | a second `prepare` reports success and leaves header, data and prepared flag as the first left them |
| Scenarios.SetHeaderWhenIncluded | pycomma/tests/test_header.py:20-23 | with the header read from the file, `set_header` raises and the header stays empty |
| Scenarios.SetThenGetHeader | pycomma/tests/test_header.py:25-29 | without a file header, `get_header` returns what `set_header` stored |
| Scenarios.ParseTwoFields | pycomma/comma.py:23-24 | a line `a,b`, with or without its terminator, parses to `[a, b]` |
| Scenarios.SplitAtFirstComma | pycomma/comma.py:23 | `"a,b".split(",")` is `[a, b]` when neither part holds a comma |
| Scenarios.TwoByTwoPrepared | pycomma/comma.py:39-59 | `prepare` on a header line and two data lines of two fields each yields that header, those two rows, the cursor at the end and the file closed |
| Scenarios.PrepareTwoByTwo | pycomma/comma.py:75-89 | on such a file the class reports the header, the two rows, dimensions 2 by 2, and JSON whose "headers" is the header and whose two records pair each column name with that row's cell |
| Scenarios.TwoColumnRecord | pycomma/comma.py:78-81 | the record of a two-cell row under a two-name header maps each name to its cell |
| Scenarios.SharedFile | pycomma/comma.py:36 | with two tables over one file object, the first `prepare` succeeds and closes the file, and the second raises at `readline()` and stays unprepared and empty |

`get_header` and `get_data` (`pycomma/comma.py:61-62`, `72-73`) are the
functions `GetHeader` and `GetData`; what they return is stated through
`SetHeader`, `ShowFileDimensions` and the scenarios.

## Left out

- `save_as_csv` and `save_as_json` (`pycomma/comma.py:91-104`): a stub and a file write through `open` and `json.dump`, which are I/O.
- The `print` notices (`pycomma/comma.py:57, 59`) and the `__main__` block: console output and a script entry point.
- `close()` (`pycomma/comma.py:36`) releases no operating-system resource in the model: it only sets the file's closed flag, which makes later `readline()` calls raise.
- SetHeader, GetHeader, GetData, ToJson: header and data are copied values, not lists shared with the caller. In Python `set_header` stores the caller's list object (`pycomma/comma.py:70`), `get_header` and `get_data` return the internal lists (`pycomma/comma.py:62, 73`) and `to_json` puts that same header list under "headers" (`pycomma/comma.py:76`). A caller that mutates such a list afterwards changes the table there, for example `h = []; c.set_header(h); h.append("id")` lets `prepare` pass the header check. The model does not capture this aliasing.
- The cache `self.__json` (`pycomma/comma.py:19, 85`): only `save_as_json` reads it.
- PyComma.PrepareLifecycle, TextFile.LineFile.ReadLine: `readline()` fails only on a closed file; its decoding errors (`UnicodeDecodeError` under `encoding="utf-8"`) and operating-system errors are not modelled. If one happened while the data is read (`pycomma/comma.py:29, 34`) with `includes_header` true, Python would leave the new header stored at `pycomma/comma.py:42`, `__prepared` false and the file open; the lemma's "a failed call leaves the table unchanged" covers only the modelled errors.
- Constructor arguments outside the Dafny types: `delimiter=None` (Python then splits on whitespace, and `headers[-1]` at `pycomma/comma.py:24` raises `IndexError` on a blank line) and a path string as `csv_file` (as `pycomma/tests/test_header.py:21, 27, 32` pass, which makes `prepare` raise `AttributeError` at `pycomma/comma.py:22`) cannot be written with `delimiter: string` and `file: LineFile`.
- The checks `self.__header is None` and `type(self.__header) is not list` (`pycomma/comma.py:44, 49`): a header of type `seq<string>` is always a list, so `set_header("random")` (`pycomma/tests/test_header.py:31-34`) cannot be expressed.
- `console_mode` is stored and never read by the class; the model stores it too.
- Dictionary key order: Python dicts keep insertion order, Dafny maps are unordered, so `to_json`'s records are modelled as maps without order.
- The methods the tests call that `comma.py` does not define (configuration, primary key, undo/history, `_to_json`, `_get_prepared` and the file hooks): there is no implementation to model.
