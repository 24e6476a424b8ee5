/**
  The `Comma` class of pycomma/comma.py: a delimited-text table that is
  empty until `prepare` reads it from its file once, with its header either
  read from the file's first line or set beforehand by `set_header`.

  `PrepareStep` states what one call of `prepare` does to the table and to
  the file's cursor and closed flag; the lemmas after it state the lifecycle that follows,
  and the class's methods are proved to do exactly what it says.
 */
module PyComma {
  import opened Errors
  import opened TextFile
  import opened Parsing
  import Records
  import PyStr

  /** The constructor arguments that `prepare` and `set_header` consult. */
  datatype Config = Config(includesHeader: bool, delimiter: string)

  /** The fields `__header`, `__data` and `__prepared`. */
  datatype Table = Table(header: seq<string>, data: seq<seq<string>>, prepared: bool)

  /** The table, the file's cursor and closed flag after a call, and how the call ended. */
  datatype After = After(table: Table, pos: nat, closed: bool, status: Status)

  /** `{"columns": ..., "rows": ...}`. */
  datatype Dimensions = Dimensions(columns: nat, rows: nat)

  /** What `show_file_dimensions` reports for a table. */
  function DimensionsOf(t: Table): Dimensions {
    Dimensions(|t.header|, |t.data|)
  }

  /**
    comma.py:54-56: read the remaining lines as data, which closes the file
    (comma.py:36), and mark the table prepared. A closed file raises at the
    first `readline()`.
   */
  function ReadDataStep(d: string, t: Table, lines: seq<string>, pos: nat, closed: bool): (a: After)
    requires pos <= |lines|
    ensures pos <= a.pos <= |lines|
  {
    if closed then After(t, pos, closed, Failed(ClosedFile))
    else
      var rem := lines[pos..];
      match ExtractData(rem, d)
      case Ok(rows) => After(t.(data := rows, prepared := true), pos + Consumed(rem), true, Done)
      case Err(e) => After(t, pos + 1, false, Failed(e))
  }

  /**
    One call of `prepare` (comma.py:39-59) on table `t`, with the file's
    cursor at `pos` and the file closed or not.
   */
  function PrepareStep(cfg: Config, t: Table, lines: seq<string>, pos: nat, closed: bool): (a: After)
    requires pos <= |lines|
    ensures pos <= a.pos <= |lines|
  {
    if t.prepared then After(t, pos, closed, Done)
    else if cfg.includesHeader then
      if closed then After(t, pos, closed, Failed(ClosedFile))
      else
        var next := NextPos(lines, pos);
        if |cfg.delimiter| == 0 then After(t, next, false, Failed(EmptySeparator))
        else ReadDataStep(cfg.delimiter, t.(header := ParseLine(LineAt(lines, pos), cfg.delimiter)), lines, next, false)
    else if |t.header| == 0 then After(t, pos, closed, Failed(NoHeader))
    else ReadDataStep(cfg.delimiter, t, lines, pos, closed)
  }

  /**
    The lifecycle: a table is prepared after a call exactly when the call
    succeeded; a successful first call closes the file; a failed call leaves
    the table as it was, so it stays unprepared with its data unchanged; and
    once prepared, every further call changes nothing and reports success.
   */
  lemma PrepareLifecycle(cfg: Config, t: Table, lines: seq<string>, pos: nat, closed: bool)
    requires pos <= |lines|
    ensures var a := PrepareStep(cfg, t, lines, pos, closed);
            && (t.prepared ==> a == After(t, pos, closed, Done))
            && (a.table.prepared <==> a.status == Done)
            && (!t.prepared && a.status == Done ==> a.closed)
            && (a.status.Failed? ==> a.table == t)
            && (a.status == Done ==> PrepareStep(cfg, a.table, lines, a.pos, a.closed) == After(a.table, a.pos, a.closed, Done))
  {
  }

  /**
    With `includes_header` false, `prepare` raises the no-header error
    exactly when the header is empty, and then changes neither table nor file.
   */
  lemma PrepareNeedsHeader(cfg: Config, t: Table, lines: seq<string>, pos: nat, closed: bool)
    requires pos <= |lines| && !cfg.includesHeader && !t.prepared
    ensures PrepareStep(cfg, t, lines, pos, closed).status == Failed(NoHeader) <==> |t.header| == 0
    ensures |t.header| == 0 ==> PrepareStep(cfg, t, lines, pos, closed) == After(t, pos, closed, Failed(NoHeader))
  {
  }

  /**
    On a file that is already closed, `prepare` raises at its first
    `readline()` whenever it gets that far, and changes nothing.
   */
  lemma PrepareOnClosedFile(cfg: Config, t: Table, lines: seq<string>, pos: nat)
    requires pos <= |lines| && !t.prepared && (cfg.includesHeader || |t.header| > 0)
    ensures PrepareStep(cfg, t, lines, pos, true) == After(t, pos, true, Failed(ClosedFile))
  {
  }

  /**
    With `includes_header` true and an empty delimiter, `prepare` consumes
    the first line and raises from `split`, leaving the table as it was and
    the file open.
   */
  lemma PrepareEmptyDelimiter(cfg: Config, t: Table, lines: seq<string>, pos: nat)
    requires pos <= |lines| && cfg.includesHeader && |cfg.delimiter| == 0 && !t.prepared
    ensures PrepareStep(cfg, t, lines, pos, false) == After(t, NextPos(lines, pos), false, Failed(EmptySeparator))
  {
  }

  /**
    With `includes_header` true, `prepare` on an open text file takes the
    header from the first unread line and one data row from each later line,
    in file order, reads the file to its end and closes it; the table then
    has one column per field of the header line and one row per later line.
   */
  lemma PrepareWithFileHeader(cfg: Config, t: Table, lines: seq<string>, pos: nat)
    requires cfg.includesHeader && |cfg.delimiter| > 0 && !t.prepared
    requires pos <= |lines| && IsTextFile(lines)
    ensures var a := PrepareStep(cfg, t, lines, pos, false);
            var first := NextPos(lines, pos);
            && a.status == Done && a.table.prepared && a.pos == |lines| && a.closed
            && a.table.header == ParseLine(LineAt(lines, pos), cfg.delimiter)
            && |a.table.data| == |lines| - first
            && (forall j :: first <= j < |lines| ==> a.table.data[j - first] == ParseLine(lines[j], cfg.delimiter))
            && DimensionsOf(a.table) == Dimensions(PyStr.Count(LineAt(lines, pos), cfg.delimiter) + 1, |lines| - first)
  {
    RowsOfTextFile(lines, NextPos(lines, pos), cfg.delimiter);
    ParseLineFields(LineAt(lines, pos), cfg.delimiter);
  }

  /**
    With `includes_header` false and a header set beforehand, `prepare` on an
    open text file keeps that header, takes one data row from each unread
    line, and closes the file.
   */
  lemma PrepareWithManualHeader(cfg: Config, t: Table, lines: seq<string>, pos: nat)
    requires !cfg.includesHeader && |cfg.delimiter| > 0 && |t.header| > 0 && !t.prepared
    requires pos <= |lines| && IsTextFile(lines)
    ensures var a := PrepareStep(cfg, t, lines, pos, false);
            && a.status == Done && a.pos == |lines| && a.closed
            && a.table.header == t.header && a.table.prepared
            && |a.table.data| == |lines| - pos
            && (forall j :: pos <= j < |lines| ==> a.table.data[j - pos] == ParseLine(lines[j], cfg.delimiter))
  {
    RowsOfTextFile(lines, pos, cfg.delimiter);
  }

  class Comma {
    const file: LineFile
    const includesHeader: bool
    const delimiter: string
    const consoleMode: bool
    var data: seq<seq<string>>
    var header: seq<string>
    var prepared: bool

    /** `Comma(csv_file, includes_header=True, delimiter=",", console_mode=False)`. */
    constructor (file: LineFile, includesHeader: bool := true, delimiter: string := ",", consoleMode: bool := false)
      ensures this.file == file && this.includesHeader == includesHeader
      ensures this.delimiter == delimiter && this.consoleMode == consoleMode
      ensures State() == Table([], [], false)
    {
      this.file := file;
      this.includesHeader := includesHeader;
      this.delimiter := delimiter;
      this.consoleMode := consoleMode;
      data := [];
      header := [];
      prepared := false;
    }

    function Configuration(): Config {
      Config(includesHeader, delimiter)
    }

    function State(): Table
      reads this
    {
      Table(header, data, prepared)
    }

    /** `__extract_header_from_file`: read one line and split-and-strip it. */
    method ExtractHeaderFromFile() returns (r: Result<seq<string>>)
      requires file.Valid()
      modifies file
      ensures file.Valid() && file.closed == old(file.closed)
      ensures file.pos == if old(file.closed) then old(file.pos) else NextPos(file.lines, old(file.pos))
      ensures r == if old(file.closed) then Err(ClosedFile)
                   else if |delimiter| == 0 then Err(EmptySeparator)
                   else Ok(ParseLine(LineAt(file.lines, old(file.pos)), delimiter))
    {
      var headerLine := file.ReadLine();
      if headerLine.Err? {
        return Err(headerLine.error);
      }
      if |delimiter| == 0 {
        return Err(EmptySeparator);
      }
      return Ok(ParseLine(headerLine.value, delimiter));
    }

    /**
      `__extract_data_from_file`: read and parse lines until `readline()`
      returns "", then close the file.
     */
    method ExtractDataFromFile() returns (r: Result<seq<seq<string>>>)
      requires file.Valid()
      modifies file
      ensures file.Valid()
      ensures r == if old(file.closed) then Err(ClosedFile) else ExtractData(file.lines[old(file.pos)..], delimiter)
      ensures file.pos == old(file.pos) + if r.Err? then (if old(file.closed) then 0 else 1)
                                          else Consumed(file.lines[old(file.pos)..])
      ensures file.closed <==> old(file.closed) || r.Ok?
    {
      ghost var start := file.pos;
      ghost var rem := file.lines[start..];
      var first := file.ReadLine();
      if first.Err? {
        return Err(first.error);
      }
      var line := first.value;
      if |delimiter| == 0 {
        // `split` runs on every line the loop reads, so with an empty
        // delimiter it raises on the first line unless that line ends the loop.
        if line != "" {
          return Err(EmptySeparator);
        }
        file.Close();
        return Ok([]);
      }
      RowsReadAhead(file.lines, start, delimiter);
      ConsumedReadAhead(file.lines, start);
      var rows := ReadRowsFrom(line);
      file.Close();
      return Ok(rows);
    }

    /**
      The `while line:` loop of `__extract_data_from_file` (comma.py:30-34),
      entered holding `line`: it appends the parse of each line it holds and
      reads the next, until it holds "".
     */
    method ReadRowsFrom(line: string) returns (rows: seq<seq<string>>)
      requires file.Valid() && !file.closed && |delimiter| > 0
      modifies file`pos
      ensures file.Valid()
      ensures rows == Pending(line, old(file.lines[file.pos..]), delimiter)
      ensures file.pos == old(file.pos) + PendingCount(line, old(file.lines[file.pos..]))
    {
      ghost var start := file.pos;
      ghost var owed := Pending(line, file.lines[start..], delimiter);
      ghost var count := PendingCount(line, file.lines[start..]);
      rows := [];
      var current := line;
      while current != ""
        invariant file.Valid()
        invariant rows + Pending(current, file.lines[file.pos..], delimiter) == owed
        invariant file.pos + PendingCount(current, file.lines[file.pos..]) == start + count
        decreases |file.lines| - file.pos, if current == "" then 0 else 1
      {
        RowsReadAhead(file.lines, file.pos, delimiter);
        ConsumedReadAhead(file.lines, file.pos);
        rows := rows + [ParseLine(current, delimiter)];
        var next := file.ReadLine();
        current := next.value;
      }
    }

    /** `prepare`. */
    method Prepare() returns (status: Status)
      requires file.Valid()
      modifies this, file
      ensures file.Valid()
      ensures After(State(), file.pos, file.closed, status)
              == PrepareStep(Configuration(), old(State()), file.lines, old(file.pos), old(file.closed))
    {
      if !prepared {
        if includesHeader {
          var h := ExtractHeaderFromFile();
          if h.Err? {
            return Failed(h.error);
          }
          header := h.value;
        } else if |header| == 0 {
          return Failed(NoHeader);
        }
        var rows := ExtractDataFromFile();
        if rows.Err? {
          return Failed(rows.error);
        }
        data := rows.value;
        prepared := true;
        status := Done;
      } else {
        status := Done;
      }
    }

    /** `get_header`. */
    function GetHeader(): seq<string>
      reads this
    {
      header
    }

    /**
      `set_header`: refused when the header comes from the file; otherwise
      the given header is stored as it is, whether or not the table is prepared.
     */
    method SetHeader(h: seq<string>) returns (status: Status)
      modifies this`header
      ensures includesHeader ==> status == Failed(ManualHeaderDisabled) && header == old(header)
      ensures !includesHeader ==> status == Done && GetHeader() == h
    {
      if includesHeader {
        return Failed(ManualHeaderDisabled);
      }
      header := h;
      return Done;
    }

    /** `get_data`. */
    function GetData(): seq<seq<string>>
      reads this
    {
      data
    }

    /** `to_json`: one record per row, built by the two nested loops. */
    method ToJson() returns (r: Result<Records.Json>)
      ensures r == Records.ToJsonOf(header, data)
    {
      var records: seq<map<string, string>> := [];
      var n := 0;
      while n < |data|
        invariant 0 <= n <= |data| && |records| == n
        invariant forall k :: 0 <= k < n ==> |header| <= |data[k]| && records[k] == Records.Record(header, data[k])
      {
        var row := data[n];
        var obj: map<string, string> := map[];
        var i := 0;
        while i < |header|
          invariant 0 <= i <= |header| && i <= |row|
          invariant obj == Records.Record(header[..i], row)
        {
          if i >= |row| {
            assert |data[n]| < |header|;
            return Err(IndexOutOfRange);
          }
          assert header[..i + 1][..i] == header[..i];
          obj := obj[header[i] := row[i]];
          i := i + 1;
        }
        assert header[..i] == header;
        records := records + [obj];
        n := n + 1;
      }
      assert Records.WideEnough(header, data);
      ghost var expected := Records.ToJsonOf(header, data).value.data;
      assert |expected| == |records| && forall k :: 0 <= k < |records| ==> records[k] == expected[k];
      assert records == expected;
      return Ok(Records.Json(header, records));
    }

    /** `show_file_dimensions`: one column per header name, one row per data row. */
    function ShowFileDimensions(): (dims: Dimensions)
      reads this
      ensures dims.columns == |GetHeader()| && dims.rows == |GetData()|
    {
      DimensionsOf(State())
    }
  }
}
