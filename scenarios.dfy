/**
  Clients of `Comma` that replay the situations the repository's tests set
  up, using nothing but the class's contracts. Where a test expects
  something the code does not do, the scenario states what the code does.
 */
module Scenarios {
  import opened Errors
  import opened TextFile
  import opened PyComma
  import Records
  import Parsing
  import PyStr

  /**
    A header that was set to [] does not count as a header: `prepare` raises,
    and the table stays unprepared and empty.
   */
  method PrepareWithEmptyManualHeader(lines: seq<string>)
    returns (setStatus: Status, prepareStatus: Status, prepared: bool, data: seq<seq<string>>)
    ensures setStatus == Done
    ensures prepareStatus == Failed(NoHeader) && !prepared && data == []
  {
    var f := new LineFile(lines);
    var c := new Comma(f, includesHeader := false);
    setStatus := c.SetHeader([]);
    prepareStatus := c.Prepare();
    prepared := c.prepared;
    data := c.GetData();
  }

  /**
    A second `prepare` is ignored: it reports success and the header, data
    and prepared flag are those the first call left.
   */
  method PrepareTwice(lines: seq<string>)
    returns (first: Status, second: Status, afterFirst: Table, afterSecond: Table)
    ensures first == Done && second == Done
    ensures afterFirst.prepared && afterSecond == afterFirst
  {
    var f := new LineFile(lines);
    var c := new Comma(f);
    first := c.Prepare();
    afterFirst := c.State();
    second := c.Prepare();
    afterSecond := c.State();
  }

  /** With the header read from the file, `set_header` raises and keeps the header. */
  method SetHeaderWhenIncluded(lines: seq<string>, h: seq<string>)
    returns (status: Status, header: seq<string>)
    ensures status == Failed(ManualHeaderDisabled) && header == []
  {
    var f := new LineFile(lines);
    var c := new Comma(f);
    status := c.SetHeader(h);
    header := c.GetHeader();
  }

  /** Without a header in the file, `get_header` returns what `set_header` stored. */
  method SetThenGetHeader(lines: seq<string>, h: seq<string>)
    returns (status: Status, header: seq<string>)
    ensures status == Done && header == h
  {
    var f := new LineFile(lines);
    var c := new Comma(f, includesHeader := false);
    status := c.SetHeader(h);
    header := c.GetHeader();
  }

  /** No comma and no newline: a field that survives a round trip through a line. */
  predicate PlainField(x: string) {
    ',' !in x && '\n' !in x
  }

  /** A line `a,b` with or without its terminator parses to `[a, b]`. */
  lemma ParseTwoFields(a: string, b: string)
    requires PlainField(a) && PlainField(b)
    ensures Parsing.ParseLine(a + "," + b, ",") == [a, b]
    ensures Parsing.ParseLine(a + "," + b + "\n", ",") == [a, b]
  {
    SplitAtFirstComma(a, b);
    PyStr.RemoveNewlinesNoop(b);
    ParseOfTwoPieces(a + "," + b, a, b);
    SplitAtFirstComma(a, b + "\n");
    assert a + "," + (b + "\n") == a + "," + b + "\n";
    StripTerminator(b);
    ParseOfTwoPieces(a + "," + b + "\n", a, b + "\n");
  }

  /** A line that splits into two pieces parses to the first and the stripped second. */
  lemma ParseOfTwoPieces(line: string, x: string, y: string)
    requires PyStr.Split(line, ",") == [x, y]
    ensures Parsing.ParseLine(line, ",") == [x, PyStr.RemoveNewlines(y)]
  {
    assert [x, y][..1] == [x];
  }

  /** Stripping a field followed by its terminator gives the field. */
  lemma StripTerminator(b: string)
    requires '\n' !in b
    ensures PyStr.RemoveNewlines(b + "\n") == b
  {
    PyStr.RemoveNewlinesAppend(b, "\n");
    PyStr.RemoveNewlinesNoop(b);
    assert PyStr.RemoveNewlines("\n") == "";
  }

  /** `(a + "," + b).split(",")` is `[a, b]` when `a` holds no comma and `b` none. */
  lemma SplitAtFirstComma(a: string, b: string)
    requires ',' !in a && ',' !in b
    ensures PyStr.Split(a + "," + b, ",") == [a, b]
    decreases |a|
  {
    PyStr.ContainsChar(b, ',');
    PyStr.SplitWithoutSeparator(b, ",");
    var s := a + "," + b;
    if |a| == 0 {
      assert s[..1] == "," && s[1..] == b;
    } else {
      assert s[..1] == [a[0]] && a[0] != ',';
      assert s[1..] == a[1..] + "," + b;
      SplitAtFirstComma(a[1..], b);
      assert [a[0]] + a[1..] == a;
    }
  }

  /**
    `prepare` on a file of a header line and two data lines, two columns
    each, reads all three lines and closes the file.
   */
  lemma TwoByTwoPrepared(lines: seq<string>, h1: string, h2: string, x1: string, x2: string, y1: string, y2: string)
    requires PlainField(h1) && PlainField(h2) && PlainField(x1) && PlainField(x2) && PlainField(y1) && PlainField(y2)
    requires lines == [h1 + "," + h2 + "\n", x1 + "," + x2 + "\n", y1 + "," + y2]
    ensures PrepareStep(Config(true, ","), Table([], [], false), lines, 0, false)
            == After(Table([h1, h2], [[x1, x2], [y1, y2]], true), 3, true, Done)
  {
    ParseTwoFields(h1, h2);
    ParseTwoFields(x1, x2);
    ParseTwoFields(y1, y2);
    var rem := lines[1..];
    assert rem[1..] == [lines[2]] && rem[1..][1..] == [];
    assert Parsing.Rows(rem[1..], ",") == [[y1, y2]];
    assert Parsing.Rows(rem, ",") == [[x1, x2], [y1, y2]];
    assert Parsing.Consumed(rem) == 2;
  }

  /**
    A two-column file with a header line and two data lines: the header and
    the rows are its comma-separated fields without the line terminators,
    the dimensions are two by two, and `to_json` pairs each column name
    with the row's cell.
   */
  method PrepareTwoByTwo(h1: string, h2: string, x1: string, x2: string, y1: string, y2: string)
    returns (header: seq<string>, data: seq<seq<string>>, dims: Dimensions, json: Result<Records.Json>)
    requires PlainField(h1) && PlainField(h2) && PlainField(x1) && PlainField(x2) && PlainField(y1) && PlainField(y2)
    ensures header == [h1, h2] && data == [[x1, x2], [y1, y2]]
    ensures dims == Dimensions(2, 2)
    ensures json.Ok? && json.value.headers == [h1, h2] && |json.value.data| == 2
    ensures json.value.data[0] == map[h1 := x1, h2 := x2] && json.value.data[1] == map[h1 := y1, h2 := y2]
  {
    var lines := [h1 + "," + h2 + "\n", x1 + "," + x2 + "\n", y1 + "," + y2];
    var f := new LineFile(lines);
    var c := new Comma(f);
    TwoByTwoPrepared(lines, h1, h2, x1, x2, y1, y2);
    var status := c.Prepare();
    header := c.GetHeader();
    data := c.GetData();
    dims := c.ShowFileDimensions();
    json := c.ToJson();
    TwoColumnRecord(h1, h2, x1, x2);
    TwoColumnRecord(h1, h2, y1, y2);
  }

  /** The record of a two-cell row under a two-name header. */
  lemma TwoColumnRecord(h1: string, h2: string, v1: string, v2: string)
    ensures Records.Record([h1, h2], [v1, v2]) == map[h1 := v1, h2 := v2]
  {
    assert [h1, h2][..1] == [h1] && [h1][..0] == [];
    assert Records.Record([h1], [v1, v2]) == map[h1 := v1];
  }

  /**
    Two tables over one file object: the first `prepare` reads the file and
    closes it, so the second table's `prepare` raises at `readline()` and
    stays unprepared and empty.
   */
  method SharedFile(lines: seq<string>)
    returns (first: Status, second: Status, secondTable: Table, closed: bool)
    ensures first == Done && closed
    ensures second == Failed(ClosedFile) && secondTable == Table([], [], false)
  {
    var f := new LineFile(lines);
    var a := new Comma(f);
    var b := new Comma(f);
    first := a.Prepare();
    second := b.Prepare();
    secondTable := b.State();
    closed := f.closed;
  }
}
