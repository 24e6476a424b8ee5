/**
  Turning lines of the file into fields: the split-and-strip that
  `__extract_header_from_file` and `__extract_data_from_file` apply to each
  line (comma.py:23-24, 31-32), and what the reading loop of
  `__extract_data_from_file` (comma.py:28-34) produces from the lines left
  in the file.
 */
module Parsing {
  import opened Errors
  import PyStr
  import TextFile

  /** `line.split(d)`, then "\n" removed from the last field. */
  function ParseLine(line: string, d: string): seq<string>
    requires |d| > 0
  {
    var pieces := PyStr.Split(line, d);
    pieces[..|pieces| - 1] + [PyStr.RemoveNewlines(pieces[|pieces| - 1])]
  }

  /**
    Every field but the last is a split piece unchanged, so it holds no
    delimiter; the last holds no newline; and there is one field more than
    there are delimiters.
   */
  lemma ParseLineFields(line: string, d: string)
    requires |d| > 0
    ensures var fields := ParseLine(line, d);
            && |fields| == |PyStr.Split(line, d)| == PyStr.Count(line, d) + 1
            && '\n' !in fields[|fields| - 1]
            && forall i :: 0 <= i < |fields| - 1 ==>
                 fields[i] == PyStr.Split(line, d)[i] && !PyStr.Contains(fields[i], d)
  {
    var pieces := PyStr.Split(line, d);
    PyStr.SplitCount(line, d);
    PyStr.SplitPiecesFree(line, d);
    PyStr.RemoveNewlinesMeaning(pieces[|pieces| - 1]);
  }

  /**
    Joining the fields with the delimiter gives the line back, except that
    the newlines of its final segment (the text after the last delimiter,
    which is the last split piece) are gone.
   */
  lemma {:induction false} ParseLineRejoin(line: string, d: string)
    requires |d| > 0
    ensures var pieces := PyStr.Split(line, d);
            var k := |line| - |pieces[|pieces| - 1]|;
            && 0 <= k
            && line[k..] == pieces[|pieces| - 1]
            && PyStr.Join(ParseLine(line, d), d) == line[..k] + PyStr.RemoveNewlines(line[k..])
  {
    var pieces := PyStr.Split(line, d);
    var n := |pieces|;
    var fields := ParseLine(line, d);
    PyStr.JoinSplit(line, d);
    if n == 1 {
      assert line == pieces[0];
    } else {
      PyStr.JoinLast(pieces, d);
      PyStr.JoinLast(fields, d);
      assert fields[..n - 1] == pieces[..n - 1];
      var head := PyStr.Join(pieces[..n - 1], d) + d;
      assert line == head + pieces[n - 1];
      assert line[..|head|] == head && line[|head|..] == pieces[n - 1];
    }
  }

  /**
    For a line as `readline()` returns it (a newline, if any, only at the
    end) and a delimiter without newlines, joining the fields gives the line
    without its terminator.
   */
  lemma {:induction false} ParseTextLineRejoin(line: string, d: string)
    requires |d| > 0 && '\n' !in d
    requires forall j :: 0 <= j < |line| - 1 ==> line[j] != '\n'
    ensures PyStr.Join(ParseLine(line, d), d) == PyStr.RemoveNewlines(line)
  {
    ParseLineRejoin(line, d);
    var pieces := PyStr.Split(line, d);
    var k := |line| - |pieces[|pieces| - 1]|;
    if |line| > 0 && line[|line| - 1] == '\n' {
      PyStr.LastPieceNonEmpty(line, d);
    }
    RejoinTail(line, k);
  }

  /**
    Removing newlines only from the tail `line[k..]` removes all of them
    when the head holds none, which is so when the head ends before the
    only place a newline may be.
   */
  lemma RejoinTail(line: string, k: nat)
    requires k <= |line|
    requires forall j :: 0 <= j < |line| - 1 ==> line[j] != '\n'
    requires k == |line| && |line| > 0 ==> line[|line| - 1] != '\n'
    ensures line[..k] + PyStr.RemoveNewlines(line[k..]) == PyStr.RemoveNewlines(line)
  {
    assert '\n' !in line[..k];
    assert line == line[..k] + line[k..];
    PyStr.RemoveNewlinesAppend(line[..k], line[k..]);
    PyStr.RemoveNewlinesNoop(line[..k]);
  }

  /**
    The rows the reading loop builds from the lines `rem` still to be read:
    one parsed row per line, up to the first "" that `readline()` returns.
   */
  function Rows(rem: seq<string>, d: string): seq<seq<string>>
    requires |d| > 0 || |rem| == 0 || rem[0] == ""
    decreases |rem|
  {
    if |rem| == 0 || rem[0] == "" then []
    else [ParseLine(rem[0], d)] + Rows(rem[1..], d)
  }

  /** How many lines of `rem` the reading loop consumes, the final "" included. */
  function Consumed(rem: seq<string>): (n: nat)
    ensures n <= |rem|
    decreases |rem|
  {
    if |rem| == 0 then 0
    else if rem[0] == "" then 1
    else 1 + Consumed(rem[1..])
  }

  /**
    The rows still owed by the reading loop when it holds `line`, already
    read, with `rest` after the cursor: none once `line` is "".
   */
  function Pending(line: string, rest: seq<string>, d: string): seq<seq<string>>
    requires |d| > 0
  {
    if line == "" then [] else [ParseLine(line, d)] + Rows(rest, d)
  }

  /** The lines still to be consumed when the loop holds `line`. */
  function PendingCount(line: string, rest: seq<string>): nat {
    if line == "" then 0 else Consumed(rest)
  }

  /** Reading one line at `pos` turns the rows of the lines from `pos` into pending rows. */
  lemma RowsReadAhead(lines: seq<string>, pos: nat, d: string)
    requires |d| > 0 && pos <= |lines|
    ensures Rows(lines[pos..], d) == Pending(TextFile.LineAt(lines, pos), lines[TextFile.NextPos(lines, pos)..], d)
  {
    if pos < |lines| {
      assert lines[pos..][1..] == lines[pos + 1..];
    }
  }

  /** Reading one line at `pos` accounts for the first line `Consumed` counts. */
  lemma ConsumedReadAhead(lines: seq<string>, pos: nat)
    requires pos <= |lines|
    ensures pos + Consumed(lines[pos..])
            == TextFile.NextPos(lines, pos) + PendingCount(TextFile.LineAt(lines, pos), lines[TextFile.NextPos(lines, pos)..])
  {
    if pos < |lines| {
      assert lines[pos..][1..] == lines[pos + 1..];
    }
  }

  /** With an empty delimiter the first non-empty line makes `split` raise. */
  predicate SplitFails(rem: seq<string>, d: string) {
    |d| == 0 && |rem| > 0 && rem[0] != ""
  }

  /** What `__extract_data_from_file` returns, given the lines still to be read. */
  function ExtractData(rem: seq<string>, d: string): Result<seq<seq<string>>> {
    if SplitFails(rem, d) then Err(EmptySeparator) else Ok(Rows(rem, d))
  }

  /**
    Reading stops at the first "" (at index `k`, or at the end when there is
    none): one row per line before it, in file order, and the "" itself is
    consumed.
   */
  lemma {:induction false} RowsUpToFirstEmpty(rem: seq<string>, d: string, k: nat)
    requires |d| > 0
    requires k <= |rem|
    requires forall i :: 0 <= i < k ==> rem[i] != ""
    requires k < |rem| ==> rem[k] == ""
    ensures |Rows(rem, d)| == k
    ensures forall i :: 0 <= i < k ==> Rows(rem, d)[i] == ParseLine(rem[i], d)
    ensures Consumed(rem) == if k < |rem| then k + 1 else k
    decreases k
  {
    if k > 0 {
      RowsUpToFirstEmpty(rem[1..], d, k - 1);
      assert forall i :: 1 <= i < k ==> Rows(rem, d)[i] == Rows(rem[1..], d)[i - 1];
    }
  }

  /**
    On a real text file the loop reads every remaining line: as many rows
    as lines, each the parse of its line; and when the delimiter holds no
    newline, each row rejoins to its line without the terminator.
   */
  lemma RowsOfTextFile(lines: seq<string>, pos: nat, d: string)
    requires |d| > 0
    requires pos <= |lines| && TextFile.IsTextFile(lines)
    ensures |Rows(lines[pos..], d)| == |lines| - pos
    ensures Consumed(lines[pos..]) == |lines| - pos
    ensures forall j :: pos <= j < |lines| ==> Rows(lines[pos..], d)[j - pos] == ParseLine(lines[j], d)
    ensures '\n' !in d ==> forall j :: pos <= j < |lines| ==>
              PyStr.Join(ParseLine(lines[j], d), d) == PyStr.RemoveNewlines(lines[j])
  {
    var rem := lines[pos..];
    assert forall i :: 0 <= i < |rem| ==> rem[i] == lines[pos + i] != "";
    RowsUpToFirstEmpty(rem, d, |rem|);
    if '\n' !in d {
      forall j | pos <= j < |lines|
        ensures PyStr.Join(ParseLine(lines[j], d), d) == PyStr.RemoveNewlines(lines[j])
      {
        ParseTextLineRejoin(lines[j], d);
      }
    }
  }
}
