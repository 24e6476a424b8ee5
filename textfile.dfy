/**
  The file object handed to `Comma`: a fixed sequence of lines, a read
  cursor and whether the file was closed. `readline()` returns the line under
  the cursor and advances, or returns "" once the cursor is at the end; on a
  closed file it raises. A real file never yields "" before its end
  (`IsTextFile`); the reading loop stops at the first "" either way.
 */
module TextFile {
  import opened Errors

  /** The string `readline()` returns when the cursor is at `pos`. */
  function LineAt(lines: seq<string>, pos: nat): string {
    if pos < |lines| then lines[pos] else ""
  }

  /** The cursor after one `readline()` from `pos`. */
  function NextPos(lines: seq<string>, pos: nat): nat {
    if pos < |lines| then pos + 1 else pos
  }

  /**
    The lines of a real text file: `readline()` never yields "" before the
    end, every line but the last ends in "\n", and no line holds another "\n".
   */
  predicate IsTextFile(lines: seq<string>) {
    forall i :: 0 <= i < |lines| ==>
      && lines[i] != ""
      && (forall j :: 0 <= j < |lines[i]| - 1 ==> lines[i][j] != '\n')
      && (i < |lines| - 1 ==> lines[i][|lines[i]| - 1] == '\n')
  }

  class LineFile {
    const lines: seq<string>
    var pos: nat
    var closed: bool

    ghost predicate Valid()
      reads this
    {
      pos <= |lines|
    }

    /** A file opened for reading, with the cursor at its start. */
    constructor (lines: seq<string>)
      ensures Valid() && this.lines == lines && pos == 0 && !closed
    {
      this.lines := lines;
      pos := 0;
      closed := false;
    }

    /** `readline()`; raises on a closed file. */
    method ReadLine() returns (r: Result<string>)
      requires Valid()
      modifies this`pos
      ensures Valid()
      ensures closed ==> r == Err(ClosedFile) && pos == old(pos)
      ensures !closed ==> r == Ok(LineAt(lines, old(pos))) && pos == NextPos(lines, old(pos))
    {
      if closed {
        return Err(ClosedFile);
      }
      if pos < |lines| {
        r := Ok(lines[pos]);
        pos := pos + 1;
      } else {
        r := Ok("");
      }
    }

    /** `close()`: every later `readline()` raises. */
    method Close()
      modifies this`closed
      ensures closed
    {
      closed := true;
    }
  }
}
