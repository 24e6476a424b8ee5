/**
  The Python string built-ins that comma.py relies on, for a non-empty
  separator: `str.split(sep)`, `str.count(sep)`, `sep.join(pieces)` and
  `str.replace("\n", "")`. Python scans for the separator from the left and
  never lets two matches overlap; `Split` and `Count` do the same.
 */
module PyStr {

  /** `sep` occurs in `s` starting at index `i`. */
  predicate OccursAt(s: string, sep: string, i: nat) {
    i + |sep| <= |s| && s[i..i + |sep|] == sep
  }

  /** `sep in s`, Python's substring test. */
  predicate Contains(s: string, sep: string) {
    exists i: nat :: i <= |s| && OccursAt(s, sep, i)
  }

  /** `s.count(sep)`: the number of non-overlapping occurrences, leftmost first. */
  function Count(s: string, sep: string): nat
    requires |sep| > 0
    decreases |s|
  {
    if |s| < |sep| then 0
    else if s[..|sep|] == sep then 1 + Count(s[|sep|..], sep)
    else Count(s[1..], sep)
  }

  /** `s.split(sep)`: the pieces between the occurrences counted by `Count`. */
  function Split(s: string, sep: string): (pieces: seq<string>)
    requires |sep| > 0
    ensures |pieces| >= 1
    decreases |s|
  {
    if |s| < |sep| then [s]
    else if s[..|sep|] == sep then [""] + Split(s[|sep|..], sep)
    else
      var rest := Split(s[1..], sep);
      [[s[0]] + rest[0]] + rest[1..]
  }

  /** `sep.join(pieces)`. */
  function Join(pieces: seq<string>, sep: string): string
    decreases |pieces|
  {
    if |pieces| == 0 then ""
    else if |pieces| == 1 then pieces[0]
    else pieces[0] + sep + Join(pieces[1..], sep)
  }

  /** `s.replace("\n", "")`. */
  function RemoveNewlines(s: string): string
  {
    if |s| == 0 then ""
    else (if s[0] == '\n' then "" else [s[0]]) + RemoveNewlines(s[1..])
  }

  /**
    `replace("\n", "")` leaves no newline, never lengthens the string, and
    keeps every other character as often as it occurs.
   */
  lemma {:induction false} RemoveNewlinesMeaning(s: string)
    ensures '\n' !in RemoveNewlines(s)
    ensures |RemoveNewlines(s)| <= |s|
    ensures forall c :: c != '\n' ==> multiset(RemoveNewlines(s))[c] == multiset(s)[c]
    decreases |s|
  {
    if |s| > 0 {
      RemoveNewlinesMeaning(s[1..]);
      assert s == [s[0]] + s[1..];
    }
  }

  /** Splitting yields one more piece than there are separators. */
  lemma {:induction false} SplitCount(s: string, sep: string)
    requires |sep| > 0
    ensures |Split(s, sep)| == Count(s, sep) + 1
    decreases |s|
  {
    if |s| < |sep| {
    } else if s[..|sep|] == sep {
      SplitCount(s[|sep|..], sep);
    } else {
      SplitCount(s[1..], sep);
    }
  }

  /** Joining the pieces back with the separator gives the original string. */
  lemma {:induction false} JoinSplit(s: string, sep: string)
    requires |sep| > 0
    ensures Join(Split(s, sep), sep) == s
    decreases |s|
  {
    if |s| < |sep| {
    } else if s[..|sep|] == sep {
      var rest := Split(s[|sep|..], sep);
      assert Split(s, sep) == [""] + rest;
      JoinSplit(s[|sep|..], sep);
      JoinPrepend("", [""] + rest, sep);
      assert ([""] + rest)[1..] == rest;
      assert s == sep + s[|sep|..];
    } else {
      var rest := Split(s[1..], sep);
      assert Split(s, sep) == [[s[0]] + rest[0]] + rest[1..];
      JoinSplit(s[1..], sep);
      JoinPrepend([s[0]], rest, sep);
      assert s == [s[0]] + s[1..];
    }
  }

  /** Prefixing the first piece prefixes the join. */
  lemma JoinPrepend(c: string, pieces: seq<string>, sep: string)
    requires |pieces| >= 1
    ensures Join([c + pieces[0]] + pieces[1..], sep) == c + Join(pieces, sep)
  {
    var q := [c + pieces[0]] + pieces[1..];
    if |pieces| == 1 {
      assert q == [c + pieces[0]];
    } else {
      assert q[1..] == pieces[1..];
    }
  }

  /** The first piece of a join is a prefix of the joined string. */
  lemma {:induction false} JoinFirst(pieces: seq<string>, sep: string)
    requires |pieces| >= 1
    ensures pieces[0] <= Join(pieces, sep)
  {
    if |pieces| > 1 {
      assert Join(pieces, sep) == pieces[0] + (sep + Join(pieces[1..], sep));
    }
  }

  /** A join of two or more pieces ends with the separator and the last piece. */
  lemma {:induction false} JoinLast(pieces: seq<string>, sep: string)
    requires |pieces| >= 2
    ensures Join(pieces, sep) == Join(pieces[..|pieces| - 1], sep) + sep + pieces[|pieces| - 1]
    decreases |pieces|
  {
    var n := |pieces|;
    if n == 2 {
      assert pieces[..1] == [pieces[0]];
    } else {
      JoinLast(pieces[1..], sep);
      assert pieces[1..][..n - 2] == pieces[..n - 1][1..];
      assert pieces[..n - 1][0] == pieces[0];
    }
  }

  /** No piece of a split contains the separator. */
  lemma {:induction false} SplitPiecesFree(s: string, sep: string)
    requires |sep| > 0
    ensures forall k :: 0 <= k < |Split(s, sep)| ==> !Contains(Split(s, sep)[k], sep)
    decreases |s|
  {
    if |s| < |sep| {
    } else if s[..|sep|] == sep {
      var rest := Split(s[|sep|..], sep);
      assert Split(s, sep) == [""] + rest;
      SplitPiecesFree(s[|sep|..], sep);
      assert forall k :: 1 <= k < |[""] + rest| ==> ([""] + rest)[k] == rest[k - 1];
    } else {
      var rest := Split(s[1..], sep);
      var pieces := [[s[0]] + rest[0]] + rest[1..];
      assert Split(s, sep) == pieces;
      SplitPiecesFree(s[1..], sep);
      FirstPieceFree(s, sep);
      assert forall k :: 1 <= k < |pieces| ==> pieces[k] == rest[k];
    }
  }

  /**
    When `s` does not start with the separator, the first piece, which is
    `s[0]` followed by the first piece of `s[1..]`, holds no separator.
   */
  lemma FirstPieceFree(s: string, sep: string)
    requires |sep| > 0 && |sep| <= |s| && s[..|sep|] != sep
    requires !Contains(Split(s[1..], sep)[0], sep)
    ensures !Contains([s[0]] + Split(s[1..], sep)[0], sep)
  {
    var rest := Split(s[1..], sep);
    JoinSplit(s[1..], sep);
    JoinFirst(rest, sep);
    assert [s[0]] + rest[0] <= s by {
      assert s == [s[0]] + s[1..];
    }
    PrefixFree(s[0], rest[0], s, sep);
  }

  /**
    A prefix `[c] + p` of `s` holds no separator when `p` holds none and `s`
    does not start with one.
   */
  lemma PrefixFree(c: char, p: string, s: string, sep: string)
    requires |sep| > 0 && [c] + p <= s && !OccursAt(s, sep, 0) && !Contains(p, sep)
    ensures !Contains([c] + p, sep)
  {
    var first := [c] + p;
    forall i: nat ensures !OccursAt(first, sep, i) {
      if i == 0 {
        if |sep| <= |first| {
          assert first[..|sep|] == s[..|sep|];
        }
      } else {
        assert !OccursAt(p, sep, i - 1);
        if i + |sep| <= |first| {
          assert first[i..i + |sep|] == p[i - 1..i - 1 + |sep|];
        }
      }
    }
  }

  /**
    Matching is leftmost: when there is a separator, the first piece is
    followed by it in `s`, and no occurrence starts inside the first piece.
   */
  lemma {:induction false} SplitFirstLeftmost(s: string, sep: string)
    requires |sep| > 0 && |Split(s, sep)| >= 2
    ensures Split(s, sep)[0] + sep <= s
    ensures !Contains(Split(s, sep)[0] + sep[..|sep| - 1], sep)
    decreases |s|
  {
    var pieces := Split(s, sep);
    JoinSplit(s, sep);
    assert Join(pieces, sep) == pieces[0] + sep + Join(pieces[1..], sep);
    assert pieces[0] + sep <= s;
    if s[..|sep|] == sep {
      assert pieces[0] == "";
      assert |pieces[0] + sep[..|sep| - 1]| < |sep|;
    } else {
      var rest := Split(s[1..], sep);
      assert pieces == [[s[0]] + rest[0]] + rest[1..];
      SplitFirstLeftmost(s[1..], sep);
      var p := rest[0] + sep[..|sep| - 1];
      assert [s[0]] + p == pieces[0] + sep[..|sep| - 1];
      assert [s[0]] + p <= pieces[0] + sep;
      PrefixFree(s[0], p, s, sep);
    }
  }

  /**
    After the first piece and the separator that ends it, the remaining
    pieces are the split of the rest of the string; with
    `SplitFirstLeftmost` this fixes every piece.
   */
  lemma {:induction false} SplitRest(s: string, sep: string)
    requires |sep| > 0 && |Split(s, sep)| >= 2
    ensures |Split(s, sep)[0]| + |sep| <= |s|
    ensures Split(s, sep) == [Split(s, sep)[0]] + Split(s[|Split(s, sep)[0]| + |sep|..], sep)
    decreases |s|
  {
    var pieces := Split(s, sep);
    SplitFirstLeftmost(s, sep);
    if s[..|sep|] == sep {
      assert pieces == [""] + Split(s[|sep|..], sep);
    } else {
      var rest := Split(s[1..], sep);
      assert pieces == [[s[0]] + rest[0]] + rest[1..];
      SplitRest(s[1..], sep);
      assert s[1..][|rest[0]| + |sep|..] == s[|pieces[0]| + |sep|..];
    }
  }

  /**
    A non-empty string whose last character is not part of the separator
    has a non-empty last piece.
   */
  lemma {:induction false} LastPieceNonEmpty(s: string, sep: string)
    requires |sep| > 0 && |s| > 0 && s[|s| - 1] !in sep
    ensures |Split(s, sep)[|Split(s, sep)| - 1]| > 0
    decreases |s|
  {
    if |s| < |sep| {
    } else if s[..|sep|] == sep {
      var tail := s[|sep|..];
      if |tail| > 0 {
        assert tail[|tail| - 1] == s[|s| - 1];
        LastPieceNonEmpty(tail, sep);
      }
    } else {
      var rest := Split(s[1..], sep);
      if |s| > 1 {
        assert s[1..][|s| - 2] == s[|s| - 1];
        LastPieceNonEmpty(s[1..], sep);
      }
    }
  }

  /** A string that does not contain the separator splits into itself. */
  lemma {:induction false} SplitWithoutSeparator(s: string, sep: string)
    requires |sep| > 0 && !Contains(s, sep)
    ensures Split(s, sep) == [s]
    decreases |s|
  {
    if |sep| <= |s| {
      assert !OccursAt(s, sep, 0);
      forall i: nat | i <= |s[1..]| ensures !OccursAt(s[1..], sep, i) {
        assert !OccursAt(s, sep, i + 1);
        if i + |sep| <= |s[1..]| {
          assert s[1..][i..i + |sep|] == s[i + 1..i + 1 + |sep|];
        }
      }
      SplitWithoutSeparator(s[1..], sep);
      assert [s[0]] + s[1..] == s;
    }
  }

  /** For a one-character separator, containment is membership. */
  lemma ContainsChar(s: string, c: char)
    ensures Contains(s, [c]) <==> c in s
  {
    if c in s {
      var i :| 0 <= i < |s| && s[i] == c;
      assert OccursAt(s, [c], i);
    } else {
      forall i: nat | i <= |s| ensures !OccursAt(s, [c], i) {
        if i + 1 <= |s| {
          assert s[i..i + 1] == [s[i]];
        }
      }
    }
  }

  /** `replace` distributes over concatenation. */
  lemma {:induction false} RemoveNewlinesAppend(a: string, b: string)
    ensures RemoveNewlines(a + b) == RemoveNewlines(a) + RemoveNewlines(b)
    decreases |a|
  {
    if |a| > 0 {
      assert (a + b)[1..] == a[1..] + b;
      RemoveNewlinesAppend(a[1..], b);
    } else {
      assert a + b == b;
    }
  }

  /** `replace` leaves a string without newlines unchanged. */
  lemma {:induction false} RemoveNewlinesNoop(s: string)
    requires '\n' !in s
    ensures RemoveNewlines(s) == s
    decreases |s|
  {
    if |s| > 0 {
      assert s[0] != '\n';
      RemoveNewlinesNoop(s[1..]);
      assert s == [s[0]] + s[1..];
    }
  }
}
