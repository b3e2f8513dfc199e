/**
 * The position mapper: line-start offsets of a file and the conversion of a
 * byte offset into a (line, column) pair. A file's text is a sequence with one
 * element per byte; every offset and column is a byte count.
 */
module Positions {

  /** Non-decreasing. */
  ghost predicate Sorted(s: seq<nat>)
  {
    forall i, j :: 0 <= i < j < |s| ==> s[i] <= s[j]
  }

  /** What the mapper needs of a line-start table: it begins at 0 and strictly increases. */
  ghost predicate ValidLineStarts(starts: seq<nat>)
  {
    && |starts| > 0
    && starts[0] == 0
    && forall i, j :: 0 <= i < j < |starts| ==> starts[i] < starts[j]
  }

  /**
   * `partition_point(|v| v <= x)` on a slice: a binary search for the number
   * of leading elements that are at most `x`.
   */
  function PartitionPoint(s: seq<nat>, x: nat): (p: nat)
    ensures p <= |s|
    ensures Sorted(s) ==> (forall i :: 0 <= i < p ==> s[i] <= x) && (forall i :: p <= i < |s| ==> x < s[i])
  {
    Search(s, x, 0, |s|)
  }

  /** The binary search on `[lo, hi)`, everything left of `lo` being known `<= x` and everything from `hi` on `> x`. */
  function Search(s: seq<nat>, x: nat, lo: nat, hi: nat): (p: nat)
    requires lo <= hi <= |s|
    ensures lo <= p <= hi
    ensures Sorted(s) && (forall i :: 0 <= i < lo ==> s[i] <= x) && (forall i :: hi <= i < |s| ==> x < s[i])
            ==> (forall i :: 0 <= i < p ==> s[i] <= x) && (forall i :: p <= i < |s| ==> x < s[i])
    decreases hi - lo
  {
    if lo == hi then lo
    else
      var mid := (lo + hi) / 2;
      if s[mid] <= x then Search(s, x, mid + 1, hi) else Search(s, x, lo, mid)
  }

  /**
   * The line-start table exactly as the server computes it: walking the
   * text, byte 0 contributes offset 0, and every other byte `i` holding a
   * newline contributes `i + 1`. A newline at byte 0 therefore contributes
   * nothing beyond the 0 that byte 0 always gives.
   */
  function LineStartsAsWritten(text: string): seq<nat>
  {
    AsWrittenUpTo(text, |text|)
  }

  /** The as-written table over the first `n` bytes. */
  function AsWrittenUpTo(text: string, n: nat): seq<nat>
    requires n <= |text|
  {
    if n == 0 then []
    else AsWrittenUpTo(text, n - 1) + (if n - 1 == 0 then [0] else if text[n - 1] == '\n' then [n] else [])
  }

  /** The line-start table as intended: offset 0, and one past every newline. */
  function LineStarts(text: string): (starts: seq<nat>)
    ensures ValidLineStarts(starts)
    ensures forall i :: 0 <= i < |starts| ==> starts[i] <= |text|
  {
    UpToShape(text, |text|);
    LineStartsUpTo(text, |text|)
  }

  /** The intended table over the first `n` bytes. */
  function LineStartsUpTo(text: string, n: nat): (starts: seq<nat>)
    requires n <= |text|
  {
    if n == 0 then [0]
    else LineStartsUpTo(text, n - 1) + (if text[n - 1] == '\n' then [n] else [])
  }

  /** The number of newlines among the first `n` bytes: the 0-based line of offset `n`. */
  function NewlinesBefore(text: string, n: nat): nat
    requires n <= |text|
  {
    if n == 0 then 0 else NewlinesBefore(text, n - 1) + (if text[n - 1] == '\n' then 1 else 0)
  }

  /** The line of an offset: the index of the greatest line start not beyond it. */
  function LineOf(starts: seq<nat>, offset: nat): (line: nat)
    requires ValidLineStarts(starts)
    ensures line < |starts| && starts[line] <= offset
    ensures line + 1 < |starts| ==> offset < starts[line + 1]
  {
    assert Sorted(starts);
    PartitionPoint(starts, offset) - 1
  }

  /** The table over a prefix of `n` bytes: its size, its bound, and that it starts at 0. */
  lemma {:induction false} UpToShape(text: string, n: nat)
    requires n <= |text|
    ensures |LineStartsUpTo(text, n)| == 1 + NewlinesBefore(text, n)
    ensures LineStartsUpTo(text, n)[0] == 0
    ensures forall i :: 0 <= i < |LineStartsUpTo(text, n)| ==> LineStartsUpTo(text, n)[i] <= n
    ensures forall i, j :: 0 <= i < j < |LineStartsUpTo(text, n)| ==> LineStartsUpTo(text, n)[i] < LineStartsUpTo(text, n)[j]
  {
    if n > 0 {
      UpToShape(text, n - 1);
    }
  }

  /** A shorter prefix's table is a prefix of a longer one's, and what follows it lies beyond the shorter prefix. */
  lemma {:induction false} UpToExtends(text: string, m: nat, n: nat)
    requires m <= n <= |text|
    ensures LineStartsUpTo(text, m) <= LineStartsUpTo(text, n)
    ensures forall i :: |LineStartsUpTo(text, m)| <= i < |LineStartsUpTo(text, n)| ==> m < LineStartsUpTo(text, n)[i]
  {
    if m < n {
      UpToExtends(text, m, n - 1);
      UpToShape(text, n - 1);
    }
  }

  /** The offsets in the table are exactly 0 and the offsets just after a newline. */
  lemma {:induction false} LineStartsMembers(text: string, n: nat, p: nat)
    requires n <= |text|
    ensures p in LineStartsUpTo(text, n) <==> p == 0 || (0 < p <= n && text[p - 1] == '\n')
  {
    if n > 0 {
      LineStartsMembers(text, n - 1, p);
    }
  }

  /** The line of an offset is the number of newlines before it. */
  lemma LineIsNewlineCount(text: string, offset: nat)
    requires offset <= |text|
    ensures ValidLineStarts(LineStarts(text))
    ensures LineOf(LineStarts(text), offset) == NewlinesBefore(text, offset)
  {
    var starts := LineStarts(text);
    var k := |LineStartsUpTo(text, offset)|;
    UpToShape(text, offset);
    UpToExtends(text, offset, |text|);
    var line := LineOf(starts, offset);
    // starts[k - 1] <= offset and, when present, starts[k] > offset: line == k - 1.
    assert starts[k - 1] == LineStartsUpTo(text, offset)[k - 1];
  }

  /** No newline lies between an offset and the start of its line: the column counts bytes of that line only. */
  lemma ColumnWithinLine(text: string, offset: nat, j: nat)
    requires offset <= |text|
    requires LineStarts(text)[LineOf(LineStarts(text), offset)] <= j < offset
    ensures text[j] != '\n'
  {
    var starts := LineStarts(text);
    var line := LineOf(starts, offset);
    UpToShape(text, |text|);
    forall k | 0 <= k < |starts|
      ensures starts[k] != j + 1
    {
      if k <= line {
        assert starts[k] <= starts[line];
      } else {
        assert starts[line + 1] <= starts[k];
      }
    }
    LineStartsMembers(text, |text|, j + 1);
  }

  /** Where the first byte is not a newline, the as-written table equals the intended one. */
  lemma {:induction false} AsWrittenAgrees(text: string, n: nat)
    requires 1 <= n <= |text| && text[0] != '\n'
    ensures AsWrittenUpTo(text, n) == LineStartsUpTo(text, n)
  {
    if n > 1 {
      AsWrittenAgrees(text, n - 1);
    }
  }

  /** Where the first byte is a newline, the as-written table lacks the start of line 1. */
  lemma AsWrittenLosesSecondLine(text: string)
    requires |text| > 0 && text[0] == '\n'
    ensures 1 in LineStarts(text)
    ensures 1 !in LineStartsAsWritten(text)
  {
    LineStartsMembers(text, |text|, 1);
    AsWrittenAbove(text, |text|);
  }

  /** After its first entry, the as-written table holds only offsets past a newline at byte 1 or later. */
  lemma {:induction false} AsWrittenAbove(text: string, n: nat)
    requires 1 <= n <= |text|
    ensures |AsWrittenUpTo(text, n)| >= 1 && AsWrittenUpTo(text, n)[0] == 0
    ensures forall i :: 1 <= i < |AsWrittenUpTo(text, n)| ==> 2 <= AsWrittenUpTo(text, n)[i]
  {
    if n > 1 {
      AsWrittenAbove(text, n - 1);
    }
  }

  /**
   * Where the first byte is a newline, the as-written table is the intended
   * one with the start of line 1 dropped: every later line start moves down
   * one place.
   */
  lemma {:induction false} AsWrittenDropsLineOne(text: string, n: nat)
    requires 1 <= n <= |text| && text[0] == '\n'
    ensures |LineStartsUpTo(text, n)| >= 2
    ensures AsWrittenUpTo(text, n) == [0] + LineStartsUpTo(text, n)[2..]
  {
    if n > 1 {
      AsWrittenDropsLineOne(text, n - 1);
      var prev := LineStartsUpTo(text, n - 1);
      var tail: seq<nat> := if text[n - 1] == '\n' then [n] else [];
      assert (prev + tail)[2..] == prev[2..] + tail;
    }
  }

  /** The index of a line start not beyond an offset, followed by one beyond it, is the offset's line. */
  lemma LineOfUnique(starts: seq<nat>, offset: nat, k: nat)
    requires ValidLineStarts(starts) && k < |starts| && starts[k] <= offset
    requires k + 1 < |starts| ==> offset < starts[k + 1]
    ensures LineOf(starts, offset) == k
  {
    var line := LineOf(starts, offset);
    assert forall i :: k < i < |starts| ==> offset < starts[i] by {
      forall i | k < i < |starts| ensures offset < starts[i] {
        assert starts[k + 1] <= starts[i];
      }
    }
    assert forall i :: line < i < |starts| ==> offset < starts[i] by {
      forall i | line < i < |starts| ensures offset < starts[i] {
        assert starts[line + 1] <= starts[i];
      }
    }
  }

  /** Where the first byte is a newline, line 1 starts at offset 1. */
  lemma LineOneAfterLeadingNewline(text: string)
    requires |text| > 0 && text[0] == '\n'
    ensures |LineStarts(text)| >= 2 && LineStarts(text)[1] == 1
  {
    var starts := LineStarts(text);
    LineStartsMembers(text, |text|, 1);
    var k :| 0 <= k < |starts| && starts[k] == 1;
    assert starts[1] <= starts[k];
  }

  /** Where the first byte is a newline, the as-written table is still a valid table. */
  lemma AsWrittenValid(text: string)
    requires |text| > 0 && text[0] == '\n'
    ensures |LineStarts(text)| >= 2
    ensures LineStartsAsWritten(text) == [0] + LineStarts(text)[2..]
    ensures ValidLineStarts(LineStartsAsWritten(text))
  {
    var starts := LineStarts(text);
    AsWrittenDropsLineOne(text, |text|);
    LineOneAfterLeadingNewline(text);
    var written := LineStartsAsWritten(text);
    assert forall i :: 1 <= i < |written| ==> written[i] == starts[i + 1];
  }

  /**
   * Where the first byte is a newline, the as-written table puts every
   * offset past that newline one line too early: on the line numbered one
   * less than its count of preceding newlines.
   */
  lemma AsWrittenShiftsLines(text: string, offset: nat)
    requires |text| > 0 && text[0] == '\n' && 1 <= offset <= |text|
    ensures ValidLineStarts(LineStartsAsWritten(text))
    ensures NewlinesBefore(text, offset) >= 1
    ensures LineOf(LineStartsAsWritten(text), offset) == NewlinesBefore(text, offset) - 1
  {
    var starts := LineStarts(text);
    AsWrittenValid(text);
    LineOneAfterLeadingNewline(text);
    LineIsNewlineCount(text, offset);
    var line := LineOf(starts, offset);
    assert 1 <= line;
    var written := LineStartsAsWritten(text);
    assert line >= 2 ==> written[line - 1] == starts[line];
    assert line < |written| ==> written[line] == starts[line + 1];
    LineOfUnique(written, offset, line - 1);
  }

  /**
   * Concrete case: in a file whose text is a newline followed by `const A = 1;`,
   * the name `A` (byte 7) is on line 1 at column 6, but the as-written table
   * puts it on line 0 at column 7.
   */
  lemma AsWrittenMisplacesName()
    ensures var text := "\nconst A = 1;";
            && LineStartsAsWritten(text) == [0]
            && LineStarts(text) == [0, 1]
            && NewlinesBefore(text, 7) == 1
            && LineOf(LineStartsAsWritten(text), 7) == 0
            && LineOf(LineStarts(text), 7) == 1
  {
    var text := "\nconst A = 1;";
    AsWrittenNoNewline(text, 1, |text|);
    UpToNoNewline(text, 1, |text|);
    assert LineStartsUpTo(text, 1) == [0, 1];
    LineIsNewlineCount(text, 7);
    NewlinesNoNewline(text, 1, 7);
  }

  /** Bytes `m..n` holding no newline add nothing to the as-written table. */
  lemma {:induction false} AsWrittenNoNewline(text: string, m: nat, n: nat)
    requires 1 <= m <= n <= |text|
    requires forall i :: m <= i < n ==> text[i] != '\n'
    ensures AsWrittenUpTo(text, n) == AsWrittenUpTo(text, m)
  {
    if m < n {
      AsWrittenNoNewline(text, m, n - 1);
    }
  }

  /** Bytes `m..n` holding no newline add nothing to the intended table. */
  lemma {:induction false} UpToNoNewline(text: string, m: nat, n: nat)
    requires m <= n <= |text|
    requires forall i :: m <= i < n ==> text[i] != '\n'
    ensures LineStartsUpTo(text, n) == LineStartsUpTo(text, m)
  {
    if m < n {
      UpToNoNewline(text, m, n - 1);
    }
  }

  /** Bytes `m..n` holding no newline add no line. */
  lemma {:induction false} NewlinesNoNewline(text: string, m: nat, n: nat)
    requires m <= n <= |text|
    requires forall i :: m <= i < n ==> text[i] != '\n'
    ensures NewlinesBefore(text, n) == NewlinesBefore(text, m)
  {
    if m < n {
      NewlinesNoNewline(text, m, n - 1);
    }
  }
}
