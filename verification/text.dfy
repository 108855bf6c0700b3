/** Byte offsets in UTF-8 text and positions that count UTF-16 code units, as the 'Position'
    section of the Language Server Protocol 3.17 has them. */
module Texts {
  import opened Options
  import opened Unicode

  const NEWLINE: Char := 10

  function Utf8Len(c: Char): (n: nat)
    ensures 1 <= n <= 4
  {
    if c < 0x80 then 1 else if c < 0x800 then 2 else if c < 0x1_0000 then 3 else 4
  }

  function Utf16Len(c: Char): (n: nat)
    ensures 1 <= n <= 2
  {
    if c < 0x1_0000 then 1 else 2
  }

  function Bytes(text: Text): nat {
    if text == [] then 0 else Bytes(text[..|text| - 1]) + Utf8Len(text[|text| - 1])
  }

  function Units(text: Text): nat {
    if text == [] then 0 else Units(text[..|text| - 1]) + Utf16Len(text[|text| - 1])
  }

  lemma CharLengths(c: Char)
    ensures Utf8Len(c) == |CharBytes(c)| && Utf16Len(c) == |CharUnits(c)|
  {
  }

  lemma {:induction false} BytesAreEncoded(text: Text)
    ensures Bytes(text) == |Utf8(text)|
  {
    if text != [] {
      var init, last := text[..|text| - 1], text[|text| - 1];
      BytesAreEncoded(init);
      CharLengths(last);
      Utf8Append(init, last);
      assert text == init + [last];
    }
  }

  lemma {:induction false} UnitsAreEncoded(text: Text)
    ensures Units(text) == |Utf16(text)|
  {
    if text != [] {
      var init, last := text[..|text| - 1], text[|text| - 1];
      UnitsAreEncoded(init);
      CharLengths(last);
      Utf16Append(init, last);
      assert text == init + [last];
    }
  }

  /** Lengths are those of the text's bytes and of its code units, each of which give it back. */
  lemma {:induction false} LengthsAreEncoded(text: Text)
    ensures Bytes(text) == |Utf8(text)| && FromUtf8(Utf8(text)) == Some(text)
    ensures Units(text) == |Utf16(text)| && FromUtf16(Utf16(text)) == Some(text)
  {
    BytesAreEncoded(text);
    UnitsAreEncoded(text);
    Utf8RoundTrip(text);
    Utf16RoundTrip(text);
  }

  /** The byte offset of character `n`. */
  function ByteOf(text: Text, n: nat): nat
    requires n <= |text|
  {
    Bytes(text[..n])
  }

  lemma {:induction false} LaterByte(text: Text, i: nat, j: nat)
    requires i <= j <= |text|
    ensures ByteOf(text, i) + (j - i) <= ByteOf(text, j)
    decreases j
  {
    if i < j {
      LaterByte(text, i, j - 1);
      assert text[..j][..j - 1] == text[..j - 1];
    }
  }

  /** Offsets compare as the characters they are of. */
  lemma ByteOrder(text: Text, i: nat, j: nat)
    requires i <= |text| && j <= |text|
    ensures ByteOf(text, i) <= ByteOf(text, j) <==> i <= j
  {
    if i <= j { LaterByte(text, i, j); } else { LaterByte(text, j, i); }
  }

  lemma {:induction false} MoreUnits(text: Text, i: nat, j: nat)
    requires i <= j <= |text|
    ensures Units(text[..i]) + (j - i) <= Units(text[..j])
    decreases j
  {
    if i < j {
      MoreUnits(text, i, j - 1);
      assert text[..j][..j - 1] == text[..j - 1];
    }
  }

  // ---------- Lines ----------

  /** The first character of each line. */
  function LineStarts(text: Text): (r: seq<nat>)
    ensures |r| > 0 && r[0] == 0
  {
    if text == [] then [0]
    else LineStarts(text[..|text| - 1]) + if text[|text| - 1] == NEWLINE then [|text|] else []
  }

  lemma {:induction false} StartsAre(text: Text)
    ensures forall k :: 0 <= k < |LineStarts(text)| ==> LineStarts(text)[k] <= |text|
    ensures forall j, k :: 0 <= j < k < |LineStarts(text)| ==> LineStarts(text)[j] < LineStarts(text)[k]
  {
    if text != [] { StartsAre(text[..|text| - 1]); }
  }

  /** Lines that start within the first `n` characters are the first lines of the text. */
  lemma {:induction false} StartsOfPrefix(text: Text, n: nat)
    requires n <= |text|
    ensures |LineStarts(text[..n])| <= |LineStarts(text)|
    ensures LineStarts(text)[..|LineStarts(text[..n])|] == LineStarts(text[..n])
    ensures forall k :: |LineStarts(text[..n])| <= k < |LineStarts(text)| ==> n < LineStarts(text)[k]
  {
    if n == |text| {
      assert text[..n] == text;
    } else {
      var init := text[..|text| - 1];
      StartsOfPrefix(init, n);
      assert init[..n] == text[..n];
    }
  }

  /** The line character `n` is on. */
  function LineOf(text: Text, n: nat): (k: nat)
    requires n <= |text|
    ensures k < |LineStarts(text)| && LineStarts(text)[k] <= n
  {
    var k := |LineStarts(text[..n])| - 1;
    StartsOfPrefix(text, n);
    StartsAre(text[..n]);
    assert LineStarts(text)[k] == LineStarts(text)[..k + 1][k];
    k
  }

  /** Where line `k` ends, its newline left out. */
  function LineEnd(text: Text, k: nat): (e: nat)
    requires k < |LineStarts(text)|
    ensures LineStarts(text)[k] <= e <= |text|
  {
    StartsAre(text);
    if k + 1 < |LineStarts(text)| then LineStarts(text)[k + 1] - 1 else |text|
  }

  lemma WithinLine(text: Text, n: nat)
    requires n <= |text|
    ensures n <= LineEnd(text, LineOf(text, n))
  {
    StartsOfPrefix(text, n);
  }

  // ---------- Positions ----------

  datatype Position = Position(line: nat, character: nat)

  predicate Before(a: Position, b: Position) {
    a.line < b.line || (a.line == b.line && a.character < b.character)
  }

  /** The position of character `n`. */
  function PositionOf(text: Text, n: nat): Position
    requires n <= |text|
  {
    var k := LineOf(text, n);
    Position(k, Units(text[LineStarts(text)[k]..n]))
  }

  /** Positions count as a reader walks the text: a newline goes to the start of the next
      line, any other character its code units along. */
  lemma PositionStep(text: Text, n: nat)
    requires n < |text|
    ensures PositionOf(text, 0) == Position(0, 0)
    ensures PositionOf(text, n + 1)
         == if text[n] == 10 then Position(PositionOf(text, n).line + 1, 0)
            else Position(PositionOf(text, n).line, PositionOf(text, n).character + |CharUnits(text[n])|)
  {
    assert text[..n + 1][..n] == text[..n] && text[..n + 1][n] == text[n];
    assert text[..0] == [];
    StartsOfPrefix(text, n + 1);
    StartsOfPrefix(text, n);
    var starts, k := LineStarts(text), LineOf(text, n);
    if text[n] == NEWLINE {
      assert starts[k + 1] == starts[..k + 2][k + 1] == n + 1;
      assert text[n + 1..n + 1] == [];
    } else {
      var line := text[starts[k]..n + 1];
      assert line[..|line| - 1] == text[starts[k]..n] && line[|line| - 1] == text[n];
    }
  }

  /** Later characters have later positions. */
  lemma {:induction false} PositionsAscend(text: Text, m: nat, n: nat)
    requires m < n <= |text|
    ensures Before(PositionOf(text, m), PositionOf(text, n))
    decreases n
  {
    PositionStep(text, n - 1);
    if m < n - 1 { PositionsAscend(text, m, n - 1); }
  }

  /** How many characters of a line it takes to have `character` code units; all of them
      when it never has. */
  function Reach(line: Text, character: nat): (j: nat)
    ensures j <= |line|
    ensures j < |line| ==> Units(line[..j]) >= character
    ensures forall i :: 0 <= i < j ==> Units(line[..i]) < character
  {
    ReachFrom(line, character, 0)
  }

  function ReachFrom(line: Text, character: nat, from: nat): (j: nat)
    requires from <= |line|
    ensures from <= j <= |line|
    ensures j < |line| ==> Units(line[..j]) >= character
    ensures forall i :: from <= i < j ==> Units(line[..i]) < character
    decreases |line| - from
  {
    if from == |line| || Units(line[..from]) >= character then from else ReachFrom(line, character, from + 1)
  }

  /** The character at a position: the first of its line at or past it, else the line's end;
      past the last line, the end of the text. */
  function IndexOf(text: Text, p: Position): (n: nat)
    ensures n <= |text|
  {
    if p.line >= |LineStarts(text)| then |text|
    else
      var start, end := LineStarts(text)[p.line], LineEnd(text, p.line);
      start + Reach(text[start..end], p.character)
  }

  lemma SliceOfSlice(text: Text, start: nat, n: nat, end: nat)
    requires start <= n <= end <= |text|
    ensures text[start..end][..n - start] == text[start..n]
  {
  }

  /** As many units as `m` characters have are reached after `m` characters. */
  lemma ReachOfUnits(line: Text, m: nat)
    requires m <= |line|
    ensures Reach(line, Units(line[..m])) == m
  {
    var j := Reach(line, Units(line[..m]));
    assert j <= m;
    MoreUnits(line, j, m);
  }

  /** Position and offset undo each other at every character. */
  lemma PositionRoundTrip(text: Text, n: nat)
    requires n <= |text|
    ensures IndexOf(text, PositionOf(text, n)) == n
  {
    var k := LineOf(text, n);
    var start, end := LineStarts(text)[k], LineEnd(text, k);
    WithinLine(text, n);
    SliceOfSlice(text, start, n, end);
    ReachOfUnits(text[start..end], n - start);
  }

  /** Characters from a line's start to its end are on it. */
  lemma {:induction false} SameLine(text: Text, k: nat, n: nat)
    requires k < |LineStarts(text)| && LineStarts(text)[k] <= n <= LineEnd(text, k)
    ensures LineOf(text, n) == k
  {
    StartsAre(text);
    StartsOfPrefix(text, n);
    var last := LineOf(text, n);
    assert LineStarts(text)[last] <= n;
  }

  /** The character at a position is on the position's line. */
  lemma {:induction false} IndexOnLine(text: Text, p: Position)
    requires p.line < |LineStarts(text)|
    ensures LineStarts(text)[p.line] <= IndexOf(text, p) <= LineEnd(text, p.line)
    ensures LineOf(text, IndexOf(text, p)) == p.line
  {
    SameLine(text, p.line, IndexOf(text, p));
  }

  /** From a position, offset and back: a position at or past it on its line, or the line's
      end. */
  lemma {:induction false} IndexRoundTrip(text: Text, p: Position)
    requires p.line < |LineStarts(text)|
    ensures PositionOf(text, IndexOf(text, p)).line == p.line
    ensures p.character <= PositionOf(text, IndexOf(text, p)).character || IndexOf(text, p) == LineEnd(text, p.line)
  {
    var start, end := LineStarts(text)[p.line], LineEnd(text, p.line);
    var line := text[start..end];
    IndexOnLine(text, p);
    SliceOfSlice(text, start, IndexOf(text, p), end);
  }

  /** And the first such: no earlier character of the line is at or past it. */
  lemma {:induction false} IndexIsFirst(text: Text, p: Position, n: nat)
    requires p.line < |LineStarts(text)| && n <= |text|
    requires PositionOf(text, n).line == p.line && p.character <= PositionOf(text, n).character
    ensures IndexOf(text, p) <= n
  {
    var start, end := LineStarts(text)[p.line], LineEnd(text, p.line);
    var line := text[start..end];
    WithinLine(text, n);
    SliceOfSlice(text, start, n, end);
  }

  // ---------- The index the server keeps ----------

  /** The byte offset of each line's start. */
  ghost predicate IsIndex(starts: seq<nat>, text: Text) {
    && |starts| == |LineStarts(text)|
    && forall k :: 0 <= k < |starts| ==> LineStarts(text)[k] <= |text| && starts[k] == ByteOf(text, LineStarts(text)[k])
  }

  lemma IndexOneMore(starts: seq<nat>, text: Text, n: nat)
    requires n < |text| && IsIndex(starts, text[..n])
    ensures ByteOf(text, n + 1) == ByteOf(text, n) + Utf8Len(text[n])
    ensures IsIndex(if text[n] == NEWLINE then starts + [ByteOf(text, n + 1)] else starts, text[..n + 1])
  {
    var before, after := text[..n], text[..n + 1];
    assert after[..n] == before && after[n] == text[n];
    StartsAre(before);
    forall k | 0 <= k <= n ensures before[..k] == after[..k] {}
    assert after[..n + 1] == after;
  }

  /** The character at a byte offset; none inside a character or past the text. */
  function CharAt(text: Text, offset: nat): (r: Option<nat>)
    ensures r.Some? ==> r.value <= |text| && ByteOf(text, r.value) == offset
  {
    assert text[..|text|] == text;
    if Bytes(text) == offset then Some(|text|)
    else if text == [] then None
    else
      var r := CharAt(text[..|text| - 1], offset);
      assert r.Some? ==> text[..|text| - 1][..r.value] == text[..r.value];
      r
  }

  lemma {:induction false} CharAtByte(text: Text, n: nat)
    requires n <= |text|
    ensures CharAt(text, ByteOf(text, n)) == Some(n)
  {
    assert text[..|text|] == text;
    if n < |text| {
      LaterByte(text, n, |text|);
      var init := text[..|text| - 1];
      assert init[..n] == text[..n];
      CharAtByte(init, n);
    }
  }

  /** How many line starts lie at or before an offset. */
  method StartsUpTo(starts: seq<nat>, offset: nat) returns (n: nat)
    requires forall j, k :: 0 <= j < k < |starts| ==> starts[j] < starts[k]
    ensures n <= |starts|
    ensures forall k :: 0 <= k < n ==> starts[k] <= offset
    ensures forall k :: n <= k < |starts| ==> offset < starts[k]
  {
    var low, high := 0, |starts|;
    while low < high
      invariant 0 <= low <= high <= |starts|
      invariant forall k :: 0 <= k < low ==> starts[k] <= offset
      invariant forall k :: high <= k < |starts| ==> offset < starts[k]
    {
      var middle := (low + high) / 2;
      if starts[middle] <= offset {
        low := middle + 1;
      } else {
        high := middle;
      }
    }
    n := low;
  }

  lemma IndexAscends(starts: seq<nat>, text: Text)
    requires IsIndex(starts, text)
    ensures forall j, k :: 0 <= j < k < |starts| ==> starts[j] < starts[k]
  {
    StartsAre(text);
    forall j, k | 0 <= j < k < |starts| ensures starts[j] < starts[k] {
      LaterByte(text, LineStarts(text)[j], LineStarts(text)[k]);
    }
  }

  /** The line a search by bytes finds is the character's line. */
  lemma FoundLine(starts: seq<nat>, text: Text, n: nat, found: nat)
    requires IsIndex(starts, text) && n <= |text| && found <= |starts|
    requires forall k :: 0 <= k < found ==> starts[k] <= ByteOf(text, n)
    requires forall k :: found <= k < |starts| ==> ByteOf(text, n) < starts[k]
    ensures found == LineOf(text, n) + 1
  {
    var line := LineOf(text, n);
    StartsOfPrefix(text, n);
    ByteOrder(text, LineStarts(text)[line], n);
    if line + 1 < |starts| { ByteOrder(text, LineStarts(text)[line + 1], n); }
  }

  lemma {:induction false} NextByteWithin(text: Text, n: nat)
    requires n < |text|
    ensures ByteOf(text, n + 1) <= Bytes(text)
  {
    assert text[..|text|] == text;
    LaterByte(text, n + 1, |text|);
  }

  /** An offset inside character `n`, or at it, is on the character's line. */
  lemma InsideLine(starts: seq<nat>, text: Text, n: nat, offset: nat, found: nat)
    requires IsIndex(starts, text) && n < |text| && ByteOf(text, n) <= offset < ByteOf(text, n + 1) && found <= |starts|
    requires forall k :: 0 <= k < found ==> starts[k] <= offset
    requires forall k :: found <= k < |starts| ==> offset < starts[k]
    ensures found == LineOf(text, n) + 1
  {
    forall k | 0 <= k < found ensures starts[k] <= ByteOf(text, n) {
      ByteOrder(text, LineStarts(text)[k], n + 1);
      ByteOrder(text, LineStarts(text)[k], n);
    }
    FoundLine(starts, text, n, found);
  }

  /** An index of line starts, built once for a text. */
  class LineIndex {
    const starts: seq<nat>

    constructor (text: Text)
      ensures IsIndex(starts, text)
    {
      var found: seq<nat>, bytes: nat, n: nat := [0], 0, 0;
      assert text[..0] == [] && LineStarts(text[..0]) == [0] && ByteOf(text[..0], 0) == 0;
      while n < |text|
        invariant 0 <= n <= |text| && bytes == ByteOf(text, n) && IsIndex(found, text[..n])
      {
        IndexOneMore(found, text, n);
        bytes := bytes + Utf8Len(text[n]);
        if text[n] == NEWLINE {
          found := found + [bytes];
        }
        n := n + 1;
      }
      assert text[..n] == text;
      starts := found;
    }

    /** The position of a byte offset. Inside a character it is on the right line, at no
        character; past the text it is the end's. */
    method PositionAt(text: Text, offset: nat) returns (p: Position)
      requires IsIndex(starts, text)
      ensures forall n: nat ::
              n <= |text|
              && ByteOf(text, n) == (if offset < Bytes(text) then offset else Bytes(text)) ==>
                p == PositionOf(text, n)
      ensures forall n: nat :: n < |text| && ByteOf(text, n) < offset < ByteOf(text, n + 1) ==>
                p == Position(PositionOf(text, n).line, 0)
    {
      var o := if offset < Bytes(text) then offset else Bytes(text);
      IndexAscends(starts, text);
      var found := StartsUpTo(starts, o);
      assert text[..0] == [] && starts[0] == 0;
      var line := found - 1;
      var end := CharAt(text, o);
      if end.None? {
        forall n: nat | n <= |text| && ByteOf(text, n) == o ensures false { CharAtByte(text, n); }
        p := Position(line, 0);
        forall n: nat | n < |text| && ByteOf(text, n) < offset < ByteOf(text, n + 1)
          ensures PositionOf(text, n).line == line {
          NextByteWithin(text, n);
          InsideLine(starts, text, n, offset, found);
        }
        return;
      }
      FoundLine(starts, text, end.value, found);
      CharAtByte(text, LineStarts(text)[line]);
      var start := CharAt(text, starts[line]).value;
      p := Position(line, Units(text[start..end.value]));
      forall n: nat | n <= |text| && ByteOf(text, n) == o ensures n == end.value { CharAtByte(text, n); }
      forall n: nat | n < |text| && ByteOf(text, n) < offset < ByteOf(text, n + 1) ensures false {
        NextByteWithin(text, n);
        ByteOrder(text, end.value, n);
        ByteOrder(text, end.value, n + 1);
      }
    }

    /** The byte offset of a position: of the character there, or where `IndexOf` says. */
    method OffsetAt(text: Text, p: Position) returns (offset: nat)
      requires IsIndex(starts, text)
      ensures offset == ByteOf(text, IndexOf(text, p))
    {
      assert text[..|text|] == text;
      if p.line >= |starts| {
        return Bytes(text);
      }
      var end := if p.line + 1 < |starts| then starts[p.line + 1] - 1 else Bytes(text);
      LineEndByte(starts, text, p.line);
      CharAtByte(text, LineStarts(text)[p.line]);
      CharAtByte(text, LineEnd(text, p.line));
      offset := WalkLine(text, CharAt(text, starts[p.line]).value, CharAt(text, end).value, p.character);
    }

    /** From the offset of any character to its position and back. */
    method ThereAndBack(text: Text, offset: nat) returns (p: Position, back: nat)
      requires IsIndex(starts, text) && CharAt(text, offset).Some?
      ensures back == offset
    {
      var n := CharAt(text, offset).value;
      assert text[..|text|] == text;
      ByteOrder(text, n, |text|);
      p := PositionAt(text, offset);
      back := OffsetAt(text, p);
      PositionRoundTrip(text, n);
    }
  }

  lemma WalkStep(text: Text, first: nat, last: nat, j: nat)
    requires first + j < last <= |text|
    ensures Units(text[first..last][..j + 1]) == Units(text[first..last][..j]) + Utf16Len(text[first + j])
    ensures ByteOf(text, first + j + 1) == ByteOf(text, first + j) + Utf8Len(text[first + j])
  {
    var line := text[first..last];
    assert line[..j + 1][..j] == line[..j] && text[..first + j + 1][..first + j] == text[..first + j];
  }

  /** Walk the line between two characters until it has `character` code units. */
  method WalkLine(text: Text, first: nat, last: nat, character: nat) returns (offset: nat)
    requires first <= last <= |text|
    ensures offset == ByteOf(text, first + Reach(text[first..last], character))
  {
    var units, j := 0, 0;
    ghost var line := text[first..last];
    offset := ByteOf(text, first);
    assert line[..0] == [];
    while j < last - first && units < character
      invariant 0 <= j <= |line| && units == Units(line[..j]) && offset == ByteOf(text, first + j)
      invariant forall i :: 0 <= i < j ==> Units(line[..i]) < character
    {
      WalkStep(text, first, last, j);
      units := units + Utf16Len(text[first + j]);
      offset := offset + Utf8Len(text[first + j]);
      j := j + 1;
    }
    ReachIs(line, character, j);
  }

  lemma ReachIs(line: Text, character: nat, j: nat)
    requires j <= |line| && (j < |line| ==> Units(line[..j]) >= character)
    requires forall i :: 0 <= i < j ==> Units(line[..i]) < character
    ensures Reach(line, character) == j
  {
    var r := Reach(line, character);
    var atReach, atJ := Units(line[..r]), Units(line[..j]);
  }

  /** A line ends one byte before the next starts: at its newline. */
  lemma {:induction false} LineEndByte(starts: seq<nat>, text: Text, k: nat)
    requires IsIndex(starts, text) && k < |starts|
    ensures ByteOf(text, LineEnd(text, k)) == if k + 1 < |starts| then starts[k + 1] - 1 else Bytes(text)
  {
    if k + 1 < |starts| {
      StartsAre(text);
      AfterNewline(text, k + 1);
      var start := LineStarts(text)[k + 1];
      assert text[..start][..start - 1] == text[..start - 1];
    } else {
      assert text[..|text|] == text;
    }
  }

  lemma {:induction false} AfterNewline(text: Text, k: nat)
    requires 0 < k < |LineStarts(text)|
    ensures 0 < LineStarts(text)[k] <= |text| && text[LineStarts(text)[k] - 1] == NEWLINE
  {
    var init := text[..|text| - 1];
    if k < |LineStarts(init)| { AfterNewline(init, k); }
  }
}
