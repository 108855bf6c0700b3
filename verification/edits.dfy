/** Changing a document: edits that hold for the text as it was, all at once, and changes
    that each hold for the text the one before left. */
module Edits {
  import opened Options
  import opened Texts
  import opened Unicode

  // ---------- Replacing a range ----------

  function Later(a: nat, b: nat): (r: nat)
    ensures a <= r && b <= r && (r == a || r == b)
  {
    if a < b then b else a
  }

  /** Characters `start` up to `end` replaced; an end before the start replaces none. */
  function Replace(text: Text, start: nat, end: nat, with: Text): Text
    requires start <= |text| && end <= |text|
  {
    text[..start] + with + text[Later(end, start)..]
  }

  /** The same by byte offsets, which must be of characters. */
  function ReplaceBytes(text: Text, start: nat, end: nat, with: Text): Text
    requires CharAt(text, start).Some? && CharAt(text, Later(end, start)).Some?
  {
    text[..CharAt(text, start).value] + with + text[CharAt(text, Later(end, start)).value..]
  }

  lemma {:induction false} BytesAreCharacters(text: Text, i: nat, j: nat, with: Text)
    requires i <= |text| && j <= |text|
    ensures CharAt(text, ByteOf(text, i)).Some? && CharAt(text, Later(ByteOf(text, j), ByteOf(text, i))).Some?
    ensures ReplaceBytes(text, ByteOf(text, i), ByteOf(text, j), with) == Replace(text, i, j, with)
  {
    CharAtByte(text, i);
    CharAtByte(text, j);
    ByteOrder(text, i, j);
    ByteOrder(text, j, i);
  }

  // ---------- Changes, one after the other ----------

  /** A change of a range, or of the whole text. */
  datatype Change = Change(range: Option<(Position, Position)>, text: Text)

  function Changed(text: Text, change: Change): Text {
    if change.range.None? then change.text
    else Replace(text, IndexOf(text, change.range.value.0), IndexOf(text, change.range.value.1), change.text)
  }

  /** Every change made to the text the one before it left. */
  function ChangedAll(text: Text, changes: seq<Change>): Text {
    if changes == [] then text else Changed(ChangedAll(text, changes[..|changes| - 1]), changes[|changes| - 1])
  }

  /** Change a range, through an index of the lines of the text as it is. */
  method ReplaceRange(text: Text, lines: LineIndex, range: (Position, Position), with: Text) returns (r: Text)
    requires IsIndex(lines.starts, text)
    ensures r == Replace(text, IndexOf(text, range.0), IndexOf(text, range.1), with)
  {
    var start := lines.OffsetAt(text, range.0);
    var end := lines.OffsetAt(text, range.1);
    BytesAreCharacters(text, IndexOf(text, range.0), IndexOf(text, range.1), with);
    r := ReplaceBytes(text, start, end, with);
  }

  /** The text after a document's changes. Its own line index serves the first of them. */
  method ChangedText(previous: Text, lines: LineIndex, changes: seq<Change>) returns (text: Text)
    requires IsIndex(lines.starts, previous)
    ensures text == ChangedAll(previous, changes)
  {
    text := previous;
    var held, i := true, 0;
    while i < |changes|
      invariant 0 <= i <= |changes| && text == ChangedAll(previous, changes[..i])
      invariant held ==> IsIndex(lines.starts, text)
    {
      var change := changes[i];
      assert changes[..i + 1][..i] == changes[..i] && changes[..i + 1][i] == change;
      match change.range {
        case Some(range) =>
          var index := lines;
          if !held {
            index := new LineIndex(text);
          }
          held := false;
          text := ReplaceRange(text, index, range, change.text);
        case None =>
          text := change.text;
          held := false;
      }
      i := i + 1;
    }
    assert changes[..i] == changes;
  }

  // ---------- Edits, all at once ----------

  datatype TextEdit = TextEdit(start: Position, end: Position, text: Text)

  /** An edit of characters. */
  datatype Span = Span(start: nat, end: nat, text: Text)
  {
    function Until(): nat { Later(end, start) }
  }

  function SpanOf(text: Text, edit: TextEdit): Span {
    Span(IndexOf(text, edit.start), IndexOf(text, edit.end), edit.text)
  }

  function SpansOf(text: Text, edits: seq<TextEdit>): (r: seq<Span>)
    ensures |r| == |edits| && forall i :: 0 <= i < |r| ==> r[i] == SpanOf(text, edits[i])
  {
    seq(|edits|, i requires 0 <= i < |edits| => SpanOf(text, edits[i]))
  }

  /** Starts are distinct and no edit reaches into the next. */
  ghost predicate Apart(spans: seq<Span>) {
    forall i, j :: 0 <= i < j < |spans| ==>
      || (spans[i].start < spans[j].start && spans[i].Until() <= spans[j].start)
      || (spans[j].start < spans[i].start && spans[j].Until() <= spans[i].start)
  }

  /** From the last to the first, each ending before the one before starts. */
  ghost predicate Descending(spans: seq<Span>) {
    |spans| < 2 || (spans[1].start < spans[0].start && spans[1].Until() <= spans[0].start && Descending(spans[1..]))
  }

  /** All edits made to one text at once, up to character `end`: between and around what they
      replace it stays as it is. */
  function Edited(text: Text, spans: seq<Span>, end: nat): Text
    requires end <= |text| && Descending(spans) && (spans != [] ==> spans[0].Until() <= end)
  {
    if spans == [] then text[..end]
    else Edited(text, spans[1..], spans[0].start) + spans[0].text + text[spans[0].Until()..end]
  }

  function InsertSpan(s: Span, sorted: seq<Span>): seq<Span> {
    if sorted == [] || sorted[0].start <= s.start then [s] + sorted else [sorted[0]] + InsertSpan(s, sorted[1..])
  }

  /** Later starts first. */
  function SortSpans(spans: seq<Span>): seq<Span> {
    if spans == [] then [] else InsertSpan(spans[0], SortSpans(spans[1..]))
  }

  ghost predicate ApartFrom(s: Span, spans: seq<Span>) {
    forall t :: t in spans
        ==> (s.start < t.start && s.Until() <= t.start)
            || (t.start < s.start && t.Until() <= s.start)
  }

  lemma {:induction false} InsertedSpan(s: Span, sorted: seq<Span>)
    requires Descending(sorted) && ApartFrom(s, sorted)
    ensures Descending(InsertSpan(s, sorted))
    ensures forall t :: t in InsertSpan(s, sorted) <==> t == s || t in sorted
  {
    if sorted == [] || sorted[0].start <= s.start {
      assert ([s] + sorted)[1..] == sorted;
    } else {
      var first, rest := sorted[0], sorted[1..];
      assert sorted == [first] + rest;
      InsertedSpan(s, rest);
      assert ([first] + InsertSpan(s, rest))[1..] == InsertSpan(s, rest);
      assert first in sorted;
    }
  }

  lemma {:induction false} SortedSpans(spans: seq<Span>)
    requires Apart(spans)
    ensures Descending(SortSpans(spans)) && forall t :: t in SortSpans(spans) <==> t in spans
  {
    if spans != [] {
      var first, rest := spans[0], spans[1..];
      assert spans == [first] + rest;
      assert Apart(rest) by {
        forall i, j | 0 <= i < j < |rest|
          ensures (rest[i].start < rest[j].start && rest[i].Until() <= rest[j].start)
               || (rest[j].start < rest[i].start && rest[j].Until() <= rest[i].start)
        {
          assert spans[i + 1] == rest[i] && spans[j + 1] == rest[j];
        }
      }
      SortedSpans(rest);
      assert ApartFrom(first, SortSpans(rest)) by {
        forall t | t in SortSpans(rest)
          ensures (first.start < t.start && first.Until() <= t.start)
                  || (t.start < first.start && t.Until() <= first.start)
        {
          var j :| 0 <= j < |rest| && rest[j] == t;
          assert spans[0] == first && spans[j + 1] == t;
        }
      }
      InsertedSpan(first, SortSpans(rest));
    }
  }

  lemma {:induction false} FirstIsLatest(spans: seq<Span>, s: Span)
    requires Descending(spans) && s in spans
    ensures s.start <= spans[0].start && (s != spans[0] ==> s.start < spans[0].start)
  {
    if s != spans[0] {
      assert spans == [spans[0]] + spans[1..];
      FirstIsLatest(spans[1..], s);
    }
  }

  lemma {:induction false} InRest(spans: seq<Span>, s: Span)
    requires Descending(spans) && spans != []
    ensures s in spans[1..] <==> s in spans && s != spans[0]
  {
    assert spans == [spans[0]] + spans[1..];
    if s in spans[1..] { FirstIsLatest(spans[1..], s); }
  }

  /** Edits of the same places come in one order only. */
  lemma {:induction false} SameSpansSameOrder(a: seq<Span>, b: seq<Span>)
    requires Descending(a) && Descending(b) && forall s :: s in a <==> s in b
    ensures a == b
  {
    assert (a != [] ==> a[0] in a) && (b != [] ==> b[0] in b);
    if a != [] {
      FirstIsLatest(a, b[0]);
      FirstIsLatest(b, a[0]);
      assert a[0] == b[0];
      forall s ensures s in a[1..] <==> s in b[1..] {
        InRest(a, s);
        InRest(b, s);
      }
      SameSpansSameOrder(a[1..], b[1..]);
      assert a == [a[0]] + a[1..] && b == [b[0]] + b[1..];
    }
  }

  // ---------- From the last edit to the first ----------

  /** What editing so far has left: up to `end` the text as it was, then `tail`. */
  lemma {:induction false} ReplaceBefore(text: Text, end: nat, tail: Text, s: Span)
    requires end <= |text| && s.Until() <= end
    ensures var left := text[..end] + tail;
            Replace(left, s.start, s.Until(), s.text) == text[..s.start] + (s.text + text[s.Until()..end] + tail)
  {
    var left := text[..end] + tail;
    assert left[..s.start] == text[..s.start] && left[s.Until()..] == text[s.Until()..end] + tail;
  }

  lemma SpanBytes(text: Text, end: nat, tail: Text, n: nat)
    requires n <= end <= |text|
    ensures n <= |text[..end] + tail| && ByteOf(text[..end] + tail, n) == ByteOf(text, n)
  {
    assert (text[..end] + tail)[..n] == text[..n];
  }

  /** A span with its ends as byte offsets. */
  datatype ByteSpan = ByteSpan(start: nat, end: nat, text: Text)

  function InBytes(text: Text, s: Span): ByteSpan
    requires s.start <= |text| && s.end <= |text|
  {
    ByteSpan(ByteOf(text, s.start), ByteOf(text, s.end), s.text)
  }

  /** Replacing one span by bytes in what editing has left so far. */
  lemma {:induction false} ReplaceOneSpan(text: Text, end: nat, tail: Text, s: Span)
    requires end <= |text| && s.Until() <= end
    ensures s.end <= |text| && s.start <= |text|
    ensures var left, b := text[..end] + tail, InBytes(text, s);
            && CharAt(left, b.start).Some? && CharAt(left, Later(b.end, b.start)).Some?
            && ReplaceBytes(left, b.start, b.end, b.text) == text[..s.start] + (s.text + text[s.Until()..end] + tail)
  {
    var left := text[..end] + tail;
    SpanBytes(text, end, tail, s.start);
    SpanBytes(text, end, tail, s.end);
    BytesAreCharacters(left, s.start, s.end, s.text);
    ReplaceBefore(text, end, tail, s);
  }

  /** What editing has left: the text as it was up to `end`, where the edits still to make
      lie, then what those made put in place of the rest. */
  ghost predicate Left(text: Text, whole: Text, rest: seq<Span>, result: Text, end: nat, tail: Text) {
    && end <= |text| && result == text[..end] + tail
    && Descending(rest) && (rest != [] ==> rest[0].Until() <= end)
    && whole == Edited(text, rest, end) + tail
  }

  lemma {:induction false} LeftStart(text: Text, spans: seq<Span>)
    requires Descending(spans) && (spans != [] ==> spans[0].Until() <= |text|)
    ensures Left(text, Edited(text, spans, |text|), spans, text, |text|, [])
  {
    assert text[..|text|] + [] == text && Edited(text, spans, |text|) + [] == Edited(text, spans, |text|);
  }

  lemma LeftStep(text: Text, whole: Text, s: Span, rest: seq<Span>, result: Text, end: nat, tail: Text, result': Text)
    requires Left(text, whole, [s] + rest, result, end, tail)
    requires s.start <= |text| && result' == text[..s.start] + (s.text + text[s.Until()..end] + tail)
    ensures Left(text, whole, rest, result', s.start, s.text + text[s.Until()..end] + tail)
  {
    var spans := [s] + rest;
    assert spans[0] == s && spans[1..] == rest;
    var before, between := Edited(text, rest, s.start), text[s.Until()..end];
    assert (before + s.text + between) + tail == before + (s.text + between + tail);
  }

  /** Replace one span in what is left of the text by those after it. */
  method ReplaceNext(text: Text, ghost whole: Text, spans: seq<Span>, i: nat, result0: Text, ghost end0: nat,
                     ghost tail0: Text)
    returns (result: Text, ghost end: nat, ghost tail: Text)
    requires i < |spans| && spans[i].start <= |text| && spans[i].end <= |text|
    requires Left(text, whole, spans[i..], result0, end0, tail0)
    ensures Left(text, whole, spans[i + 1..], result, end, tail)
  {
    var s := spans[i];
    assert spans[i..] == [s] + spans[i + 1..];
    ReplaceOneSpan(text, end0, tail0, s);
    var b := InBytes(text, s);
    result := ReplaceBytes(result0, b.start, b.end, b.text);
    LeftStep(text, whole, s, spans[i + 1..], result0, end0, tail0, result);
    end, tail := s.start, s.text + text[s.Until()..end0] + tail0;
  }

  /** Make the edits from the last to the first, each in what the ones after it left. */
  method ReplaceAll(text: Text, spans: seq<Span>) returns (result: Text)
    requires Descending(spans) && forall s :: s in spans ==> s.start <= |text| && s.end <= |text|
    ensures (spans == [] || spans[0].Until() <= |text|) && result == Edited(text, spans, |text|)
  {
    assert spans != [] ==> spans[0] in spans;
    ghost var whole, end: nat, tail: Text := Edited(text, spans, |text|), |text|, [];
    LeftStart(text, spans);
    result := text;
    var i := 0;
    assert spans[0..] == spans;
    while i < |spans|
      invariant 0 <= i <= |spans| && Left(text, whole, spans[i..], result, end, tail)
    {
      assert spans[i] in spans;
      result, end, tail := ReplaceNext(text, whole, spans, i, result, end, tail);
      i := i + 1;
    }
    assert spans[i..] == [];
  }

  /** Edits whose places are apart, in whatever order they are listed, are made all at
      once. */
  method ApplyEdits(text: Text, edits: seq<TextEdit>) returns (result: Text)
    requires Apart(SpansOf(text, edits))
    ensures Descending(SortSpans(SpansOf(text, edits)))
    ensures SortSpans(SpansOf(text, edits)) == [] || SortSpans(SpansOf(text, edits))[0].Until() <= |text|
    ensures result == Edited(text, SortSpans(SpansOf(text, edits)), |text|)
  {
    SortedSpans(SpansOf(text, edits));
    var lines := new LineIndex(text);
    var spans, i := [], 0;
    while i < |edits|
      invariant 0 <= i <= |edits| && spans == SpansOf(text, edits)[..i]
    {
      var start := lines.OffsetAt(text, edits[i].start);
      var end := lines.OffsetAt(text, edits[i].end);
      CharAtByte(text, IndexOf(text, edits[i].start));
      CharAtByte(text, IndexOf(text, edits[i].end));
      spans := spans + [Span(CharAt(text, start).value, CharAt(text, end).value, edits[i].text)];
      i := i + 1;
    }
    assert spans == SpansOf(text, edits);
    forall s | s in SortSpans(spans) ensures s.start <= |text| && s.end <= |text| {
      assert s in SpansOf(text, edits);
    }
    result := ReplaceAll(text, SortSpans(spans));
  }

  /** The order edits are listed in does not matter. */
  lemma OrderDoesNotMatter(text: Text, a: seq<TextEdit>, b: seq<TextEdit>)
    requires Apart(SpansOf(text, a)) && Apart(SpansOf(text, b)) && forall e :: e in a <==> e in b
    ensures SortSpans(SpansOf(text, a)) == SortSpans(SpansOf(text, b))
  {
    SortedSpans(SpansOf(text, a));
    SortedSpans(SpansOf(text, b));
    forall s ensures s in SpansOf(text, a) <==> s in SpansOf(text, b) {
      if s in SpansOf(text, a) {
        var i :| 0 <= i < |a| && SpansOf(text, a)[i] == s;
        assert a[i] in b;
        var j :| 0 <= j < |b| && b[j] == a[i];
        assert SpansOf(text, b)[j] == s;
      }
      if s in SpansOf(text, b) {
        var i :| 0 <= i < |b| && SpansOf(text, b)[i] == s;
        assert b[i] in a;
        var j :| 0 <= j < |a| && a[j] == b[i];
        assert SpansOf(text, a)[j] == s;
      }
    }
    SameSpansSameOrder(SortSpans(SpansOf(text, a)), SortSpans(SpansOf(text, b)));
  }
}
