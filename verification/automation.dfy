/** Automation clips of a sequence: cropping and splitting them in place, and the
    envelope each bound target sees. */
module Automation {
  import opened Options
  import opened Fractions
  import opened Curves
  import opened Edges
  import opened Crop
  import opened Envelopes

  /** A parameter automation sets: of a clip, or of an operator node of the graph. */
  datatype AutomationTarget =
    | ClipParam(clipId: nat, param: string)
    | CompositionNodeParam(nodeId: nat, param: string)

  datatype Binding = Binding(target: AutomationTarget, window: Window)

  datatype Clip = Clip(id: nat, start: real, duration: real, points: seq<Point>,
                       bindings: seq<Binding>, detached: seq<AutomationTarget>)
  {
    function End(): real { start + duration }

    /** The curve in seconds. */
    function Timed(): seq<Point> { Moved(points, start, duration) }

    ghost predicate Valid() {
      duration > 0.0 && Ordered(points) && PositionsWithin(points, 0.0, 1.0) && ValuesWithin(points, 0.0, 1.0)
    }

    function Cropped(newStart: real, newDuration: real): Clip
      requires duration > 0.0 && newDuration > 0.0
    {
      this.(start := newStart, duration := newDuration,
            points := CroppedPoints(points, start, duration, newStart, newDuration))
    }

    /** What splitting at `at` keeps, and what it splits off as clip `newId`. */
    function LeftOf(at: real): Clip
      requires start < at < End()
    {
      Cropped(start, at - start)
    }

    function RightOf(at: real, newId: nat): Clip
      requires start < at < End()
    {
      this.(id := newId).Cropped(at, End() - at)
    }

    /** The first binding of `target`. */
    function BindingOf(target: AutomationTarget): Option<Binding> {
      FindBinding(bindings, target)
    }
  }

  function FindBinding(bindings: seq<Binding>, target: AutomationTarget): Option<Binding> {
    if bindings == [] then None
    else if bindings[0].target == target then Some(bindings[0])
    else FindBinding(bindings[1..], target)
  }

  /** A clip an edit holds, updated in place. */
  class AutomationClip {
    var id: nat
    var start: real
    var duration: real
    var points: seq<Point>
    var bindings: seq<Binding>
    var detached: seq<AutomationTarget>

    function Value(): Clip
      reads this
    {
      Clip(id, start, duration, points, bindings, detached)
    }

    constructor (clip: Clip)
      ensures Value() == clip
    {
      id, start, duration := clip.id, clip.start, clip.duration;
      points, bindings, detached := clip.points, clip.bindings, clip.detached;
    }

    /** Move the clip window over fixed content. */
    method Crop(newStart: real, newDuration: real)
      requires duration > 0.0 && newDuration > 0.0
      modifies this
      ensures Value() == old(Value()).Cropped(newStart, newDuration)
      ensures start == newStart && duration == newDuration
      ensures id == old(id) && bindings == old(bindings) && detached == old(detached)
    {
      points := CroppedPoints(points, start, duration, newStart, newDuration);
      start, duration := newStart, newDuration;
    }

    /** Keep the part before `at` and return the part after it as clip `newId`. */
    method SplitOff(at: real, newId: nat) returns (right: AutomationClip?)
      requires duration > 0.0
      modifies this
      ensures right == null <==> !(old(start) < at < old(Value()).End())
      ensures right == null ==> Value() == old(Value())
      ensures right != null ==> fresh(right) && right.Value() == old(Value()).RightOf(at, newId)
      ensures right != null ==> Value() == old(Value()).LeftOf(at)
      ensures right != null ==> start == old(start) && start + duration == at == right.start
      ensures right != null ==> right.start + right.duration == old(start) + old(duration)
      ensures right != null ==> id == old(id) && bindings == old(bindings) && detached == old(detached)
      ensures right != null ==> right.id == newId && right.bindings == old(bindings) && right.detached == old(detached)
    {
      var end := start + duration;
      if at <= start || end <= at {
        return null;
      }
      ghost var whole := Value();
      var r := new AutomationClip(Value());
      r.id := newId;
      assert r.Value() == whole.(id := newId);
      r.Crop(at, end - at);
      assert r.Value() == whole.RightOf(at, newId);
      Crop(start, at - start);
      right := r;
    }
  }

  // ---------- The envelope of a target ----------

  function PieceOf(clip: Clip, window: Window): Piece {
    Piece(clip.start, clip.duration, window.ApplyToCurve(clip.points))
  }

  /** The pieces of `clips` actively bound to `target`, each through its own window. */
  function Bound(clips: seq<Clip>, target: AutomationTarget): seq<Piece> {
    if clips == [] then []
    else
      var binding := clips[0].BindingOf(target);
      (if binding.Some? then [PieceOf(clips[0], binding.value.window)] else []) + Bound(clips[1..], target)
  }

  function Insert(p: Piece, sorted: seq<Piece>): seq<Piece> {
    if sorted == [] || p.start <= sorted[0].start then [p] + sorted
    else [sorted[0]] + Insert(p, sorted[1..])
  }

  /** Stable sort by start. */
  function SortByStart(pieces: seq<Piece>): seq<Piece> {
    if pieces == [] then [] else Insert(pieces[0], SortByStart(pieces[1..]))
  }

  function MaxEnd(pieces: seq<Piece>): real
    requires pieces != []
  {
    if |pieces| == 1 then pieces[0].End()
    else
      var rest := MaxEnd(pieces[1..]);
      if rest < pieces[0].End() then pieces[0].End() else rest
  }

  datatype Envelope = Envelope(start: real, duration: real, points: seq<Point>)

  /** The envelope of two or more pieces, sorted by start. */
  function MergedEnvelope(sorted: seq<Piece>): Envelope
    requires sorted != [] && AllValid(sorted)
  {
    var start, end := sorted[0].start, MaxEnd(sorted);
    assert start < end by { MaxEndAfter(sorted); }
    Envelope(start, end - start, Repositioned(Merged(sorted, true, None), start, end - start))
  }

  lemma {:induction false} MaxEndAfter(pieces: seq<Piece>)
    requires pieces != [] && AllValid(pieces)
    ensures pieces[0].start < MaxEnd(pieces)
  {
  }

  function EnvelopeOf(pieces: seq<Piece>): Option<Envelope>
    requires AllValid(pieces)
  {
    if pieces == [] then None
    else if |pieces| == 1 then Some(Envelope(pieces[0].start, pieces[0].duration, pieces[0].points))
    else
      SortKeeps(pieces);
      Some(MergedEnvelope(SortByStart(pieces)))
  }

  /** What playback reads from an envelope at time `t`. */
  function EnvelopeAt(env: Envelope, t: real): Option<real>
    requires env.duration > 0.0
  {
    SampleCurve(env.points, Clamp((t - env.start) / env.duration, 0.0, 1.0))
  }

  lemma {:induction false} InsertKeeps(p: Piece, sorted: seq<Piece>)
    requires p.Valid() && AllValid(sorted)
    ensures AllValid(Insert(p, sorted)) && |Insert(p, sorted)| == |sorted| + 1
    ensures forall q :: q in Insert(p, sorted) <==> q == p || q in sorted
  {
    if sorted == [] || p.start <= sorted[0].start {
      assert ([p] + sorted)[1..] == sorted;
    } else {
      var h, rest := sorted[0], sorted[1..];
      InsertKeeps(p, rest);
      assert sorted == [h] + rest;
      assert ([h] + Insert(p, rest))[1..] == Insert(p, rest);
    }
  }

  lemma {:induction false} SortKeeps(pieces: seq<Piece>)
    requires AllValid(pieces)
    ensures AllValid(SortByStart(pieces)) && |SortByStart(pieces)| == |pieces|
    ensures forall q :: q in SortByStart(pieces) <==> q in pieces
  {
    if pieces != [] {
      assert pieces == [pieces[0]] + pieces[1..];
      SortKeeps(pieces[1..]);
      InsertKeeps(pieces[0], SortByStart(pieces[1..]));
    }
  }

  predicate Overlaps(a: Piece, b: Piece) {
    a.start < b.End() && b.start < a.End()
  }

  ghost predicate OverlapsNone(p: Piece, pieces: seq<Piece>) {
    forall q :: q in pieces ==> !Overlaps(p, q)
  }

  /** Pieces bound to one target never overlap. */
  ghost predicate NonOverlapping(pieces: seq<Piece>) {
    pieces == [] || (OverlapsNone(pieces[0], pieces[1..]) && NonOverlapping(pieces[1..]))
  }

  lemma {:induction false} InsertDisjoint(p: Piece, sorted: seq<Piece>)
    requires p.Valid() && AllValid(sorted) && Disjoint(sorted) && OverlapsNone(p, sorted)
    ensures Disjoint(Insert(p, sorted))
  {
    if sorted == [] {
    } else if p.start <= sorted[0].start {
      assert !Overlaps(p, sorted[0]);
      assert ([p] + sorted)[1..] == sorted;
    } else {
      var h, rest := sorted[0], sorted[1..];
      assert sorted == [h] + rest;
      assert !Overlaps(p, h);
      InsertDisjoint(p, rest);
      assert ([h] + Insert(p, rest))[1..] == Insert(p, rest);
    }
  }

  lemma {:induction false} SortDisjoint(pieces: seq<Piece>)
    requires AllValid(pieces) && NonOverlapping(pieces)
    ensures Disjoint(SortByStart(pieces))
  {
    if pieces != [] {
      SortDisjoint(pieces[1..]);
      SortKeeps(pieces[1..]);
      InsertDisjoint(pieces[0], SortByStart(pieces[1..]));
    }
  }

  // ---------- What the envelope gives ----------

  /** `p` decides the value at `t`: the nonempty piece started last by then, or
      the one that starts first when none has started. */
  ghost predicate Governs(p: Piece, pieces: seq<Piece>, t: real) {
    && p in pieces && p.points != []
    && forall q :: q in pieces && q.points != [] ==>
         if p.start <= t then q.start <= t ==> q.start <= p.start else p.start <= q.start
  }

  lemma {:induction false} LaterPieces(pieces: seq<Piece>, q: Piece)
    requires AllValid(pieces) && Disjoint(pieces) && pieces != [] && q in pieces[1..]
    ensures pieces[0].start < pieces[0].End() <= q.start && q.Valid()
  {
    var rest := pieces[1..];
    assert rest == [rest[0]] + rest[1..];
    if q != rest[0] {
      LaterPieces(rest, q);
    }
  }

  lemma {:induction false} GoverningValue(pieces: seq<Piece>, p: Piece, t: real)
    requires AllValid(pieces) && Disjoint(pieces) && Governs(p, pieces, t)
    ensures p.Valid() && ValueOf(pieces, t) == Some(p.ValueAt(t))
  {
    var h, rest := pieces[0], pieces[1..];
    assert pieces == [h] + rest;
    if p in rest { LaterPieces(pieces, p); }
    if h.points == [] {
      GoverningValue(rest, p, t);
    } else if Started(rest, t) {
      var q :| q in rest && q.points != [] && q.start <= t;
      LaterPieces(pieces, q);
      assert h in pieces && q in pieces;
      GoverningValue(rest, p, t);
    } else if p in rest {
      assert false;
    }
  }

  lemma {:induction false} MaxEndIsLast(pieces: seq<Piece>)
    requires pieces != [] && AllValid(pieces) && Disjoint(pieces)
    ensures MaxEnd(pieces) == LastEnd(pieces)
  {
    if |pieces| > 1 {
      MaxEndIsLast(pieces[1..]);
      StartsAndEnds(pieces);
      StartsAndEnds(pieces[1..]);
    }
  }

  lemma {:induction false} PieceWithin(pieces: seq<Piece>, p: Piece)
    requires AllValid(pieces) && Disjoint(pieces) && p in pieces
    ensures p.Valid() && pieces[0].start <= p.start && p.End() <= LastEnd(pieces)
  {
    StartsAndEnds(pieces);
    if p != pieces[0] {
      assert pieces == [pieces[0]] + pieces[1..];
      PieceWithin(pieces[1..], p);
    }
  }

  /** Past either end of the pieces, what governs and its value no longer change. */
  lemma {:induction false} GovernsClamped(pieces: seq<Piece>, p: Piece, t: real, c: real)
    requires AllValid(pieces) && Disjoint(pieces) && Governs(p, pieces, t)
    requires pieces[0].start < LastEnd(pieces) && c == Clamp(t, pieces[0].start, LastEnd(pieces))
    ensures p.Valid() && Governs(p, pieces, c) && p.ValueAt(c) == p.ValueAt(t)
  {
    PieceWithin(pieces, p);
    forall q | q in pieces && q.points != []
      ensures if p.start <= c then q.start <= c ==> q.start <= p.start else p.start <= q.start
    {
      PieceWithin(pieces, q);
    }
  }

  /** The merged points sample as the envelope's value, all over the merged span. */
  lemma {:induction false} MergedValue(sorted: seq<Piece>, c: real)
    requires sorted != [] && AllValid(sorted) && Disjoint(sorted) && sorted[0].start <= c
    requires HasCurve(sorted)
    ensures Merged(sorted, true, None) != []
    ensures ValueOf(sorted, c) == Some(Sample(Merged(sorted, true, None), c))
  {
    if FirstStart(sorted) <= c {
      MergedGives(sorted, true, None, c);
    } else {
      MergedBefore(sorted, true, c);
    }
  }

  /** An envelope is read as its points in seconds, held beyond its ends. */
  lemma EnvelopeInSeconds(env: Envelope, ps: seq<Point>, t: real)
    requires env.duration > 0.0 && env.points != [] && Ordered(env.points)
    requires ps == Moved(env.points, env.start, env.duration)
    ensures EnvelopeAt(env, t) == Some(Sample(ps, Clamp(t, env.start, env.start + env.duration)))
  {
    var u, c := Clamp((t - env.start) / env.duration, 0.0, 1.0), Clamp(t, env.start, env.start + env.duration);
    SampleClamped(env.points, ps, env.start, env.duration, t, u, c);
    SearchAgreesWithWalk(env.points, u);
  }

  lemma {:induction false} SampleClamped(points: seq<Point>, ps: seq<Point>, start: real, duration: real, t: real,
                                         u: real, c: real)
    requires points != [] && duration > 0.0 && ps == Moved(points, start, duration)
    requires u == Clamp((t - start) / duration, 0.0, 1.0) && c == Clamp(t, start, start + duration)
    ensures Sample(points, u) == Sample(ps, c)
  {
    assert start + u * duration == c by { ClampScaled(t, start, duration); }
    SampleMoved(points, u, start, duration);
  }

  lemma {:induction false} MergedFits(sorted: seq<Piece>, m: seq<Point>)
    requires sorted != [] && AllValid(sorted) && Disjoint(sorted) && HasCurve(sorted)
    requires m == Merged(sorted, true, None)
    ensures sorted[0].start <= LastEnd(sorted)
    ensures m != [] && Ordered(m) && Clamped(m, sorted[0].start, LastEnd(sorted)) == m
  {
    StartsAndEnds(sorted);
    MergedShape(sorted, true, None);
    StartedIff(sorted, sorted[0].start);
    OrderedBetween(m, sorted[0].start, LastEnd(sorted));
    InsideStays(m, sorted[0].start, LastEnd(sorted));
  }

  lemma {:induction false} RepositionedInSeconds(m: seq<Point>, start: real, span: real)
    requires span > 0.0 && m != [] && Ordered(m) && Clamped(m, start, start + span) == m
    ensures Repositioned(m, start, span) != [] && Ordered(Repositioned(m, start, span))
    ensures Moved(Repositioned(m, start, span), start, span) == m
  {
    MovedBack(m, start, span);
    MovedOrderedBack(Repositioned(m, start, span), start, span);
  }

  /** The merged envelope, in seconds, is the merged points themselves. */
  lemma {:induction false} MergedInSeconds(sorted: seq<Piece>)
    requires sorted != [] && AllValid(sorted) && Disjoint(sorted) && HasCurve(sorted)
    ensures var env := MergedEnvelope(sorted);
            && env.start == sorted[0].start && env.start + env.duration == LastEnd(sorted) && env.duration > 0.0
            && env.points != [] && Ordered(env.points)
            && Moved(env.points, env.start, env.duration) == Merged(sorted, true, None)
  {
    MaxEndAfter(sorted);
    MaxEndIsLast(sorted);
    MergedFits(sorted, Merged(sorted, true, None));
    RepositionedInSeconds(Merged(sorted, true, None), sorted[0].start, LastEnd(sorted) - sorted[0].start);
  }

  /** A nonempty piece among others always governs some value. */
  lemma {:induction false} HasCurveIff(pieces: seq<Piece>)
    ensures HasCurve(pieces) <==> exists p :: p in pieces && p.points != []
  {
    if pieces != [] {
      assert pieces == [pieces[0]] + pieces[1..];
      HasCurveIff(pieces[1..]);
      if HasCurve(pieces[1..]) {
        var p :| p in pieces[1..] && p.points != [];
        assert p in pieces;
      }
      if pieces[0].points != [] { assert pieces[0] in pieces; }
    }
  }

  lemma {:induction false} MergedEnvelopeGives(sorted: seq<Piece>, p: Piece, t: real)
    requires sorted != [] && AllValid(sorted) && Disjoint(sorted) && Governs(p, sorted, t)
    ensures p.Valid() && MergedEnvelope(sorted).duration > 0.0
    ensures EnvelopeAt(MergedEnvelope(sorted), t) == Some(p.ValueAt(t))
  {
    HasCurveIff(sorted);
    MergedInSeconds(sorted);
    var env, c := MergedEnvelope(sorted), Clamp(t, sorted[0].start, LastEnd(sorted));
    assert p.Valid() && Governs(p, sorted, c) && p.ValueAt(c) == p.ValueAt(t) by { GovernsClamped(sorted, p, t, c); }
    assert ValueOf(sorted, c) == Some(p.ValueAt(c)) by { GoverningValue(sorted, p, c); }
    MergedValue(sorted, c);
    EnvelopeInSeconds(env, Merged(sorted, true, None), t);
  }

  /** The envelope of a target gives, at every time, the value of the governing piece:
      of the clip covering the time, of the clip before a gap held at its end, of the
      later of two clips that abut, of the first clip before all of them. */
  lemma {:induction false} EnvelopeGivesGoverning(pieces: seq<Piece>, p: Piece, t: real)
    requires AllValid(pieces) && NonOverlapping(pieces) && Governs(p, pieces, t)
    ensures p.Valid() && EnvelopeOf(pieces).Some? && EnvelopeOf(pieces).value.duration > 0.0
    ensures EnvelopeAt(EnvelopeOf(pieces).value, t) == Some(p.ValueAt(t))
  {
    if |pieces| == 1 {
      assert pieces == [p];
      EnvelopeInSeconds(EnvelopeOf(pieces).value, p.Timed(), t);
    } else {
      SortKeeps(pieces);
      SortDisjoint(pieces);
      assert Governs(p, SortByStart(pieces), t);
      MergedEnvelopeGives(SortByStart(pieces), p, t);
    }
  }

  /** With no curve point in any clip, the envelope has no value anywhere. */
  lemma {:induction false} EnvelopeWithoutCurve(pieces: seq<Piece>, t: real)
    requires AllValid(pieces) && NonOverlapping(pieces) && pieces != []
    requires forall p :: p in pieces ==> p.points == []
    ensures EnvelopeOf(pieces).Some? && EnvelopeOf(pieces).value.duration > 0.0
    ensures EnvelopeAt(EnvelopeOf(pieces).value, t) == None
  {
    if |pieces| > 1 {
      var sorted := SortByStart(pieces);
      SortKeeps(pieces);
      SortDisjoint(pieces);
      HasCurveIff(sorted);
      MergedShape(sorted, true, None);
      MaxEndAfter(sorted);
    }
  }

  lemma {:induction false} EnvelopePositionsOrdered(pieces: seq<Piece>)
    requires AllValid(pieces) && NonOverlapping(pieces) && pieces != []
    ensures EnvelopeOf(pieces).Some? && Ordered(EnvelopeOf(pieces).value.points)
    ensures PositionsWithin(EnvelopeOf(pieces).value.points, 0.0, 1.0)
  {
    if |pieces| > 1 {
      var sorted := SortByStart(pieces);
      SortKeeps(pieces);
      SortDisjoint(pieces);
      MergedShape(sorted, true, None);
      if HasCurve(sorted) { MergedInSeconds(sorted); }
    }
  }

  // ---------- Splitting ----------

  /** `clips` with clip `i` split at `at`. */
  function SplitClips(clips: seq<Clip>, i: nat, at: real, newId: nat): seq<Clip>
    requires i < |clips| && clips[i].start < at < clips[i].End()
  {
    clips[..i] + [clips[i].LeftOf(at), clips[i].RightOf(at, newId)] + clips[i + 1..]
  }

  lemma {:induction false} BoundAppend(a: seq<Clip>, b: seq<Clip>, target: AutomationTarget)
    ensures Bound(a + b, target) == Bound(a, target) + Bound(b, target)
  {
    if a == [] {
      assert a + b == b;
    } else {
      assert (a + b)[1..] == a[1..] + b;
      BoundAppend(a[1..], b, target);
    }
  }

  /** The curve in parts around the two halves of a split. */
  ghost predicate IsCut(c: Clip, at: real, left: Parts, right: Parts) {
    IsParts(c.Timed(), c.start, at, left) && IsParts(c.Timed(), at, c.End(), right)
  }

  /** Splitting is exact: before the cut the curve is level into the points pulled
      left onto it, and from the cut on it is level out of those pulled right. */
  predicate SplitExact(c: Clip, at: real, left: Parts, right: Parts) {
    ExactInside(left, c.start, at) && ExactInside(right, at, c.End())
  }

  lemma LastOfParts(k: Parts)
    requires k.pulledRight != [] || k.cutRight != []
    ensures k.Whole() != []
    ensures Last(k.Whole()) == if k.cutRight != [] then Last(k.cutRight) else Last(k.pulledRight)
  {
  }

  /** Nothing of a valid clip's curve lies after its end. */
  lemma NothingAfterEnd(c: Clip, at: real, right: Parts)
    requires c.Valid() && c.start < at < c.End() && IsParts(c.Timed(), at, c.End(), right)
    ensures right.pulledRight == [] && right.cutRight == []
  {
    if right.pulledRight != [] || right.cutRight != [] {
      LastOfParts(right);
      TimedWithin(c.points, c.start, c.duration);
      assert false;
    }
  }

  lemma LeftHalfKeepsIff(c: Clip, at: real, left: Parts)
    requires c.Valid() && c.points != [] && c.start < at < c.End() && IsParts(c.Timed(), c.start, at, left)
    ensures ExactInside(left, c.start, at) <==> KeepsSamplesInside(c.LeftOf(at).Timed(), c.Timed(), c.start, at)
  {
    CropKeepsInsideIff(c.points, c.start, c.duration, c.start, at - c.start, at, c.Timed(), left, c.LeftOf(at).Timed());
  }

  /** The part split off, in seconds. */
  lemma {:induction false} RightIs(c: Clip, at: real, newId: nat, d: real, cropped: seq<Point>)
    requires c.duration > 0.0 && c.start < at < c.End() && d == c.End() - at
    requires cropped == c.RightOf(at, newId).Timed()
    ensures cropped == Moved(CroppedPoints(c.points, c.start, c.duration, at, d), at, d)
  {
  }

  lemma RightHalfKeepsIff(c: Clip, at: real, newId: nat, right: Parts)
    requires c.Valid() && c.points != [] && c.start < at < c.End() && IsParts(c.Timed(), at, c.End(), right)
    ensures ExactInside(right, at, c.End()) <==> KeepsSamples(c.RightOf(at, newId).Timed(), c.Timed(), at, c.End())
  {
    var e, d, cropped := c.End(), c.End() - at, c.RightOf(at, newId).Timed();
    NothingAfterEnd(c, at, right);
    RightIs(c, at, newId, d, cropped);
    CropKeepsSamplesIff(c.points, c.start, c.duration, at, d, e, c.Timed(), right, cropped);
  }

  lemma RightHalfKeepsInsideIff(c: Clip, at: real, newId: nat, right: Parts)
    requires c.Valid() && c.points != [] && c.start < at < c.End() && IsParts(c.Timed(), at, c.End(), right)
    ensures ExactInside(right, at, c.End())
            <==> KeepsSamplesInside(c.RightOf(at, newId).Timed(), c.Timed(), at, c.End())
  {
    var e, d, cropped := c.End(), c.End() - at, c.RightOf(at, newId).Timed();
    RightIs(c, at, newId, d, cropped);
    CropKeepsInsideIff(c.points, c.start, c.duration, at, d, e, c.Timed(), right, cropped);
  }

  lemma HalvesValid(c: Clip, at: real, newId: nat)
    requires c.Valid() && c.start < at < c.End()
    ensures c.LeftOf(at).Valid() && c.RightOf(at, newId).Valid()
    ensures c.LeftOf(at).points == [] <==> c.points == []
    ensures c.RightOf(at, newId).points == [] <==> c.points == []
  {
    CroppedIsValid(c.points, c.start, c.duration, c.start, at - c.start, 0.0, 1.0);
    CroppedIsValid(c.points, c.start, c.duration, at, c.End() - at, 0.0, 1.0);
  }

  lemma {:induction false} PieceValid(c: Clip, w: Window)
    requires c.Valid()
    ensures PieceOf(c, w).Valid() && (PieceOf(c, w).points == [] <==> c.points == [])
  {
    WindowedShape(w, c.points);
  }

  lemma {:induction false} WindowedShape(w: Window, ps: seq<Point>)
    requires Ordered(ps) && PositionsWithin(ps, 0.0, 1.0)
    ensures Ordered(w.ApplyToCurve(ps)) && PositionsWithin(w.ApplyToCurve(ps), 0.0, 1.0)
  {
    if ps != [] {
      var r, tail := w.ApplyToCurve(ps), w.ApplyToCurve(ps[1..]);
      WindowedShape(w, ps[1..]);
      assert r == [w.ApplyToPoint(ps[0])] + tail;
      assert r[1..] == tail;
    }
  }

  /** A piece's value is its clip's value through the window. */
  lemma PieceValue(c: Clip, w: Window, t: real)
    requires c.Valid() && c.points != []
    ensures PieceOf(c, w).Valid() && PieceOf(c, w).points != []
    ensures PieceOf(c, w).ValueAt(t) == w.Apply(Sample(c.Timed(), Clamp(t, c.start, c.End())))
  {
    PieceValid(c, w);
    WindowedMoved(w, c.points, c.start, c.duration);
    SampleWindowed(w, c.Timed(), Clamp(t, c.start, c.End()));
  }

  /** The two halves as a target sees them: left before the cut, right from it on. */
  lemma HalfGoverns(before: seq<Piece>, p: Piece, after: seq<Piece>, left: Piece, right: Piece, t: real)
    requires p.Valid() && p.start == left.start && left.End() == right.start && right.End() == p.End()
    requires left.duration > 0.0 && right.duration > 0.0
    requires p.points != [] && left.points != [] && right.points != []
    requires Governs(p, before + [p] + after, t)
    ensures Governs(if t < right.start then left else right, before + [left, right] + after, t)
  {
    var pieces, split := before + [p] + after, before + [left, right] + after;
    var h := if t < right.start then left else right;
    assert h in split;
    forall q | q in split && q.points != []
      ensures if h.start <= t then q.start <= t ==> q.start <= h.start else h.start <= q.start
    {
      if q != left && q != right { assert q in pieces; }
    }
  }

  lemma OtherGoverns(before: seq<Piece>, p: Piece, after: seq<Piece>, left: Piece, right: Piece, g: Piece, t: real)
    requires p.Valid() && p.start == left.start && left.End() == right.start && right.End() == p.End()
    requires left.duration > 0.0 && right.duration > 0.0 && g.duration > 0.0
    requires p.points != [] <==> left.points != []
    requires p.points != [] <==> right.points != []
    requires Governs(g, before + [p] + after, t) && g in before + after && !Overlaps(g, p)
    ensures Governs(g, before + [left, right] + after, t)
  {
    var pieces, split := before + [p] + after, before + [left, right] + after;
    assert g in split && p in pieces;
    forall q | q in split && q.points != []
      ensures if g.start <= t then q.start <= t ==> q.start <= g.start else g.start <= q.start
    {
      if q != left && q != right { assert q in pieces; }
    }
  }

  ghost predicate CrossFree(a: seq<Piece>, b: seq<Piece>) {
    forall p, q :: p in a && q in b ==> !Overlaps(p, q)
  }

  lemma {:induction false} NonOverlappingAppend(a: seq<Piece>, b: seq<Piece>)
    ensures NonOverlapping(a + b) <==> NonOverlapping(a) && NonOverlapping(b) && CrossFree(a, b)
  {
    if a == [] {
      assert a + b == b;
    } else {
      var h, rest := a[0], a[1..];
      assert a == [h] + rest && (a + b)[1..] == rest + b;
      NonOverlappingAppend(rest, b);
      assert OverlapsNone(h, rest + b) <==> OverlapsNone(h, rest) && CrossFree([h], b) by {
        assert forall q :: q in rest + b <==> q in rest || q in b;
      }
    }
  }

  lemma {:induction false} AllValidAppend(a: seq<Piece>, b: seq<Piece>)
    ensures AllValid(a + b) <==> AllValid(a) && AllValid(b)
  {
    if a == [] {
      assert a + b == b;
    } else {
      assert (a + b)[1..] == a[1..] + b;
      AllValidAppend(a[1..], b);
    }
  }

  lemma {:induction false} SplitAllValid(before: seq<Piece>, p: Piece, after: seq<Piece>, left: Piece, right: Piece)
    requires AllValid(before + [p] + after) && left.Valid() && right.Valid()
    ensures AllValid(before + [left, right] + after) && p.Valid()
  {
    AllValidAppend(before + [p], after);
    AllValidAppend(before, [p]);
    assert AllValid([left, right]) by { assert [left, right][1..] == [right]; }
    AllValidAppend(before, [left, right]);
    AllValidAppend(before + [left, right], after);
  }

  lemma {:induction false} SplitNonOverlapping(before: seq<Piece>, p: Piece, after: seq<Piece>, left: Piece,
                                               right: Piece)
    requires NonOverlapping(before + [p] + after) && left.duration > 0.0 && right.duration > 0.0
    requires p.start == left.start && left.End() == right.start && right.End() == p.End()
    ensures NonOverlapping(before + [left, right] + after) && CrossFree(before + after, [p])
  {
    NonOverlappingAppend(before + [p], after);
    NonOverlappingAppend(before, [p]);
    assert p in [p] && p in before + [p];
    assert NonOverlapping([left, right]) by { assert [left, right][1..] == [right]; }
    assert CrossFree(before, [left, right]);
    NonOverlappingAppend(before, [left, right]);
    assert CrossFree(before + [left, right], after);
    NonOverlappingAppend(before + [left, right], after);
  }

  /** The pieces before, at and after the split clip, and its halves. */
  lemma {:induction false} SplitStaysValid(before: seq<Piece>, p: Piece, after: seq<Piece>, left: Piece, right: Piece)
    requires AllValid(before + [p] + after) && NonOverlapping(before + [p] + after)
    requires left.Valid() && right.Valid()
    requires p.start == left.start && left.End() == right.start && right.End() == p.End()
    ensures AllValid(before + [left, right] + after) && NonOverlapping(before + [left, right] + after)
    ensures p.Valid() && CrossFree(before + after, [p])
  {
    SplitAllValid(before, p, after, left, right);
    SplitNonOverlapping(before, p, after, left, right);
  }

  /** The value a target's envelope gives at `t`: none without an envelope or a curve. */
  ghost function EnvelopeValue(pieces: seq<Piece>, t: real): Option<real>
    requires AllValid(pieces) && NonOverlapping(pieces)
  {
    if pieces == [] then None
    else
      EnvelopeLasts(pieces);
      EnvelopeAt(EnvelopeOf(pieces).value, t)
  }

  lemma {:induction false} EnvelopeLasts(pieces: seq<Piece>)
    requires AllValid(pieces) && NonOverlapping(pieces) && pieces != []
    ensures EnvelopeOf(pieces).Some? && EnvelopeOf(pieces).value.duration > 0.0
  {
    if |pieces| > 1 {
      var sorted := SortByStart(pieces);
      SortKeeps(pieces);
      MaxEndAfter(sorted);
    }
  }

  /** Unless no piece has a curve, some piece governs. */
  lemma {:induction false} SomeGoverns(pieces: seq<Piece>, t: real) returns (p: Piece)
    requires HasCurve(pieces)
    ensures Governs(p, pieces, t)
  {
    var h, rest := pieces[0], pieces[1..];
    assert pieces == [h] + rest;
    if !HasCurve(rest) {
      p := h;
      HasCurveIff(rest);
    } else {
      var g := SomeGoverns(rest, t);
      if h.points == [] {
        p := g;
      } else if g.start <= t {
        p := if h.start <= t && g.start <= h.start then h else g;
      } else {
        p := if h.start <= g.start then h else g;
      }
    }
  }

  /** Splitting at an exact cut leaves the envelope's value as it was at every time. */
  lemma {:induction false} SplitPiecesKeep(before: seq<Piece>, p: Piece, after: seq<Piece>, left: Piece, right: Piece,
                                           t: real)
    requires AllValid(before + [p] + after) && NonOverlapping(before + [p] + after)
    requires left.Valid() && right.Valid()
    requires p.start == left.start && left.End() == right.start && right.End() == p.End()
    requires p.points != [] <==> left.points != []
    requires p.points != [] <==> right.points != []
    requires p.points != [] && p.duration > 0.0 ==>
               p.ValueAt(t) == if t < right.start then left.ValueAt(t) else right.ValueAt(t)
    ensures AllValid(before + [left, right] + after) && NonOverlapping(before + [left, right] + after)
    ensures EnvelopeValue(before + [left, right] + after, t) == EnvelopeValue(before + [p] + after, t)
  {
    var pieces, split := before + [p] + after, before + [left, right] + after;
    SplitStaysValid(before, p, after, left, right);
    HasCurveIff(pieces);
    HasCurveIff(split);
    if HasCurve(pieces) {
      var g := SomeGoverns(pieces, t);
      EnvelopeGivesGoverning(pieces, g, t);
      if g == p {
        HalfGoverns(before, p, after, left, right, t);
        EnvelopeGivesGoverning(split, if t < right.start then left else right, t);
      } else {
        assert g in before + after && p in [p];
        OtherGoverns(before, p, after, left, right, g, t);
        EnvelopeGivesGoverning(split, g, t);
      }
    } else {
      assert left in split;
      forall q | q in split ensures q.points == [] {
        if q != left && q != right { assert q in pieces; } else { assert p in pieces; }
      }
      EnvelopeWithoutCurve(pieces, t);
      EnvelopeWithoutCurve(split, t);
    }
  }

  ghost predicate AllClipsValid(clips: seq<Clip>) {
    forall c :: c in clips ==> c.Valid()
  }

  lemma {:induction false} BoundValid(clips: seq<Clip>, target: AutomationTarget)
    requires AllClipsValid(clips)
    ensures AllValid(Bound(clips, target))
  {
    if clips != [] {
      var c := clips[0];
      assert clips == [c] + clips[1..];
      BoundValid(clips[1..], target);
      var binding := c.BindingOf(target);
      if binding.Some? {
        PieceValid(c, binding.value.window);
        AllValidAppend([PieceOf(c, binding.value.window)], Bound(clips[1..], target));
      } else {
        assert [] + Bound(clips[1..], target) == Bound(clips[1..], target);
      }
    }
  }

  lemma {:induction false} BoundOne(c: Clip, target: AutomationTarget)
    ensures Bound([c], target)
         == if c.BindingOf(target).Some? then [PieceOf(c, c.BindingOf(target).value.window)] else []
  {
    assert [c][1..] == [];
  }

  lemma {:induction false} BoundThree(before: seq<Clip>, middle: seq<Clip>, after: seq<Clip>, target: AutomationTarget)
    ensures Bound(before + middle + after, target)
         == Bound(before, target) + Bound(middle, target) + Bound(after, target)
  {
    BoundAppend(before + middle, after, target);
    BoundAppend(before, middle, target);
  }

  /** The pieces of `clips` around clip `i`. */
  lemma {:induction false} BoundAround(clips: seq<Clip>, i: nat, target: AutomationTarget)
    requires i < |clips|
    ensures Bound(clips, target) == Bound(clips[..i], target) + Bound([clips[i]], target)
            + Bound(clips[i + 1..], target)
  {
    assert clips == clips[..i] + [clips[i]] + clips[i + 1..];
    BoundThree(clips[..i], [clips[i]], clips[i + 1..], target);
  }

  /** The pieces of the two halves. */
  lemma {:induction false} BoundHalves(left: Clip, right: Clip, target: AutomationTarget)
    requires left.bindings == right.bindings
    ensures Bound([left, right], target)
         == if left.BindingOf(target).None? then []
            else [PieceOf(left, left.BindingOf(target).value.window),
                  PieceOf(right, left.BindingOf(target).value.window)]
  {
    assert [left, right] == [left] + [right];
    BoundAppend([left], [right], target);
    BoundOne(left, target);
    BoundOne(right, target);
  }

  /** A sequence edit that splits clip `i`: every clip is valid and no two bound to
      `target` overlap. */
  ghost predicate CanSplit(clips: seq<Clip>, i: nat, at: real, target: AutomationTarget) {
    && AllClipsValid(clips) && i < |clips| && clips[i].start < at < clips[i].End()
    && AllValid(Bound(clips, target)) && NonOverlapping(Bound(clips, target))
  }

  lemma ClipInTheWay(clips: seq<Clip>, i: nat)
    requires AllClipsValid(clips) && i < |clips|
    ensures clips[i].Valid()
  {
    assert clips[i] in clips;
  }

  /** The value of the halves where they govern, and of the clip they came from. */
  lemma HalfValues(c: Clip, w: Window, at: real, newId: nat, t: real)
    requires c.Valid() && c.points != [] && c.start < at < c.End()
    ensures PieceOf(c, w).Valid() && PieceOf(c, w).points != []
    ensures PieceOf(c.LeftOf(at), w).Valid() && PieceOf(c.LeftOf(at), w).points != []
    ensures PieceOf(c.RightOf(at, newId), w).Valid() && PieceOf(c.RightOf(at, newId), w).points != []
    ensures t < at ==> PieceOf(c.LeftOf(at), w).ValueAt(t)
                       == w.Apply(Sample(c.LeftOf(at).Timed(), Clamp(t, c.start, c.End())))
    ensures at <= t ==> PieceOf(c.RightOf(at, newId), w).ValueAt(t)
                        == w.Apply(Sample(c.RightOf(at, newId).Timed(), Clamp(t, c.start, c.End())))
    ensures PieceOf(c, w).ValueAt(t) == w.Apply(Sample(c.Timed(), Clamp(t, c.start, c.End())))
  {
    HalvesValid(c, at, newId);
    PieceValue(c, w, t);
    PieceValue(c.LeftOf(at), w, t);
    PieceValue(c.RightOf(at, newId), w, t);
  }

  lemma ExactHalfSamples(c: Clip, at: real, newId: nat, left: Parts, right: Parts, t: real, clamped: real)
    requires c.Valid() && c.points != [] && c.start < at < c.End()
    requires IsCut(c, at, left, right) && SplitExact(c, at, left, right)
    requires clamped == Clamp(t, c.start, c.End())
    ensures t < at ==> SameAt(c.LeftOf(at).Timed(), c.Timed(), clamped)
    ensures at <= t ==> SameAt(c.RightOf(at, newId).Timed(), c.Timed(), clamped)
  {
    if t < at {
      LeftHalfKeepsIff(c, at, left);
    } else {
      RightHalfKeepsIff(c, at, newId, right);
    }
  }

  lemma ExactHalfValues(c: Clip, w: Window, at: real, newId: nat, left: Parts, right: Parts, t: real)
    requires c.Valid() && c.points != [] && c.start < at < c.End()
    requires IsCut(c, at, left, right) && SplitExact(c, at, left, right)
    ensures PieceOf(c, w).Valid() && PieceOf(c, w).points != []
    ensures PieceOf(c.LeftOf(at), w).Valid() && PieceOf(c.LeftOf(at), w).points != []
    ensures PieceOf(c.RightOf(at, newId), w).Valid() && PieceOf(c.RightOf(at, newId), w).points != []
    ensures PieceOf(c, w).ValueAt(t)
         == if t < at then PieceOf(c.LeftOf(at), w).ValueAt(t) else PieceOf(c.RightOf(at, newId), w).ValueAt(t)
  {
    HalfValues(c, w, at, newId, t);
    ExactHalfSamples(c, at, newId, left, right, t, Clamp(t, c.start, c.End()));
  }

  /** What a target sees of clip `i` and, once split, of its halves. */
  lemma {:induction false} SplitBound(clips: seq<Clip>, i: nat, at: real, newId: nat, target: AutomationTarget)
    requires i < |clips| && clips[i].start < at < clips[i].End() && clips[i].BindingOf(target).Some?
    ensures var c, w := clips[i], clips[i].BindingOf(target).value.window;
            var before, after := Bound(clips[..i], target), Bound(clips[i + 1..], target);
            && Bound(clips, target) == before + [PieceOf(c, w)] + after
            && Bound(SplitClips(clips, i, at, newId), target)
               == before + [PieceOf(c.LeftOf(at), w), PieceOf(c.RightOf(at, newId), w)] + after
  {
    var c := clips[i];
    BoundAround(clips, i, target);
    BoundOne(c, target);
    BoundThree(clips[..i], [c.LeftOf(at), c.RightOf(at, newId)], clips[i + 1..], target);
    BoundHalves(c.LeftOf(at), c.RightOf(at, newId), target);
  }

  /** A clip not bound to the target matters as little split as whole. */
  lemma {:induction false} SplitUnbound(clips: seq<Clip>, i: nat, at: real, newId: nat, target: AutomationTarget)
    requires i < |clips| && clips[i].start < at < clips[i].End() && clips[i].BindingOf(target).None?
    ensures Bound(SplitClips(clips, i, at, newId), target) == Bound(clips, target)
  {
    var c := clips[i];
    BoundAround(clips, i, target);
    BoundOne(c, target);
    BoundThree(clips[..i], [c.LeftOf(at), c.RightOf(at, newId)], clips[i + 1..], target);
    BoundHalves(c.LeftOf(at), c.RightOf(at, newId), target);
  }

  /** The halves, as a target sees them, cover the clip's time and have a curve if it has. */
  lemma HalfPieces(c: Clip, w: Window, at: real, newId: nat, p: Piece, left: Piece, right: Piece)
    requires c.Valid() && c.start < at < c.End()
    requires p == PieceOf(c, w) && left == PieceOf(c.LeftOf(at), w) && right == PieceOf(c.RightOf(at, newId), w)
    ensures left.Valid() && right.Valid()
    ensures p.start == left.start && left.End() == right.start && right.End() == p.End()
    ensures (p.points != [] <==> left.points != []) && (p.points != [] <==> right.points != [])
    ensures p.points != [] <==> c.points != []
  {
    HalvesValid(c, at, newId);
    PieceValid(c, w);
    PieceValid(c.LeftOf(at), w);
    PieceValid(c.RightOf(at, newId), w);
  }

  lemma HalfPieceValues(c: Clip, w: Window, at: real, newId: nat, left: Parts, right: Parts, t: real, p: Piece,
                        l: Piece, r: Piece)
    requires c.Valid() && c.points != [] && c.start < at < c.End()
    requires p == PieceOf(c, w) && l == PieceOf(c.LeftOf(at), w) && r == PieceOf(c.RightOf(at, newId), w)
    requires IsCut(c, at, left, right) && SplitExact(c, at, left, right)
    ensures p.Valid() && l.Valid() && r.Valid() && p.points != [] && l.points != [] && r.points != []
    ensures p.ValueAt(t) == if t < r.start then l.ValueAt(t) else r.ValueAt(t)
  {
    ExactHalfValues(c, w, at, newId, left, right, t);
  }

  /** The halves of a clip, among the other pieces, give what the clip gave. */
  lemma {:induction false} SplitPieceKept(c: Clip, w: Window, before: seq<Piece>, after: seq<Piece>, at: real,
                                          newId: nat, left: Parts, right: Parts, t: real, p: Piece, l: Piece, r: Piece)
    requires c.Valid() && c.start < at < c.End()
    requires p == PieceOf(c, w) && l == PieceOf(c.LeftOf(at), w) && r == PieceOf(c.RightOf(at, newId), w)
    requires AllValid(before + [p] + after) && NonOverlapping(before + [p] + after)
    requires c.points != [] ==> IsCut(c, at, left, right) && SplitExact(c, at, left, right)
    ensures AllValid(before + [l, r] + after) && NonOverlapping(before + [l, r] + after)
    ensures EnvelopeValue(before + [l, r] + after, t) == EnvelopeValue(before + [p] + after, t)
  {
    HalfPieces(c, w, at, newId, p, l, r);
    if c.points != [] { HalfPieceValues(c, w, at, newId, left, right, t, p, l, r); }
    SplitPiecesKeep(before, p, after, l, r, t);
  }

  /** Splitting a clip leaves the value of every target's envelope as it was at every
      time, when the split is exact or the clip has no curve. */
  lemma {:induction false} SplitKeepsEnvelope(clips: seq<Clip>, i: nat, at: real, newId: nat, target: AutomationTarget,
                                              left: Parts, right: Parts, t: real)
    requires CanSplit(clips, i, at, target)
    requires clips[i].points != [] ==> IsCut(clips[i], at, left, right) && SplitExact(clips[i], at, left, right)
    ensures var split := Bound(SplitClips(clips, i, at, newId), target);
            && AllValid(split) && NonOverlapping(split)
            && EnvelopeValue(split, t) == EnvelopeValue(Bound(clips, target), t)
  {
    ClipInTheWay(clips, i);
    if clips[i].BindingOf(target).None? {
      SplitUnbound(clips, i, at, newId, target);
    } else {
      SplitBound(clips, i, at, newId, target);
      var c, w := clips[i], clips[i].BindingOf(target).value.window;
      SplitPieceKept(c, w, Bound(clips[..i], target), Bound(clips[i + 1..], target), at, newId, left, right, t,
                     PieceOf(c, w), PieceOf(c.LeftOf(at), w), PieceOf(c.RightOf(at, newId), w));
    }
  }

  /** A time where an inexact split shows. */
  lemma InexactSplit(c: Clip, at: real, newId: nat, left: Parts, right: Parts) returns (t: real)
    requires c.Valid() && c.points != [] && c.start < at < c.End()
    requires IsCut(c, at, left, right) && !SplitExact(c, at, left, right)
    ensures c.start <= t < c.End()
    ensures t < at ==> !SameAt(c.LeftOf(at).Timed(), c.Timed(), t)
    ensures at <= t ==> !SameAt(c.RightOf(at, newId).Timed(), c.Timed(), t)
  {
    if !ExactInside(left, c.start, at) {
      LeftHalfKeepsIff(c, at, left);
      t :| c.start <= t < at && !SameAt(c.LeftOf(at).Timed(), c.Timed(), t);
    } else {
      RightHalfKeepsInsideIff(c, at, newId, right);
      t :| at <= t < c.End() && !SameAt(c.RightOf(at, newId).Timed(), c.Timed(), t);
    }
  }

  /** A clip governs wherever it covers. */
  lemma {:induction false} CoveringGoverns(before: seq<Piece>, p: Piece, after: seq<Piece>, t: real)
    requires AllValid(before + [p] + after) && NonOverlapping(before + [p] + after)
    requires p.points != [] && p.start <= t < p.End()
    ensures Governs(p, before + [p] + after, t)
  {
    var pieces := before + [p] + after;
    assert p in pieces && p in [p];
    NonOverlappingAppend(before + [p], after);
    NonOverlappingAppend(before, [p]);
    assert p in before + [p];
    forall q | q in pieces && q.points != [] && q.start <= t ensures q.start <= p.start {
      ValidIn(pieces, q);
      if q in before {
        assert !Overlaps(q, p);
      } else if q != p {
        assert q in after && !Overlaps(p, q);
      }
    }
  }

  lemma {:induction false} ValidIn(pieces: seq<Piece>, q: Piece)
    requires AllValid(pieces) && q in pieces
    ensures q.Valid()
  {
    if q != pieces[0] {
      assert pieces == [pieces[0]] + pieces[1..];
      ValidIn(pieces[1..], q);
    }
  }

  lemma DifferentThroughWindow(w: Window, x: real, y: real)
    requires w.low != w.high && x != y
    ensures w.Apply(x) != w.Apply(y)
  {
    if (w.high - w.low) * x == (w.high - w.low) * y { CancelLeft(w.high - w.low, x, y); }
  }

  lemma {:induction false} SplitPiecesShow(before: seq<Piece>, p: Piece, after: seq<Piece>, left: Piece, right: Piece,
                                           t: real)
    requires AllValid(before + [p] + after) && NonOverlapping(before + [p] + after)
    requires left.Valid() && right.Valid() && p.Valid()
    requires p.start == left.start && left.End() == right.start && right.End() == p.End()
    requires p.points != [] && left.points != [] && right.points != [] && p.start <= t < p.End()
    requires p.ValueAt(t) != if t < right.start then left.ValueAt(t) else right.ValueAt(t)
    ensures AllValid(before + [left, right] + after) && NonOverlapping(before + [left, right] + after)
    ensures EnvelopeValue(before + [left, right] + after, t) != EnvelopeValue(before + [p] + after, t)
  {
    SplitStaysValid(before, p, after, left, right);
    CoveringGoverns(before, p, after, t);
    HalfGoverns(before, p, after, left, right, t);
    EnvelopeGivesGoverning(before + [p] + after, p, t);
    EnvelopeGivesGoverning(before + [left, right] + after, if t < right.start then left else right, t);
  }

  /** An inexact split shows in the envelope of every target bound through a window
      that is not flat. */
  lemma {:induction false} InexactSplitShows(clips: seq<Clip>, i: nat, at: real, newId: nat, target: AutomationTarget,
                                             left: Parts, right: Parts)
    returns (t: real)
    requires CanSplit(clips, i, at, target) && clips[i].points != []
    requires clips[i].BindingOf(target).Some?
    requires clips[i].BindingOf(target).value.window.low != clips[i].BindingOf(target).value.window.high
    requires IsCut(clips[i], at, left, right) && !SplitExact(clips[i], at, left, right)
    ensures var split := Bound(SplitClips(clips, i, at, newId), target);
            && AllValid(split) && NonOverlapping(split)
            && EnvelopeValue(split, t) != EnvelopeValue(Bound(clips, target), t)
  {
    var c, w := clips[i], clips[i].BindingOf(target).value.window;
    ClipInTheWay(clips, i);
    SplitBound(clips, i, at, newId, target);
    t := InexactSplit(c, at, newId, left, right);
    HalfValues(c, w, at, newId, t);
    HalvesValid(c, at, newId);
    DifferentThroughWindow(w, Sample(c.Timed(), t),
                           Sample(if t < at then c.LeftOf(at).Timed() else c.RightOf(at, newId).Timed(), t));
    SplitPiecesShow(Bound(clips[..i], target), PieceOf(c, w), Bound(clips[i + 1..], target),
                    PieceOf(c.LeftOf(at), w), PieceOf(c.RightOf(at, newId), w), t);
  }

  /** For a target bound through a window that is not flat, splitting leaves the
      envelope's value as it was at every time exactly when the split is exact. */
  lemma {:induction false} SplitKeepsEnvelopeIff(clips: seq<Clip>, i: nat, at: real, newId: nat,
                                                 target: AutomationTarget, left: Parts, right: Parts)
    requires CanSplit(clips, i, at, target) && clips[i].points != []
    requires clips[i].BindingOf(target).Some?
    requires clips[i].BindingOf(target).value.window.low != clips[i].BindingOf(target).value.window.high
    requires IsCut(clips[i], at, left, right)
    ensures AllValid(Bound(SplitClips(clips, i, at, newId), target))
    ensures NonOverlapping(Bound(SplitClips(clips, i, at, newId), target))
    ensures SplitExact(clips[i], at, left, right)
       <==> forall t :: EnvelopeValue(Bound(SplitClips(clips, i, at, newId), target), t)
                        == EnvelopeValue(Bound(clips, target), t)
  {
    if SplitExact(clips[i], at, left, right) {
      SplitKeepsEnvelope(clips, i, at, newId, target, left, right, at);
      forall t ensures EnvelopeValue(Bound(SplitClips(clips, i, at, newId), target), t)
                    == EnvelopeValue(Bound(clips, target), t)
      {
        SplitKeepsEnvelope(clips, i, at, newId, target, left, right, t);
      }
    } else {
      var t := InexactSplitShows(clips, i, at, newId, target, left, right);
    }
  }

  lemma ClearCutIsExact(c: Clip, at: real, left: Parts, right: Parts)
    requires c.Valid() && c.start < at < c.End() && IsCut(c, at, left, right) && ClearOf(c.Timed(), at)
    ensures SplitExact(c, at, left, right)
  {
    NothingAfterEnd(c, at, right);
    TimedWithin(c.points, c.start, c.duration);
    PulledInWhole(left);
    PulledInWhole(right);
  }

  /** Splitting a clip where no point of its curve is within a tenth of a millisecond of the
      cut, except on it, leaves the value of every target's envelope as it was at every time. */
  lemma {:induction false} ClearSplitKeepsEnvelope(clips: seq<Clip>, i: nat, at: real, newId: nat,
                                                   target: AutomationTarget, t: real)
    requires CanSplit(clips, i, at, target) && ClearOf(clips[i].Timed(), at)
    ensures var split := Bound(SplitClips(clips, i, at, newId), target);
            && AllValid(split) && NonOverlapping(split)
            && EnvelopeValue(split, t) == EnvelopeValue(Bound(clips, target), t)
  {
    var c := clips[i];
    ClipInTheWay(clips, i);
    TimedWithin(c.points, c.start, c.duration);
    var left := PartsExist(c.Timed(), c.start, at);
    var right := PartsExist(c.Timed(), at, c.End());
    ClearCutIsExact(c, at, left, right);
    SplitKeepsEnvelope(clips, i, at, newId, target, left, right, t);
  }

  // ---------- Which clips a target sees, and what they give ----------

  /** Some binding of `clip` is of `target`. */
  ghost predicate IsBound(clip: Clip, target: AutomationTarget) {
    exists j: nat :: j < |clip.bindings| && clip.bindings[j].target == target
  }

  /** Binding `j` of `clip` is its first of `target`. */
  ghost predicate FirstBinding(clip: Clip, target: AutomationTarget, j: nat) {
    && j < |clip.bindings| && clip.bindings[j].target == target
    && forall k: nat :: k < j ==> clip.bindings[k].target != target
  }

  /** The piece is `clip`, each value `v` of its curve taken to `low + (high - low) * v`. */
  ghost predicate IsSeenThrough(p: Piece, clip: Clip, w: Window) {
    && p.start == clip.start && p.duration == clip.duration && |p.points| == |clip.points|
    && forall i: nat :: i < |p.points| ==>
         p.points[i] == Point(clip.points[i].position, w.low + (w.high - w.low) * clip.points[i].value)
  }

  /** The piece is `clip` through the window of its first binding of `target`. */
  ghost predicate IsPieceFor(p: Piece, clip: Clip, target: AutomationTarget) {
    exists j: nat :: FirstBinding(clip, target, j) && IsSeenThrough(p, clip, clip.bindings[j].window)
  }

  /** The pieces are those of the clips at `indexes`: exactly the clips bound to `target`, in order. */
  ghost predicate AreBound(clips: seq<Clip>, target: AutomationTarget, indexes: seq<nat>, pieces: seq<Piece>) {
    && |indexes| == |pieces|
    && (forall a: nat, b: nat :: a < b < |indexes| ==> indexes[a] < indexes[b])
    && (forall a: nat :: a < |indexes| ==> indexes[a] < |clips| && IsPieceFor(pieces[a], clips[indexes[a]], target))
    && forall i: nat :: i < |clips| && IsBound(clips[i], target) ==> i in indexes
  }

  lemma {:induction false} FindsFirst(bindings: seq<Binding>, target: AutomationTarget) returns (j: nat)
    ensures j <= |bindings| && forall k: nat :: k < j ==> bindings[k].target != target
    ensures j < |bindings| ==> FindBinding(bindings, target) == Some(bindings[j]) && bindings[j].target == target
    ensures j == |bindings| ==> FindBinding(bindings, target) == None
  {
    if bindings == [] {
      j := 0;
    } else if bindings[0].target == target {
      j := 0;
    } else {
      var rest := FindsFirst(bindings[1..], target);
      j := rest + 1;
      forall k: nat | k < j ensures bindings[k].target != target {
        if k > 0 { assert bindings[k] == bindings[1..][k - 1]; }
      }
    }
  }

  /** The binding a clip is read through is its first of the target; there is none when it has none. */
  lemma {:induction false} BindingOfIs(clip: Clip, target: AutomationTarget) returns (j: nat)
    ensures clip.BindingOf(target).Some? <==> IsBound(clip, target)
    ensures clip.BindingOf(target).Some? ==>
              FirstBinding(clip, target, j) && clip.BindingOf(target).value == clip.bindings[j]
  {
    j := FindsFirst(clip.bindings, target);
  }

  lemma FirstIsUnique(clip: Clip, target: AutomationTarget, j: nat, k: nat)
    requires FirstBinding(clip, target, j) && FirstBinding(clip, target, k)
    ensures j == k
  {
  }

  lemma {:induction false} SeenThrough(w: Window, points: seq<Point>, i: nat)
    requires i < |points|
    ensures w.ApplyToCurve(points)[i] == Point(points[i].position, w.low + (w.high - w.low) * points[i].value)
  {
    if i > 0 {
      SeenThrough(w, points[1..], i - 1);
    }
  }

  lemma {:induction false} PieceIsSeen(clip: Clip, w: Window)
    ensures IsSeenThrough(PieceOf(clip, w), clip, w)
  {
    forall i: nat | i < |clip.points|
      ensures PieceOf(clip, w).points[i]
           == Point(clip.points[i].position, w.low + (w.high - w.low) * clip.points[i].value)
    {
      SeenThrough(w, clip.points, i);
    }
  }

  lemma {:induction false} BoundOneMore(clips: seq<Clip>, c: Clip, target: AutomationTarget, indexes: seq<nat>,
                                        pieces: seq<Piece>)
    returns (more: seq<nat>)
    requires AreBound(clips, target, indexes, pieces)
    ensures AreBound(clips + [c], target, more, pieces + Bound([c], target))
  {
    BoundOne(c, target);
    var j := BindingOfIs(c, target);
    more := if c.BindingOf(target).Some? then indexes + [|clips|] else indexes;
    var all, joined := clips + [c], pieces + Bound([c], target);
    if c.BindingOf(target).Some? { PieceIsSeen(c, c.bindings[j].window); }
    forall a: nat | a < |more| ensures more[a] < |all| && IsPieceFor(joined[a], all[more[a]], target) {
      if a < |indexes| {
        assert all[more[a]] == clips[indexes[a]] && joined[a] == pieces[a];
      } else {
        assert joined[a] == PieceOf(c, c.bindings[j].window) && all[more[a]] == c;
      }
    }
    forall i: nat | i < |all| && IsBound(all[i], target) ensures i in more {
      if i < |clips| {
        assert i in indexes;
      } else {
        assert more[|indexes|] == i;
      }
    }
  }

  /** The envelope's pieces are those of exactly the clips bound to the target, in their order,
      each through the window of its first binding of it. */
  lemma {:induction false} BoundAre(clips: seq<Clip>, target: AutomationTarget) returns (indexes: seq<nat>)
    ensures AreBound(clips, target, indexes, Bound(clips, target))
  {
    if clips == [] {
      indexes := [];
    } else {
      var init, last := clips[..|clips| - 1], clips[|clips| - 1];
      assert clips == init + [last];
      var before := BoundAre(init, target);
      BoundAppend(init, [last], target);
      indexes := BoundOneMore(init, last, target, before, Bound(init, target));
    }
  }

  /** No two clips bound to the target overlap in time. */
  ghost predicate BoundApart(clips: seq<Clip>, target: AutomationTarget) {
    forall i: nat, k: nat :: i < k < |clips| && IsBound(clips[i], target) && IsBound(clips[k], target) ==>
      !(clips[i].start < clips[k].start + clips[k].duration && clips[k].start < clips[i].start + clips[i].duration)
  }

  ghost predicate PairwiseApart(pieces: seq<Piece>) {
    forall a: nat, b: nat :: a < b < |pieces| ==> !Overlaps(pieces[a], pieces[b])
  }

  lemma {:induction false} PairwiseApartIff(pieces: seq<Piece>)
    ensures NonOverlapping(pieces) <==> PairwiseApart(pieces)
  {
    if pieces != [] {
      var rest := pieces[1..];
      PairwiseApartIff(rest);
      if PairwiseApart(pieces) {
        forall a: nat, b: nat | a < b < |rest| ensures !Overlaps(rest[a], rest[b]) {
          assert rest[a] == pieces[a + 1] && rest[b] == pieces[b + 1];
        }
        forall q | q in rest ensures !Overlaps(pieces[0], q) {
          var b: nat :| b < |rest| && rest[b] == q;
          assert q == pieces[b + 1];
        }
      }
      if NonOverlapping(pieces) {
        forall a: nat, b: nat | a < b < |pieces| ensures !Overlaps(pieces[a], pieces[b]) {
          assert pieces[b] == rest[b - 1];
          if a > 0 { assert pieces[a] == rest[a - 1]; }
        }
      }
    }
  }

  /** Piece `a` covers the time of its clip, which is bound to the target. */
  lemma PieceOfClip(clips: seq<Clip>, target: AutomationTarget, indexes: seq<nat>, pieces: seq<Piece>, a: nat)
    requires AreBound(clips, target, indexes, pieces) && a < |pieces|
    ensures indexes[a] < |clips| && IsBound(clips[indexes[a]], target)
    ensures pieces[a].start == clips[indexes[a]].start && pieces[a].duration == clips[indexes[a]].duration
  {
    assert IsPieceFor(pieces[a], clips[indexes[a]], target);
  }

  lemma PiecesApart(clips: seq<Clip>, target: AutomationTarget, indexes: seq<nat>, pieces: seq<Piece>)
    requires AreBound(clips, target, indexes, pieces) && BoundApart(clips, target)
    ensures PairwiseApart(pieces)
  {
    forall a: nat, b: nat | a < b < |pieces| ensures !Overlaps(pieces[a], pieces[b]) {
      PieceOfClip(clips, target, indexes, pieces, a);
      PieceOfClip(clips, target, indexes, pieces, b);
    }
  }

  lemma ClipsApart(clips: seq<Clip>, target: AutomationTarget, indexes: seq<nat>, pieces: seq<Piece>)
    requires AreBound(clips, target, indexes, pieces) && PairwiseApart(pieces)
    ensures BoundApart(clips, target)
  {
    forall i: nat, k: nat | i < k < |clips| && IsBound(clips[i], target) && IsBound(clips[k], target)
      ensures !(clips[i].start < clips[k].start + clips[k].duration
                && clips[k].start < clips[i].start + clips[i].duration)
    {
      var a: nat :| a < |indexes| && indexes[a] == i;
      var b: nat :| b < |indexes| && indexes[b] == k;
      PieceOfClip(clips, target, indexes, pieces, a);
      PieceOfClip(clips, target, indexes, pieces, b);
      assert a < b;
      assert !Overlaps(pieces[a], pieces[b]);
    }
  }

  /** Pieces of a target are apart exactly when the clips bound to it are. */
  lemma {:induction false} BoundApartIff(clips: seq<Clip>, target: AutomationTarget)
    ensures NonOverlapping(Bound(clips, target)) <==> BoundApart(clips, target)
  {
    var pieces := Bound(clips, target);
    var indexes := BoundAre(clips, target);
    PairwiseApartIff(pieces);
    if BoundApart(clips, target) {
      PiecesApart(clips, target, indexes, pieces);
    }
    if PairwiseApart(pieces) {
      ClipsApart(clips, target, indexes, pieces);
    }
  }

  /** Clip `i` decides the target's value at `t`: of the clips bound to it that have a curve, the
      one started last by then, or the one that starts first when none has started. */
  ghost predicate ClipGoverns(clips: seq<Clip>, i: nat, target: AutomationTarget, t: real) {
    && i < |clips| && IsBound(clips[i], target) && clips[i].points != []
    && forall k: nat :: k < |clips| && IsBound(clips[k], target) && clips[k].points != [] ==>
         if clips[i].start <= t then clips[k].start <= t ==> clips[k].start <= clips[i].start
         else clips[i].start <= clips[k].start
  }

  /** A bound clip decides the value all the time it covers. */
  lemma CoveringClipGoverns(clips: seq<Clip>, i: nat, target: AutomationTarget, t: real)
    requires AllClipsValid(clips) && BoundApart(clips, target)
    requires i < |clips| && IsBound(clips[i], target) && clips[i].points != []
    requires clips[i].start <= t < clips[i].start + clips[i].duration
    ensures ClipGoverns(clips, i, target, t)
  {
    forall k: nat | k < |clips| && IsBound(clips[k], target) && clips[k].points != [] && clips[k].start <= t
      ensures clips[k].start <= clips[i].start
    {
      assert clips[k] in clips && clips[k].Valid();
    }
  }

  /** At `t` the envelope gives the clip's curve there, held beyond its ends, through the window. */
  ghost predicate GivesClip(env: Option<Envelope>, c: Clip, w: Window, t: real)
    requires c.points != [] && c.duration > 0.0
  {
    && env.Some? && env.value.duration > 0.0
    && EnvelopeAt(env.value, t).Some?
    && EnvelopeAt(env.value, t).value
       == w.low + (w.high - w.low) * Sample(c.points, Clamp((t - c.start) / c.duration, 0.0, 1.0))
  }

  lemma {:induction false} BoundHas(clips: seq<Clip>, i: nat, j: nat, target: AutomationTarget)
    requires i < |clips| && FirstBinding(clips[i], target, j)
    ensures PieceOf(clips[i], clips[i].bindings[j].window) in Bound(clips, target)
  {
    var p := PieceOf(clips[i], clips[i].bindings[j].window);
    BoundAround(clips, i, target);
    BoundOne(clips[i], target);
    var j' := BindingOfIs(clips[i], target);
    FirstIsUnique(clips[i], target, j, j');
    assert p in Bound([clips[i]], target);
  }

  lemma {:induction false} GoverningPiece(clips: seq<Clip>, i: nat, j: nat, target: AutomationTarget, t: real)
    requires ClipGoverns(clips, i, target, t) && FirstBinding(clips[i], target, j)
    ensures Governs(PieceOf(clips[i], clips[i].bindings[j].window), Bound(clips, target), t)
  {
    var pieces, p := Bound(clips, target), PieceOf(clips[i], clips[i].bindings[j].window);
    var indexes := BoundAre(clips, target);
    BoundHas(clips, i, j, target);
    forall q | q in pieces && q.points != []
      ensures if p.start <= t then q.start <= t ==> q.start <= p.start else p.start <= q.start
    {
      var a: nat :| a < |pieces| && pieces[a] == q;
      PieceOfClip(clips, target, indexes, pieces, a);
      assert IsPieceFor(pieces[a], clips[indexes[a]], target);
    }
  }

  /** A piece's value, of its clip's own curve: at position `u` of it, through the window. */
  lemma {:induction false} ClipValue(c: Clip, w: Window, t: real, u: real, clamped: real)
    requires c.Valid() && c.points != [] && u == Clamp((t - c.start) / c.duration, 0.0, 1.0)
    requires clamped == Clamp(t, c.start, c.start + c.duration)
    ensures PieceOf(c, w).Valid() && PieceOf(c, w).points != []
    ensures PieceOf(c, w).ValueAt(t) == w.Apply(Sample(c.points, u))
  {
    assert Sample(c.points, u) == Sample(c.Timed(), clamped) by {
      SampleClamped(c.points, c.Timed(), c.start, c.duration, t, u, clamped);
    }
    PieceValue(c, w, t);
  }

  lemma {:induction false} GivesPiece(env: Envelope, c: Clip, w: Window, p: Piece, t: real)
    requires c.Valid() && c.points != [] && p == PieceOf(c, w) && env.duration > 0.0
    requires p.points != [] && p.duration > 0.0 && EnvelopeAt(env, t) == Some(p.ValueAt(t))
    ensures GivesClip(Some(env), c, w, t)
  {
    ClipValue(c, w, t, Clamp((t - c.start) / c.duration, 0.0, 1.0), Clamp(t, c.start, c.start + c.duration));
  }

  lemma {:induction false} EnvelopeGivesPiece(clips: seq<Clip>, i: nat, j: nat, target: AutomationTarget, t: real,
                                              p: Piece)
    requires AllClipsValid(clips) && BoundApart(clips, target)
    requires ClipGoverns(clips, i, target, t) && FirstBinding(clips[i], target, j)
    requires p == PieceOf(clips[i], clips[i].bindings[j].window)
    ensures AllValid(Bound(clips, target)) && p.Valid() && p.points != []
    ensures var env := EnvelopeOf(Bound(clips, target));
            env.Some? && env.value.duration > 0.0 && EnvelopeAt(env.value, t) == Some(p.ValueAt(t))
  {
    BoundValid(clips, target);
    BoundApartIff(clips, target);
    GoverningPiece(clips, i, j, target, t);
    EnvelopeGivesGoverning(Bound(clips, target), p, t);
  }

  /** The envelope of a target gives, at every time, what the clip that decides it says: its
      curve at the position of the time in the clip, held beyond its ends, taken from 0..1 to
      `low..high` of the clip's first binding of the target. */
  lemma {:induction false} EnvelopeGivesClip(clips: seq<Clip>, i: nat, j: nat, target: AutomationTarget, t: real)
    requires AllClipsValid(clips) && BoundApart(clips, target)
    requires ClipGoverns(clips, i, target, t) && FirstBinding(clips[i], target, j)
    ensures AllValid(Bound(clips, target)) && clips[i].Valid()
    ensures GivesClip(EnvelopeOf(Bound(clips, target)), clips[i], clips[i].bindings[j].window, t)
  {
    var c, w := clips[i], clips[i].bindings[j].window;
    ClipInTheWay(clips, i);
    EnvelopeGivesPiece(clips, i, j, target, t, PieceOf(c, w));
    GivesPiece(EnvelopeOf(Bound(clips, target)).value, c, w, PieceOf(c, w), t);
  }

  /** A target has an envelope exactly when some clip is bound to it. */
  lemma {:induction false} EnvelopeIffBound(clips: seq<Clip>, target: AutomationTarget)
    requires AllValid(Bound(clips, target))
    ensures EnvelopeOf(Bound(clips, target)).Some? <==> exists i: nat :: i < |clips| && IsBound(clips[i], target)
  {
    var pieces := Bound(clips, target);
    var indexes := BoundAre(clips, target);
    if pieces != [] {
      assert IsPieceFor(pieces[0], clips[indexes[0]], target);
      assert IsBound(clips[indexes[0]], target);
    }
    if i: nat :| i < |clips| && IsBound(clips[i], target) {
      assert i in indexes;
    }
  }

  /** The envelope spans the clips: it starts with the first to start and ends with the last to end. */
  lemma {:induction false} EnvelopeSpans(pieces: seq<Piece>)
    requires AllValid(pieces) && NonOverlapping(pieces) && pieces != []
    ensures EnvelopeOf(pieces).Some?
    ensures var env := EnvelopeOf(pieces).value;
            && (forall p :: p in pieces ==> env.start <= p.start && p.start + p.duration <= env.start + env.duration)
            && (exists p :: p in pieces && p.start == env.start)
            && (exists p :: p in pieces && p.start + p.duration == env.start + env.duration)
  {
    if |pieces| == 1 {
      assert pieces == [pieces[0]];
    } else {
      var sorted := SortByStart(pieces);
      SortKeeps(pieces);
      SortDisjoint(pieces);
      MaxEndIsLast(sorted);
      forall p | p in pieces
        ensures sorted[0].start <= p.start && p.start + p.duration <= LastEnd(sorted)
      {
        PieceWithin(sorted, p);
      }
      LastEndIs(sorted);
      assert sorted[0] in pieces && sorted[|sorted| - 1] in pieces;
    }
  }

  lemma {:induction false} LastEndIs(pieces: seq<Piece>)
    requires pieces != []
    ensures LastEnd(pieces) == pieces[|pieces| - 1].End()
  {
    if |pieces| > 1 {
      LastEndIs(pieces[1..]);
    }
  }
}
