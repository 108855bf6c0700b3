/** Building the envelope of a target clip by clip, and reading it over a time range. */
module Ranges {
  import opened Options
  import opened Fractions
  import opened Curves
  import opened Edges
  import opened Crop
  import opened Envelopes
  import opened Automation

  // ---------- The loop that merges the clips ----------

  /** Where `seconds` falls in the merged envelope. */
  function PositionIn(seconds: real, start: real, span: real): real
    requires span > 0.0
  {
    Clamp((seconds - start) / span, 0.0, 1.0)
  }

  lemma {:induction false} RepositionedOne(p: Point, start: real, span: real)
    requires span > 0.0
    ensures Repositioned([p], start, span) == [Point(PositionIn(p.position, start, span), p.value)]
  {
    assert [p][1..] == [];
  }

  lemma {:induction false} RepositionedAppend(a: seq<Point>, b: seq<Point>, start: real, span: real)
    requires span > 0.0
    ensures Repositioned(a + b, start, span) == Repositioned(a, start, span) + Repositioned(b, start, span)
  {
    if a == [] {
      assert a + b == b;
    } else {
      assert (a + b)[1..] == a[1..] + b;
      RepositionedAppend(a[1..], b, start, span);
    }
  }

  /** The points clip `p` adds to the envelope, and the value it leaves held. */
  method AddPiece(p: Piece, first: bool, last: bool, start: real, span: real, held: Option<real>)
    returns (points: seq<Point>, held': Option<real>)
    requires p.points != [] && p.duration > 0.0 && span > 0.0
    ensures points == Repositioned(Own(p, first, held, last), start, span)
    ensures held' == if last then held else Some(SamplePoints(p.points, 1.0))
  {
    points, held' := [], held;
    if !first {
      var position := PositionIn(p.start, start, span);
      if held.Some? {
        points := points + [Point(position, held.value)];
        RepositionedOne(Point(p.start, held.value), start, span);
      }
      var opening := Point(p.start, SamplePoints(p.points, 0.0));
      points := points + [Point(position, SamplePoints(p.points, 0.0))];
      RepositionedOne(opening, start, span);
      RepositionedAppend(if held.Some? then [Point(p.start, held.value)] else [], [opening], start, span);
    }
    assert points == Repositioned(Opening(p, first, held), start, span);
    points := points + Repositioned(p.Timed(), start, span);
    RepositionedAppend(Opening(p, first, held), p.Timed(), start, span);
    if !last {
      var value := SamplePoints(p.points, 1.0);
      points := points + [Point(PositionIn(p.End(), start, span), value)];
      held' := Some(value);
      RepositionedOne(Point(p.End(), value), start, span);
    }
    RepositionedAppend(Opening(p, first, held) + p.Timed(), Closing(p, last), start, span);
  }

  lemma {:induction false} MergedStep(pieces: seq<Piece>, first: bool, held: Option<real>)
    requires pieces != [] && AllValid(pieces) && pieces[0].points != []
    ensures var p, last := pieces[0], |pieces| == 1;
            Merged(pieces, first, held)
            == Own(p, first, held, last)
               + Merged(pieces[1..], false, if last then held else Some(SamplePoints(p.points, 1.0)))
  {
  }

  lemma {:induction false} AllValidFrom(pieces: seq<Piece>, i: nat)
    requires AllValid(pieces) && i <= |pieces|
    ensures AllValid(pieces[i..])
  {
    assert pieces == pieces[..i] + pieces[i..];
    AllValidAppend(pieces[..i], pieces[i..]);
  }

  /** The points still to come from clip `index` on. */
  function ToCome(sorted: seq<Piece>, index: nat, held: Option<real>, start: real, span: real): seq<Point>
    requires AllValid(sorted) && index <= |sorted| && span > 0.0
  {
    AllValidFrom(sorted, index);
    Repositioned(Merged(sorted[index..], index == 0, held), start, span)
  }

  /** What clip `index` adds and what is still to come after it. */
  lemma {:induction false} ToComeStep(sorted: seq<Piece>, index: nat, held: Option<real>, start: real, span: real,
                                      p: Piece, last: bool, held': Option<real>)
    requires AllValid(sorted) && index < |sorted| && span > 0.0 && p == sorted[index] && last == (index == |sorted| - 1)
    requires held' == if p.points == [] || last then held else Some(SamplePoints(p.points, 1.0))
    ensures p.Valid()
    ensures ToCome(sorted, index, held, start, span)
         == (if p.points == [] then [] else Repositioned(Own(p, index == 0, held, last), start, span))
            + ToCome(sorted, index + 1, held', start, span)
  {
    AllValidFrom(sorted, index);
    AllValidFrom(sorted, index + 1);
    var rest, tail := sorted[index..], sorted[index + 1..];
    assert rest[0] == p && rest[1..] == tail;
    if p.points == [] {
      assert [] + ToCome(sorted, index + 1, held', start, span) == ToCome(sorted, index + 1, held', start, span);
    } else {
      MergedStep(rest, index == 0, held);
      RepositionedAppend(Own(p, index == 0, held, last), Merged(tail, false, held'), start, span);
    }
  }

  /** The points so far and those to come make up the whole envelope. */
  ghost predicate MergedUpTo(sorted: seq<Piece>, index: nat, held: Option<real>, start: real, span: real,
                             points: seq<Point>)
    requires AllValid(sorted) && span > 0.0
  {
    index <= |sorted| && points + ToCome(sorted, index, held, start, span) == ToCome(sorted, 0, None, start, span)
  }

  lemma JoinsOn(points: seq<Point>, own: seq<Point>, next: seq<Point>, rest: seq<Point>, whole: seq<Point>)
    requires points + rest == whole && rest == own + next
    ensures (points + own) + next == whole
  {
    assert points + (own + next) == (points + own) + next;
  }

  lemma {:induction false} MergedOneMore(sorted: seq<Piece>, index: nat, held: Option<real>, start: real, span: real,
                                         points: seq<Point>, p: Piece, last: bool, own: seq<Point>, held': Option<real>)
    requires AllValid(sorted) && span > 0.0 && MergedUpTo(sorted, index, held, start, span, points) && index < |sorted|
    requires p == sorted[index] && last == (index == |sorted| - 1) && p.Valid()
    requires held' == if p.points == [] || last then held else Some(SamplePoints(p.points, 1.0))
    requires own == if p.points == [] then [] else Repositioned(Own(p, index == 0, held, last), start, span)
    ensures MergedUpTo(sorted, index + 1, held', start, span, points + own)
  {
    ToComeStep(sorted, index, held, start, span, p, last, held');
    JoinsOn(points, own, ToCome(sorted, index + 1, held', start, span), ToCome(sorted, index, held, start, span),
            ToCome(sorted, 0, None, start, span));
  }

  /** Join clip `index` to the points of those before it. */
  method AddNext(sorted: seq<Piece>, index: nat, held0: Option<real>, start: real, span: real, points0: seq<Point>)
    returns (points: seq<Point>, held: Option<real>)
    requires AllValid(sorted) && span > 0.0 && index < |sorted|
             && MergedUpTo(sorted, index, held0, start, span, points0)
    ensures MergedUpTo(sorted, index + 1, held, start, span, points) && points0 <= points
    ensures sorted[index].points == [] ==> points == points0 && held == held0
  {
    AllValidIn(sorted, index);
    var p, last := sorted[index], index == |sorted| - 1;
    var own: seq<Point>;
    own, held := [], held0;
    if p.points != [] {
      own, held := AddPiece(p, index == 0, last, start, span, held0);
    }
    MergedOneMore(sorted, index, held0, start, span, points0, p, last, own, held);
    points := points0 + own;
  }

  lemma {:induction false} NoneMerged(sorted: seq<Piece>, start: real, span: real)
    requires AllValid(sorted) && span > 0.0
    ensures MergedUpTo(sorted, 0, None, start, span, [])
  {
    assert [] + ToCome(sorted, 0, None, start, span) == ToCome(sorted, 0, None, start, span);
  }

  lemma {:induction false} AllMerged(sorted: seq<Piece>, start: real, span: real, held: Option<real>,
                                     points: seq<Point>)
    requires AllValid(sorted) && span > 0.0 && MergedUpTo(sorted, |sorted|, held, start, span, points)
    ensures points == Repositioned(Merged(sorted, true, None), start, span)
  {
    MergedIsWhole(sorted, start, span, held);
    assert points + [] == points;
  }

  /** Clip after clip, each joined to the points before it. */
  method MergeOver(sorted: seq<Piece>, start: real, span: real) returns (points: seq<Point>)
    requires AllValid(sorted) && span > 0.0
    ensures points == Repositioned(Merged(sorted, true, None), start, span)
  {
    var held: Option<real>, index := None, 0;
    points := [];
    NoneMerged(sorted, start, span);
    while index < |sorted|
      invariant index <= |sorted| && MergedUpTo(sorted, index, held, start, span, points)
    {
      points, held := AddNext(sorted, index, held, start, span, points);
      index := index + 1;
    }
    AllMerged(sorted, start, span, held, points);
  }

  method MergePieces(sorted: seq<Piece>) returns (r: Envelope)
    requires sorted != [] && AllValid(sorted)
    ensures r == MergedEnvelope(sorted)
  {
    MaxEndAfter(sorted);
    var start, end := sorted[0].start, MaxEnd(sorted);
    var points := MergeOver(sorted, start, end - start);
    r := Envelope(start, end - start, points);
  }

  lemma {:induction false} AllValidIn(sorted: seq<Piece>, index: nat)
    requires AllValid(sorted) && index < |sorted|
    ensures sorted[index].Valid()
  {
    AllValidFrom(sorted, index);
    assert sorted[index..][0] == sorted[index];
  }

  lemma {:induction false} MergedIsWhole(sorted: seq<Piece>, start: real, span: real, held: Option<real>)
    requires AllValid(sorted) && span > 0.0
    ensures ToCome(sorted, |sorted|, held, start, span) == []
    ensures ToCome(sorted, 0, None, start, span) == Repositioned(Merged(sorted, true, None), start, span)
  {
    assert sorted[|sorted|..] == [] && sorted[0..] == sorted;
  }

  /** Clip by clip, whatever decides the target's value at a time is what the envelope gives then. */
  ghost predicate GivesClips(env: Option<Envelope>, clips: seq<Clip>, target: AutomationTarget) {
    forall i: nat, j: nat, t ::
        ClipGoverns(clips, i, target, t) && FirstBinding(clips[i], target, j) && clips[i].duration > 0.0 ==>
      GivesClip(env, clips[i], clips[i].bindings[j].window, t)
  }

  lemma {:induction false} EnvelopeGivesClips(clips: seq<Clip>, target: AutomationTarget)
    requires AllClipsValid(clips)
    ensures AllValid(Bound(clips, target))
    ensures EnvelopeOf(Bound(clips, target)).Some? <==> exists i: nat :: i < |clips| && IsBound(clips[i], target)
    ensures BoundApart(clips, target) ==> GivesClips(EnvelopeOf(Bound(clips, target)), clips, target)
  {
    BoundValid(clips, target);
    EnvelopeIffBound(clips, target);
    if BoundApart(clips, target) {
      forall i: nat, j: nat, t
        | ClipGoverns(clips, i, target, t) && FirstBinding(clips[i], target, j) && clips[i].duration > 0.0
        ensures GivesClip(EnvelopeOf(Bound(clips, target)), clips[i], clips[i].bindings[j].window, t)
      {
        EnvelopeGivesClip(clips, i, j, target, t);
      }
    }
  }

  /** The clips bound to `target`, merged into a single curve; one clip alone keeps its own.
      There is an envelope exactly when a clip is bound to the target, and when those that are
      do not overlap it gives each one's curve, through the window of its first binding of it. */
  method AutomationEnvelope(clips: seq<Clip>, target: AutomationTarget) returns (r: Option<Envelope>)
    requires AllClipsValid(clips)
    ensures AllValid(Bound(clips, target)) && r == EnvelopeOf(Bound(clips, target))
    ensures r.Some? <==> exists i: nat :: i < |clips| && IsBound(clips[i], target)
    ensures BoundApart(clips, target) ==> GivesClips(r, clips, target)
  {
    BoundValid(clips, target);
    EnvelopeGivesClips(clips, target);
    var pieces := Bound(clips, target);
    if |pieces| == 1 {
      return Some(Envelope(pieces[0].start, pieces[0].duration, pieces[0].points));
    }
    SortKeeps(pieces);
    var sorted := SortByStart(pieces);
    if sorted == [] {
      return None;
    }
    var merged := MergePieces(sorted);
    return Some(merged);
  }

  // ---------- Reading the envelope over a range ----------

  /** The least duration a range or an envelope is taken to have: f64's epsilon. */
  const EPSILON: real := 1.0 / 4503599627370496.0

  function AtLeastEpsilon(duration: real): (r: real)
    ensures r > 0.0 && duration <= r && (EPSILON <= duration ==> r == duration)
  {
    if duration < EPSILON then EPSILON else duration
  }

  function RelativeTo(p: real, start: real, envelope: real, range: real): real
    requires range > 0.0
  {
    (p - start) * envelope / range
  }

  /** Positions of the envelope as positions of the range. */
  function Relative(ps: seq<Point>, start: real, envelope: real, range: real): (r: seq<Point>)
    requires range > 0.0
    ensures |r| == |ps|
  {
    if ps == [] then []
    else [Point(RelativeTo(ps[0].position, start, envelope, range), ps[0].value)]
         + Relative(ps[1..], start, envelope, range)
  }

  /** The points after the start of the range, up to its end. */
  function Inside(ps: seq<Point>): seq<Point> {
    if ps == [] then []
    else (if 0.0 < ps[0].position <= 1.0 then [ps[0]] else []) + Inside(ps[1..])
  }

  function WithStart(ps: seq<Point>, value: real): seq<Point> {
    [Point(0.0, value)] + Inside(ps)
  }

  function WithEnd(ps: seq<Point>, value: real): seq<Point>
    requires ps != []
  {
    if Last(ps).position < 1.0 then ps + [Point(1.0, value)] else ps
  }

  function StartPosition(env: Envelope, start: real): real {
    (start - env.start) / AtLeastEpsilon(env.duration)
  }

  /** How much of the envelope the range covers. */
  function Ratio(env: Envelope, duration: real): real {
    AtLeastEpsilon(duration) / AtLeastEpsilon(env.duration)
  }

  /** The envelope over a range, with positions relative to it; missing without points. */
  function CurveInRange(env: Envelope, start: real, duration: real): Option<seq<Point>> {
    if env.points == [] then None
    else
      var from := StartPosition(env, start);
      var relative := Relative(env.points, from, AtLeastEpsilon(env.duration), AtLeastEpsilon(duration));
      var started := WithStart(relative, SamplePoints(env.points, from));
      Some(WithEnd(started, SamplePoints(env.points, from + Ratio(env, duration))))
  }

  lemma RelativeBack(p: real, start: real, envelope: real, range: real)
    requires envelope > 0.0 && range > 0.0
    ensures MovedTo(RelativeTo(p, start, envelope, range), start, range / envelope) == p
  {
    var n := (p - start) * envelope;
    var r, k := n / range, range / envelope;
    assert r * range == n && k * envelope == range;
    Associate(r, k, envelope);
    Cancel(r * k, p - start, envelope);
  }

  lemma {:induction false} RelativeMovesBack(ps: seq<Point>, start: real, envelope: real, range: real, k: real)
    requires envelope > 0.0 && range > 0.0 && k == range / envelope
    ensures Moved(Relative(ps, start, envelope, range), start, k) == ps
  {
    if ps != [] {
      var p, tail := ps[0], Relative(ps[1..], start, envelope, range);
      assert Relative(ps, start, envelope, range)
             == [Point(RelativeTo(p.position, start, envelope, range), p.value)] + tail;
      RelativeMovesBack(ps[1..], start, envelope, range, k);
      RelativeBack(p.position, start, envelope, range);
      MovedCons(Point(RelativeTo(p.position, start, envelope, range), p.value), tail, start, k);
      assert ps == [p] + ps[1..];
    }
  }

  lemma {:induction false} InsideAppend(a: seq<Point>, b: seq<Point>)
    ensures Inside(a + b) == Inside(a) + Inside(b)
  {
    if a == [] {
      assert a + b == b;
    } else {
      assert (a + b)[1..] == a[1..] + b;
      InsideAppend(a[1..], b);
    }
  }

  lemma {:induction false} InsideNone(ps: seq<Point>)
    requires Ordered(ps) && ps != [] ==> Last(ps).position <= 0.0 || 1.0 < ps[0].position
    requires Ordered(ps)
    ensures Inside(ps) == []
  {
    if |ps| > 1 {
      OrderedPair(ps, 0, |ps| - 1);
      InsideNone(ps[1..]);
    }
  }

  lemma {:induction false} InsideAll(ps: seq<Point>)
    requires PositionsWithin(ps, 0.0, 1.0) && (ps != [] ==> 0.0 < ps[0].position) && Ordered(ps)
    ensures Inside(ps) == ps
  {
    if ps != [] {
      assert ps == [ps[0]] + ps[1..];
      InsideAll(ps[1..]);
    }
  }

  /** The points before, inside and after the range. */
  lemma RangeParts(q: seq<Point>) returns (before: seq<Point>, inside: seq<Point>, after: seq<Point>)
    requires Ordered(q)
    ensures q == before + (inside + after) && Inside(q) == inside && Ordered(before) && Ordered(inside)
    ensures before != [] ==> Last(before).position <= 0.0
    ensures Ordered(inside + after) && (inside + after != [] ==> 0.0 < (inside + after)[0].position)
    ensures inside != [] ==> Last(inside).position <= 1.0
    ensures after != [] ==> 1.0 < after[0].position
  {
    var rest;
    before, rest := SplitAfter(q, 0.0);
    inside, after := SplitAfter(rest, 1.0);
    OrderedBetween(inside, 0.0, 1.0);
    InsideAppend(before, rest);
    InsideAppend(inside, after);
    InsideNone(before);
    InsideNone(after);
    InsideAll(inside);
  }

  /** A point at 0 holding the value there stands in for everything up to it. */
  lemma {:induction false} StartKeeps(before: seq<Point>, rest: seq<Point>, v: real, x: real)
    requires Ordered(before + rest) && before + rest != [] && 0.0 <= x && v == Sample(before + rest, 0.0)
    requires before != [] ==> Last(before).position <= 0.0
    requires rest != [] ==> 0.0 < rest[0].position
    ensures Ordered([Point(0.0, v)] + rest)
    ensures Sample([Point(0.0, v)] + rest, x) == Sample(before + rest, x)
  {
    OrderedAppend(before, rest);
    OrderedAppend([Point(0.0, v)], rest);
    if before == [] {
      assert before + rest == rest;
      HeadHarmless(rest, 0.0, v, x);
    } else if Last(before).position < 0.0 {
      CutKeeps(before, rest, 0.0, x);
    } else {
      SampleFromLast(before, rest, 0.0);
      HeadWins(Last(before), rest);
      SampleFromLast(before, rest, x);
    }
  }

  /** A point at 1 holding the value there stands in for everything after it. */
  lemma {:induction false} EndKeeps(pre: seq<Point>, after: seq<Point>, v: real, x: real)
    requires pre != [] && Ordered(pre + after) && x <= 1.0 && v == Sample(pre + after, 1.0)
    requires Last(pre).position <= 1.0
    requires after != [] ==> 1.0 < after[0].position
    ensures Ordered(WithEnd(pre, v)) && Last(WithEnd(pre, v)).position == 1.0
    ensures Sample(WithEnd(pre, v), x) == Sample(pre + after, x)
  {
    OrderedAppend(pre, after);
    if after == [] {
      assert pre + after == pre;
      SampleAfterLast(pre, 1.0);
      if Last(pre).position < 1.0 { TailHarmless(pre, 1.0, x); }
    } else {
      assert [] + after == after;
      RightEdgeOrdered(pre, [], after, 1.0, v);
      RightEdgeKeeps(pre, [], after, 1.0, v, x);
      assert pre + [] == pre;
    }
  }

  /** Over a range, the points relative to it sample as the whole curve. */
  lemma {:induction false} RangeSamples(q: seq<Point>, first: real, last: real, u: real)
    requires q != [] && Ordered(q) && first == Sample(q, 0.0) && last == Sample(q, 1.0)
    requires 0.0 <= u <= 1.0
    ensures var r := WithEnd(WithStart(q, first), last);
            && Ordered(r) && r[0] == Point(0.0, first) && Last(r).position == 1.0
            && Sample(r, u) == Sample(q, u)
  {
    var before, inside, after := RangeParts(q);
    var rest, pre := inside + after, [Point(0.0, first)] + inside;
    assert pre + after == [Point(0.0, first)] + rest;
    StartKeeps(before, rest, first, u);
    StartKeeps(before, rest, first, 1.0);
    EndKeeps(pre, after, last, u);
  }

  lemma RatioPositive(d: real, range: real)
    requires d > 0.0 && range > 0.0
    ensures range / d > 0.0
  {
    var k := range / d;
    assert k * d == range;
    Scales(k, 0.0, d);
  }

  lemma {:induction false} RelativeSamples(q: seq<Point>, points: seq<Point>, from: real, k: real, u: real, x: real)
    requires q != [] && k > 0.0 && points == Moved(q, from, k) && x == from + u * k
    ensures Sample(q, u) == Sample(points, x)
  {
    SampleMoved(q, u, from, k);
  }

  lemma {:induction false} SearchedEnds(q: seq<Point>, points: seq<Point>, from: real, k: real)
    requires q != [] && k > 0.0 && points == Moved(q, from, k) && Ordered(points)
    ensures SamplePoints(points, from) == Sample(q, 0.0) && SamplePoints(points, from + k) == Sample(q, 1.0)
  {
    SearchAgreesWithWalk(points, from);
    SearchAgreesWithWalk(points, from + k);
    RelativeSamples(q, points, from, k, 0.0, from);
    RelativeSamples(q, points, from, k, 1.0, from + k);
  }

  lemma {:induction false} IsRelative(points: seq<Point>, from: real, d: real, range: real, q: seq<Point>)
    requires d > 0.0 && range > 0.0 && q == Relative(points, from, d, range) && Ordered(points)
    ensures range / d > 0.0 && Moved(q, from, range / d) == points && Ordered(q)
  {
    RatioPositive(d, range);
    RelativeMovesBack(points, from, d, range, range / d);
    MovedOrderedBack(q, from, range / d);
  }

  lemma RangedFrom(env: Envelope, start: real, duration: real) returns (q: seq<Point>)
    requires env.points != [] && Ordered(env.points)
    ensures q != [] && Ordered(q) && Ratio(env, duration) > 0.0
    ensures Moved(q, StartPosition(env, start), Ratio(env, duration)) == env.points
    ensures CurveInRange(env, start, duration) == Some(WithEnd(WithStart(q, Sample(q, 0.0)), Sample(q, 1.0)))
  {
    var from, d, range := StartPosition(env, start), AtLeastEpsilon(env.duration), AtLeastEpsilon(duration);
    q := Relative(env.points, from, d, range);
    IsRelative(env.points, from, d, range, q);
    SearchedEnds(q, env.points, from, range / d);
  }

  /** What the ranged curve gives at `u` is what the envelope's curve gives there, steps
      on either edge of the range included, whatever the two durations are. */
  lemma {:induction false} RangeKeepsSamples(env: Envelope, start: real, duration: real, u: real, x: real)
    requires env.points != [] && Ordered(env.points) && 0.0 <= u <= 1.0
    requires x == StartPosition(env, start) + u * Ratio(env, duration)
    ensures CurveInRange(env, start, duration).Some?
    ensures var r := CurveInRange(env, start, duration).value;
            && Ordered(r) && r[0].position == 0.0 && Last(r).position == 1.0
            && Sample(r, u) == Sample(env.points, x)
  {
    var q := RangedFrom(env, start, duration);
    RelativeSamples(q, env.points, StartPosition(env, start), Ratio(env, duration), u, x);
    RangeSamples(q, Sample(q, 0.0), Sample(q, 1.0), u);
  }

  /** A range position in seconds. */
  lemma RangePosition(env: Envelope, start: real, duration: real, u: real, t: real)
    requires EPSILON <= env.duration && EPSILON <= duration && t == start + u * duration
    ensures env.duration > 0.0
    ensures (t - env.start) / env.duration == StartPosition(env, start) + u * Ratio(env, duration)
  {
    var d := env.duration;
    var from, k, x := (start - env.start) / d, duration / d, (t - env.start) / d;
    assert from * d == start - env.start && k * d == duration && x * d == t - env.start;
    Associate(u, k, d);
    Distribute(from, u * k, d);
    Cancel(from + u * k, x, d);
  }

  lemma {:induction false} UnclampedSample(points: seq<Point>, x: real)
    requires points != [] && Ordered(points) && PositionsWithin(points, 0.0, 1.0)
    ensures Sample(points, Clamp(x, 0.0, 1.0)) == if x < 0.0 then Sample(points, 0.0) else Sample(points, x)
    ensures x < 0.0 ==> Sample(points, x) == points[0].value
  {
    if x > 1.0 {
      SampleAfterLast(points, 1.0);
      SampleAfterLast(points, x);
    }
  }

  /** The last of the points at position 0 is at another value than the first. */
  ghost predicate StartsOnStep(points: seq<Point>) {
    exists i :: IsLastAtStart(points, i) && points[i].value != points[0].value
  }

  ghost predicate IsLastAtStart(points: seq<Point>, i: int) {
    0 <= i < |points| && points[i].position == 0.0 && (i + 1 < |points| ==> 0.0 < points[i + 1].position)
  }

  lemma {:induction false} LastAtStartIsUnique(points: seq<Point>, i: nat, j: nat)
    requires Ordered(points) && IsLastAtStart(points, i) && IsLastAtStart(points, j)
    ensures i == j
  {
    if i < j { OrderedPair(points, i + 1, j); }
    if j < i { OrderedPair(points, j + 1, i); }
  }

  lemma {:induction false} SampleAtStart(points: seq<Point>, i: nat)
    requires Ordered(points) && IsLastAtStart(points, i)
    ensures Sample(points, 0.0) == points[i].value
  {
    if i + 1 == |points| {
      SampleAfterLast(points, 0.0);
    } else {
      SampleFromSegment(points, i, 0.0);
    }
  }

  /** The value at position 0 is the first point's unless the curve starts on a step. */
  lemma {:induction false} StartsOnStepIff(points: seq<Point>)
    requires points != [] && Ordered(points) && PositionsWithin(points, 0.0, 1.0)
    ensures Sample(points, 0.0) != points[0].value <==> StartsOnStep(points)
  {
    var n := PartitionPoint(points, 0.0);
    if n > 0 {
      assert IsLastAtStart(points, n - 1);
      SampleAtStart(points, n - 1);
      forall i: nat | IsLastAtStart(points, i) ensures i == n - 1 { LastAtStartIsUnique(points, i, n - 1); }
    } else {
      forall i: nat | i < |points| ensures 0.0 < points[i].position { OrderedPair(points, 0, i); }
    }
  }

  /** At time `t` of the range, range and envelope a nanosecond long at least, the ranged curve
      gives what playback gives, unless `t` is before the envelope and the envelope starts on a
      step: there playback holds the value after the step, and the ranged curve the value
      before it. */
  lemma {:induction false} RangeAgreesWithPlaybackIff(env: Envelope, start: real, duration: real, u: real, t: real)
    requires env.points != [] && Ordered(env.points) && PositionsWithin(env.points, 0.0, 1.0)
    requires 0.000000001 <= env.duration && 0.000000001 <= duration && 0.0 <= u <= 1.0 && t == start + u * duration
    ensures CurveInRange(env, start, duration).Some? && env.duration > 0.0
    ensures Some(Sample(CurveInRange(env, start, duration).value, u)) == EnvelopeAt(env, t)
       <==> !(t < env.start && StartsOnStep(env.points))
  {
    RangePosition(env, start, duration, u, t);
    RangeKeepsSamples(env, start, duration, u, (t - env.start) / env.duration);
    var x := (t - env.start) / env.duration;
    assert x * env.duration == t - env.start;
    Scales(x, 0.0, env.duration);
    UnclampedSample(env.points, x);
    SearchAgreesWithWalk(env.points, Clamp(x, 0.0, 1.0));
    StartsOnStepIff(env.points);
  }

  /** An envelope that starts on a step from 0 to 1. */
  const STEPPED := Envelope(0.0, 1.0, [Point(0.0, 0.0), Point(0.0, 1.0)])

  /** Over the second before it, playback gives another value than the ranged curve. */
  lemma StepBeforeEnvelopeDiffers()
    ensures CurveInRange(STEPPED, -1.0, 1.0).Some?
    ensures Some(Sample(CurveInRange(STEPPED, -1.0, 1.0).value, 0.0)) != EnvelopeAt(STEPPED, -1.0)
  {
    assert STEPPED.points[1..] == [Point(0.0, 1.0)];
    assert IsLastAtStart(STEPPED.points, 1);
    RangeAgreesWithPlaybackIff(STEPPED, -1.0, 1.0, 0.0, -1.0);
  }
}
