/** When a curve reaches a value: for the first time, and most recently. */
module Crossings {
  import opened Options
  import opened Fractions
  import opened Curves

  // ---------- What reaching and arriving mean ----------

  /** The segment from `a` to `b` has `value` a fraction `u` of the way along; on a step
      the fraction runs through the values it skips. */
  predicate OnSegment(a: Point, b: Point, value: real, u: real) {
    0.0 <= u <= 1.0 && value == a.value + u * (b.value - a.value)
  }

  function Along(a: Point, b: Point, u: real): real {
    a.position + u * (b.position - a.position)
  }

  ghost predicate ReachedOn(a: Point, b: Point, value: real, x: real) {
    exists u :: OnSegment(a, b, value, u) && x == Along(a, b, u)
  }

  ghost predicate ReachedAt(ps: seq<Point>, k: nat, value: real, x: real) {
    k + 1 < |ps| && ReachedOn(ps[k], ps[k + 1], value, x)
  }

  /** The curve passes through `value` at `x`; a step passes through the values it skips. */
  ghost predicate Reached(ps: seq<Point>, value: real, x: real) {
    || (|ps| == 1 && ps[0] == Point(x, value))
    || exists k: nat :: ReachedAt(ps, k, value, x)
  }

  /** The segment arrives at `value` from another value; a step only by landing on it. */
  ghost predicate ArrivedOn(a: Point, b: Point, value: real, x: real) {
    && a.value != value
    && exists u :: OnSegment(a, b, value, u) && x == Along(a, b, u) && (a.position == b.position ==> u == 1.0)
  }

  ghost predicate ArrivedAt(ps: seq<Point>, k: nat, value: real, x: real) {
    k + 1 < |ps| && ArrivedOn(ps[k], ps[k + 1], value, x)
  }

  /** The curve comes to have `value` at `x`: it starts on it, or a segment arrives at it. */
  ghost predicate Arrived(ps: seq<Point>, value: real, x: real) {
    || (ps != [] && ps[0] == Point(x, value))
    || exists k: nat :: ArrivedAt(ps, k, value, x)
  }

  // ---------- One segment ----------

  function Min(a: real, b: real): real { if a < b then a else b }

  function Max(a: real, b: real): real { if a < b then b else a }

  predicate Spans(a: Point, b: Point, value: real) {
    Min(a.value, b.value) <= value <= Max(a.value, b.value)
  }

  /** Where a segment that is not level has `value`. */
  function CrossingPosition(a: Point, b: Point, value: real): real
    requires a.value != b.value
  {
    a.position + (b.position - a.position) * (value - a.value) / (b.value - a.value)
  }

  lemma CrossingIsAlong(a: Point, b: Point, value: real, u: real)
    requires a.value != b.value && u == (value - a.value) / (b.value - a.value)
    ensures CrossingPosition(a, b, value) == Along(a, b, u)
  {
    var dp, dv, rise := b.position - a.position, b.value - a.value, value - a.value;
    var q := dp * rise / dv;
    assert q * dv == dp * rise && u * dv == rise;
    Commute(u, dp);
    Associate(dp, u, dv);
    Cancel(q, dp * u, dv);
  }

  lemma FractionOf(rise: real, span: real, u: real)
    requires span != 0.0
    ensures u == rise / span <==> u * span == rise
    ensures u == rise / span ==> (0.0 <= u <= 1.0 <==> if span > 0.0 then 0.0 <= rise <= span else span <= rise <= 0.0)
  {
    var f := rise / span;
    assert f * span == rise;
    if u * span == rise { Cancel(u, f, span); }
    if span > 0.0 {
      Scales(0.0, f, span);
      Scales(f, 1.0, span);
    } else {
      Scales(0.0, f, -span);
      Scales(f, 1.0, -span);
      MulNegate(f, span);
    }
  }

  /** A segment that is not level has a value at one fraction at most, and only a value
      between its ends. */
  lemma OnSegmentIff(a: Point, b: Point, value: real, u: real)
    requires a.value != b.value
    ensures OnSegment(a, b, value, u) <==> Spans(a, b, value) && u == (value - a.value) / (b.value - a.value)
  {
    FractionOf(value - a.value, b.value - a.value, u);
  }

  lemma OnSegmentSpans(a: Point, b: Point, value: real, u: real)
    requires OnSegment(a, b, value, u)
    ensures Spans(a, b, value)
  {
    if a.value != b.value { OnSegmentIff(a, b, value, u); }
  }

  lemma AlongWithin(a: Point, b: Point, u: real)
    requires a.position <= b.position && 0.0 <= u <= 1.0
    ensures a.position <= Along(a, b, u) <= b.position
  {
    var span := b.position - a.position;
    PartOf(u, span);
    var step := u * span;
    assert 0.0 <= step <= span;
  }

  /** Where a segment reaches `value`, if it does: a level one at its start. */
  function SegmentReach(a: Point, b: Point, value: real): Option<real> {
    if !Spans(a, b, value) then None
    else if a.value == b.value then Some(a.position)
    else Some(CrossingPosition(a, b, value))
  }

  lemma ReachIsReached(a: Point, b: Point, value: real)
    requires SegmentReach(a, b, value).Some?
    ensures ReachedOn(a, b, value, SegmentReach(a, b, value).value)
  {
    var u := if a.value == b.value then 0.0 else (value - a.value) / (b.value - a.value);
    if a.value != b.value {
      OnSegmentIff(a, b, value, u);
      CrossingIsAlong(a, b, value, u);
    }
    assert OnSegment(a, b, value, u) && SegmentReach(a, b, value).value == Along(a, b, u);
  }

  lemma ReachIsLeast(a: Point, b: Point, value: real, x: real)
    requires a.position <= b.position && ReachedOn(a, b, value, x)
    ensures SegmentReach(a, b, value).Some? && SegmentReach(a, b, value).value <= x
  {
    var u :| OnSegment(a, b, value, u) && x == Along(a, b, u);
    OnSegmentSpans(a, b, value, u);
    AlongWithin(a, b, u);
    if a.value != b.value {
      OnSegmentIff(a, b, value, u);
      CrossingIsAlong(a, b, value, u);
    }
  }

  // ---------- The first crossing ----------

  /** The first position where the curve reaches `value`, or none. */
  method FirstCrossing(ps: seq<Point>, value: real) returns (r: Option<real>)
    requires Ordered(ps)
    ensures r.None? <==> !exists x :: Reached(ps, value, x)
    ensures r.Some? ==> Reached(ps, value, r.value)
    ensures r.Some? ==> forall x :: Reached(ps, value, x) ==> r.value <= x
  {
    if |ps| == 1 {
      if ps[0].value == value {
        assert Reached(ps, value, ps[0].position);
        return Some(ps[0].position);
      }
      return None;
    }
    var i := 0;
    while i + 1 < |ps|
      invariant 0 <= i && (i < |ps| || ps == [])
      invariant forall k: nat, x :: k < i ==> !ReachedAt(ps, k, value, x)
    {
      r := SegmentReach(ps[i], ps[i + 1], value);
      if r.Some? {
        ReachIsReached(ps[i], ps[i + 1], value);
        assert ReachedAt(ps, i, value, r.value) && Reached(ps, value, r.value);
        forall x | Reached(ps, value, x) ensures r.value <= x {
          LaterReach(ps, value, i, x);
        }
        return;
      }
      forall x ensures !ReachedAt(ps, i, value, x) {
        OrderedPair(ps, i, i + 1);
        if ReachedAt(ps, i, value, x) { ReachIsLeast(ps[i], ps[i + 1], value, x); }
      }
      i := i + 1;
    }
    r := None;
  }

  /** Nothing is reached before the first segment that reaches it. */
  lemma {:induction false} LaterReach(ps: seq<Point>, value: real, i: nat, x: real)
    requires Ordered(ps) && i + 1 < |ps| && SegmentReach(ps[i], ps[i + 1], value).Some?
    requires forall k: nat, z :: k < i ==> !ReachedAt(ps, k, value, z)
    requires Reached(ps, value, x)
    ensures SegmentReach(ps[i], ps[i + 1], value).value <= x
  {
    var k: nat :| ReachedAt(ps, k, value, x);
    OrderedPair(ps, i, i + 1);
    if k == i {
      ReachIsLeast(ps[i], ps[i + 1], value, x);
    } else {
      ReachIsReached(ps[i], ps[i + 1], value);
      ReachedInside(ps[i], ps[i + 1], value, SegmentReach(ps[i], ps[i + 1], value).value);
      OrderedPair(ps, i + 1, k);
      OrderedPair(ps, k, k + 1);
      ReachedInside(ps[k], ps[k + 1], value, x);
    }
  }

  lemma ReachedInside(a: Point, b: Point, value: real, x: real)
    requires a.position <= b.position && ReachedOn(a, b, value, x)
    ensures a.position <= x <= b.position
  {
    var u :| OnSegment(a, b, value, u) && x == Along(a, b, u);
    AlongWithin(a, b, u);
  }

  // ---------- The last crossing ----------

  /** Where a segment arrives at `value`, if it does: the branches of the reverse scan. */
  function SegmentArrival(a: Point, b: Point, value: real): (r: Option<real>) {
    if value == a.value || value < Min(a.value, b.value) || Max(a.value, b.value) < value then None
    else if a.position == b.position && value != b.value then None
    else if value == b.value then Some(b.position)
    else Some(CrossingPosition(a, b, value))
  }

  lemma ArrivalIff(a: Point, b: Point, value: real, x: real)
    ensures ArrivedOn(a, b, value, x) <==> SegmentArrival(a, b, value) == Some(x)
  {
    if a.value != value && a.value != b.value {
      var u := (value - a.value) / (b.value - a.value);
      OnSegmentIff(a, b, value, u);
      OnSegmentIff(a, b, value, 1.0);
      CrossingIsAlong(a, b, value, u);
      if ArrivedOn(a, b, value, x) {
        var v :| OnSegment(a, b, value, v) && x == Along(a, b, v) && (a.position == b.position ==> v == 1.0);
        OnSegmentIff(a, b, value, v);
      }
      if SegmentArrival(a, b, value) == Some(x) {
        assert OnSegment(a, b, value, u) && x == Along(a, b, u);
      }
    }
  }

  /** A segment that starts after `before` arrives at nothing by then, so the scan may leave it out. */
  lemma {:induction false} LaterSegmentsArriveLater(ps: seq<Point>, value: real, before: real, k: nat, x: real)
    requires Ordered(ps) && PartitionPoint(ps, before) <= k && k + 1 < |ps|
    requires ArrivedOn(ps[k], ps[k + 1], value, x)
    ensures before < x
  {
    var end := PartitionPoint(ps, before);
    OrderedPair(ps, end, k);
    OrderedPair(ps, k, k + 1);
    var u :| OnSegment(ps[k], ps[k + 1], value, u) && x == Along(ps[k], ps[k + 1], u);
    AlongWithin(ps[k], ps[k + 1], u);
  }

  lemma ArrivedInside(a: Point, b: Point, value: real, x: real)
    requires a.position <= b.position && ArrivedOn(a, b, value, x)
    ensures a.position <= x <= b.position
  {
    var u :| OnSegment(a, b, value, u) && x == Along(a, b, u);
    AlongWithin(a, b, u);
  }

  /** The latest arrival at `value` not after `before`, or none. */
  method LastCrossing(ps: seq<Point>, value: real, before: real) returns (r: Option<real>)
    requires Ordered(ps) && ps != []
    ensures r.None? <==> !exists x :: Arrived(ps, value, x) && x <= before
    ensures r.Some? ==> Arrived(ps, value, r.value) && r.value <= before
    ensures r.Some? ==> forall x :: Arrived(ps, value, x) && x <= before ==> x <= r.value
  {
    var end := PartitionPoint(ps, before);
    var points := if end + 1 < |ps| then end + 1 else |ps|;
    forall k: nat, x | points <= k + 1 && ArrivedAt(ps, k, value, x) ensures before < x {
      LaterSegmentsArriveLater(ps, value, before, k, x);
    }
    var i := points - 1;
    while i > 0
      invariant 0 <= i < points
      invariant forall k: nat, x :: i <= k && ArrivedAt(ps, k, value, x) ==> before < x
    {
      i := i - 1;
      r := SegmentArrival(ps[i], ps[i + 1], value);
      forall x ensures ArrivedAt(ps, i, value, x) <==> r == Some(x) {
        ArrivalIff(ps[i], ps[i + 1], value, x);
      }
      if r.Some? && r.value <= before {
        assert ArrivedAt(ps, i, value, r.value) && Arrived(ps, value, r.value);
        forall x | Arrived(ps, value, x) && x <= before ensures x <= r.value {
          EarlierArrival(ps, value, before, i, r.value, x);
        }
        return;
      }
    }
    forall x | Arrived(ps, value, x) && x <= before ensures ps[0] == Point(x, value) {
    }
    r := if ps[0].value == value && ps[0].position <= before then Some(ps[0].position) else None;
    if r.Some? { assert Arrived(ps, value, r.value); }
  }

  /** No arrival up to `before` comes after the one on the last segment that has any. */
  lemma {:induction false} EarlierArrival(ps: seq<Point>, value: real, before: real, i: nat, y: real, x: real)
    requires Ordered(ps) && i + 1 < |ps| && ArrivedOn(ps[i], ps[i + 1], value, y)
    requires forall k: nat, z :: i < k && ArrivedAt(ps, k, value, z) ==> before < z
    requires Arrived(ps, value, x) && x <= before
    ensures x <= y
  {
    OrderedPair(ps, i, i + 1);
    ArrivedInside(ps[i], ps[i + 1], value, y);
    if ps[0] == Point(x, value) {
      OrderedPair(ps, 0, i);
    } else {
      var k: nat :| ArrivedAt(ps, k, value, x);
      if k < i {
        OrderedPair(ps, k, k + 1);
        OrderedPair(ps, k + 1, i);
        ArrivedInside(ps[k], ps[k + 1], value, x);
      } else if k == i {
        ArrivalIff(ps[i], ps[i + 1], value, x);
        ArrivalIff(ps[i], ps[i + 1], value, y);
      }
    }
  }

  // ---------- Crossings and samples ----------

  lemma AlongSegment(a: Point, b: Point, value: real, x: real)
    requires a.position < b.position
    ensures ReachedOn(a, b, value, x) <==> a.position <= x <= b.position && value == Segment(a, b, x)
  {
    var u := (x - a.position) / (b.position - a.position);
    FractionOf(x - a.position, b.position - a.position, u);
    SegmentByFraction(a, b, x, u);
    if ReachedOn(a, b, value, x) {
      var v :| OnSegment(a, b, value, v) && x == Along(a, b, v);
      AlongWithin(a, b, v);
      FractionOf(x - a.position, b.position - a.position, v);
    }
    if a.position <= x <= b.position && value == Segment(a, b, x) {
      assert OnSegment(a, b, value, u) && x == Along(a, b, u);
    }
  }

  lemma SegmentByFraction(a: Point, b: Point, x: real, u: real)
    requires a.position < b.position && u == (x - a.position) / (b.position - a.position)
    ensures Segment(a, b, x) == a.value + u * (b.value - a.value)
  {
    ScaledFraction(x - a.position, b.value - a.value, b.position - a.position);
  }

  lemma SegmentEnd(a: Point, b: Point)
    requires a.position < b.position
    ensures Segment(a, b, b.position) == b.value
  {
    var dp, dv := b.position - a.position, b.value - a.value;
    var k := dv / dp;
    assert k * dp == dv;
    Commute(k, dp);
  }

  lemma EndReached(a: Point, b: Point)
    ensures ReachedOn(a, b, a.value, a.position) && ReachedOn(a, b, b.value, b.position)
  {
    assert OnSegment(a, b, a.value, 0.0) && a.position == Along(a, b, 0.0);
    assert OnSegment(a, b, b.value, 1.0) && b.position == Along(a, b, 1.0);
  }

  /** Wherever the sampled curve has a value, it reaches it there. */
  lemma {:induction false} SampledIsReached(ps: seq<Point>, x: real)
    requires Ordered(ps) && ps != [] && ps[0].position <= x <= Last(ps).position
    ensures Reached(ps, Sample(ps, x), x)
  {
    if |ps| > 1 {
      if ps[1].position <= x {
        SampledIsReached(ps[1..], x);
        ReachedTail(ps, Sample(ps, x), x);
      } else {
        AlongSegment(ps[0], ps[1], Sample(ps, x), x);
        assert ReachedAt(ps, 0, Sample(ps, x), x);
      }
    }
  }

  lemma ReachedTail(ps: seq<Point>, value: real, x: real)
    requires |ps| > 1 && Reached(ps[1..], value, x)
    ensures Reached(ps, value, x)
  {
    var tail := ps[1..];
    if |tail| == 1 && tail[0] == Point(x, value) {
      EndReached(ps[0], ps[1]);
      assert ReachedAt(ps, 0, value, x);
    } else {
      var k: nat :| ReachedAt(tail, k, value, x);
      assert ReachedAt(ps, k + 1, value, x);
    }
  }

  /** No two points coincide: the curve has no steps. */
  ghost predicate Stepless(ps: seq<Point>) {
    forall k: nat :: k + 1 < |ps| ==> ps[k].position < ps[k + 1].position
  }

  /** Without steps, the curve reaches exactly the values it samples. */
  lemma {:induction false} ReachedIffSampled(ps: seq<Point>, value: real, x: real)
    requires Ordered(ps) && ps != [] && Stepless(ps)
    ensures Reached(ps, value, x) <==> ps[0].position <= x <= Last(ps).position && Sample(ps, x) == value
  {
    if Reached(ps, value, x) && |ps| > 1 {
      var k: nat :| ReachedAt(ps, k, value, x);
      AlongSegment(ps[k], ps[k + 1], value, x);
      OrderedPair(ps, 0, k);
      OrderedPair(ps, k + 1, |ps| - 1);
      if x < ps[k + 1].position {
        SampleFromSegment(ps, k, x);
      } else {
        SegmentEnd(ps[k], ps[k + 1]);
        SampleAtPoint(ps, k + 1);
      }
    }
    if ps[0].position <= x <= Last(ps).position { SampledIsReached(ps, x); }
  }

  lemma {:induction false} SampleAtPoint(ps: seq<Point>, k: nat)
    requires Ordered(ps) && Stepless(ps) && k < |ps|
    ensures Sample(ps, ps[k].position) == ps[k].value
  {
    if k + 1 == |ps| {
      SampleAfterLast(ps, ps[k].position);
    } else {
      SampleFromSegment(ps, k, ps[k].position);
    }
  }
}
