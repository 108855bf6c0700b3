/** Piecewise-linear curves: sampling, and the laws every curve rewrite rests on.
    Coincident points encode a step; the last point at a position wins. */
module Curves {
  import opened Options
  import opened Fractions

  datatype Point = Point(position: real, value: real)

  /** What `Curve::validate` asks of positions: they never go back. */
  predicate Ordered(ps: seq<Point>) {
    |ps| < 2 || (ps[0].position <= ps[1].position && Ordered(ps[1..]))
  }

  lemma {:induction false} OrderedPair(ps: seq<Point>, i: nat, j: nat)
    requires Ordered(ps) && i <= j < |ps|
    ensures ps[i].position <= ps[j].position
  {
    if i > 0 {
      OrderedPair(ps[1..], i - 1, j - 1);
    } else if j > 0 {
      OrderedPair(ps[1..], 0, j - 1);
    }
  }

  /** Two lists join in order exactly when both are ordered and the first ends no
      later than the second starts. */
  lemma {:induction false} OrderedAppend(a: seq<Point>, b: seq<Point>)
    ensures Ordered(a + b) <==>
            Ordered(a) && Ordered(b) &&
            (a != [] && b != [] ==> a[|a| - 1].position <= b[0].position)
  {
    var c := a + b;
    if a == [] {
      assert c == b;
    } else {
      assert c[1..] == a[1..] + b;
      OrderedAppend(a[1..], b);
      if |a| == 1 {
        assert c[1..] == b;
      }
    }
  }

  /** Every position lies between `lo` and `hi`. */
  ghost predicate PositionsWithin(ps: seq<Point>, lo: real, hi: real) {
    forall i :: 0 <= i < |ps| ==> lo <= ps[i].position <= hi
  }

  /** Every value lies between `lo` and `hi`. */
  ghost predicate ValuesWithin(ps: seq<Point>, lo: real, hi: real) {
    forall i :: 0 <= i < |ps| ==> lo <= ps[i].value <= hi
  }

  function Last(ps: seq<Point>): Point
    requires |ps| > 0
  {
    ps[|ps| - 1]
  }

  /** The straight line through `a` and `b`, at `x`. */
  function Segment(a: Point, b: Point, x: real): real
    requires a.position < b.position
  {
    a.value + (x - a.position) * ((b.value - a.value) / (b.position - a.position))
  }

  /** How many leading points lie at or before `x`. */
  function PartitionPoint(ps: seq<Point>, x: real): (n: nat)
    ensures n <= |ps|
    ensures n > 0 ==> ps[n - 1].position <= x
    ensures n < |ps| ==> x < ps[n].position
  {
    if ps == [] || x < ps[0].position then 0 else 1 + PartitionPoint(ps[1..], x)
  }

  /** Sampling as playback does it: a search for the segment, then a multiply-add. */
  function SamplePoints(ps: seq<Point>, x: real): real
    requires |ps| > 0
  {
    if |ps| == 1 || x < ps[0].position then ps[0].value
    else if ps[|ps| - 1].position <= x then ps[|ps| - 1].value
    else
      var inner := ps[1..|ps| - 1];
      var index := 1 + PartitionPoint(inner, x);
      assert ps[index - 1].position <= x by {
        if index > 1 { assert ps[index - 1] == inner[index - 2]; }
      }
      assert x < ps[index].position by {
        if index - 1 < |inner| { assert ps[index] == inner[index - 1]; }
      }
      Segment(ps[index - 1], ps[index], x)
  }

  /** What a curve means: walk to the last point at or before `x` and follow its segment. */
  function Sample(ps: seq<Point>, x: real): real
    requires |ps| > 0
  {
    if |ps| == 1 || x < ps[0].position then ps[0].value
    else if ps[1].position <= x then Sample(ps[1..], x)
    else Segment(ps[0], ps[1], x)
  }

  /** An empty curve samples as missing. */
  function SampleCurve(ps: seq<Point>, x: real): Option<real> {
    if ps == [] then None else Some(SamplePoints(ps, x))
  }

  lemma {:induction false} SampleFromSegment(ps: seq<Point>, k: nat, x: real)
    requires Ordered(ps) && k + 1 < |ps|
    requires ps[k].position <= x < ps[k + 1].position
    ensures Sample(ps, x) == Segment(ps[k], ps[k + 1], x)
  {
    if k > 0 {
      OrderedPair(ps, 1, k);
      SampleFromSegment(ps[1..], k - 1, x);
    }
  }

  lemma {:induction false} SampleAfterLast(ps: seq<Point>, x: real)
    requires Ordered(ps) && |ps| > 0 && ps[|ps| - 1].position <= x
    ensures Sample(ps, x) == ps[|ps| - 1].value
  {
    if |ps| > 1 {
      OrderedPair(ps, 1, |ps| - 1);
      SampleAfterLast(ps[1..], x);
    }
  }

  lemma SegmentIsLine(a: Point, b: Point, x: real)
    requires a.position < b.position
    ensures (Segment(a, b, x) - a.value) * (b.position - a.position) == (x - a.position) * (b.value - a.value)
  {
    var dx, run, k := x - a.position, b.position - a.position, (b.value - a.value) / (b.position - a.position);
    assert k * run == b.value - a.value;
    assert Segment(a, b, x) - a.value == dx * k;
    Associate(dx, k, run);
  }

  /** A curve gives its first value before its points, its last from the last point on, and in
      between the straight line through the points on either side. */
  lemma {:induction false} SampleIs(ps: seq<Point>, x: real)
    requires Ordered(ps) && |ps| > 0
    ensures x < ps[0].position ==> Sample(ps, x) == ps[0].value
    ensures ps[|ps| - 1].position <= x ==> Sample(ps, x) == ps[|ps| - 1].value
    ensures forall k :: 0 <= k < |ps| - 1 && ps[k].position <= x < ps[k + 1].position ==>
              (Sample(ps, x) - ps[k].value) * (ps[k + 1].position - ps[k].position)
              == (x - ps[k].position) * (ps[k + 1].value - ps[k].value)
  {
    if ps[|ps| - 1].position <= x { SampleAfterLast(ps, x); }
    forall k | 0 <= k < |ps| - 1 && ps[k].position <= x < ps[k + 1].position
      ensures (Sample(ps, x) - ps[k].value) * (ps[k + 1].position - ps[k].position)
           == (x - ps[k].position) * (ps[k + 1].value - ps[k].value)
    {
      SampleFromSegment(ps, k, x);
      SegmentIsLine(ps[k], ps[k + 1], x);
    }
  }

  /** The search finds the value the walk finds, on every ordered curve. */
  lemma {:induction false} SearchAgreesWithWalk(ps: seq<Point>, x: real)
    requires Ordered(ps) && |ps| > 0
    ensures SamplePoints(ps, x) == Sample(ps, x)
  {
    if |ps| == 1 || x < ps[0].position {
    } else if ps[|ps| - 1].position <= x {
      SampleAfterLast(ps, x);
    } else {
      var inner := ps[1..|ps| - 1];
      var index := 1 + PartitionPoint(inner, x);
      if index > 1 { assert ps[index - 1] == inner[index - 2]; }
      if index - 1 < |inner| { assert ps[index] == inner[index - 1]; }
      SampleFromSegment(ps, index - 1, x);
    }
  }

  /** A curve joined from two parts samples as the part `x` falls in, and along
      the joining segment in between. */
  lemma {:induction false} SampleAppend(a: seq<Point>, b: seq<Point>, x: real)
    requires |a| > 0 && |b| > 0 && Ordered(a + b)
    ensures b[0].position <= x ==> Sample(a + b, x) == Sample(b, x)
    ensures x < a[|a| - 1].position ==> Sample(a + b, x) == Sample(a, x)
    ensures a[|a| - 1].position <= x < b[0].position ==>
              Sample(a + b, x) == Segment(a[|a| - 1], b[0], x)
  {
    var c := a + b;
    OrderedAppend(a, b);
    if |a| == 1 {
      assert c[1..] == b;
    } else {
      assert c[0] == a[0] && c[1] == a[1];
      assert c[1..] == a[1..] + b;
      OrderedPair(a, 1, |a| - 1);
      SampleAppend(a[1..], b, x);
    }
  }

  lemma SegmentWithin(a: Point, b: Point, x: real, lo: real, hi: real)
    requires a.position <= x < b.position
    requires lo <= a.value <= hi && lo <= b.value <= hi
    ensures lo <= Segment(a, b, x) <= hi
  {
    var n, d, rise := x - a.position, b.position - a.position, b.value - a.value;
    var f := n / d;
    FractionWithin(n, d);
    ScaledFraction(n, rise, d);
    var step := f * rise;
    if rise >= 0.0 {
      PartOf(f, rise);
    } else {
      PartOf(f, -rise);
      MulNegate(f, rise);
    }
  }

  /** Sampling never leaves the range of the values. */
  lemma {:induction false} SampleWithin(ps: seq<Point>, x: real, lo: real, hi: real)
    requires |ps| > 0 && ValuesWithin(ps, lo, hi)
    ensures lo <= Sample(ps, x) <= hi
  {
    if |ps| == 1 || x < ps[0].position {
    } else if ps[1].position <= x {
      SampleWithin(ps[1..], x, lo, hi);
    } else {
      SegmentWithin(ps[0], ps[1], x, lo, hi);
    }
  }

  function MovedTo(x: real, shift: real, scale: real): real {
    shift + x * scale
  }

  function MovedPoint(p: Point, shift: real, scale: real): Point {
    Point(MovedTo(p.position, shift, scale), p.value)
  }

  /** Positions moved by `p * scale + shift`. */
  function Moved(ps: seq<Point>, shift: real, scale: real): (r: seq<Point>)
    ensures |r| == |ps|
    ensures forall i {:trigger r[i]} :: 0 <= i < |ps| ==> r[i].value == ps[i].value
  {
    if ps == [] then []
    else [MovedPoint(ps[0], shift, scale)] + Moved(ps[1..], shift, scale)
  }

  lemma {:induction false} MovedCons(p: Point, ps: seq<Point>, shift: real, scale: real)
    ensures Moved([p] + ps, shift, scale) == [MovedPoint(p, shift, scale)] + Moved(ps, shift, scale)
  {
    assert ([p] + ps)[1..] == ps;
  }

  lemma SegmentMoved(a: Point, b: Point, a': Point, b': Point, x: real, shift: real, scale: real)
    requires scale > 0.0 && a.position < b.position
    requires a' == Point(shift + a.position * scale, a.value)
    requires b' == Point(shift + b.position * scale, b.value)
    ensures a'.position < b'.position
    ensures Segment(a', b', shift + x * scale) == Segment(a, b, x)
  {
    var dx, dp, dv := x - a.position, b.position - a.position, b.value - a.value;
    Scales(0.0, dp, scale);
    Distribute(b.position, -a.position, scale);
    Distribute(x, -a.position, scale);
    MulNegate'(a.position, scale);
    var dp' := dp * scale;
    assert b'.position - a'.position == dp';
    assert (shift + x * scale) - a'.position == dx * scale;
    var q, q' := dv / dp, dv / dp';
    SlopeScaled(dv, dp, scale);
    assert q' * scale == q;
    Associate(dx, scale, q');
  }

  lemma MovedOrder(a: real, b: real, a': real, b': real, shift: real, scale: real)
    requires scale > 0.0 && a' == shift + a * scale && b' == shift + b * scale
    ensures (a < b <==> a' < b') && (a <= b <==> a' <= b')
  {
    Scales(a, b, scale);
  }

  /** Moving a curve and the query together changes nothing. */
  lemma {:induction false} SampleMoved(ps: seq<Point>, x: real, shift: real, scale: real)
    requires |ps| > 0 && scale > 0.0
    ensures Sample(Moved(ps, shift, scale), shift + x * scale) == Sample(ps, x)
  {
    var m, y := Moved(ps, shift, scale), shift + x * scale;
    var first, tail := Point(shift + ps[0].position * scale, ps[0].value), Moved(ps[1..], shift, scale);
    assert m == [first] + tail;
    assert x < ps[0].position <==> y < first.position by {
      MovedOrder(x, ps[0].position, y, first.position, shift, scale);
    }
    if |ps| > 1 && ps[0].position <= x {
      var second := Point(shift + ps[1].position * scale, ps[1].value);
      assert m[1] == tail[0] == second;
      assert ps[1].position <= x <==> second.position <= y by {
        MovedOrder(ps[1].position, x, second.position, y, shift, scale);
      }
      if ps[1].position <= x {
        assert m[1..] == tail;
        SampleMoved(ps[1..], x, shift, scale);
      } else {
        SegmentMoved(ps[0], ps[1], first, second, x, shift, scale);
      }
    }
  }

  /** Past the end of `a`, only its last point still matters. */
  lemma {:induction false} SampleFromLast(a: seq<Point>, b: seq<Point>, x: real)
    requires |a| > 0 && Ordered(a + b) && Last(a).position <= x
    ensures Ordered([Last(a)] + b)
    ensures Sample(a + b, x) == Sample([Last(a)] + b, x)
  {
    if |a| == 1 {
      assert a == [Last(a)];
    } else {
      OrderedAppend(a, b);
      OrderedPair(a, 1, |a| - 1);
      assert (a + b)[1..] == a[1..] + b;
      assert Last(a[1..]) == Last(a);
      SampleFromLast(a[1..], b, x);
    }
  }

  /** A point put on a curve where it already passes changes no sample. */
  lemma {:induction false} SampleInserted(a: seq<Point>, b: seq<Point>, s: real, x: real)
    requires |a| > 0 && |b| > 0 && Ordered(a + b)
    requires a[|a| - 1].position < s < b[0].position
    ensures Ordered(a + ([Point(s, Sample(a + b, s))] + b))
    ensures Sample(a + ([Point(s, Sample(a + b, s))] + b), x) == Sample(a + b, x)
  {
    var p, q := a[|a| - 1], b[0];
    var m := Point(s, Sample(a + b, s));
    OrderedAppend(a, b);
    OrderedAppend([m], b);
    OrderedAppend(a, [m] + b);
    SampleAppend(a, b, s);
    assert m.value == Segment(p, q, s);
    SampleAppend(a, b, x);
    SampleAppend(a, [m] + b, x);
    SampleAppend([m], b, x);
    if p.position <= x < s {
      SegmentHead(p, q, s, x);
    } else if s <= x < q.position {
      SegmentTail(p, q, s, x);
    }
  }

  lemma SegmentHead(p: Point, q: Point, s: real, x: real)
    requires p.position < s < q.position
    ensures Segment(p, Point(s, Segment(p, q, s)), x) == Segment(p, q, x)
  {
    var step := s - p.position;
    var k := (q.value - p.value) / (q.position - p.position);
    assert Segment(p, q, s) - p.value == step * k;
    CancelFactor(step, k);
  }

  lemma SegmentTail(p: Point, q: Point, s: real, x: real)
    requires p.position < s < q.position
    ensures Segment(Point(s, Segment(p, q, s)), q, x) == Segment(p, q, x)
  {
    var d, before, after := q.position - p.position, s - p.position, q.position - s;
    var k := (q.value - p.value) / d;
    var m := Point(s, Segment(p, q, s));
    assert k * d == q.value - p.value;
    Distribute(before, after, k);
    Commute(k, d);
    assert q.value - m.value == after * k;
    CancelFactor(after, k);
    Distribute(before, x - s, k);
  }
}
