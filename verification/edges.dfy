/** Cutting a curve at an edge of a window, in seconds. Points a little outside
    an edge (within the crop tolerance) are pulled onto it instead of cut away;
    these lemmas say exactly when that changes a sample. */
module Edges {
  import opened Fractions
  import opened Curves

  /** The points of `ps`, all moved to `x`. */
  function At(ps: seq<Point>, x: real): (r: seq<Point>)
    ensures |r| == |ps|
    ensures forall i {:trigger r[i]} :: 0 <= i < |ps| ==> r[i] == Point(x, ps[i].value)
  {
    seq(|ps|, i requires 0 <= i < |ps| => Point(x, ps[i].value))
  }

  lemma {:induction false} AtOrdered(ps: seq<Point>, x: real)
    ensures Ordered(At(ps, x))
  {
    if |ps| > 1 {
      assert At(ps, x)[1..] == At(ps[1..], x);
      AtOrdered(ps[1..], x);
    }
  }

  lemma Level(a: Point, b: Point, x: real)
    requires a.position < b.position && a.value == b.value
    ensures Segment(a, b, x) == a.value
  {
    var d := b.position - a.position;
    assert (b.value - a.value) / d == 0.0;
    assert (x - a.position) * 0.0 == 0.0;
  }

  /** A segment that is not level has left its first value anywhere but its start,
      and has not reached its last value before its end. */
  lemma Slanted(a: Point, b: Point, x: real)
    requires a.position < b.position && a.value != b.value
    ensures x != a.position ==> Segment(a, b, x) != a.value
    ensures x != b.position ==> Segment(a, b, x) != b.value
  {
    var dx, d, rise := x - a.position, b.position - a.position, b.value - a.value;
    var k := rise / d;
    assert k * d == rise;
    Commute(k, d);
    if dx * k == 0.0 { Cancel(dx, 0.0, k); }
    if dx * k == d * k { Cancel(dx, d, k); }
  }

  lemma SlopesDiffer(q: Point, r: Point, m: Point, x: real)
    requires q.position < m.position < r.position && q.value != r.value && m.value == r.value
    requires x != q.position
    ensures Segment(q, m, x) != Segment(q, r, x)
  {
    var dx, rise := x - q.position, r.value - q.value;
    var k, k' := rise / (r.position - q.position), rise / (m.position - q.position);
    assert k != k' by { Fractions.SlopesDiffer(rise, r.position - q.position, m.position - q.position); }
    if dx * k == dx * k' { CancelLeft(dx, k, k'); }
  }

  /** A point holding its value until the next one wins at its own position. */
  lemma {:induction false} HeadWins(m: Point, rest: seq<Point>)
    requires rest != [] ==> m.position < rest[0].position
    ensures Sample([m] + rest, m.position) == m.value
  {
  }

  // ---------- The left edge ----------

  /** What stands at the left edge `s`: the points pulled onto it; or, when content
      was cut away, one point holding the value `v` cut through. */
  function LeftEdge(cut: seq<Point>, pulled: seq<Point>, rest: seq<Point>, s: real, v: real): seq<Point> {
    if pulled != [] then At(pulled, s)
    else if cut != [] && (rest == [] || s < rest[0].position) then [Point(s, v)]
    else []
  }

  /** Pulling points onto the left edge is harmless: there are none, or nothing
      follows them, or the next point is on the edge, or the curve is level up
      to the next point. */
  predicate LeftExact(pulled: seq<Point>, rest: seq<Point>, s: real) {
    pulled != [] && rest != [] ==> rest[0].position == s || rest[0].value == Last(pulled).value
  }

  ghost predicate LeftCase(cut: seq<Point>, pulled: seq<Point>, rest: seq<Point>, s: real) {
    && Ordered(cut + (pulled + rest)) && cut + (pulled + rest) != []
    && (cut != [] ==> Last(cut).position < s)
    && (pulled != [] ==> Last(pulled).position < s)
    && (rest != [] ==> s <= rest[0].position)
  }

  lemma {:induction false} LeftEdgeOrdered(cut: seq<Point>, pulled: seq<Point>, rest: seq<Point>, s: real, v: real)
    requires LeftCase(cut, pulled, rest, s)
    ensures Ordered(LeftEdge(cut, pulled, rest, s, v) + rest)
    ensures LeftEdge(cut, pulled, rest, s, v) + rest != []
    ensures LeftEdge(cut, pulled, rest, s, v) != [] ==> Last(LeftEdge(cut, pulled, rest, s, v)).position == s
    ensures LeftEdge(cut, pulled, rest, s, v) != [] ==> LeftEdge(cut, pulled, rest, s, v)[0].position == s
  {
    OrderedAppend(cut, pulled + rest);
    OrderedAppend(pulled, rest);
    AtOrdered(pulled, s);
    OrderedAppend(LeftEdge(cut, pulled, rest, s, v), rest);
    if pulled == [] { assert pulled + rest == rest; }
  }

  lemma {:induction false} PulledKeeps(cut: seq<Point>, pulled: seq<Point>, rest: seq<Point>, s: real, x: real)
    requires LeftCase(cut, pulled, rest, s) && pulled != [] && LeftExact(pulled, rest, s) && s <= x
    requires Ordered(At(pulled, s) + rest)
    ensures Sample(At(pulled, s) + rest, x) == Sample(cut + (pulled + rest), x)
  {
    var p, m := Last(pulled), Point(s, Last(pulled).value);
    SampleFromLast(At(pulled, s), rest, x);
    assert Last(At(pulled, s)) == m;
    assert cut + (pulled + rest) == (cut + pulled) + rest;
    assert Last(cut + pulled) == p;
    SampleFromLast(cut + pulled, rest, x);
    if rest != [] {
      SampleAppend([p], rest, x);
      SampleAppend([m], rest, x);
      if x < rest[0].position {
        Level(p, rest[0], x);
        Level(m, rest[0], x);
      }
    }
  }

  lemma {:induction false} CutKeeps(cut: seq<Point>, rest: seq<Point>, s: real, x: real)
    requires cut != [] && Ordered(cut + rest) && Last(cut).position < s <= x
    requires rest != [] ==> s < rest[0].position
    ensures Sample([Point(s, Sample(cut + rest, s))] + rest, x) == Sample(cut + rest, x)
  {
    var m := Point(s, Sample(cut + rest, s));
    if rest == [] {
      assert cut + rest == cut && [m] + rest == [m];
      SampleAfterLast(cut, s);
      SampleAfterLast(cut, x);
    } else {
      SampleInserted(cut, rest, s, x);
      assert cut + ([m] + rest) == (cut + [m]) + rest;
      assert Last(cut + [m]) == m;
      SampleFromLast(cut + [m], rest, x);
    }
  }

  /** From an exact left edge on, the cut curve has the values of the curve. */
  lemma {:induction false} LeftEdgeKeeps(cut: seq<Point>, pulled: seq<Point>, rest: seq<Point>, s: real, v: real,
                                         x: real)
    requires LeftCase(cut, pulled, rest, s) && LeftExact(pulled, rest, s) && s <= x
    requires v == Sample(cut + (pulled + rest), s)
    ensures LeftEdge(cut, pulled, rest, s, v) + rest != []
    ensures Sample(LeftEdge(cut, pulled, rest, s, v) + rest, x) == Sample(cut + (pulled + rest), x)
  {
    LeftEdgeOrdered(cut, pulled, rest, s, v);
    if pulled != [] {
      PulledKeeps(cut, pulled, rest, s, x);
    } else {
      assert pulled + rest == rest;
      if cut == [] {
        assert cut + rest == rest && LeftEdge(cut, pulled, rest, s, v) + rest == rest;
      } else if rest == [] || s < rest[0].position {
        CutKeeps(cut, rest, s, x);
      } else {
        assert LeftEdge(cut, pulled, rest, s, v) + rest == rest;
        SampleAppend(cut, rest, x);
      }
    }
  }

  /** An inexact left edge is already wrong on the edge itself, whatever follows it. */
  lemma {:induction false} LeftEdgeBreaks(cut: seq<Point>, pulled: seq<Point>, rest: seq<Point>, s: real,
                                          after: seq<Point>)
    requires LeftCase(cut, pulled, rest, s) && !LeftExact(pulled, rest, s)
    requires Ordered(At(pulled, s) + after) && (after != [] ==> s < after[0].position)
    ensures Sample(At(pulled, s) + after, s) != Sample(cut + (pulled + rest), s)
  {
    var p, m := Last(pulled), Point(s, Last(pulled).value);
    SampleFromLast(At(pulled, s), after, s);
    assert Last(At(pulled, s)) == m;
    HeadWins(m, after);
    assert cut + (pulled + rest) == (cut + pulled) + rest;
    assert Last(cut + pulled) == p;
    SampleFromLast(cut + pulled, rest, s);
    SampleAppend([p], rest, s);
    Slanted(p, rest[0], s);
  }

  // ---------- The right edge ----------

  /** What stands at the right edge `e`: the points pulled onto it; or, when content
      was cut away, one point holding the value `v` cut through. */
  function RightEdge(pre: seq<Point>, pulled: seq<Point>, cut: seq<Point>, e: real, v: real): seq<Point> {
    if pulled != [] then At(pulled, e)
    else if cut != [] && (pre == [] || Last(pre).position < e) then [Point(e, v)]
    else []
  }

  /** Pulling points onto the right edge is harmless before it: there are none, or
      the curve is level from the point before them, unless that point is on the
      edge. */
  predicate LevelBefore(pre: seq<Point>, pulled: seq<Point>, e: real) {
    pulled != [] && pre != [] ==> Last(pre).position == e || pulled[0].value == Last(pre).value
  }

  /** And it is harmless on the edge too: the last of them has the value the curve
      has there. */
  predicate RightExact(pre: seq<Point>, pulled: seq<Point>, e: real) {
    && LevelBefore(pre, pulled, e)
    && (pulled != [] ==> Last(pulled).value == if pre == [] then pulled[0].value else Last(pre).value)
  }

  ghost predicate RightCase(pre: seq<Point>, pulled: seq<Point>, cut: seq<Point>, e: real) {
    && Ordered(pre + (pulled + cut)) && pre + (pulled + cut) != []
    && (pre != [] ==> Last(pre).position <= e)
    && (pulled + cut != [] ==> e < (pulled + cut)[0].position)
  }

  lemma {:induction false} RightEdgeOrdered(pre: seq<Point>, pulled: seq<Point>, cut: seq<Point>, e: real, v: real)
    requires RightCase(pre, pulled, cut, e)
    ensures Ordered(pre + RightEdge(pre, pulled, cut, e, v))
    ensures pre + RightEdge(pre, pulled, cut, e, v) != []
    ensures RightEdge(pre, pulled, cut, e, v) != [] ==> RightEdge(pre, pulled, cut, e, v)[0].position == e
  {
    OrderedAppend(pre, pulled + cut);
    AtOrdered(pulled, e);
    OrderedAppend(pre, RightEdge(pre, pulled, cut, e, v));
    if pulled == [] { assert pulled + cut == cut; }
  }

  lemma {:induction false} SampleAtEdge(pre: seq<Point>, tail: seq<Point>, e: real)
    requires Ordered(pre + tail) && tail != [] && e < tail[0].position
    requires pre != [] ==> Last(pre).position <= e
    ensures Sample(pre + tail, e) == if pre == [] then tail[0].value else Segment(Last(pre), tail[0], e)
  {
    if pre == [] {
      assert pre + tail == tail;
    } else {
      SampleAppend(pre, tail, e);
    }
  }

  lemma {:induction false} RightEdgeOnEdge(pre: seq<Point>, pulled: seq<Point>, cut: seq<Point>, e: real, v: real)
    requires RightCase(pre, pulled, cut, e) && RightExact(pre, pulled, e)
    requires v == Sample(pre + (pulled + cut), e)
    ensures pre + RightEdge(pre, pulled, cut, e, v) != []
    ensures Sample(pre + RightEdge(pre, pulled, cut, e, v), e) == v
  {
    RightEdgeOrdered(pre, pulled, cut, e, v);
    var edge, tail := RightEdge(pre, pulled, cut, e, v), pulled + cut;
    if tail == [] {
      assert pre + edge == pre + tail;
    } else {
      SampleAtEdge(pre, tail, e);
      if edge == [] {
        assert pre + edge == pre;
        SampleAfterLast(pre, e);
      } else {
        assert Last(pre + edge) == Last(edge);
        SampleAfterLast(pre + edge, e);
        if pulled != [] && pre != [] && pulled[0].value == Last(pre).value {
          Level(Last(pre), tail[0], e);
        }
      }
    }
  }

  lemma {:induction false} RightEdgeInside(pre: seq<Point>, pulled: seq<Point>, cut: seq<Point>, e: real, v: real,
                                           x: real)
    requires RightCase(pre, pulled, cut, e) && LevelBefore(pre, pulled, e)
    requires v == Sample(pre + (pulled + cut), e) && x < e
    ensures pre + RightEdge(pre, pulled, cut, e, v) != []
    ensures Sample(pre + RightEdge(pre, pulled, cut, e, v), x) == Sample(pre + (pulled + cut), x)
  {
    RightEdgeOrdered(pre, pulled, cut, e, v);
    var edge, tail := RightEdge(pre, pulled, cut, e, v), pulled + cut;
    if tail == [] {
      assert pre + edge == pre + tail;
    } else {
      SampleAtEdge(pre, tail, e);
      if pre == [] {
        assert pre + edge == edge && pre + tail == tail;
      } else {
        SampleAppend(pre, tail, x);
        if edge == [] {
          assert pre + edge == pre;
        } else {
          SampleAppend(pre, edge, x);
          if Last(pre).position <= x {
            if pulled != [] {
              Level(Last(pre), tail[0], x);
              Level(Last(pre), edge[0], x);
            } else {
              SegmentHead(Last(pre), tail[0], e, x);
            }
          }
        }
      }
    }
  }

  /** Up to an exact right edge, the cut curve has the values of the curve. */
  lemma {:induction false} RightEdgeKeeps(pre: seq<Point>, pulled: seq<Point>, cut: seq<Point>, e: real, v: real,
                                          x: real)
    requires RightCase(pre, pulled, cut, e) && RightExact(pre, pulled, e)
    requires v == Sample(pre + (pulled + cut), e) && x <= e
    ensures pre + RightEdge(pre, pulled, cut, e, v) != []
    ensures Sample(pre + RightEdge(pre, pulled, cut, e, v), x) == Sample(pre + (pulled + cut), x)
  {
    if x < e {
      RightEdgeInside(pre, pulled, cut, e, v, x);
    } else {
      RightEdgeOnEdge(pre, pulled, cut, e, v);
    }
  }

  /** When the curve is not level before the edge, it is wrong halfway from the point before it. */
  lemma SlopeBreaks(pre: seq<Point>, pulled: seq<Point>, cut: seq<Point>, e: real, v: real) returns (x: real)
    requires RightCase(pre, pulled, cut, e) && !LevelBefore(pre, pulled, e)
    ensures Last(pre).position < x < e
    ensures pre + RightEdge(pre, pulled, cut, e, v) != []
    ensures Sample(pre + RightEdge(pre, pulled, cut, e, v), x) != Sample(pre + (pulled + cut), x)
  {
    RightEdgeOrdered(pre, pulled, cut, e, v);
    var edge, tail := At(pulled, e), pulled + cut;
    var p, q := Last(pre), tail[0];
    x := (p.position + e) / 2.0;
    SampleAppend(pre, edge, x);
    SampleAppend(pre, tail, x);
    SlopesDiffer(p, q, edge[0], x);
  }

  /** An inexact right edge is wrong on the edge or halfway from the point before it. */
  lemma RightEdgeBreaks(pre: seq<Point>, pulled: seq<Point>, cut: seq<Point>, e: real, v: real) returns (x: real)
    requires RightCase(pre, pulled, cut, e) && !RightExact(pre, pulled, e)
    ensures x == e || (pre != [] && Last(pre).position < x < e)
    ensures pre + RightEdge(pre, pulled, cut, e, v) != []
    ensures Sample(pre + RightEdge(pre, pulled, cut, e, v), x) != Sample(pre + (pulled + cut), x)
  {
    if !LevelBefore(pre, pulled, e) {
      x := SlopeBreaks(pre, pulled, cut, e, v);
    } else {
      x := e;
      RightEdgeOrdered(pre, pulled, cut, e, v);
      var edge, tail := At(pulled, e), pulled + cut;
      SampleAtEdge(pre, tail, e);
      assert Last(pre + edge) == Last(edge);
      SampleAfterLast(pre + edge, e);
      if pre != [] && Last(pre).position < e { Level(Last(pre), tail[0], e); }
    }
  }
}
