/** Automation clips bound to one target, merged into a single curve. */
module Envelopes {
  import opened Options
  import opened Fractions
  import opened Curves
  import opened Edges
  import opened Crop

  // ---------- Windows ----------

  /** The part of a normalized value a binding uses: 0 lands on `low`, 1 on `high`. */
  datatype Window = Window(low: real, high: real)
  {
    function Apply(value: real): real {
      low + (high - low) * value
    }

    function ApplyToPoint(p: Point): Point {
      Point(p.position, Apply(p.value))
    }

    function ApplyToCurve(points: seq<Point>): (r: seq<Point>)
      ensures |r| == |points|
    {
      if points == [] then []
      else [ApplyToPoint(points[0])] + ApplyToCurve(points[1..])
    }
  }

  lemma SegmentWindowed(w: Window, a: Point, b: Point, x: real)
    requires a.position < b.position
    ensures Segment(Point(a.position, w.Apply(a.value)), Point(b.position, w.Apply(b.value)), x)
         == w.Apply(Segment(a, b, x))
  {
    var span, rise, run, dx := w.high - w.low, b.value - a.value, b.position - a.position, x - a.position;
    Distribute(b.value, -a.value, span);
    MulNegate'(a.value, span);
    Commute(span, b.value);
    Commute(span, a.value);
    assert w.Apply(b.value) - w.Apply(a.value) == rise * span;
    var k := rise / run;
    ScaledFraction(span, rise, run);
    assert (rise * span) / run == k * span by { ScaledRise(rise, span, run); }
    Associate(dx, k, span);
    Distribute(a.value, dx * k, span);
    Commute(span, a.value + dx * k);
  }

  lemma ScaledRise(rise: real, span: real, run: real)
    requires run != 0.0
    ensures (rise * span) / run == (rise / run) * span
  {
    var q, k := (rise * span) / run, rise / run;
    assert q * run == rise * span && k * run == rise;
    Associate(k, span, run);
    Commute(span, run);
    Associate(k, run, span);
    Cancel(q, k * span, run);
  }

  /** Looking through a window commutes with sampling. */
  lemma {:induction false} SampleWindowed(w: Window, ps: seq<Point>, x: real)
    requires ps != []
    ensures Sample(w.ApplyToCurve(ps), x) == w.Apply(Sample(ps, x))
  {
    var r := w.ApplyToCurve(ps);
    assert r[0] == Point(ps[0].position, w.Apply(ps[0].value));
    if |ps| > 1 && ps[0].position <= x {
      assert r[1..] == w.ApplyToCurve(ps[1..]);
      assert r[1] == Point(ps[1].position, w.Apply(ps[1].value));
      if ps[1].position <= x {
        SampleWindowed(w, ps[1..], x);
      } else {
        SegmentWindowed(w, ps[0], ps[1], x);
      }
    }
  }

  lemma {:induction false} WindowedCons(w: Window, p: Point, ps: seq<Point>)
    ensures w.ApplyToCurve([p] + ps) == [w.ApplyToPoint(p)] + w.ApplyToCurve(ps)
  {
    assert ([p] + ps)[1..] == ps;
  }

  lemma {:induction false} WindowedMoved(w: Window, ps: seq<Point>, shift: real, scale: real)
    ensures Moved(w.ApplyToCurve(ps), shift, scale) == w.ApplyToCurve(Moved(ps, shift, scale))
  {
    if ps != [] {
      var p, tail := ps[0], ps[1..];
      assert ps == [p] + tail;
      WindowedMoved(w, tail, shift, scale);
      WindowedCons(w, p, tail);
      MovedCons(w.ApplyToPoint(p), w.ApplyToCurve(tail), shift, scale);
      MovedCons(p, tail, shift, scale);
      WindowedCons(w, MovedPoint(p, shift, scale), Moved(tail, shift, scale));
      assert MovedPoint(w.ApplyToPoint(p), shift, scale) == w.ApplyToPoint(MovedPoint(p, shift, scale));
    }
  }

  // ---------- Pieces ----------

  /** A clip as one target sees it: its curve through the window of its binding. */
  datatype Piece = Piece(start: real, duration: real, points: seq<Point>)
  {
    function End(): real { start + duration }

    /** The curve in seconds. */
    function Timed(): (r: seq<Point>)
      ensures |r| == |points|
    {
      Moved(points, start, duration)
    }

    /** Positive duration, and an ordered curve with positions in 0..1. */
    ghost predicate Valid() {
      duration > 0.0 && Ordered(points) && PositionsWithin(points, 0.0, 1.0)
    }

    /** The value the clip gives at time `t`, held before its start and after its end. */
    function ValueAt(t: real): real
      requires points != [] && duration > 0.0
    {
      Sample(Timed(), Clamp(t, start, End()))
    }
  }

  lemma MovedInside(x: real, start: real, duration: real)
    requires 0.0 <= x <= 1.0 && 0.0 <= duration
    ensures start <= MovedTo(x, start, duration) <= start + duration
  {
    PartOf(x, duration);
    var step := x * duration;
    assert 0.0 <= step <= duration;
  }

  lemma {:induction false} TimedWithin(ps: seq<Point>, start: real, duration: real)
    requires duration > 0.0 && Ordered(ps) && PositionsWithin(ps, 0.0, 1.0)
    ensures Ordered(Moved(ps, start, duration))
    ensures PositionsWithin(Moved(ps, start, duration), start, start + duration)
  {
    if ps != [] {
      var first, tail := MovedPoint(ps[0], start, duration), Moved(ps[1..], start, duration);
      assert start <= first.position <= start + duration by { MovedInside(ps[0].position, start, duration); }
      TimedWithin(ps[1..], start, duration);
      MovedOrdered(ps, start, duration);
      assert Moved(ps, start, duration) == [first] + tail;
      assert PositionsWithin([first] + tail, start, start + duration);
    }
  }

  /** Sorted by start, each ending before the next starts. */
  ghost predicate Disjoint(pieces: seq<Piece>) {
    |pieces| < 2 || (pieces[0].End() <= pieces[1].start && Disjoint(pieces[1..]))
  }

  ghost predicate AllValid(pieces: seq<Piece>) {
    pieces == [] || (pieces[0].Valid() && AllValid(pieces[1..]))
  }

  ghost predicate Started(pieces: seq<Piece>, t: real) {
    exists p :: p in pieces && p.points != [] && p.start <= t
  }

  /** What the merged envelope is meant to give at `t`: the value of the last
      nonempty piece started by then, or of the first when none has. */
  ghost function ValueOf(pieces: seq<Piece>, t: real): Option<real>
    requires AllValid(pieces)
  {
    if pieces == [] then None
    else if pieces[0].points == [] || Started(pieces[1..], t) then ValueOf(pieces[1..], t)
    else Some(pieces[0].ValueAt(t))
  }

  // ---------- The merged points, in seconds ----------

  /** The points put before a piece that is not the first. */
  function Opening(p: Piece, first: bool, held: Option<real>): seq<Point>
    requires p.points != [] && p.duration > 0.0
  {
    if first then []
    else (if held.Some? then [Point(p.start, held.value)] else []) + [Point(p.start, SamplePoints(p.points, 0.0))]
  }

  /** The point put after a piece that is not the last. */
  function Closing(p: Piece, last: bool): seq<Point>
    requires p.points != []
  {
    if last then [] else [Point(p.End(), SamplePoints(p.points, 1.0))]
  }

  function Merged(pieces: seq<Piece>, first: bool, held: Option<real>): seq<Point>
    requires AllValid(pieces)
  {
    if pieces == [] then []
    else if pieces[0].points == [] then Merged(pieces[1..], false, held)
    else
      var p, last := pieces[0], |pieces| == 1;
      (Opening(p, first, held) + p.Timed() + Closing(p, last))
      + Merged(pieces[1..], false, if last then held else Some(SamplePoints(p.points, 1.0)))
  }

  // ---------- One piece among the merged points ----------

  lemma EndValues(p: Piece)
    requires p.Valid() && p.points != []
    ensures SamplePoints(p.points, 0.0) == Sample(p.Timed(), p.start)
    ensures SamplePoints(p.points, 1.0) == Sample(p.Timed(), p.End())
  {
    SearchAgreesWithWalk(p.points, 0.0);
    SearchAgreesWithWalk(p.points, 1.0);
    SampleMoved(p.points, 0.0, p.start, p.duration);
    SampleMoved(p.points, 1.0, p.start, p.duration);
  }

  /** A point before the curve holding the curve's value there changes no later sample. */
  lemma {:induction false} HeadHarmless(ps: seq<Point>, s: real, v: real, t: real)
    requires ps != [] && Ordered(ps) && s <= ps[0].position && s <= t && v == Sample(ps, s)
    ensures Ordered([Point(s, v)] + ps) && Sample([Point(s, v)] + ps, t) == Sample(ps, t)
  {
    OrderedAppend([Point(s, v)], ps);
    SampleAppend([Point(s, v)], ps, t);
    if t < ps[0].position { Level(Point(s, v), ps[0], t); }
  }

  /** A point after the curve holding the curve's last value changes no sample. */
  lemma {:induction false} TailHarmless(ps: seq<Point>, e: real, t: real)
    requires ps != [] && Ordered(ps) && Last(ps).position <= e
    ensures Ordered(ps + [Point(e, Last(ps).value)])
    ensures Sample(ps + [Point(e, Last(ps).value)], t) == Sample(ps, t)
  {
    var m := Point(e, Last(ps).value);
    OrderedAppend(ps, [m]);
    SampleAppend(ps, [m], t);
    if Last(ps).position <= t {
      SampleAfterLast(ps, t);
      if t < e { Level(Last(ps), m, t); }
    }
  }

  lemma {:induction false} ValueFromStart(p: Piece, t: real)
    requires p.Valid() && p.points != [] && p.start <= t
    ensures p.ValueAt(t) == Sample(p.Timed(), t)
  {
    if p.End() < t {
      TimedWithin(p.points, p.start, p.duration);
      SampleAfterLast(p.Timed(), t);
      SampleAfterLast(p.Timed(), p.End());
    }
  }

  /** The points one piece adds. */
  function Own(p: Piece, first: bool, held: Option<real>, last: bool): seq<Point>
    requires p.points != [] && p.duration > 0.0
  {
    Opening(p, first, held) + p.Timed() + Closing(p, last)
  }

  lemma {:induction false} Closed(p: Piece, last: bool, t: real)
    requires p.Valid() && p.points != []
    ensures p.Timed() + Closing(p, last) != [] && Ordered(p.Timed() + Closing(p, last))
    ensures (p.Timed() + Closing(p, last))[0] == p.Timed()[0]
    ensures Sample(p.Timed() + Closing(p, last), t) == Sample(p.Timed(), t)
    ensures Last(p.Timed() + Closing(p, last)).position <= p.End()
    ensures !last ==> Last(p.Timed() + Closing(p, last)) == Point(p.End(), SamplePoints(p.points, 1.0))
  {
    TimedWithin(p.points, p.start, p.duration);
    EndValues(p);
    var ps := p.Timed();
    SampleAfterLast(ps, p.End());
    if last {
      assert ps + Closing(p, last) == ps;
    } else {
      TailHarmless(ps, p.End(), t);
    }
  }

  /** The points a piece opens with, before its closed points. */
  lemma {:induction false} OpeningHarmless(p: Piece, held: Option<real>, closed: seq<Point>, m: Point, t: real)
    requires p.points != [] && p.duration > 0.0 && m == Point(p.start, SamplePoints(p.points, 0.0))
    requires closed != [] && Ordered(closed) && p.start <= closed[0].position && p.start <= t
    requires Sample(closed, p.start) == m.value
    ensures Ordered(Opening(p, false, held) + closed)
    ensures Sample(Opening(p, false, held) + closed, t) == Sample(closed, t)
  {
    var opening := Opening(p, false, held);
    assert Last(opening) == m;
    HeadHarmless(closed, p.start, m.value, t);
    OrderedAppend([m], closed);
    OrderedAppend(opening, closed);
    SampleFromLast(opening, closed, t);
  }

  /** From its start on, a piece's own points give its value. */
  lemma {:induction false} OwnGivesValue(p: Piece, first: bool, held: Option<real>, last: bool, t: real)
    requires p.Valid() && p.points != []
    ensures Own(p, first, held, last) != [] && Ordered(Own(p, first, held, last))
    ensures p.start <= t ==> Sample(Own(p, first, held, last), t) == p.ValueAt(t)
    ensures p.start <= Own(p, first, held, last)[0].position
    ensures Last(Own(p, first, held, last)) == Last(p.Timed() + Closing(p, last))
    ensures !first ==> Own(p, first, held, last)[0].position == p.start
    ensures !first && held.Some? ==> Own(p, first, held, last)[0].value == held.value
  {
    Closed(p, last, t);
    Closed(p, last, p.start);
    TimedWithin(p.points, p.start, p.duration);
    EndValues(p);
    var closed, opening := p.Timed() + Closing(p, last), Opening(p, first, held);
    var m := Point(p.start, SamplePoints(p.points, 0.0));
    assert Own(p, first, held, last) == opening + closed;
    if p.start <= t { ValueFromStart(p, t); }
    if first {
      assert opening + closed == closed;
    } else {
      OpeningHarmless(p, held, closed, m, if p.start <= t then t else p.start);
    }
  }

  // ---------- The merged points give the envelope ----------

  ghost predicate HasCurve(pieces: seq<Piece>) {
    pieces != [] && (pieces[0].points != [] || HasCurve(pieces[1..]))
  }

  /** When the first nonempty piece starts. */
  ghost function FirstStart(pieces: seq<Piece>): real
    requires HasCurve(pieces)
  {
    if pieces[0].points != [] then pieces[0].start else FirstStart(pieces[1..])
  }

  /** When the last piece ends. */
  ghost function LastEnd(pieces: seq<Piece>): real
    requires pieces != []
  {
    if |pieces| == 1 then pieces[0].End() else LastEnd(pieces[1..])
  }

  lemma {:induction false} StartedIff(pieces: seq<Piece>, t: real)
    requires AllValid(pieces) && Disjoint(pieces)
    ensures Started(pieces, t) <==> HasCurve(pieces) && FirstStart(pieces) <= t
    ensures HasCurve(pieces) ==> pieces[0].start <= FirstStart(pieces)
  {
    if pieces != [] {
      var p, rest := pieces[0], pieces[1..];
      StartedIff(rest, t);
      assert pieces == [p] + rest;
      if Started(rest, t) {
        var q :| q in rest && q.points != [] && q.start <= t;
        assert q in pieces;
      }
      if HasCurve(pieces) && FirstStart(pieces) <= t && p.points != [] { assert p in pieces; }
    }
  }

  lemma {:induction false} StartsAndEnds(pieces: seq<Piece>)
    requires AllValid(pieces) && Disjoint(pieces) && pieces != []
    ensures pieces[0].End() <= LastEnd(pieces)
    ensures |pieces| > 1 ==> pieces[0].End() <= pieces[1].start && LastEnd(pieces) == LastEnd(pieces[1..])
  {
    if |pieces| > 1 { StartsAndEnds(pieces[1..]); }
  }

  /** The value between the end of one piece and the start of the next is held. */
  lemma {:induction false} HeldAcross(own: seq<Point>, next: seq<Point>, t: real)
    requires own != [] && next != [] && Ordered(own + next)
    requires next[0].value == Last(own).value && t < next[0].position
    ensures Sample(own + next, t) == Sample(own, t)
  {
    OrderedAppend(own, next);
    SampleAppend(own, next, t);
    if Last(own).position <= t {
      SampleAfterLast(own, t);
      Level(Last(own), next[0], t);
    }
  }

  lemma {:induction false} MergedShape(pieces: seq<Piece>, first: bool, held: Option<real>)
    requires AllValid(pieces) && Disjoint(pieces)
    ensures Merged(pieces, first, held) != [] <==> HasCurve(pieces)
    ensures Ordered(Merged(pieces, first, held))
    ensures HasCurve(pieces) ==> FirstStart(pieces) <= Merged(pieces, first, held)[0].position
    ensures HasCurve(pieces) ==> Last(Merged(pieces, first, held)).position <= LastEnd(pieces)
    ensures HasCurve(pieces) && !first ==> Merged(pieces, first, held)[0].position == FirstStart(pieces)
    ensures HasCurve(pieces) && !first && held.Some? ==> Merged(pieces, first, held)[0].value == held.value
  {
    if pieces != [] {
      var p, rest, last := pieces[0], pieces[1..], |pieces| == 1;
      StartsAndEnds(pieces);
      if p.points == [] {
        MergedShape(rest, false, held);
      } else {
        var held' := if last then held else Some(SamplePoints(p.points, 1.0));
        var own, next := Own(p, first, held, last), Merged(rest, false, held');
        MergedShape(rest, false, held');
        OwnGivesValue(p, first, held, last, p.start);
        Closed(p, last, p.start);
        StartedIff(rest, p.start);
        OrderedAppend(own, next);
        assert Merged(pieces, first, held) == own + next;
        if next == [] {
          assert own + next == own;
        } else {
          assert Last(own + next) == Last(next);
        }
      }
    }
  }

  /** From the first nonempty piece on, the merged points give the envelope's value. */
  lemma {:induction false} MergedGives(pieces: seq<Piece>, first: bool, held: Option<real>, t: real)
    requires AllValid(pieces) && Disjoint(pieces)
    requires HasCurve(pieces) && FirstStart(pieces) <= t
    ensures Merged(pieces, first, held) != []
    ensures ValueOf(pieces, t) == Some(Sample(Merged(pieces, first, held), t))
  {
    var p, rest, last := pieces[0], pieces[1..], |pieces| == 1;
    MergedShape(pieces, first, held);
    if p.points == [] {
      MergedGives(rest, false, held, t);
    } else {
      var held' := if last then held else Some(SamplePoints(p.points, 1.0));
      var own, next := Own(p, first, held, last), Merged(rest, false, held');
      assert Merged(pieces, first, held) == own + next;
      MergedShape(rest, false, held');
      OwnGivesValue(p, first, held, last, t);
      StartedIff(rest, t);
      if next == [] {
        assert own + next == own;
      } else {
        Closed(p, last, t);
        if FirstStart(rest) <= t {
          OrderedAppend(own, next);
          SampleAppend(own, next, t);
          MergedGives(rest, false, held', t);
        } else {
          HeldAcross(own, next, t);
        }
      }
    }
  }

  /** Before the first nonempty piece, when it is not the first piece, its first value is held. */
  lemma {:induction false} MergedBefore(pieces: seq<Piece>, first: bool, t: real)
    requires AllValid(pieces) && Disjoint(pieces) && HasCurve(pieces) && t < FirstStart(pieces)
    requires first ==> pieces[0].points == []
    ensures Merged(pieces, first, None) != []
    ensures ValueOf(pieces, t) == Some(Sample(Merged(pieces, first, None), t))
  {
    var p, rest, last := pieces[0], pieces[1..], |pieces| == 1;
    MergedShape(pieces, first, None);
    if p.points == [] {
      MergedBefore(rest, false, t);
    } else {
      var m := Merged(pieces, first, None);
      StartedIff(rest, t);
      if HasCurve(rest) { StartsAndEnds(pieces); }
      EndValues(p);
      assert m[0] == Point(p.start, SamplePoints(p.points, 0.0));
    }
  }
}
