/** The area under a curve: a walk over its segments, and a search in a table of
    areas filled beforehand. Arithmetic is uninterpreted: the two perform the same
    operations in the same order, so they agree to the last bit. */
module Areas {
  import opened Fractions
  import Curves

  /** Numbers with their operations and comparison, none of them interpreted. */
  datatype Arithmetic<!N> = Arithmetic(zero: N, half: N, add: (N, N) -> N, sub: (N, N) -> N,
                                       mul: (N, N) -> N, div: (N, N) -> N, atMost: (N, N) -> bool)
  {
    /** Any two numbers compare: NaN is not among them. */
    predicate Less(a: N, b: N) { !atMost(b, a) }
  }

  ghost predicate Transitive<N(!new)>(ar: Arithmetic<N>) {
    forall a, b, c :: ar.atMost(a, b) && ar.atMost(b, c) ==> ar.atMost(a, c)
  }

  datatype Knot<N> = Knot(position: N, value: N)

  ghost predicate Ordered<N(!new)>(ar: Arithmetic<N>, ps: seq<Knot<N>>) {
    forall i, j :: 0 <= i <= j < |ps| ==> ar.atMost(ps[i].position, ps[j].position)
  }

  // ---------- What both forms compute ----------

  /** The area under the whole segment from `a` to `b`. */
  function Strip<N>(ar: Arithmetic<N>, a: Knot<N>, b: Knot<N>): N {
    ar.mul(ar.mul(ar.sub(b.position, a.position), ar.add(a.value, b.value)), ar.half)
  }

  /** The area under the segment from `a` to `b`, up to `x` inside it. */
  function PartialStrip<N>(ar: Arithmetic<N>, a: Knot<N>, b: Knot<N>, x: N): N {
    var fraction := ar.div(ar.sub(x, a.position), ar.sub(b.position, a.position));
    var value := ar.add(a.value, ar.mul(ar.sub(b.value, a.value), fraction));
    ar.mul(ar.mul(ar.sub(x, a.position), ar.add(a.value, value)), ar.half)
  }

  /** The area of a held value from the knot's position to `x`. */
  function Held<N>(ar: Arithmetic<N>, p: Knot<N>, x: N): N {
    ar.mul(ar.sub(x, p.position), p.value)
  }

  /** The area from the first point to point `k`. */
  function Prefix<N>(ar: Arithmetic<N>, ps: seq<Knot<N>>, k: nat): N
    requires k < |ps|
  {
    if k == 0 then ar.zero else ar.add(Prefix(ar, ps, k - 1), Strip(ar, ps[k - 1], ps[k]))
  }

  /** `k` is the segment that holds `x`: the number of points after the first that are
      not past it. */
  ghost predicate Holds<N>(ar: Arithmetic<N>, ps: seq<Knot<N>>, x: N, k: nat) {
    && k < |ps|
    && (forall i :: 0 < i <= k ==> ar.atMost(ps[i].position, x))
    && (k + 1 < |ps| ==> !ar.atMost(ps[k + 1].position, x))
  }

  function AreaIn<N>(ar: Arithmetic<N>, ps: seq<Knot<N>>, x: N, k: nat): N
    requires k < |ps|
  {
    if k + 1 < |ps| then ar.add(Prefix(ar, ps, k), PartialStrip(ar, ps[k], ps[k + 1], x))
    else ar.add(Prefix(ar, ps, k), Held(ar, ps[k], x))
  }

  /** `r` is the area from the first point to `x`. */
  ghost predicate IsArea<N>(ar: Arithmetic<N>, ps: seq<Knot<N>>, x: N, r: N)
    requires ps != []
  {
    if ar.atMost(x, ps[0].position) then r == Held(ar, ps[0], x)
    else exists k: nat :: Holds(ar, ps, x, k) && r == AreaIn(ar, ps, x, k)
  }

  lemma AreaIsUnique<N>(ar: Arithmetic<N>, ps: seq<Knot<N>>, x: N, r: N, q: N)
    requires ps != [] && IsArea(ar, ps, x, r) && IsArea(ar, ps, x, q)
    ensures r == q
  {
    if !ar.atMost(x, ps[0].position) {
      var j: nat :| Holds(ar, ps, x, j) && r == AreaIn(ar, ps, x, j);
      var k: nat :| Holds(ar, ps, x, k) && q == AreaIn(ar, ps, x, k);
      assert j == k;
    }
  }

  // ---------- The walk ----------

  method AreaFromStart<N(!new)>(ar: Arithmetic<N>, ps: seq<Knot<N>>, x: N) returns (r: N)
    requires ps != []
    ensures IsArea(ar, ps, x, r)
  {
    if ar.atMost(x, ps[0].position) {
      return Held(ar, ps[0], x);
    }
    var area, i := ar.zero, 0;
    while i + 1 < |ps|
      invariant 0 <= i < |ps|
      invariant area == Prefix(ar, ps, i)
      invariant forall k :: 0 < k <= i ==> ar.atMost(ps[k].position, x)
    {
      var start, finish := ps[i], ps[i + 1];
      if ar.Less(x, finish.position) {
        assert Holds(ar, ps, x, i);
        return ar.add(area, PartialStrip(ar, start, finish, x));
      }
      area := ar.add(area, Strip(ar, start, finish));
      i := i + 1;
    }
    assert Holds(ar, ps, x, i);
    r := ar.add(area, Held(ar, ps[|ps| - 1], x));
  }

  // ---------- The table ----------

  /** The first `n` entries are the areas of the first `n` points. */
  ghost predicate Filled<N>(ar: Arithmetic<N>, ps: seq<Knot<N>>, areas: seq<N>, n: nat) {
    n <= |areas| && n <= |ps| && forall k :: 0 <= k < n ==> areas[k] == Prefix(ar, ps, k)
  }

  lemma FilledOneMore<N>(ar: Arithmetic<N>, ps: seq<Knot<N>>, areas: seq<N>, n: nat, area: N)
    requires Filled(ar, ps, areas, n) && n < |areas| && n < |ps| && area == Prefix(ar, ps, n)
    ensures Filled(ar, ps, areas[n := area], n + 1)
    ensures n + 1 < |ps| ==> ar.add(area, Strip(ar, ps[n], ps[n + 1])) == Prefix(ar, ps, n + 1)
  {
  }

  /** Each point's area from the first point, as far as the table goes. */
  method PrefixAreas<N>(ar: Arithmetic<N>, ps: seq<Knot<N>>, areas: array<N>)
    modifies areas
    ensures Filled(ar, ps, areas[..], if areas.Length < |ps| then areas.Length else |ps|)
    ensures forall k :: |ps| <= k < areas.Length ==> areas[k] == old(areas[k])
  {
    var area, i := ar.zero, 0;
    while i < areas.Length && i < |ps|
      invariant i <= areas.Length && Filled(ar, ps, areas[..], i)
      invariant i < |ps| ==> area == Prefix(ar, ps, i)
      invariant forall k :: i <= k < areas.Length ==> areas[k] == old(areas[k])
    {
      FilledOneMore(ar, ps, areas[..], i, area);
      ghost var before := areas[..];
      areas[i] := area;
      assert areas[..] == before[i := area];
      if i + 1 < |ps| {
        area := ar.add(area, Strip(ar, ps[i], ps[i + 1]));
      }
      i := i + 1;
    }
  }

  /** A binary search for the segment that holds `x`. */
  method FindSegment<N(!new)>(ar: Arithmetic<N>, ps: seq<Knot<N>>, x: N) returns (k: nat)
    requires ps != [] && Ordered(ar, ps) && Transitive(ar)
    ensures Holds(ar, ps, x, k)
  {
    var low, high := 1, |ps|;
    while low < high
      invariant 1 <= low <= high <= |ps|
      invariant forall i :: 0 < i < low ==> ar.atMost(ps[i].position, x)
      invariant forall i :: high <= i < |ps| ==> !ar.atMost(ps[i].position, x)
    {
      var middle := (low + high) / 2;
      if ar.atMost(ps[middle].position, x) {
        low := middle + 1;
      } else {
        forall i | middle <= i < |ps| ensures !ar.atMost(ps[i].position, x) {
          assert ar.atMost(ps[middle].position, ps[i].position);
        }
        high := middle;
      }
    }
    k := low - 1;
  }

  method AreaFromTable<N(!new)>(ar: Arithmetic<N>, ps: seq<Knot<N>>, areas: array<N>, x: N) returns (r: N)
    requires ps != [] && Ordered(ar, ps) && Transitive(ar) && Filled(ar, ps, areas[..], |ps|)
    ensures IsArea(ar, ps, x, r)
  {
    if ar.atMost(x, ps[0].position) {
      return Held(ar, ps[0], x);
    }
    var segment := FindSegment(ar, ps, x);
    assert areas[..][segment] == areas[segment] == Prefix(ar, ps, segment);
    if segment + 1 < |ps| {
      return ar.add(areas[segment], PartialStrip(ar, ps[segment], ps[segment + 1], x));
    }
    r := ar.add(areas[|ps| - 1], Held(ar, ps[|ps| - 1], x));
  }

  /** `r` is the area under the curve from position 0 to `x`. */
  ghost predicate IsIntegral<N(!new)>(ar: Arithmetic<N>, ps: seq<Knot<N>>, x: N, r: N)
    requires ps != []
  {
    exists a, b :: IsArea(ar, ps, x, a) && IsArea(ar, ps, ar.zero, b) && r == ar.sub(a, b)
  }

  lemma IntegralIsUnique<N(!new)>(ar: Arithmetic<N>, ps: seq<Knot<N>>, x: N, r: N, q: N)
    requires ps != [] && IsIntegral(ar, ps, x, r) && IsIntegral(ar, ps, x, q)
    ensures r == q
  {
    var a, b :| IsArea(ar, ps, x, a) && IsArea(ar, ps, ar.zero, b) && r == ar.sub(a, b);
    var c, d :| IsArea(ar, ps, x, c) && IsArea(ar, ps, ar.zero, d) && q == ar.sub(c, d);
    AreaIsUnique(ar, ps, x, a, c);
    AreaIsUnique(ar, ps, ar.zero, b, d);
  }

  /** The walk's integral: one pass to the position, one to the start. */
  method Integral<N(!new)>(ar: Arithmetic<N>, ps: seq<Knot<N>>, x: N) returns (r: N)
    requires ps != []
    ensures IsIntegral(ar, ps, x, r)
    ensures forall q :: IsIntegral(ar, ps, x, q) ==> q == r
  {
    var to := AreaFromStart(ar, ps, x);
    var from := AreaFromStart(ar, ps, ar.zero);
    r := ar.sub(to, from);
    forall q | IsIntegral(ar, ps, x, q) ensures q == r { IntegralIsUnique(ar, ps, x, q, r); }
  }

  /** The table gives the one value the walk gives, for every ordered list of points and
      every position. */
  method IntegralTable<N(!new)>(ar: Arithmetic<N>, ps: seq<Knot<N>>, areas: array<N>, x: N) returns (r: N)
    requires ps != [] && Ordered(ar, ps) && Transitive(ar) && Filled(ar, ps, areas[..], |ps|)
    ensures IsIntegral(ar, ps, x, r)
    ensures forall q :: IsIntegral(ar, ps, x, q) ==> q == r
  {
    var to := AreaFromTable(ar, ps, areas, x);
    var from := AreaFromTable(ar, ps, areas, ar.zero);
    r := ar.sub(to, from);
    forall q | IsIntegral(ar, ps, x, q) ensures q == r { IntegralIsUnique(ar, ps, x, q, r); }
  }

  // ---------- Over the reals, the area is that of the sampled curve ----------

  function Divide(a: real, b: real): real { if b == 0.0 then 0.0 else a / b }

  function Reals(): Arithmetic<real> {
    Arithmetic(0.0, 0.5, (a: real, b: real) => a + b, (a: real, b: real) => a - b,
               (a: real, b: real) => a * b, Divide, (a: real, b: real) => a <= b)
  }

  function PointOf(p: Knot<real>): Curves.Point { Curves.Point(p.position, p.value) }

  /** The area between two positions under a line that goes from `u` to `v`. */
  function Under(x: real, y: real, u: real, v: real): real {
    (y - x) * (u + v) * 0.5
  }

  /** Between two positions of one segment the area grows by the trapezoid under the
      sampled line. */
  lemma StripGrows(a: Knot<real>, b: Knot<real>, x: real, y: real)
    requires a.position < b.position
    ensures PartialStrip(Reals(), a, b, y) - PartialStrip(Reals(), a, b, x)
         == Under(x, y, Curves.Segment(PointOf(a), PointOf(b), x), Curves.Segment(PointOf(a), PointOf(b), y))
  {
    var slope := (b.value - a.value) / (b.position - a.position);
    PartialStripIs(a, b, x, slope);
    PartialStripIs(a, b, y, slope);
    Trapezoid(x - a.position, y - a.position, a.value, slope);
  }

  lemma PartialStripIs(a: Knot<real>, b: Knot<real>, x: real, slope: real)
    requires a.position < b.position && slope == (b.value - a.value) / (b.position - a.position)
    ensures PartialStrip(Reals(), a, b, x)
         == (x - a.position) * (a.value + (a.value + (x - a.position) * slope)) * 0.5
  {
    var dx, dv, dp := x - a.position, b.value - a.value, b.position - a.position;
    var fraction := dx / dp;
    ScaledFraction(dv, dx, dp);
    assert dv * fraction == slope * dx;
    Commute(slope, dx);
  }

  lemma Trapezoid(u: real, w: real, v: real, m: real)
    ensures w * (v + (v + w * m)) * 0.5 - u * (v + (v + u * m)) * 0.5
         == (w - u) * ((v + u * m) + (v + w * m)) * 0.5
  {
    var um, wm := u * m, w * m;
    assert u * wm == w * um by { Associate(u, w, m); Associate(w, u, m); Commute(u, w); }
    Distribute(w, -u, 2.0 * v + um + wm);
  }

  /** At its end a segment has contributed its whole strip. */
  lemma StripCompletes(a: Knot<real>, b: Knot<real>)
    requires a.position < b.position
    ensures PartialStrip(Reals(), a, b, b.position) == Strip(Reals(), a, b)
    ensures PartialStrip(Reals(), a, b, a.position) == 0.0
  {
    var dv, dp := b.value - a.value, b.position - a.position;
    PartialStripIs(a, b, b.position, dv / dp);
    PartialStripIs(a, b, a.position, dv / dp);
    Commute(dp, dv / dp);
    assert dv / dp * dp == dv;
  }

  function PointsOf(ps: seq<Knot<real>>): (r: seq<Curves.Point>)
    ensures |r| == |ps|
  {
    if ps == [] then [] else [PointOf(ps[0])] + PointsOf(ps[1..])
  }

  /** The segment that holds `x`. */
  function SegmentOf(ps: seq<Knot<real>>, x: real): (k: nat)
    requires ps != []
    ensures k < |ps|
  {
    if |ps| == 1 || x < ps[1].position then 0 else 1 + SegmentOf(ps[1..], x)
  }

  lemma {:induction false} SegmentHolds(ps: seq<Knot<real>>, x: real)
    requires ps != []
    ensures Holds(Reals(), ps, x, SegmentOf(ps, x))
  {
    if |ps| > 1 && ps[1].position <= x {
      SegmentHolds(ps[1..], x);
      var k := SegmentOf(ps, x);
      forall i | 1 < i <= k ensures ps[i].position <= x {
        assert ps[1..][i - 1] == ps[i] && Reals().atMost(ps[1..][i - 1].position, x);
      }
      if k + 1 < |ps| { assert ps[1..][k] == ps[k + 1]; }
    }
  }

  /** The area under the curve from its first point to `x`. */
  function Area(ps: seq<Knot<real>>, x: real): real
    requires ps != []
  {
    if x <= ps[0].position then Held(Reals(), ps[0], x) else AreaIn(Reals(), ps, x, SegmentOf(ps, x))
  }

  /** It is what the walk and the table compute, over the reals. */
  lemma IsAreaIff(ps: seq<Knot<real>>, x: real, r: real)
    requires ps != []
    ensures IsArea(Reals(), ps, x, r) <==> r == Area(ps, x)
  {
    SegmentHolds(ps, x);
    assert IsArea(Reals(), ps, x, Area(ps, x));
    if IsArea(Reals(), ps, x, r) { AreaIsUnique(Reals(), ps, x, r, Area(ps, x)); }
  }

  lemma PositionsRise(ps: seq<Knot<real>>, i: nat, j: nat)
    requires Ordered(Reals(), ps) && i <= j < |ps|
    ensures ps[i].position <= ps[j].position
  {
    assert Reals().atMost(ps[i].position, ps[j].position);
  }

  /** The segment found is the one whose points are at or before `x` up to its first, and
      after it from its second on. */
  lemma {:induction false} SegmentIff(ps: seq<Knot<real>>, x: real, j: nat)
    requires Ordered(Reals(), ps) && 0 < j < |ps|
    ensures j <= SegmentOf(ps, x) <==> ps[j].position <= x
  {
    var k := SegmentOf(ps, x);
    SegmentHolds(ps, x);
    if j <= k { assert Reals().atMost(ps[j].position, x); }
    if k < j { PositionsRise(ps, k + 1, j); }
  }

  /** The line of segment `k` at `x`, held after the last point. */
  function ValueIn(ps: seq<Knot<real>>, k: nat, x: real): real
    requires k < |ps| && (k + 1 < |ps| ==> ps[k].position < ps[k + 1].position)
  {
    if k + 1 < |ps| then Curves.Segment(PointOf(ps[k]), PointOf(ps[k + 1]), x) else ps[k].value
  }

  /** What the curve samples as from its first point on. */
  lemma {:induction false} SampleIs(ps: seq<Knot<real>>, x: real)
    requires ps != [] && ps[0].position <= x
    ensures SegmentOf(ps, x) + 1 < |ps| ==> ps[SegmentOf(ps, x)].position <= x < ps[SegmentOf(ps, x) + 1].position
    ensures Curves.Sample(PointsOf(ps), x) == ValueIn(ps, SegmentOf(ps, x), x)
  {
    if |ps| > 1 {
      assert PointsOf(ps)[1..] == PointsOf(ps[1..]);
      assert PointsOf(ps)[1] == PointOf(ps[1]);
      if ps[1].position <= x { SampleIs(ps[1..], x); }
    }
  }

  lemma HeldGrows(p: Knot<real>, x: real, y: real)
    ensures Held(Reals(), p, y) - Held(Reals(), p, x) == Under(x, y, p.value, p.value)
  {
    Distribute(y - p.position, -(x - p.position), p.value);
    MulNegate'(x - p.position, p.value);
  }

  lemma AreaInGrows(ps: seq<Knot<real>>, k: nat, x: real, y: real)
    requires k < |ps| && (k + 1 < |ps| ==> ps[k].position < ps[k + 1].position)
    ensures AreaIn(Reals(), ps, y, k) - AreaIn(Reals(), ps, x, k) == Under(x, y, ValueIn(ps, k, x), ValueIn(ps, k, y))
  {
    if k + 1 < |ps| { StripGrows(ps[k], ps[k + 1], x, y); } else { HeldGrows(ps[k], x, y); }
  }

  /** Coincident points add nothing. */
  lemma {:induction false} PrefixFlat(ps: seq<Knot<real>>, i: nat, k: nat)
    requires i <= k < |ps| && forall j :: i <= j <= k ==> ps[j].position == ps[i].position
    ensures Prefix(Reals(), ps, k) == Prefix(Reals(), ps, i)
    decreases k
  {
    if i < k { PrefixFlat(ps, i, k - 1); }
  }

  /** What the segment found adds at its own start: nothing. */
  lemma AreaInAtStart(ps: seq<Knot<real>>, k: nat)
    requires k < |ps| && (k + 1 < |ps| ==> ps[k].position < ps[k + 1].position)
    ensures AreaIn(Reals(), ps, ps[k].position, k) == Prefix(Reals(), ps, k)
  {
    if k + 1 < |ps| { StripCompletes(ps[k], ps[k + 1]); }
  }

  /** At the position of point `i`, once it is passed, the area is that up to the point. */
  lemma {:induction false} AreaInAtPoint(ps: seq<Knot<real>>, i: nat)
    requires Ordered(Reals(), ps) && i < |ps|
    ensures i <= SegmentOf(ps, ps[i].position)
    ensures AreaIn(Reals(), ps, ps[i].position, SegmentOf(ps, ps[i].position)) == Prefix(Reals(), ps, i)
  {
    var x := ps[i].position;
    var k := SegmentOf(ps, x);
    forall j: nat | 0 < j < |ps| ensures j <= k <==> ps[j].position <= x { SegmentIff(ps, x, j); }
    forall j | i <= j <= k ensures ps[j].position == x { PositionsRise(ps, i, j); }
    PrefixFlat(ps, i, k);
    AreaInAtStart(ps, k);
  }

  /** The area from the first point on, the point itself included. */
  lemma {:induction false} AreaIs(ps: seq<Knot<real>>, x: real)
    requires ps != [] && Ordered(Reals(), ps) && ps[0].position <= x
    ensures Area(ps, x) == AreaIn(Reals(), ps, x, SegmentOf(ps, x))
  {
    AreaInAtPoint(ps, 0);
  }

  /** From `x` to `y` no point is reached. */
  predicate InOneSegment(ps: seq<Knot<real>>, x: real, y: real)
    requires ps != []
  {
    x <= y && (y < ps[0].position || (ps[0].position <= x && SegmentOf(ps, x) == SegmentOf(ps, y)))
  }

  /** Within a segment, before the first point and after the last, the area grows by the
      trapezoid under the sampled curve. */
  lemma {:induction false} AreaGrows(ps: seq<Knot<real>>, x: real, y: real)
    requires ps != [] && Ordered(Reals(), ps) && InOneSegment(ps, x, y)
    ensures Area(ps, y) - Area(ps, x) == Under(x, y, Curves.Sample(PointsOf(ps), x), Curves.Sample(PointsOf(ps), y))
  {
    if y < ps[0].position {
      HeldGrows(ps[0], x, y);
    } else {
      SampleIs(ps, x);
      SampleIs(ps, y);
      AreaIs(ps, x);
      AreaIs(ps, y);
      AreaInGrows(ps, SegmentOf(ps, x), x, y);
    }
  }

  /** The next point after `x`. */
  predicate IsNext(ps: seq<Knot<real>>, x: real, i: nat)
    requires ps != []
  {
    i < |ps| && if x < ps[0].position then i == 0 else i == SegmentOf(ps, x) + 1
  }

  lemma LineEnds(a: Knot<real>, b: Knot<real>)
    requires a.position < b.position
    ensures Curves.Segment(PointOf(a), PointOf(b), b.position) == b.value
  {
    var dv, dp := b.value - a.value, b.position - a.position;
    Commute(dp, dv / dp);
    assert dv / dp * dp == dv;
  }

  /** A segment ends with the area up to the point after it. */
  lemma AreaInAtEnd(ps: seq<Knot<real>>, i: nat)
    requires 0 < i < |ps| && ps[i - 1].position < ps[i].position
    ensures AreaIn(Reals(), ps, ps[i].position, i - 1) == Prefix(Reals(), ps, i)
    ensures ValueIn(ps, i - 1, ps[i].position) == ps[i].value
  {
    StripCompletes(ps[i - 1], ps[i]);
    LineEnds(ps[i - 1], ps[i]);
  }

  /** Up to the next point, too, though the curve may step there: the area has no jump. */
  lemma {:induction false} AreaReaches(ps: seq<Knot<real>>, x: real, i: nat)
    requires ps != [] && Ordered(Reals(), ps) && IsNext(ps, x, i)
    ensures x < ps[i].position
    ensures Area(ps, ps[i].position) - Area(ps, x)
         == Under(x, ps[i].position, Curves.Sample(PointsOf(ps), x), ps[i].value)
  {
    if x < ps[0].position {
      HeldGrows(ps[0], x, ps[0].position);
    } else {
      SampleIs(ps, x);
      AreaIs(ps, x);
      PositionsRise(ps, 0, i);
      AreaIs(ps, ps[i].position);
      AreaInAtPoint(ps, i);
      AreaInAtEnd(ps, i);
      AreaInGrows(ps, i - 1, x, ps[i].position);
    }
  }

  lemma {:induction false} ValuesOfPoints(ps: seq<Knot<real>>, lo: real, hi: real)
    requires forall i :: 0 <= i < |ps| ==> lo <= ps[i].value <= hi
    ensures Curves.ValuesWithin(PointsOf(ps), lo, hi)
  {
    if ps != [] { ValuesOfPoints(ps[1..], lo, hi); }
  }

  /** The difference lies within the rates over the distance. */
  predicate Bounded(x: real, y: real, difference: real, lo: real, hi: real) {
    lo * (y - x) <= difference <= hi * (y - x)
  }

  lemma RateWithin(d: real, m: real, lo: real, hi: real)
    requires d >= 0.0 && lo <= m <= hi
    ensures lo * d <= m * d <= hi * d
  {
    if d > 0.0 {
      Scales(lo, m, d);
      Scales(m, hi, d);
    }
  }

  lemma UnderWithin(x: real, y: real, u: real, v: real, lo: real, hi: real)
    requires x <= y && lo <= u <= hi && lo <= v <= hi
    ensures Bounded(x, y, Under(x, y, u, v), lo, hi)
  {
    var m := (u + v) * 0.5;
    Associate(y - x, u + v, 0.5);
    Commute(y - x, m);
    RateWithin(y - x, m, lo, hi);
  }

  lemma BoundedJoin(x: real, z: real, y: real, d: real, e: real, lo: real, hi: real)
    requires Bounded(x, z, d, lo, hi) && Bounded(z, y, e, lo, hi)
    ensures Bounded(x, y, d + e, lo, hi)
  {
    Commute(lo, y - x);
    Commute(hi, y - x);
    Distribute(z - x, y - z, lo);
    Distribute(z - x, y - z, hi);
  }

  lemma {:induction false} SameSegment(ps: seq<Knot<real>>, x: real, y: real)
    requires ps != [] && Ordered(Reals(), ps) && ps[0].position <= x <= y
    requires SegmentOf(ps, x) + 1 == |ps| || y < ps[SegmentOf(ps, x) + 1].position
    ensures SegmentOf(ps, y) == SegmentOf(ps, x)
  {
    var k, l := SegmentOf(ps, x), SegmentOf(ps, y);
    forall j: nat | 0 < j < |ps|
      ensures j <= SegmentOf(ps, x) <==> ps[j].position <= x
      ensures j <= SegmentOf(ps, y) <==> ps[j].position <= y
    {
      SegmentIff(ps, x, j);
      SegmentIff(ps, y, j);
    }
    assert k > 0 ==> ps[k].position <= x;
    assert k + 1 < |ps| ==> !(k + 1 <= l);
  }

  /** Up to `y`, no further than the next point. */
  lemma {:induction false} AreaBoundedInSegment(ps: seq<Knot<real>>, x: real, y: real, lo: real, hi: real)
    requires ps != [] && Ordered(Reals(), ps) && x <= y && Curves.ValuesWithin(PointsOf(ps), lo, hi)
    requires forall i: nat :: IsNext(ps, x, i) ==> y < ps[i].position
    ensures Bounded(x, y, Area(ps, y) - Area(ps, x), lo, hi)
  {
    Curves.SampleWithin(PointsOf(ps), x, lo, hi);
    Curves.SampleWithin(PointsOf(ps), y, lo, hi);
    if ps[0].position <= x {
      var i := SegmentOf(ps, x) + 1;
      assert i < |ps| ==> IsNext(ps, x, i);
      SameSegment(ps, x, y);
    } else {
      assert IsNext(ps, x, 0);
    }
    AreaGrows(ps, x, y);
    UnderWithin(x, y, Curves.Sample(PointsOf(ps), x), Curves.Sample(PointsOf(ps), y), lo, hi);
  }

  lemma {:induction false} AreaBoundedToNext(ps: seq<Knot<real>>, x: real, i: nat, lo: real, hi: real)
    requires ps != [] && Ordered(Reals(), ps) && Curves.ValuesWithin(PointsOf(ps), lo, hi)
    requires IsNext(ps, x, i) && lo <= ps[i].value <= hi
    ensures x < ps[i].position && Bounded(x, ps[i].position, Area(ps, ps[i].position) - Area(ps, x), lo, hi)
  {
    Curves.SampleWithin(PointsOf(ps), x, lo, hi);
    AreaReaches(ps, x, i);
    UnderWithin(x, ps[i].position, Curves.Sample(PointsOf(ps), x), ps[i].value, lo, hi);
  }

  /** How many points are still to come. */
  function ToCome(ps: seq<Knot<real>>, x: real): nat
    requires ps != []
  {
    if x < ps[0].position then |ps| else |ps| - SegmentOf(ps, x) - 1
  }

  lemma FewerToCome(ps: seq<Knot<real>>, x: real, i: nat)
    requires ps != [] && Ordered(Reals(), ps) && IsNext(ps, x, i)
    ensures ToCome(ps, ps[i].position) < ToCome(ps, x)
  {
    AreaInAtPoint(ps, i);
    PositionsRise(ps, 0, i);
  }

  /** Between any two positions the area grows at a rate within the range of the values: it is
      continuous everywhere, across steps too. */
  lemma {:induction false} AreaIsContinuous(ps: seq<Knot<real>>, x: real, y: real, lo: real, hi: real)
    requires ps != [] && Ordered(Reals(), ps) && x <= y && forall i :: 0 <= i < |ps| ==> lo <= ps[i].value <= hi
    ensures Bounded(x, y, Area(ps, y) - Area(ps, x), lo, hi)
    decreases ToCome(ps, x)
  {
    ValuesOfPoints(ps, lo, hi);
    var i := if x < ps[0].position then 0 else SegmentOf(ps, x) + 1;
    if i == |ps| || y < ps[i].position {
      AreaBoundedInSegment(ps, x, y, lo, hi);
    } else {
      AreaBoundedToNext(ps, x, i, lo, hi);
      FewerToCome(ps, x, i);
      AreaIsContinuous(ps, ps[i].position, y, lo, hi);
      BoundedJoin(x, ps[i].position, y, Area(ps, ps[i].position) - Area(ps, x),
                  Area(ps, y) - Area(ps, ps[i].position), lo, hi);
    }
  }
}
