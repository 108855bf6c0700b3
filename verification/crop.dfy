/** Cropping an automation curve to a new window over fixed content. */
module Crop {
  import opened Fractions
  import opened Curves
  import opened Edges

  /** Points this close outside a moved edge stay, pulled onto it. */
  const CROP_TOLERANCE_SECONDS: real := 0.0001

  function Clamp(x: real, lo: real, hi: real): (r: real)
    requires lo <= hi
    ensures lo <= r <= hi && (lo <= x <= hi ==> r == x)
  {
    if x < lo then lo else if hi < x then hi else x
  }

  /** The points between `lo` and `hi`, in order. */
  function Kept(ps: seq<Point>, lo: real, hi: real): seq<Point> {
    if ps == [] then []
    else (if lo <= ps[0].position <= hi then [ps[0]] else []) + Kept(ps[1..], lo, hi)
  }

  /** Points in seconds as positions within a window. */
  function Repositioned(ps: seq<Point>, start: real, duration: real): (r: seq<Point>)
    requires duration > 0.0
    ensures |r| == |ps|
    ensures forall i {:trigger r[i]} :: 0 <= i < |ps| ==> 0.0 <= r[i].position <= 1.0 && r[i].value == ps[i].value
  {
    if ps == [] then []
    else [Point(Clamp((ps[0].position - start) / duration, 0.0, 1.0), ps[0].value)]
         + Repositioned(ps[1..], start, duration)
  }

  predicate AnyBefore(ps: seq<Point>, x: real) {
    exists i :: 0 <= i < |ps| && ps[i].position < x
  }

  predicate AnyAfter(ps: seq<Point>, x: real) {
    exists i :: 0 <= i < |ps| && x < ps[i].position
  }

  /** Content was cut away left of the window and no kept point is on its left edge. */
  predicate NeedsLead(timed: seq<Point>, kept: seq<Point>, start: real) {
    AnyBefore(timed, start - CROP_TOLERANCE_SECONDS) && (kept == [] || start < kept[0].position)
  }

  /** Content was cut away right of the window and no kept point is on its right edge. */
  predicate NeedsTrail(timed: seq<Point>, kept: seq<Point>, end: real) {
    AnyAfter(timed, end + CROP_TOLERANCE_SECONDS) && (kept == [] || kept[|kept| - 1].position < end)
  }

  /** A point at `seconds` holding the value the curve has there, when `needed`. */
  function EdgePoint(needed: bool, points: seq<Point>, start: real, duration: real, seconds: real): seq<Point>
    requires duration > 0.0 && (needed ==> |points| > 0)
  {
    if needed then [Point(seconds, SamplePoints(points, (seconds - start) / duration))] else []
  }

  /** The cropped curve's points, still in seconds and before clamping. */
  function Cut(points: seq<Point>, oldStart: real, oldDuration: real, newStart: real, newEnd: real): seq<Point>
    requires oldDuration > 0.0
  {
    var timed := Moved(points, oldStart, oldDuration);
    var kept := Kept(timed, newStart - CROP_TOLERANCE_SECONDS, newEnd + CROP_TOLERANCE_SECONDS);
    EdgePoint(NeedsLead(timed, kept, newStart), points, oldStart, oldDuration, newStart)
    + kept
    + EdgePoint(NeedsTrail(timed, kept, newEnd), points, oldStart, oldDuration, newEnd)
  }

  function CroppedPoints(points: seq<Point>, oldStart: real, oldDuration: real, newStart: real,
                         newDuration: real): seq<Point>
    requires oldDuration > 0.0 && newDuration > 0.0
  {
    Repositioned(Cut(points, oldStart, oldDuration, newStart, newStart + newDuration), newStart, newDuration)
  }

  // ---------- The same points, part by part ----------

  /** A curve in five parts around a window: cut away on the left, pulled onto the
      left edge, inside, pulled onto the right edge, cut away on the right. */
  datatype Parts = Parts(cutLeft: seq<Point>, pulledLeft: seq<Point>, inside: seq<Point>,
                         pulledRight: seq<Point>, cutRight: seq<Point>)
  {
    /** From the left edge on. */
    function Rest(): seq<Point> { inside + (pulledRight + cutRight) }

    /** Up to the right edge. */
    function Pre(): seq<Point> { cutLeft + (pulledLeft + inside) }

    function Whole(): seq<Point> { cutLeft + (pulledLeft + Rest()) }
  }

  ghost predicate AllBefore(ps: seq<Point>, x: real) {
    forall i :: 0 <= i < |ps| ==> ps[i].position < x
  }

  ghost predicate AllAfter(ps: seq<Point>, x: real) {
    forall i :: 0 <= i < |ps| ==> x < ps[i].position
  }

  /** `k` is the curve `ps` in parts around the window `s..e`. */
  ghost predicate IsParts(ps: seq<Point>, s: real, e: real, k: Parts) {
    && ps == k.Whole()
    && AllBefore(k.cutLeft, s - CROP_TOLERANCE_SECONDS)
    && PositionsWithin(k.pulledLeft, s - CROP_TOLERANCE_SECONDS, e) && AllBefore(k.pulledLeft, s)
    && PositionsWithin(k.inside, s, e)
    && PositionsWithin(k.pulledRight, s, e + CROP_TOLERANCE_SECONDS) && AllAfter(k.pulledRight, e)
    && AllAfter(k.cutRight, e + CROP_TOLERANCE_SECONDS)
  }

  /** The first part of an ordered curve is what lies before `x`. */
  lemma {:induction false} SplitBefore(ps: seq<Point>, x: real) returns (before: seq<Point>, rest: seq<Point>)
    requires Ordered(ps)
    ensures ps == before + rest && Ordered(rest)
    ensures AllBefore(before, x) && (rest != [] ==> x <= rest[0].position)
  {
    if ps == [] || x <= ps[0].position {
      before, rest := [], ps;
    } else {
      var b;
      b, rest := SplitBefore(ps[1..], x);
      before := [ps[0]] + b;
      assert [ps[0]] + (b + rest) == before + rest;
    }
  }

  lemma {:induction false} SplitAfter(ps: seq<Point>, x: real) returns (upTo: seq<Point>, after: seq<Point>)
    requires Ordered(ps)
    ensures ps == upTo + after && Ordered(upTo) && Ordered(after)
    ensures (upTo != [] ==> Last(upTo).position <= x) && (after != [] ==> x < after[0].position)
  {
    if ps == [] || x < ps[0].position {
      upTo, after := [], ps;
    } else {
      var u;
      u, after := SplitAfter(ps[1..], x);
      upTo := [ps[0]] + u;
      assert [ps[0]] + (u + after) == upTo + after;
      OrderedAppend(upTo, after);
    }
  }

  lemma {:induction false} OrderedBetween(ps: seq<Point>, lo: real, hi: real)
    requires Ordered(ps) && (ps != [] ==> lo <= ps[0].position && Last(ps).position <= hi)
    ensures PositionsWithin(ps, lo, hi)
  {
    forall i | 0 <= i < |ps| ensures lo <= ps[i].position <= hi {
      OrderedPair(ps, 0, i);
      OrderedPair(ps, i, |ps| - 1);
    }
  }

  lemma {:induction false} OrderedAllAfter(ps: seq<Point>, x: real)
    requires Ordered(ps) && (ps != [] ==> x < ps[0].position)
    ensures AllAfter(ps, x)
  {
    forall i | 0 <= i < |ps| ensures x < ps[i].position { OrderedPair(ps, 0, i); }
  }

  lemma LeftParts(ps: seq<Point>, s: real, e: real) returns (cut: seq<Point>, pulled: seq<Point>, rest: seq<Point>)
    requires Ordered(ps) && s < e
    ensures ps == cut + (pulled + rest) && Ordered(rest)
    ensures AllBefore(cut, s - CROP_TOLERANCE_SECONDS) && AllBefore(pulled, s)
    ensures PositionsWithin(pulled, s - CROP_TOLERANCE_SECONDS, e)
    ensures rest != [] ==> s <= rest[0].position
  {
    var r0;
    cut, r0 := SplitBefore(ps, s - CROP_TOLERANCE_SECONDS);
    pulled, rest := SplitBefore(r0, s);
    OrderedAppend(pulled, rest);
    if pulled != [] {
      assert pulled[0] == r0[0];
      assert Last(pulled) == pulled[|pulled| - 1];
      OrderedBetween(pulled, s - CROP_TOLERANCE_SECONDS, e);
    }
  }

  lemma RightParts(ps: seq<Point>, s: real, e: real) returns (inside: seq<Point>, pulled: seq<Point>, cut: seq<Point>)
    requires Ordered(ps) && s < e && (ps != [] ==> s <= ps[0].position)
    ensures ps == inside + (pulled + cut)
    ensures PositionsWithin(inside, s, e) && PositionsWithin(pulled, s, e + CROP_TOLERANCE_SECONDS)
    ensures AllAfter(pulled, e) && AllAfter(cut, e + CROP_TOLERANCE_SECONDS)
  {
    var r;
    inside, r := SplitAfter(ps, e);
    pulled, cut := SplitAfter(r, e + CROP_TOLERANCE_SECONDS);
    if inside != [] { assert inside[0] == ps[0]; }
    OrderedBetween(inside, s, e);
    if pulled != [] { assert pulled[0] == r[0]; }
    OrderedBetween(pulled, s, e + CROP_TOLERANCE_SECONDS);
    OrderedAllAfter(pulled, e);
    OrderedAllAfter(cut, e + CROP_TOLERANCE_SECONDS);
  }

  /** Every ordered curve comes in parts around every window. */
  lemma PartsExist(ps: seq<Point>, s: real, e: real) returns (k: Parts)
    requires Ordered(ps) && s < e
    ensures IsParts(ps, s, e, k)
  {
    var cutLeft, pulledLeft, rest := LeftParts(ps, s, e);
    var inside, pulledRight, cutRight := RightParts(rest, s, e);
    k := Parts(cutLeft, pulledLeft, inside, pulledRight, cutRight);
  }

  lemma {:induction false} KeptAppend(a: seq<Point>, b: seq<Point>, lo: real, hi: real)
    ensures Kept(a + b, lo, hi) == Kept(a, lo, hi) + Kept(b, lo, hi)
  {
    if a == [] {
      assert a + b == b;
    } else {
      assert (a + b)[1..] == a[1..] + b;
      KeptAppend(a[1..], b, lo, hi);
    }
  }

  lemma {:induction false} KeptNone(ps: seq<Point>, lo: real, hi: real)
    requires AllBefore(ps, lo) || AllAfter(ps, hi)
    ensures Kept(ps, lo, hi) == []
  {
    if ps != [] { KeptNone(ps[1..], lo, hi); }
  }

  lemma {:induction false} KeptAll(ps: seq<Point>, lo: real, hi: real)
    requires PositionsWithin(ps, lo, hi)
    ensures Kept(ps, lo, hi) == ps
  {
    if ps != [] {
      KeptAll(ps[1..], lo, hi);
      assert [ps[0]] + ps[1..] == ps;
    }
  }

  lemma {:induction false} KeptIsMiddle(ps: seq<Point>, s: real, e: real, k: Parts)
    requires s < e && IsParts(ps, s, e, k)
    ensures Kept(ps, s - CROP_TOLERANCE_SECONDS, e + CROP_TOLERANCE_SECONDS)
         == k.pulledLeft + (k.inside + k.pulledRight)
  {
    var lo, hi := s - CROP_TOLERANCE_SECONDS, e + CROP_TOLERANCE_SECONDS;
    assert Kept(k.cutLeft, lo, hi) == [] by { KeptNone(k.cutLeft, lo, hi); }
    assert Kept(k.cutRight, lo, hi) == [] by { KeptNone(k.cutRight, lo, hi); }
    assert Kept(k.pulledLeft, lo, hi) == k.pulledLeft by { KeptAll(k.pulledLeft, lo, hi); }
    assert Kept(k.inside, lo, hi) == k.inside by { KeptAll(k.inside, lo, hi); }
    assert Kept(k.pulledRight, lo, hi) == k.pulledRight by { KeptAll(k.pulledRight, lo, hi); }
    KeptFive(k, lo, hi);
  }

  lemma {:induction false} KeptFive(k: Parts, lo: real, hi: real)
    ensures Kept(k.Whole(), lo, hi)
         == Kept(k.cutLeft, lo, hi) + (Kept(k.pulledLeft, lo, hi) + (Kept(k.inside, lo, hi)
            + (Kept(k.pulledRight, lo, hi) + Kept(k.cutRight, lo, hi))))
  {
    KeptAppend(k.cutLeft, k.pulledLeft + k.Rest(), lo, hi);
    KeptAppend(k.pulledLeft, k.Rest(), lo, hi);
    KeptAppend(k.inside, k.pulledRight + k.cutRight, lo, hi);
    KeptAppend(k.pulledRight, k.cutRight, lo, hi);
  }

  lemma AnyBeforeIsCut(ps: seq<Point>, s: real, e: real, k: Parts)
    requires s < e && IsParts(ps, s, e, k)
    ensures AnyBefore(ps, s - CROP_TOLERANCE_SECONDS) <==> k.cutLeft != []
  {
    var x, rest := s - CROP_TOLERANCE_SECONDS, k.pulledLeft + k.Rest();
    if k.cutLeft != [] {
      assert ps[0] == k.cutLeft[0];
    } else {
      assert ps == rest;
      forall i | 0 <= i < |rest| ensures x <= rest[i].position {
        PartAt(k.pulledLeft, k.inside, k.pulledRight, k.cutRight, i);
      }
    }
  }

  lemma AnyAfterIsCut(ps: seq<Point>, s: real, e: real, k: Parts)
    requires s < e && IsParts(ps, s, e, k)
    ensures AnyAfter(ps, e + CROP_TOLERANCE_SECONDS) <==> k.cutRight != []
  {
    var x := e + CROP_TOLERANCE_SECONDS;
    if k.cutRight != [] {
      assert Last(ps) == Last(k.cutRight);
    } else {
      forall i | 0 <= i < |ps| ensures ps[i].position <= x {
        assert k.pulledRight + k.cutRight == k.pulledRight;
        PartAt(k.cutLeft, k.pulledLeft, k.inside, k.pulledRight, i);
      }
    }
  }

  lemma PartAt(a: seq<Point>, b: seq<Point>, c: seq<Point>, d: seq<Point>, i: nat)
    requires i < |a + (b + (c + d))|
    ensures || (i < |a| && (a + (b + (c + d)))[i] == a[i])
            || (|a| <= i < |a| + |b| && (a + (b + (c + d)))[i] == b[i - |a|])
            || (|a| + |b| <= i < |a| + |b| + |c| && (a + (b + (c + d)))[i] == c[i - |a| - |b|])
            || (|a| + |b| + |c| <= i && (a + (b + (c + d)))[i] == d[i - |a| - |b| - |c|])
  {
  }

  // ---------- Cropping cuts the two edges ----------

  lemma {:induction false} MovedOrdered(ps: seq<Point>, shift: real, scale: real)
    requires Ordered(ps) && scale > 0.0
    ensures Ordered(Moved(ps, shift, scale))
  {
    if |ps| > 1 {
      Scales(ps[0].position, ps[1].position, scale);
      assert Moved(ps, shift, scale)[1..] == Moved(ps[1..], shift, scale);
      MovedOrdered(ps[1..], shift, scale);
    }
  }

  lemma {:induction false} SampleTimed(points: seq<Point>, start: real, duration: real, t: real, u: real)
    requires |points| > 0 && Ordered(points) && duration > 0.0 && u == (t - start) / duration
    ensures SamplePoints(points, u) == Sample(points, u) == Sample(Moved(points, start, duration), t)
  {
    assert u * duration == t - start;
    SearchAgreesWithWalk(points, u);
    SampleMoved(points, u, start, duration);
  }

  /** `ps` with every position pulled into `s..e`. */
  function Clamped(ps: seq<Point>, s: real, e: real): (r: seq<Point>)
    requires s <= e
    ensures |r| == |ps|
    ensures forall i {:trigger r[i]} :: 0 <= i < |ps| ==> r[i] == Point(Clamp(ps[i].position, s, e), ps[i].value)
  {
    seq(|ps|, i requires 0 <= i < |ps| => Point(Clamp(ps[i].position, s, e), ps[i].value))
  }

  lemma ClampedAppend(p: seq<Point>, q: seq<Point>, s: real, e: real)
    requires s <= e
    ensures Clamped(p + q, s, e) == Clamped(p, s, e) + Clamped(q, s, e)
  {
  }

  lemma InsideStays(ps: seq<Point>, s: real, e: real)
    requires s <= e && PositionsWithin(ps, s, e)
    ensures Clamped(ps, s, e) == ps
  {
  }

  lemma BeforePulled(ps: seq<Point>, s: real, e: real)
    requires s <= e && AllBefore(ps, s)
    ensures Clamped(ps, s, e) == At(ps, s)
  {
  }

  lemma AfterPulled(ps: seq<Point>, s: real, e: real)
    requires s <= e && AllAfter(ps, e)
    ensures Clamped(ps, s, e) == At(ps, e)
  {
  }

  /** The point put on the left edge when content was cut away there. */
  function Lead(k: Parts, kept: seq<Point>, s: real, v: real): seq<Point> {
    if k.cutLeft != [] && (kept == [] || s < kept[0].position) then [Point(s, v)] else []
  }

  /** The point put on the right edge when content was cut away there. */
  function Trail(k: Parts, kept: seq<Point>, e: real, v: real): seq<Point> {
    if k.cutRight != [] && (kept == [] || Last(kept).position < e) then [Point(e, v)] else []
  }

  function Middle(k: Parts): seq<Point> {
    k.pulledLeft + (k.inside + k.pulledRight)
  }

  lemma {:induction false} EdgePointIs(needed: bool, points: seq<Point>, start: real, duration: real, t: real, v: real)
    requires Ordered(points) && |points| > 0 && duration > 0.0 && v == Sample(Moved(points, start, duration), t)
    ensures EdgePoint(needed, points, start, duration, t) == if needed then [Point(t, v)] else []
  {
    var u := (t - start) / duration;
    SampleTimed(points, start, duration, t, u);
  }

  lemma {:induction false} LeadIs(points: seq<Point>, oldStart: real, oldDuration: real, s: real, e: real,
                                  ps: seq<Point>, k: Parts, v: real)
    requires Ordered(points) && |points| > 0 && oldDuration > 0.0 && s < e && IsParts(ps, s, e, k)
    requires ps == Moved(points, oldStart, oldDuration) && v == Sample(ps, s)
    ensures EdgePoint(NeedsLead(ps, Middle(k), s), points, oldStart, oldDuration, s) == Lead(k, Middle(k), s, v)
  {
    AnyBeforeIsCut(ps, s, e, k);
    EdgePointIs(NeedsLead(ps, Middle(k), s), points, oldStart, oldDuration, s, v);
  }

  lemma {:induction false} TrailIs(points: seq<Point>, oldStart: real, oldDuration: real, s: real, e: real,
                                   ps: seq<Point>, k: Parts, v: real)
    requires Ordered(points) && |points| > 0 && oldDuration > 0.0 && s < e && IsParts(ps, s, e, k)
    requires ps == Moved(points, oldStart, oldDuration) && v == Sample(ps, e)
    ensures EdgePoint(NeedsTrail(ps, Middle(k), e), points, oldStart, oldDuration, e) == Trail(k, Middle(k), e, v)
  {
    AnyAfterIsCut(ps, s, e, k);
    EdgePointIs(NeedsTrail(ps, Middle(k), e), points, oldStart, oldDuration, e, v);
  }

  /** The cut curve from its three stretches. */
  lemma {:induction false} CutIs(points: seq<Point>, oldStart: real, oldDuration: real, s: real, e: real,
                                 ps: seq<Point>, kept: seq<Point>, lead: seq<Point>, trail: seq<Point>)
    requires |points| > 0 && oldDuration > 0.0 && ps == Moved(points, oldStart, oldDuration)
    requires kept == Kept(ps, s - CROP_TOLERANCE_SECONDS, e + CROP_TOLERANCE_SECONDS)
    requires lead == EdgePoint(NeedsLead(ps, kept, s), points, oldStart, oldDuration, s)
    requires trail == EdgePoint(NeedsTrail(ps, kept, e), points, oldStart, oldDuration, e)
    ensures Cut(points, oldStart, oldDuration, s, e) == lead + kept + trail
  {
  }

  lemma {:induction false} CutIsParts(points: seq<Point>, oldStart: real, oldDuration: real, s: real, e: real,
                                      ps: seq<Point>, k: Parts, vs: real, ve: real)
    requires Ordered(points) && |points| > 0 && oldDuration > 0.0 && s < e
    requires ps == Moved(points, oldStart, oldDuration) && IsParts(ps, s, e, k)
    requires vs == Sample(ps, s) && ve == Sample(ps, e)
    ensures Cut(points, oldStart, oldDuration, s, e)
         == Lead(k, Middle(k), s, vs) + Middle(k) + Trail(k, Middle(k), e, ve)
  {
    KeptIsMiddle(ps, s, e, k);
    LeadIs(points, oldStart, oldDuration, s, e, ps, k, vs);
    TrailIs(points, oldStart, oldDuration, s, e, ps, k, ve);
    CutIs(points, oldStart, oldDuration, s, e, ps, Middle(k), Lead(k, Middle(k), s, vs),
          Trail(k, Middle(k), e, ve));
  }

  /** The window: what stands at its edges around what lies inside. */
  function Windowed(k: Parts, s: real, e: real, vs: real, ve: real): seq<Point> {
    LeftEdge(k.cutLeft, k.pulledLeft, k.Rest(), s, vs)
    + (k.inside + RightEdge(k.Pre(), k.pulledRight, k.cutRight, e, ve))
  }

  lemma LeadMatches(ps: seq<Point>, s: real, e: real, k: Parts, v: real)
    requires s < e && IsParts(ps, s, e, k)
    ensures Lead(k, Middle(k), s, v) + At(k.pulledLeft, s) == LeftEdge(k.cutLeft, k.pulledLeft, k.Rest(), s, v)
  {
    var kept, rest := Middle(k), k.Rest();
    if k.pulledLeft != [] {
      assert kept[0] == k.pulledLeft[0];
    } else {
      assert At(k.pulledLeft, s) == [];
      assert kept == k.inside + k.pulledRight;
      if kept != [] {
        assert rest == kept + k.cutRight;
        assert rest[0] == kept[0];
      } else {
        assert rest == k.cutRight;
      }
    }
  }

  lemma TrailMatches(ps: seq<Point>, s: real, e: real, k: Parts, v: real)
    requires s < e && IsParts(ps, s, e, k)
    ensures At(k.pulledRight, e) + Trail(k, Middle(k), e, v) == RightEdge(k.Pre(), k.pulledRight, k.cutRight, e, v)
  {
    var kept, pre := Middle(k), k.Pre();
    if k.pulledRight != [] {
      assert Last(kept) == Last(k.pulledRight);
    } else {
      assert At(k.pulledRight, e) == [];
      assert kept == k.pulledLeft + k.inside;
      if kept != [] {
        assert Last(pre) == Last(kept);
      } else {
        assert pre == k.cutLeft;
      }
    }
  }

  lemma SmallStays(p: seq<Point>, s: real, e: real)
    requires s <= e && |p| <= 1 && (|p| == 1 ==> s <= p[0].position <= e)
    ensures Clamped(p, s, e) == p
  {
  }

  lemma ClampedFive(lead: seq<Point>, p: seq<Point>, q: seq<Point>, r: seq<Point>, trail: seq<Point>, s: real, e: real)
    requires s <= e
    ensures Clamped(lead + (p + (q + r)) + trail, s, e)
         == (Clamped(lead, s, e) + Clamped(p, s, e)) + (Clamped(q, s, e) + (Clamped(r, s, e) + Clamped(trail, s, e)))
  {
    ClampedAppend(lead + (p + (q + r)), trail, s, e);
    ClampedAppend(lead, p + (q + r), s, e);
    ClampedAppend(p, q + r, s, e);
    ClampedAppend(q, r, s, e);
  }

  /** Cropping is cutting the two edges. */
  lemma ClampedIsWindowed(ps: seq<Point>, s: real, e: real, k: Parts, vs: real, ve: real)
    requires s < e && IsParts(ps, s, e, k)
    ensures Clamped(Lead(k, Middle(k), s, vs) + Middle(k) + Trail(k, Middle(k), e, ve), s, e)
         == Windowed(k, s, e, vs, ve)
  {
    var lead, trail := Lead(k, Middle(k), s, vs), Trail(k, Middle(k), e, ve);
    assert Clamped(lead, s, e) == lead by { SmallStays(lead, s, e); }
    assert Clamped(trail, s, e) == trail by { SmallStays(trail, s, e); }
    assert Clamped(k.pulledLeft, s, e) == At(k.pulledLeft, s) by { BeforePulled(k.pulledLeft, s, e); }
    assert Clamped(k.inside, s, e) == k.inside by { InsideStays(k.inside, s, e); }
    assert Clamped(k.pulledRight, s, e) == At(k.pulledRight, e) by { AfterPulled(k.pulledRight, s, e); }
    ClampedFive(lead, k.pulledLeft, k.inside, k.pulledRight, trail, s, e);
    LeadMatches(ps, s, e, k, vs);
    TrailMatches(ps, s, e, k, ve);
  }

  // ---------- What cropping keeps ----------

  /** Cropping is exact at both edges. */
  predicate Exact(k: Parts, s: real, e: real) {
    LeftExact(k.pulledLeft, k.Rest(), s) && RightExact(k.Pre(), k.pulledRight, e)
  }

  /** Cropping is exact everywhere but perhaps at the very end of the window. */
  predicate ExactInside(k: Parts, s: real, e: real) {
    LeftExact(k.pulledLeft, k.Rest(), s) && LevelBefore(k.Pre(), k.pulledRight, e)
  }

  lemma {:induction false} IsLeftCase(ps: seq<Point>, s: real, e: real, k: Parts)
    requires Ordered(ps) && ps != [] && s < e && IsParts(ps, s, e, k)
    ensures LeftCase(k.cutLeft, k.pulledLeft, k.Rest(), s)
  {
    if k.inside != [] {
      assert k.Rest()[0] == k.inside[0];
    } else {
      assert k.Rest() == k.pulledRight + k.cutRight;
      if k.pulledRight != [] {
        assert k.Rest()[0] == k.pulledRight[0];
      } else {
        assert k.Rest() == k.cutRight;
      }
    }
  }

  /** `pre` before the right edge: that of the curve, or that of the left-cut curve. */
  lemma {:induction false} IsRightCase(pre: seq<Point>, s: real, e: real, k: Parts)
    requires s < e && IsParts(k.Whole(), s, e, k)
    requires Ordered(pre + (k.pulledRight + k.cutRight)) && pre + (k.pulledRight + k.cutRight) != []
    requires pre != [] ==> Last(pre).position <= e
    ensures RightCase(pre, k.pulledRight, k.cutRight, e)
  {
    if k.pulledRight != [] {
      assert (k.pulledRight + k.cutRight)[0] == k.pulledRight[0];
    } else {
      assert k.pulledRight + k.cutRight == k.cutRight;
    }
  }

  /** Up to the right edge, once the left edge is cut. */
  function LeftPre(k: Parts, s: real, vs: real): seq<Point> {
    LeftEdge(k.cutLeft, k.pulledLeft, k.Rest(), s, vs) + k.inside
  }

  lemma {:induction false} LeftCutOrdered(ps: seq<Point>, s: real, e: real, k: Parts, vs: real)
    requires Ordered(ps) && ps != [] && s < e && IsParts(ps, s, e, k)
    ensures Ordered(LeftPre(k, s, vs) + (k.pulledRight + k.cutRight))
    ensures LeftPre(k, s, vs) + (k.pulledRight + k.cutRight) != []
    ensures LeftPre(k, s, vs) + (k.pulledRight + k.cutRight)
         == LeftEdge(k.cutLeft, k.pulledLeft, k.Rest(), s, vs) + k.Rest()
  {
    var edge, tail := LeftEdge(k.cutLeft, k.pulledLeft, k.Rest(), s, vs), k.pulledRight + k.cutRight;
    IsLeftCase(ps, s, e, k);
    LeftEdgeOrdered(k.cutLeft, k.pulledLeft, k.Rest(), s, vs);
    assert (edge + k.inside) + tail == edge + (k.inside + tail);
  }

  lemma PreEnds(ps: seq<Point>, s: real, e: real, k: Parts)
    requires s < e && IsParts(ps, s, e, k) && k.Pre() != []
    ensures Last(k.Pre()).position <= e
    ensures if k.inside != [] then Last(k.Pre()) == Last(k.inside) else Last(k.Pre()).position < s
    ensures k.inside == [] && k.pulledLeft != [] ==> Last(k.Pre()) == Last(k.pulledLeft)
    ensures k.inside == [] && k.pulledLeft == [] ==> Last(k.Pre()) == Last(k.cutLeft)
  {
    if k.inside != [] {
      assert Last(k.Pre()) == Last(k.inside);
    } else {
      assert k.Pre() == k.cutLeft + k.pulledLeft;
      if k.pulledLeft != [] {
        assert Last(k.Pre()) == Last(k.pulledLeft);
      } else {
        assert k.Pre() == k.cutLeft;
      }
    }
  }

  lemma LeftPreEnds(ps: seq<Point>, s: real, e: real, k: Parts, vs: real)
    requires s < e && IsParts(ps, s, e, k) && LeftPre(k, s, vs) != []
    ensures k.Pre() != []
    ensures s <= Last(LeftPre(k, s, vs)).position <= e
    ensures if k.inside != [] then Last(LeftPre(k, s, vs)) == Last(k.inside)
            else if k.pulledLeft != [] then Last(LeftPre(k, s, vs)) == Point(s, Last(k.pulledLeft).value)
            else Last(LeftPre(k, s, vs)) == Point(s, vs) && k.cutLeft != []
  {
    var edge := LeftEdge(k.cutLeft, k.pulledLeft, k.Rest(), s, vs);
    if k.inside != [] {
      assert Last(edge + k.inside) == Last(k.inside);
    } else {
      assert edge + k.inside == edge;
    }
  }

  /** The right edge is the same once the left edge is cut. */
  lemma SameRightEdge(ps: seq<Point>, s: real, e: real, k: Parts, vs: real, ve: real)
    requires s < e && IsParts(ps, s, e, k)
    ensures RightEdge(LeftPre(k, s, vs), k.pulledRight, k.cutRight, e, ve)
         == RightEdge(k.Pre(), k.pulledRight, k.cutRight, e, ve)
  {
    if k.Pre() != [] { PreEnds(ps, s, e, k); }
    if LeftPre(k, s, vs) != [] { LeftPreEnds(ps, s, e, k, vs); }
    if k.Pre() == [] { assert LeftPre(k, s, vs) == []; }
  }

  /** The right edge is exact for the curve exactly when it is for the left-cut curve. */
  lemma {:induction false} SameRightExact(ps: seq<Point>, s: real, e: real, k: Parts, vs: real)
    requires Ordered(ps) && ps != [] && s < e && IsParts(ps, s, e, k)
    requires vs == Sample(ps, s)
    ensures LevelBefore(LeftPre(k, s, vs), k.pulledRight, e) <==> LevelBefore(k.Pre(), k.pulledRight, e)
    ensures RightExact(LeftPre(k, s, vs), k.pulledRight, e) <==> RightExact(k.Pre(), k.pulledRight, e)
  {
    if k.Pre() != [] { PreEnds(ps, s, e, k); }
    if LeftPre(k, s, vs) != [] { LeftPreEnds(ps, s, e, k, vs); }
    if k.pulledRight != [] && k.inside == [] && k.Pre() != [] {
      var q := k.pulledRight[0];
      assert k.Rest()[0] == q by { assert k.Rest() == k.pulledRight + k.cutRight; }
      assert LeftPre(k, s, vs) == LeftEdge(k.cutLeft, k.pulledLeft, k.Rest(), s, vs);
      if k.pulledLeft == [] {
        LevelCut(k.cutLeft, k.Rest(), ps, s, vs);
      }
    }
  }

  /** What was cut through level with the next point came from a level segment. */
  lemma {:induction false} LevelCut(cut: seq<Point>, rest: seq<Point>, ps: seq<Point>, s: real, vs: real)
    requires cut != [] && rest != [] && ps == cut + rest && Ordered(ps)
    requires Last(cut).position < s < rest[0].position && vs == Sample(ps, s)
    ensures vs == rest[0].value <==> Last(cut).value == rest[0].value
    ensures Last(cut).value == rest[0].value ==> vs == Last(cut).value
  {
    SampleAppend(cut, rest, s);
    if Last(cut).value == rest[0].value {
      Level(Last(cut), rest[0], s);
    } else {
      Slanted(Last(cut), rest[0], s);
    }
  }

  lemma WindowedIsRightCut(k: Parts, s: real, e: real, vs: real, ve: real)
    ensures Windowed(k, s, e, vs, ve)
         == LeftPre(k, s, vs) + RightEdge(k.Pre(), k.pulledRight, k.cutRight, e, ve)
  {
  }

  lemma {:induction false} WindowedOrdered(ps: seq<Point>, s: real, e: real, k: Parts, vs: real, ve: real)
    requires Ordered(ps) && ps != [] && s < e && IsParts(ps, s, e, k)
    ensures Windowed(k, s, e, vs, ve) != [] && Ordered(Windowed(k, s, e, vs, ve))
  {
    LeftCutOrdered(ps, s, e, k, vs);
    if LeftPre(k, s, vs) != [] { LeftPreEnds(ps, s, e, k, vs); }
    IsRightCase(LeftPre(k, s, vs), s, e, k);
    RightEdgeOrdered(LeftPre(k, s, vs), k.pulledRight, k.cutRight, e, ve);
    SameRightEdge(ps, s, e, k, vs, ve);
    WindowedIsRightCut(k, s, e, vs, ve);
  }

  lemma {:induction false} LeftCutKeeps(ps: seq<Point>, s: real, e: real, k: Parts, vs: real, x: real)
    requires Ordered(ps) && ps != [] && s < e && IsParts(ps, s, e, k) && vs == Sample(ps, s)
    requires LeftExact(k.pulledLeft, k.Rest(), s) && s <= x
    ensures LeftPre(k, s, vs) + (k.pulledRight + k.cutRight) != []
    ensures Sample(LeftPre(k, s, vs) + (k.pulledRight + k.cutRight), x) == Sample(ps, x)
  {
    LeftCutOrdered(ps, s, e, k, vs);
    IsLeftCase(ps, s, e, k);
    LeftEdgeKeeps(k.cutLeft, k.pulledLeft, k.Rest(), s, vs, x);
  }

  lemma {:induction false} LeftCutRightCase(ps: seq<Point>, s: real, e: real, k: Parts, vs: real)
    requires Ordered(ps) && ps != [] && s < e && IsParts(ps, s, e, k)
    ensures RightCase(LeftPre(k, s, vs), k.pulledRight, k.cutRight, e)
    ensures LeftPre(k, s, vs) != [] ==> s <= Last(LeftPre(k, s, vs)).position
  {
    LeftCutOrdered(ps, s, e, k, vs);
    if LeftPre(k, s, vs) != [] { LeftPreEnds(ps, s, e, k, vs); }
    IsRightCase(LeftPre(k, s, vs), s, e, k);
  }

  lemma {:induction false} WindowedKeeps(ps: seq<Point>, s: real, e: real, k: Parts, vs: real, ve: real, x: real)
    requires Ordered(ps) && ps != [] && s < e && IsParts(ps, s, e, k)
    requires vs == Sample(ps, s) && ve == Sample(ps, e)
    requires ExactInside(k, s, e) && s <= x <= e && (x == e ==> Exact(k, s, e))
    ensures Windowed(k, s, e, vs, ve) != []
    ensures Sample(Windowed(k, s, e, vs, ve), x) == Sample(ps, x)
  {
    var pre, tail := LeftPre(k, s, vs), k.pulledRight + k.cutRight;
    LeftCutKeeps(ps, s, e, k, vs, x);
    LeftCutKeeps(ps, s, e, k, vs, e);
    LeftCutRightCase(ps, s, e, k, vs);
    SameRightExact(ps, s, e, k, vs);
    if x < e {
      RightEdgeInside(pre, k.pulledRight, k.cutRight, e, ve, x);
    } else {
      RightEdgeOnEdge(pre, k.pulledRight, k.cutRight, e, ve);
    }
    SameRightEdge(ps, s, e, k, vs, ve);
    WindowedIsRightCut(k, s, e, vs, ve);
  }

  /** An inexact left edge shows on the edge. */
  lemma {:induction false} LeftBreaks(ps: seq<Point>, s: real, e: real, k: Parts, vs: real, ve: real)
    requires Ordered(ps) && ps != [] && s < e && IsParts(ps, s, e, k)
    requires !LeftExact(k.pulledLeft, k.Rest(), s)
    ensures Windowed(k, s, e, vs, ve) != []
    ensures Sample(Windowed(k, s, e, vs, ve), s) != Sample(ps, s)
  {
    WindowedOrdered(ps, s, e, k, vs, ve);
    IsLeftCase(ps, s, e, k);
    var after := k.inside + RightEdge(k.Pre(), k.pulledRight, k.cutRight, e, ve);
    assert after != [] ==> s < after[0].position by { AfterLeftEdge(ps, s, e, k, ve); }
    LeftEdgeBreaks(k.cutLeft, k.pulledLeft, k.Rest(), s, after);
  }

  /** An inexact edge shows: some sample inside the window is wrong, before its end
      when the inexactness is not at the very end only. */
  lemma WindowedBreaks(ps: seq<Point>, s: real, e: real, k: Parts, vs: real, ve: real) returns (x: real)
    requires Ordered(ps) && ps != [] && s < e && IsParts(ps, s, e, k)
    requires vs == Sample(ps, s) && ve == Sample(ps, e)
    requires !Exact(k, s, e)
    ensures Windowed(k, s, e, vs, ve) != []
    ensures s <= x <= e && Sample(Windowed(k, s, e, vs, ve), x) != Sample(ps, x)
    ensures !ExactInside(k, s, e) ==> x < e
  {
    WindowedOrdered(ps, s, e, k, vs, ve);
    if !LeftExact(k.pulledLeft, k.Rest(), s) {
      x := s;
      LeftBreaks(ps, s, e, k, vs, ve);
    } else {
      var pre := LeftPre(k, s, vs);
      LeftCutRightCase(ps, s, e, k, vs);
      SameRightExact(ps, s, e, k, vs);
      if !ExactInside(k, s, e) {
        x := SlopeBreaks(pre, k.pulledRight, k.cutRight, e, ve);
      } else {
        x := RightEdgeBreaks(pre, k.pulledRight, k.cutRight, e, ve);
      }
      LeftCutKeeps(ps, s, e, k, vs, x);
      SameRightEdge(ps, s, e, k, vs, ve);
      WindowedIsRightCut(k, s, e, vs, ve);
    }
  }

  lemma {:induction false} AfterLeftEdge(ps: seq<Point>, s: real, e: real, k: Parts, ve: real)
    requires s < e && IsParts(ps, s, e, k) && k.Rest() != [] && k.Rest()[0].position != s
    ensures var after := k.inside + RightEdge(k.Pre(), k.pulledRight, k.cutRight, e, ve);
            after != [] ==> s < after[0].position
  {
    var right := RightEdge(k.Pre(), k.pulledRight, k.cutRight, e, ve);
    if k.inside != [] {
      assert (k.inside + right)[0] == k.inside[0] == k.Rest()[0];
    } else {
      assert k.inside + right == right;
    }
  }

  // ---------- Back to positions ----------

  lemma ClampScaled(p: real, start: real, duration: real)
    requires duration > 0.0
    ensures start + Clamp((p - start) / duration, 0.0, 1.0) * duration == Clamp(p, start, start + duration)
  {
    var f := (p - start) / duration;
    assert f * duration == p - start;
    Scales(f, 0.0, duration);
    Scales(f, 1.0, duration);
  }

  lemma {:induction false} MovedBack(cut: seq<Point>, start: real, duration: real)
    requires duration > 0.0
    ensures Moved(Repositioned(cut, start, duration), start, duration) == Clamped(cut, start, start + duration)
  {
    if cut != [] {
      ClampScaled(cut[0].position, start, duration);
      MovedBack(cut[1..], start, duration);
      var r := Repositioned(cut, start, duration);
      assert r[1..] == Repositioned(cut[1..], start, duration);
      ClampedAppend([cut[0]], cut[1..], start, start + duration);
      assert [cut[0]] + cut[1..] == cut;
    }
  }

  lemma {:induction false} MovedOrderedBack(ps: seq<Point>, shift: real, scale: real)
    requires scale > 0.0 && Ordered(Moved(ps, shift, scale))
    ensures Ordered(ps)
  {
    if |ps| > 1 {
      var m := Moved(ps, shift, scale);
      assert m[0].position <= m[1].position;
      Scales(ps[0].position, ps[1].position, scale);
      assert m[1..] == Moved(ps[1..], shift, scale);
      MovedOrderedBack(ps[1..], shift, scale);
    }
  }

  /** The points of the parts, clamped to the window's edges, are the window. */
  lemma {:induction false} ClampedPartsAre(ps: seq<Point>, s: real, e: real, k: Parts, vs: real, ve: real,
                                           cut: seq<Point>)
    requires s < e && IsParts(ps, s, e, k)
    requires cut == Lead(k, Middle(k), s, vs) + Middle(k) + Trail(k, Middle(k), e, ve)
    ensures Clamped(cut, s, e) == Windowed(k, s, e, vs, ve)
  {
    ClampedIsWindowed(ps, s, e, k, vs, ve);
  }

  /** The cropped curve, in seconds, is the cut curve clamped to the window's edges. */
  lemma {:induction false} CroppedIsClamped(points: seq<Point>, oldStart: real, oldDuration: real, start: real,
                                            duration: real, e: real, cut: seq<Point>, cropped: seq<Point>)
    requires oldDuration > 0.0 && duration > 0.0 && e == start + duration
    requires cut == Cut(points, oldStart, oldDuration, start, e)
    requires cropped == Moved(CroppedPoints(points, oldStart, oldDuration, start, duration), start, duration)
    ensures cropped == Clamped(cut, start, e)
  {
    MovedBack(cut, start, duration);
  }

  /** The cropped curve, in seconds, is the window. */
  lemma {:induction false} CroppedIsWindowed(points: seq<Point>, oldStart: real, oldDuration: real, start: real,
                                             duration: real, e: real, ps: seq<Point>, k: Parts, cropped: seq<Point>)
    returns (vs: real, ve: real)
    requires Ordered(points) && |points| > 0 && oldDuration > 0.0 && duration > 0.0 && e == start + duration
    requires ps == Moved(points, oldStart, oldDuration) && IsParts(ps, start, e, k)
    requires cropped == Moved(CroppedPoints(points, oldStart, oldDuration, start, duration), start, duration)
    ensures Ordered(ps) && ps != [] && vs == Sample(ps, start) && ve == Sample(ps, e)
    ensures cropped == Windowed(k, start, e, vs, ve)
  {
    vs, ve := Sample(ps, start), Sample(ps, e);
    var cut := Cut(points, oldStart, oldDuration, start, e);
    CutIsParts(points, oldStart, oldDuration, start, e, ps, k, vs, ve);
    ClampedPartsAre(ps, start, e, k, vs, ve, cut);
    CroppedIsClamped(points, oldStart, oldDuration, start, duration, e, cut, cropped);
    MovedOrdered(points, oldStart, oldDuration);
  }

  /** Two curves, in seconds, have the same value at time `t`. */
  predicate SameAt(a: seq<Point>, b: seq<Point>, t: real) {
    a != [] && b != [] && Sample(a, t) == Sample(b, t)
  }

  /** Two curves, in seconds, have the same value all over `s..e`. */
  ghost predicate KeepsSamples(a: seq<Point>, b: seq<Point>, s: real, e: real) {
    forall t :: s <= t <= e ==> SameAt(a, b, t)
  }

  /** Two curves, in seconds, have the same value from `s` until just before `e`. */
  ghost predicate KeepsSamplesInside(a: seq<Point>, b: seq<Point>, s: real, e: real) {
    forall t :: s <= t < e ==> SameAt(a, b, t)
  }

  lemma {:induction false} WindowKeepsIff(ps: seq<Point>, s: real, e: real, k: Parts, vs: real, ve: real, w: seq<Point>)
    requires Ordered(ps) && ps != [] && s < e && IsParts(ps, s, e, k)
    requires vs == Sample(ps, s) && ve == Sample(ps, e) && w == Windowed(k, s, e, vs, ve)
    ensures Exact(k, s, e) <==> KeepsSamples(w, ps, s, e)
  {
    if Exact(k, s, e) {
      forall t | s <= t <= e ensures SameAt(w, ps, t) {
        WindowedKeeps(ps, s, e, k, vs, ve, t);
      }
    } else {
      var t := WindowedBreaks(ps, s, e, k, vs, ve);
      assert !SameAt(w, ps, t);
    }
  }

  lemma {:induction false} WindowKeepsInsideIff(ps: seq<Point>, s: real, e: real, k: Parts, vs: real, ve: real,
                                                w: seq<Point>)
    requires Ordered(ps) && ps != [] && s < e && IsParts(ps, s, e, k)
    requires vs == Sample(ps, s) && ve == Sample(ps, e) && w == Windowed(k, s, e, vs, ve)
    ensures ExactInside(k, s, e) <==> KeepsSamplesInside(w, ps, s, e)
  {
    if ExactInside(k, s, e) {
      forall t | s <= t < e ensures SameAt(w, ps, t) {
        WindowedKeeps(ps, s, e, k, vs, ve, t);
      }
    } else {
      var t := WindowedBreaks(ps, s, e, k, vs, ve);
      assert !SameAt(w, ps, t);
    }
  }

  /** Cropping keeps every sample of the new window, up to `e`, exactly when both edges are
      exact: whatever the tolerance pulled onto an edge met a level curve there. `ps` and
      `cropped` are the curve before and after, in seconds. */
  lemma {:induction false} CropKeepsSamplesIff(points: seq<Point>, oldStart: real, oldDuration: real, start: real,
                                               duration: real, e: real, ps: seq<Point>, k: Parts, cropped: seq<Point>)
    requires Ordered(points) && |points| > 0 && oldDuration > 0.0 && duration > 0.0 && e == start + duration
    requires ps == Moved(points, oldStart, oldDuration) && IsParts(ps, start, e, k)
    requires cropped == Moved(CroppedPoints(points, oldStart, oldDuration, start, duration), start, duration)
    ensures Exact(k, start, e) <==> KeepsSamples(cropped, ps, start, e)
  {
    var vs, ve := CroppedIsWindowed(points, oldStart, oldDuration, start, duration, e, ps, k, cropped);
    WindowKeepsIff(ps, start, e, k, vs, ve, cropped);
  }

  /** No point of the curve lies within 0.0001 s of the time, except on it. */
  ghost predicate ClearOf(ps: seq<Point>, at: real) {
    forall p :: p in ps && at - 0.0001 <= p.position <= at + 0.0001 ==> p.position == at
  }

  lemma PulledInWhole(k: Parts)
    ensures k.pulledLeft != [] ==> k.pulledLeft[0] in k.Whole()
    ensures k.pulledRight != [] ==> k.pulledRight[0] in k.Whole()
  {
    if k.pulledLeft != [] { assert k.pulledLeft[0] in k.pulledLeft + k.Rest(); }
    if k.pulledRight != [] {
      assert k.pulledRight[0] in k.pulledRight + k.cutRight;
      assert k.pulledRight[0] in k.Rest();
      assert k.pulledRight[0] in k.pulledLeft + k.Rest();
    }
  }

  lemma ClearEdgesAreExact(ps: seq<Point>, s: real, e: real, k: Parts)
    requires s < e && IsParts(ps, s, e, k) && ClearOf(ps, s) && ClearOf(ps, e)
    ensures Exact(k, s, e)
  {
    PulledInWhole(k);
  }

  /** Cropping keeps every sample of the new window when no point of the curve is within a tenth
      of a millisecond of its edges, except on them. */
  lemma {:induction false} ClearCropKeepsSamples(points: seq<Point>, oldStart: real, oldDuration: real, start: real,
                                                 duration: real, e: real, ps: seq<Point>)
    requires Ordered(points) && |points| > 0 && oldDuration > 0.0 && duration > 0.0 && e == start + duration
    requires ps == Moved(points, oldStart, oldDuration) && ClearOf(ps, start) && ClearOf(ps, e)
    ensures KeepsSamples(Moved(CroppedPoints(points, oldStart, oldDuration, start, duration), start, duration),
                         ps, start, e)
  {
    MovedOrdered(points, oldStart, oldDuration);
    var k := PartsExist(ps, start, e);
    ClearEdgesAreExact(ps, start, e, k);
    CropKeepsSamplesIff(points, oldStart, oldDuration, start, duration, e, ps, k,
                        Moved(CroppedPoints(points, oldStart, oldDuration, start, duration), start, duration));
  }

  /** The same, short of the end of the new window. */
  lemma {:induction false} CropKeepsInsideIff(points: seq<Point>, oldStart: real, oldDuration: real, start: real,
                                              duration: real, e: real, ps: seq<Point>, k: Parts, cropped: seq<Point>)
    requires Ordered(points) && |points| > 0 && oldDuration > 0.0 && duration > 0.0 && e == start + duration
    requires ps == Moved(points, oldStart, oldDuration) && IsParts(ps, start, e, k)
    requires cropped == Moved(CroppedPoints(points, oldStart, oldDuration, start, duration), start, duration)
    ensures ExactInside(k, start, e) <==> KeepsSamplesInside(cropped, ps, start, e)
  {
    var vs, ve := CroppedIsWindowed(points, oldStart, oldDuration, start, duration, e, ps, k, cropped);
    WindowKeepsInsideIff(ps, start, e, k, vs, ve, cropped);
  }

  /** A curve that rises from 0 at half its length to 1 at its end. */
  const RISING := [Point(0.5, 0.0), Point(1.0, 1.0)]

  lemma RisingInParts()
    ensures Moved(RISING, 0.0, 1.0) == RISING
    ensures IsParts(RISING, 0.5001, 1.0, Parts([], [Point(0.5, 0.0)], [Point(1.0, 1.0)], [], []))
  {
    var k := Parts([], [Point(0.5, 0.0)], [Point(1.0, 1.0)], [], []);
    assert RISING[1..] == [Point(1.0, 1.0)];
    assert Moved(RISING[1..], 0.0, 1.0) == [Point(1.0, 1.0)];
    assert k.Whole() == RISING;
  }

  /** Cropped the tolerance right of its first point, which is pulled onto the new edge, it is
      wrong from there on. */
  lemma {:induction false} ToleranceCanBreak()
    ensures !KeepsSamples(Moved(CroppedPoints(RISING, 0.0, 1.0, 0.5001, 0.4999), 0.5001, 0.4999),
                          Moved(RISING, 0.0, 1.0), 0.5001, 1.0)
  {
    var k := Parts([], [Point(0.5, 0.0)], [Point(1.0, 1.0)], [], []);
    RisingInParts();
    assert k.Rest() == [Point(1.0, 1.0)];
    CropKeepsSamplesIff(RISING, 0.0, 1.0, 0.5001, 0.4999, 1.0, Moved(RISING, 0.0, 1.0), k,
                        Moved(CroppedPoints(RISING, 0.0, 1.0, 0.5001, 0.4999), 0.5001, 0.4999));
  }

  // ---------- A cropped curve is valid ----------

  lemma {:induction false} KeptValues(ps: seq<Point>, a: real, b: real, lo: real, hi: real)
    requires ValuesWithin(ps, lo, hi)
    ensures ValuesWithin(Kept(ps, a, b), lo, hi)
  {
    if ps != [] { KeptValues(ps[1..], a, b, lo, hi); }
  }

  lemma {:induction false} EdgePointValues(needed: bool, points: seq<Point>, start: real, duration: real, t: real,
                                           lo: real, hi: real)
    requires Ordered(points) && duration > 0.0 && ValuesWithin(points, lo, hi) && (needed ==> |points| > 0)
    ensures ValuesWithin(EdgePoint(needed, points, start, duration, t), lo, hi)
  {
    if needed {
      var u := (t - start) / duration;
      SearchAgreesWithWalk(points, u);
      SampleWithin(points, u, lo, hi);
    }
  }

  lemma ThreeValues(a: seq<Point>, b: seq<Point>, c: seq<Point>, lo: real, hi: real)
    requires ValuesWithin(a, lo, hi) && ValuesWithin(b, lo, hi) && ValuesWithin(c, lo, hi)
    ensures ValuesWithin(a + b + c, lo, hi)
  {
  }

  lemma {:induction false} CutValues(points: seq<Point>, oldStart: real, oldDuration: real, start: real, duration: real,
                                     lo: real, hi: real)
    requires Ordered(points) && oldDuration > 0.0 && duration > 0.0 && ValuesWithin(points, lo, hi)
    ensures ValuesWithin(Cut(points, oldStart, oldDuration, start, start + duration), lo, hi)
  {
    var end, timed := start + duration, Moved(points, oldStart, oldDuration);
    var kept := Kept(timed, start - CROP_TOLERANCE_SECONDS, end + CROP_TOLERANCE_SECONDS);
    var needsLead, needsTrail := NeedsLead(timed, kept, start), NeedsTrail(timed, kept, end);
    var lead := EdgePoint(needsLead, points, oldStart, oldDuration, start);
    var trail := EdgePoint(needsTrail, points, oldStart, oldDuration, end);
    assert Cut(points, oldStart, oldDuration, start, end) == lead + kept + trail;
    assert ValuesWithin(kept, lo, hi) by {
      KeptValues(timed, start - CROP_TOLERANCE_SECONDS, end + CROP_TOLERANCE_SECONDS, lo, hi);
    }
    assert ValuesWithin(lead, lo, hi) by { EdgePointValues(needsLead, points, oldStart, oldDuration, start, lo, hi); }
    assert ValuesWithin(trail, lo, hi) by { EdgePointValues(needsTrail, points, oldStart, oldDuration, end, lo, hi); }
    ThreeValues(lead, kept, trail, lo, hi);
  }

  lemma {:induction false} WindowIsOrdered(ps: seq<Point>, s: real, e: real, k: Parts, vs: real, ve: real,
                                           window: seq<Point>)
    requires Ordered(ps) && ps != [] && s < e && IsParts(ps, s, e, k) && window == Windowed(k, s, e, vs, ve)
    ensures Ordered(window) && window != []
  {
    WindowedOrdered(ps, s, e, k, vs, ve);
  }

  lemma {:induction false} CroppedInParts(points: seq<Point>, oldStart: real, oldDuration: real, start: real,
                                          duration: real, e: real, ps: seq<Point>, k: Parts, cropped: seq<Point>)
    requires Ordered(points) && |points| > 0 && oldDuration > 0.0 && duration > 0.0 && e == start + duration
    requires ps == Moved(points, oldStart, oldDuration) && IsParts(ps, start, e, k)
    requires cropped == Moved(CroppedPoints(points, oldStart, oldDuration, start, duration), start, duration)
    ensures Ordered(cropped) && cropped != []
  {
    var vs, ve := CroppedIsWindowed(points, oldStart, oldDuration, start, duration, e, ps, k, cropped);
    WindowIsOrdered(ps, start, e, k, vs, ve, cropped);
  }

  lemma {:induction false} CroppedOrdered(points: seq<Point>, oldStart: real, oldDuration: real, start: real,
                                          duration: real)
    requires Ordered(points) && |points| > 0 && oldDuration > 0.0 && duration > 0.0
    ensures |CroppedPoints(points, oldStart, oldDuration, start, duration)| > 0
    ensures Ordered(CroppedPoints(points, oldStart, oldDuration, start, duration))
  {
    var e, ps := start + duration, Moved(points, oldStart, oldDuration);
    var cropped := CroppedPoints(points, oldStart, oldDuration, start, duration);
    MovedOrdered(points, oldStart, oldDuration);
    var k := PartsExist(ps, start, e);
    CroppedInParts(points, oldStart, oldDuration, start, duration, e, ps, k, Moved(cropped, start, duration));
    MovedOrderedBack(cropped, start, duration);
  }

  /** A cropped curve is still a valid automation curve. */
  lemma {:induction false} CroppedIsValid(points: seq<Point>, oldStart: real, oldDuration: real, start: real,
                                          duration: real, lo: real, hi: real)
    requires Ordered(points) && oldDuration > 0.0 && duration > 0.0 && ValuesWithin(points, lo, hi)
    ensures Ordered(CroppedPoints(points, oldStart, oldDuration, start, duration))
    ensures PositionsWithin(CroppedPoints(points, oldStart, oldDuration, start, duration), 0.0, 1.0)
    ensures ValuesWithin(CroppedPoints(points, oldStart, oldDuration, start, duration), lo, hi)
    ensures CroppedPoints(points, oldStart, oldDuration, start, duration) == [] <==> points == []
  {
    if points != [] {
      CroppedOrdered(points, oldStart, oldDuration, start, duration);
    } else {
      assert Moved(points, oldStart, oldDuration) == [];
    }
    CutValues(points, oldStart, oldDuration, start, duration, lo, hi);
  }
}
