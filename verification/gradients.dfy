/** Gradients: putting stops in the coordinates their space interpolates in, and
    sampling between them. */
module Gradients {
  import opened Fractions
  import opened Colors
  import Curves

  datatype GradientSpace = LinearRgb | HsvSpace

  /** A color, or its coordinates in a gradient's space; red, green and blue then hold
      hue, saturation and value. */
  datatype Stop = Stop(position: real, color: Color)

  function Decode(space: GradientSpace, c: Color): Color {
    match space
    case LinearRgb => c
    case HsvSpace => Hsv(c.red, c.green, c.blue)
  }

  // ---------- Borrowing from neighbors ----------

  /** `r` is `values` with each meaningless one replaced by the meaningful one before it
      nearest, or for a leading run by the first meaningful one; nothing changes when
      none means anything. */
  ghost predicate IsBorrowed(values: seq<real>, means: seq<bool>, r: seq<real>)
    requires |values| == |means|
  {
    && |r| == |values|
    && forall i :: 0 <= i < |r| ==> IsBorrowedAt(values, means, i, r[i])
  }

  ghost predicate IsBorrowedAt(values: seq<real>, means: seq<bool>, i: nat, v: real)
    requires i < |values| == |means|
  {
    if means[i] then v == values[i]
    else if exists j :: 0 <= j < i && means[j] then
      exists j :: 0 <= j < i && means[j] && v == values[j] && forall k :: j < k < i ==> !means[k]
    else if exists j :: i < j < |means| && means[j] then
      exists j :: i < j < |means| && means[j] && v == values[j] && forall k :: i < k < j ==> !means[k]
    else v == values[i]
  }

  /** The value a meaningless one at `i` takes, given the last meaningful one before it
      or, when there is none, the first of all. */
  ghost predicate IsLast(values: seq<real>, means: seq<bool>, first: nat, i: nat, last: real)
    requires |values| == |means| && first < |values| && i <= |values|
  {
    if i <= first then last == values[first]
    else exists j :: first <= j < i && means[j] && last == values[j] && forall k :: j < k < i ==> !means[k]
  }

  lemma LastIsBorrowed(values: seq<real>, means: seq<bool>, first: nat, i: nat, last: real)
    requires |values| == |means| && first < |values| && i < |values| && means[first] && !means[i]
    requires forall k :: 0 <= k < first ==> !means[k]
    requires IsLast(values, means, first, i, last)
    ensures IsBorrowedAt(values, means, i, last)
  {
  }

  method BorrowFromNeighbors(values: array<real>, means: seq<bool>)
    requires values.Length == |means|
    modifies values
    ensures IsBorrowed(old(values[..]), means, values[..])
  {
    var first := 0;
    while first < |means| && !means[first]
      invariant 0 <= first <= |means|
      invariant forall k :: 0 <= k < first ==> !means[k]
    {
      first := first + 1;
    }
    if first == |means| {
      return;
    }
    ghost var before := values[..];
    var last, i := values[first], 0;
    while i < |means|
      invariant 0 <= i <= |means|
      invariant IsLast(before, means, first, i, last)
      invariant forall k :: 0 <= k < i ==> IsBorrowedAt(before, means, k, values[k])
      invariant forall k :: i <= k < |means| ==> values[k] == before[k]
    {
      if means[i] {
        last := values[i];
        assert before[i] == last && IsLast(before, means, first, i + 1, last);
      } else {
        LastIsBorrowed(before, means, first, i, last);
        values[i] := last;
      }
      i := i + 1;
    }
  }

  // ---------- Encoding ----------

  /** The step from one hue to the next along the shorter arc. */
  function ShorterArc(step: real): (r: real)
    ensures -0.5 <= r < 0.5
  {
    step - (step + 0.5).Floor as real
  }

  lemma ArcIsCongruent(hue: real, previous: real, original: real)
    requires Congruent(previous, original)
    ensures Congruent(previous + ShorterArc(hue - previous), hue)
  {
    var n := (hue - previous + 0.5).Floor;
    assert previous + ShorterArc(hue - previous) == Turned(hue, -n);
  }

  function HueMeans(c: Color): bool { Saturation(c) > 0.0 && Brightest(c) > 0.0 }

  function SaturationMeans(c: Color): bool { Brightest(c) > 0.0 }

  /** A hue means something unless the color is gray, a saturation unless it is black. */
  lemma MeaningIs(c: Color)
    requires NonNegative(c)
    ensures HueMeans(c) <==> !(c.red == c.green == c.blue)
    ensures SaturationMeans(c) <==> c != BLACK
  {
    if Brightest(c) != Dimmest(c) { SaturationPositive(c); }
  }

  /** The first stops in HSV: intensities as they are, saturations and hues borrowed where
      they mean nothing, and hues unwrapped along the shorter arc. */
  ghost predicate IsUnwrapped(stops: seq<Stop>, hues: seq<real>, saturations: seq<real>, r: seq<Stop>)
    requires |r| <= |stops| == |hues| == |saturations|
  {
    && (forall i :: 0 <= i < |r| ==>
          && r[i].position == stops[i].position && r[i].color.blue == Brightest(stops[i].color)
          && r[i].color.green == saturations[i] && Congruent(r[i].color.red, hues[i]))
    && (forall i, j :: 1 <= i < |r| && j == i - 1 ==> -0.5 <= r[i].color.red - r[j].color.red < 0.5)
    && (r != [] ==> r[0].color.red == hues[0])
  }

  function Hues(stops: seq<Stop>): (r: seq<real>)
    ensures |r| == |stops|
  {
    seq(|stops|, i requires 0 <= i < |stops| => Hue(stops[i].color))
  }

  function HuesMean(stops: seq<Stop>): (r: seq<bool>)
    ensures |r| == |stops|
  {
    seq(|stops|, i requires 0 <= i < |stops| => HueMeans(stops[i].color))
  }

  function Saturations(stops: seq<Stop>): (r: seq<real>)
    ensures |r| == |stops|
  {
    seq(|stops|, i requires 0 <= i < |stops| => Saturation(stops[i].color))
  }

  function SaturationsMean(stops: seq<Stop>): (r: seq<bool>)
    ensures |r| == |stops|
  {
    seq(|stops|, i requires 0 <= i < |stops| => SaturationMeans(stops[i].color))
  }

  ghost predicate IsEncodedFrom(stops: seq<Stop>, hues: seq<real>, saturations: seq<real>, r: seq<Stop>) {
    && IsBorrowed(Hues(stops), HuesMean(stops), hues)
    && IsBorrowed(Saturations(stops), SaturationsMean(stops), saturations)
    && |r| == |stops| && IsUnwrapped(stops, hues, saturations, r)
  }

  ghost predicate IsEncoded(space: GradientSpace, stops: seq<Stop>, r: seq<Stop>) {
    match space
    case LinearRgb => r == stops
    case HsvSpace => exists hues, saturations :: IsEncodedFrom(stops, hues, saturations, r)
  }

  method EncodeGradientStops(space: GradientSpace, stops: seq<Stop>) returns (r: seq<Stop>)
    ensures IsEncoded(space, stops, r)
  {
    if space == LinearRgb {
      return stops;
    }
    var n := |stops|;
    var hues := new real[n](i requires 0 <= i < n => Hue(stops[i].color));
    var saturations := new real[n](i requires 0 <= i < n => Saturation(stops[i].color));
    assert hues[..] == Hues(stops) && saturations[..] == Saturations(stops);
    BorrowFromNeighbors(hues, HuesMean(stops));
    BorrowFromNeighbors(saturations, SaturationsMean(stops));
    r := UnwrapHues(stops, hues[..], saturations[..]);
    assert IsEncodedFrom(stops, hues[..], saturations[..], r);
  }

  lemma UnwrapOneMore(stops: seq<Stop>, hues: seq<real>, saturations: seq<real>, r: seq<Stop>, next: Stop)
    requires |r| < |stops| == |hues| == |saturations| && IsUnwrapped(stops, hues, saturations, r)
    requires next.position == stops[|r|].position && next.color.blue == Brightest(stops[|r|].color)
    requires next.color.green == saturations[|r|] && Congruent(next.color.red, hues[|r|])
    requires if r == [] then next.color.red == hues[0] else -0.5 <= next.color.red - r[|r| - 1].color.red < 0.5
    ensures IsUnwrapped(stops, hues, saturations, r + [next])
  {
  }

  /** Each hue the shorter way round from the one before. */
  method UnwrapHues(stops: seq<Stop>, hues: seq<real>, saturations: seq<real>) returns (r: seq<Stop>)
    requires |hues| == |saturations| == |stops|
    ensures |r| == |stops| && IsUnwrapped(stops, hues, saturations, r)
  {
    r := [];
    if stops == [] {
      return;
    }
    var previous, i := hues[0], 0;
    assert hues[0] == Turned(hues[0], 0);
    while i < |stops|
      invariant i == |r| <= |stops| && IsUnwrapped(stops, hues, saturations, r)
      invariant if i == 0 then previous == hues[0] else previous == r[i - 1].color.red
      invariant Congruent(previous, hues[if i == 0 then 0 else i - 1])
    {
      ArcIsCongruent(hues[i], previous, hues[if i == 0 then 0 else i - 1]);
      var hue := previous + ShorterArc(hues[i] - previous);
      var next := Stop(stops[i].position, Color(hue, saturations[i], Brightest(stops[i].color)));
      UnwrapOneMore(stops, hues, saturations, r, next);
      r, previous, i := r + [next], hue, i + 1;
    }
  }

  // ---------- Every stop keeps its color ----------

  lemma BorrowedKeepsMeaning(values: seq<real>, means: seq<bool>, r: seq<real>, i: nat)
    requires |values| == |means| && IsBorrowed(values, means, r) && i < |r| && means[i]
    ensures r[i] == values[i]
  {
    assert IsBorrowedAt(values, means, i, r[i]);
  }

  lemma EncodedShape(space: GradientSpace, stops: seq<Stop>, r: seq<Stop>)
    requires IsEncoded(space, stops, r)
    ensures |r| == |stops| && forall i :: 0 <= i < |r| ==> r[i].position == stops[i].position
  {
  }

  lemma BorrowedStopDecodes(stops: seq<Stop>, hues: seq<real>, saturations: seq<real>, r: seq<Stop>, i: nat)
    requires IsEncodedFrom(stops, hues, saturations, r) && i < |stops| && NonNegative(stops[i].color)
    ensures Decode(HsvSpace, r[i].color) == stops[i].color
  {
    var c := stops[i].color;
    if SaturationMeans(c) { BorrowedKeepsMeaning(Saturations(stops), SaturationsMean(stops), saturations, i); }
    if HueMeans(c) { BorrowedKeepsMeaning(Hues(stops), HuesMean(stops), hues, i); }
    HsvNames(c, r[i].color.red, r[i].color.green);
  }

  /** Whatever hue and saturation a stop borrowed, its coordinates still name its color. */
  lemma EncodedStopDecodes(space: GradientSpace, stops: seq<Stop>, r: seq<Stop>, i: nat)
    requires IsEncoded(space, stops, r) && i < |stops| && NonNegative(stops[i].color)
    ensures |r| == |stops| && Decode(space, r[i].color) == stops[i].color
  {
    if space == HsvSpace {
      var hues, saturations :| IsEncodedFrom(stops, hues, saturations, r);
      BorrowedStopDecodes(stops, hues, saturations, r, i);
    }
  }

  // ---------- Sampling ----------

  function MixChannel(a: real, b: real, t: real): real { a + (b - a) * t }

  function Mix(a: Color, b: Color, t: real): Color {
    Color(MixChannel(a.red, b.red, t), MixChannel(a.green, b.green, t), MixChannel(a.blue, b.blue, t))
  }

  ghost predicate Ordered(stops: seq<Stop>) {
    forall i, j :: 0 <= i <= j < |stops| ==> stops[i].position <= stops[j].position
  }

  /** Stop `i` is the last one at or before `x`. */
  ghost predicate IsLastStop(stops: seq<Stop>, x: real, i: nat) {
    i < |stops| && stops[i].position <= x && (i + 1 < |stops| ==> x < stops[i + 1].position)
  }

  /** How far `x` is from `a` on the way to `b`. */
  function Fraction(a: Stop, b: Stop, x: real): real
    requires a.position < b.position
  {
    (x - a.position) * (1.0 / (b.position - a.position))
  }

  datatype Channel = RedChannel | GreenChannel | BlueChannel
  {
    function Of(c: Color): real {
      match this
      case RedChannel => c.red
      case GreenChannel => c.green
      case BlueChannel => c.blue
    }
  }

  /** One channel of the stops, as a curve over their positions. */
  function Track(stops: seq<Stop>, channel: Channel): (r: seq<Curves.Point>)
    ensures |r| == |stops|
  {
    seq(|stops|, i requires 0 <= i < |stops| => Curves.Point(stops[i].position, channel.Of(stops[i].color)))
  }

  /** The coordinates of the gradient at `x`: each is the value there of the curve through the stops'. */
  ghost predicate IsCoordinates(stops: seq<Stop>, x: real, c: Color)
    requires stops != []
  {
    forall channel: Channel :: channel.Of(c) == Curves.Sample(Track(stops, channel), x)
  }

  lemma {:induction false} PointsOrdered(ps: seq<Curves.Point>)
    requires forall i, j :: 0 <= i <= j < |ps| ==> ps[i].position <= ps[j].position
    ensures Curves.Ordered(ps)
  {
    if |ps| >= 2 {
      PointsOrdered(ps[1..]);
    }
  }

  lemma MixIsSegment(a: Stop, b: Stop, x: real, channel: Channel)
    requires a.position < b.position
    ensures channel.Of(Mix(a.color, b.color, Fraction(a, b, x)))
         == Curves.Segment(Curves.Point(a.position, channel.Of(a.color)),
                           Curves.Point(b.position, channel.Of(b.color)), x)
  {
    var dx, run, rise := x - a.position, b.position - a.position, channel.Of(b.color) - channel.Of(a.color);
    var k := 1.0 / run;
    ScaledFraction(rise, 1.0, run);
    assert rise * k == rise / run;
    Associate(rise, k, dx);
    Commute(dx, k);
    Commute(rise / run, dx);
  }

  /** Between stop `i` and the next, mixing the two gives the coordinates; from the last stop on, they are its own. */
  lemma {:induction false} MixedIsCoordinates(stops: seq<Stop>, x: real, i: nat, c: Color)
    requires stops != [] && Ordered(stops) && IsLastStop(stops, x, i)
    requires c == if i + 1 == |stops| then stops[i].color
                  else Mix(stops[i].color, stops[i + 1].color, Fraction(stops[i], stops[i + 1], x))
    ensures IsCoordinates(stops, x, c)
  {
    forall channel: Channel ensures channel.Of(c) == Curves.Sample(Track(stops, channel), x) {
      var track := Track(stops, channel);
      PointsOrdered(track);
      if i + 1 == |stops| {
        Curves.SampleAfterLast(track, x);
      } else {
        Curves.SampleFromSegment(track, i, x);
        MixIsSegment(stops[i], stops[i + 1], x, channel);
      }
    }
  }

  method SampleGradientStops(space: GradientSpace, stops: seq<Stop>, x: real) returns (c: Color)
    requires stops != [] && Ordered(stops)
    ensures exists k :: IsCoordinates(stops, x, k) && c == Decode(space, k)
  {
    var first, last := stops[0], stops[|stops| - 1];
    if |stops| == 1 || x < first.position {
      assert IsCoordinates(stops, x, first.color);
      return Decode(space, first.color);
    }
    if last.position <= x {
      MixedIsCoordinates(stops, x, |stops| - 1, last.color);
      return Decode(space, last.color);
    }
    var index := 1;
    while stops[index].position <= x
      invariant 1 <= index < |stops| && stops[index - 1].position <= x
      decreases |stops| - index
    {
      index := index + 1;
    }
    var previous, stop := stops[index - 1], stops[index];
    var mixed := Mix(previous.color, stop.color, Fraction(previous, stop, x));
    MixedIsCoordinates(stops, x, index - 1, mixed);
    c := Decode(space, mixed);
  }

  lemma {:induction false} CoordinatesAtStop(stops: seq<Stop>, x: real, i: nat, c: Color)
    requires stops != [] && Ordered(stops) && IsLastStop(stops, x, i) && stops[i].position == x
    requires IsCoordinates(stops, x, c)
    ensures c == stops[i].color
  {
    forall channel: Channel ensures channel.Of(c) == channel.Of(stops[i].color) {
      var track := Track(stops, channel);
      PointsOrdered(track);
      if i + 1 == |stops| {
        Curves.SampleAfterLast(track, x);
      } else {
        Curves.SampleFromSegment(track, i, x);
      }
    }
    assert RedChannel.Of(c) == RedChannel.Of(stops[i].color);
    assert GreenChannel.Of(c) == GreenChannel.Of(stops[i].color);
    assert BlueChannel.Of(c) == BlueChannel.Of(stops[i].color);
  }

  /** The color `x` is meant to have, when it is the position of a stop: of several stops
      there the last one's. */
  ghost predicate IsStopColor(stops: seq<Stop>, x: real, c: Color) {
    forall i: nat :: IsLastStop(stops, x, i) && stops[i].position == x && NonNegative(stops[i].color) ==>
      c == stops[i].color
  }

  lemma AtStop(space: GradientSpace, stops: seq<Stop>, encoded: seq<Stop>, x: real, i: nat, c: Color)
    requires IsEncoded(space, stops, encoded) && encoded != [] && IsCoordinates(encoded, x, c)
    requires Ordered(stops) && IsLastStop(stops, x, i) && stops[i].position == x && NonNegative(stops[i].color)
    ensures Decode(space, c) == stops[i].color
  {
    EncodedShape(space, stops, encoded);
    CoordinatesAtStop(encoded, x, i, c);
    EncodedStopDecodes(space, stops, encoded, i);
  }

  /** At a stop's position the gradient has the color of the last stop there. */
  lemma AtStopIsStopColor(space: GradientSpace, stops: seq<Stop>, encoded: seq<Stop>, x: real, c: Color)
    requires IsEncoded(space, stops, encoded) && encoded != [] && Ordered(stops) && IsCoordinates(encoded, x, c)
    ensures IsStopColor(stops, x, Decode(space, c))
  {
    forall i: nat | IsLastStop(stops, x, i) && stops[i].position == x && NonNegative(stops[i].color)
      ensures Decode(space, c) == stops[i].color
    {
      AtStop(space, stops, encoded, x, i, c);
    }
  }

  ghost predicate IsSample(space: GradientSpace, stops: seq<Stop>, x: real, c: Color) {
    exists r, k :: IsEncoded(space, stops, r) && r != [] && IsCoordinates(r, x, k) && c == Decode(space, k)
  }

  /** A gradient's color at `x`; black without stops. In linear RGB every channel is the value at `x`
      of the curve through the stops'. */
  method SampleGradient(space: GradientSpace, stops: seq<Stop>, x: real) returns (c: Color)
    requires Ordered(stops)
    ensures stops == [] ==> c == BLACK
    ensures stops != [] ==> IsSample(space, stops, x, c)
    ensures stops != [] && space == LinearRgb ==>
              forall channel: Channel :: channel.Of(c) == Curves.Sample(Track(stops, channel), x)
    ensures IsStopColor(stops, x, c)
  {
    if stops == [] {
      return BLACK;
    }
    var encoded := EncodeGradientStops(space, stops);
    EncodedShape(space, stops, encoded);
    c := SampleGradientStops(space, encoded, x);
    ghost var k :| IsCoordinates(encoded, x, k) && c == Decode(space, k);
    AtStopIsStopColor(space, stops, encoded, x, k);
  }
}
