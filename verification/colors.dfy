/** Hue, saturation and intensity of colors, and the colors they name. */
module Colors {
  import opened Fractions

  datatype Color = Color(red: real, green: real, blue: real)

  const BLACK := Color(0.0, 0.0, 0.0)

  function Brightest(c: Color): real {
    var m := if c.red < c.green then c.green else c.red;
    if m < c.blue then c.blue else m
  }

  function Dimmest(c: Color): real {
    var m := if c.green < c.red then c.green else c.red;
    if c.blue < m then c.blue else m
  }

  predicate NonNegative(c: Color) {
    0.0 <= c.red && 0.0 <= c.green && 0.0 <= c.blue
  }

  /** The sixth of the hue circle a color that is not gray lies in, from -1 to 5. */
  function Sector(c: Color): real
    requires Brightest(c) != Dimmest(c)
  {
    var max, chroma := Brightest(c), Brightest(c) - Dimmest(c);
    if max == c.red then (c.green - c.blue) / chroma
    else if max == c.green then (c.blue - c.red) / chroma + 2.0
    else (c.red - c.green) / chroma + 4.0
  }

  /** Hue in turns; grays have hue zero. */
  function Hue(c: Color): real {
    if Brightest(c) == Dimmest(c) then 0.0
    else
      var hue := Sector(c) / 6.0;
      if hue < 0.0 then hue + 1.0 else hue
  }

  /** Saturation; black has saturation zero. */
  function Saturation(c: Color): real {
    if Brightest(c) == 0.0 then 0.0 else (Brightest(c) - Dimmest(c)) / Brightest(c)
  }

  function Turn(hue: real): real {
    hue - hue.Floor as real
  }

  function SectorColor(sector: real, chroma: real, base: real): Color {
    var whole := sector.Floor;
    var rise := sector - whole as real;
    var up, down := chroma * rise, chroma * (1.0 - rise);
    var c := match whole
             case 0 => Color(chroma, up, 0.0)
             case 1 => Color(down, chroma, 0.0)
             case 2 => Color(0.0, chroma, up)
             case 3 => Color(0.0, down, chroma)
             case 4 => Color(up, 0.0, chroma)
             case _ => Color(chroma, 0.0, down);
    Color(c.red + base, c.green + base, c.blue + base)
  }

  /** The color of `hue` with `chroma` above the dimmest channel `base`. */
  function HueColor(hue: real, chroma: real, base: real): Color {
    SectorColor(Turn(hue) * 6.0, chroma, base)
  }

  function Hsv(h: real, s: real, v: real): Color {
    HueColor(h, v * s, v - v * s)
  }

  /** `c` with its hue replaced by `hue`, or shifted by it when `shift`. */
  function Recolor(c: Color, hue: real, shift: bool): Color {
    HueColor(if shift then Hue(c) + hue else hue, Brightest(c) - Dimmest(c), Dimmest(c))
  }

  // ---------- A color is the color of its hue ----------

  lemma Ratio(n: real, d: real, q: real)
    requires d > 0.0 && -d <= n <= d && q == n / d
    ensures d * q == n && -1.0 <= q <= 1.0
    ensures q < 0.0 <==> n < 0.0
    ensures (q == 1.0 <==> n == d) && (q == -1.0 <==> n == -d)
  {
    assert q * d == n;
    Commute(q, d);
    Scales(q, 0.0, d);
    Scales(q, 1.0, d);
    Scales(-1.0, q, d);
  }

  /** The channels of a sector color, by which sixth it is in. */
  lemma {:induction false} SectorChannels(whole: int, rise: real, chroma: real, base: real)
    requires 0 <= whole <= 5 && 0.0 <= rise < 1.0
    ensures SectorColor(whole as real + rise, chroma, base)
         == var up, down := chroma * rise, chroma * (1.0 - rise);
            if whole == 0 then Color(chroma + base, up + base, base)
            else if whole == 1 then Color(down + base, chroma + base, base)
            else if whole == 2 then Color(base, chroma + base, up + base)
            else if whole == 3 then Color(base, down + base, chroma + base)
            else if whole == 4 then Color(up + base, base, chroma + base)
            else Color(chroma + base, base, down + base)
  {
    assert (whole as real + rise).Floor == whole;
  }

  lemma OneMinus(chroma: real, rise: real)
    ensures chroma * (1.0 - rise) == chroma - chroma * rise
    ensures chroma * (rise + 1.0) == chroma * rise + chroma
  {
  }

  /** Where on the circle a color lies: its sector, taken once around if negative. */
  function Around(c: Color): real
    requires Brightest(c) != Dimmest(c)
  {
    if Sector(c) < 0.0 then Sector(c) + 6.0 else Sector(c)
  }

  lemma RedColors(c: Color)
    requires Brightest(c) != Dimmest(c) && Brightest(c) == c.red
    ensures 0.0 <= Around(c) < 6.0
    ensures SectorColor(Around(c), Brightest(c) - Dimmest(c), Dimmest(c)) == c
  {
    var chroma, base, n := Brightest(c) - Dimmest(c), Dimmest(c), c.green - c.blue;
    var q := n / chroma;
    Ratio(n, chroma, q);
    if q < 0.0 {
      SectorChannels(5, q + 1.0, chroma, base);
      OneMinus(chroma, q + 1.0);
      OneMinus(chroma, q);
    } else if q < 1.0 {
      SectorChannels(0, q, chroma, base);
    } else {
      SectorChannels(1, 0.0, chroma, base);
    }
  }

  lemma GreenColors(c: Color)
    requires Brightest(c) != Dimmest(c) && Brightest(c) == c.green && Brightest(c) != c.red
    ensures 0.0 <= Around(c) < 6.0
    ensures SectorColor(Around(c), Brightest(c) - Dimmest(c), Dimmest(c)) == c
  {
    var chroma, base, n := Brightest(c) - Dimmest(c), Dimmest(c), c.blue - c.red;
    var q := n / chroma;
    Ratio(n, chroma, q);
    if q < 0.0 {
      SectorChannels(1, q + 1.0, chroma, base);
      OneMinus(chroma, q + 1.0);
      OneMinus(chroma, q);
    } else if q < 1.0 {
      SectorChannels(2, q, chroma, base);
    } else {
      SectorChannels(3, 0.0, chroma, base);
    }
  }

  lemma BlueColors(c: Color)
    requires Brightest(c) != Dimmest(c) && Brightest(c) != c.green && Brightest(c) != c.red
    ensures 0.0 <= Around(c) < 6.0
    ensures SectorColor(Around(c), Brightest(c) - Dimmest(c), Dimmest(c)) == c
  {
    var chroma, base, n := Brightest(c) - Dimmest(c), Dimmest(c), c.red - c.green;
    var q := n / chroma;
    Ratio(n, chroma, q);
    if q < 0.0 {
      SectorChannels(3, q + 1.0, chroma, base);
      OneMinus(chroma, q + 1.0);
      OneMinus(chroma, q);
    } else {
      SectorChannels(4, q, chroma, base);
    }
  }

  lemma AroundColors(c: Color)
    requires Brightest(c) != Dimmest(c)
    ensures 0.0 <= Around(c) < 6.0
    ensures SectorColor(Around(c), Brightest(c) - Dimmest(c), Dimmest(c)) == c
  {
    if Brightest(c) == c.red {
      RedColors(c);
    } else if Brightest(c) == c.green {
      GreenColors(c);
    } else {
      BlueColors(c);
    }
  }

  lemma HueIsAround(c: Color)
    requires Brightest(c) != Dimmest(c)
    ensures Hue(c) * 6.0 == Around(c) && 0.0 <= Hue(c) < 1.0
  {
    AroundColors(c);
  }

  function Turned(hue: real, turns: int): real { hue + turns as real }

  /** Hues that differ by whole turns. */
  ghost predicate Congruent(a: real, b: real) {
    exists n: int :: a == Turned(b, n)
  }

  lemma SameTurn(a: real, b: real)
    requires Congruent(a, b)
    ensures Turn(a) == Turn(b)
  {
    var n: int :| a == Turned(b, n);
    assert a.Floor == b.Floor + n;
  }

  lemma GrayColor(hue: real, base: real)
    ensures HueColor(hue, 0.0, base) == Color(base, base, base)
  {
    var sector := Turn(hue) * 6.0;
    var rise := sector - sector.Floor as real;
    assert 0.0 * rise == 0.0 && 0.0 * (1.0 - rise) == 0.0;
  }

  /** Every color is the color of its own hue, of any number of turns more. */
  lemma HueColorOfHue(c: Color, hue: real)
    requires Brightest(c) != Dimmest(c) ==> Congruent(hue, Hue(c))
    ensures HueColor(hue, Brightest(c) - Dimmest(c), Dimmest(c)) == c
  {
    if Brightest(c) == Dimmest(c) {
      GrayColor(hue, Dimmest(c));
    } else {
      HueIsAround(c);
      AroundColors(c);
      SameTurn(hue, Hue(c));
      assert Turn(Hue(c)) == Hue(c);
    }
  }

  // ---------- A hue is the hue of its color ----------

  lemma Fraction(part: real, chroma: real, f: real)
    requires chroma > 0.0 && part == chroma * f
    ensures part / chroma == f
  {
    CancelFactor(chroma, f);
  }

  lemma Part(chroma: real, rise: real, up: real, down: real)
    requires chroma > 0.0 && 0.0 <= rise < 1.0 && up == chroma * rise && down == chroma * (1.0 - rise)
    ensures 0.0 <= up < chroma && 0.0 < down <= chroma
    ensures up / chroma == rise && down / chroma == 1.0 - rise
    ensures rise == 0.0 <==> down == chroma
  {
    Commute(chroma, rise);
    Scales(0.0, rise, chroma);
    Scales(rise, 1.0, chroma);
    OneMinus(chroma, rise);
    Fraction(up, chroma, rise);
    Fraction(down, chroma, 1.0 - rise);
  }

  lemma NegatedFraction(n: real, d: real)
    requires d != 0.0
    ensures (-n) / d == -(n / d)
  {
    var q := n / d;
    assert q * d == n;
    MulNegate'(q, d);
    Cancel((-n) / d, -q, d);
  }

  lemma SectorOfSectorColor(whole: int, rise: real, chroma: real, base: real, c: Color)
    requires 0 <= whole <= 5 && 0.0 <= rise < 1.0 && chroma > 0.0
    requires c == SectorColor(whole as real + rise, chroma, base)
    ensures Brightest(c) == chroma + base && Dimmest(c) == base
    ensures Sector(c) == if whole == 5 then rise - 1.0 else whole as real + rise
  {
    SectorChannels(whole, rise, chroma, base);
    var up, down := chroma * rise, chroma * (1.0 - rise);
    Part(chroma, rise, up, down);
    NegatedFraction(down, chroma);
    CancelFactor(chroma, 1.0);
  }

  lemma {:induction false} HueOfHueColor(hue: real, chroma: real, base: real)
    requires chroma > 0.0
    ensures var c := HueColor(hue, chroma, base);
            Brightest(c) == chroma + base && Dimmest(c) == base && Hue(c) == Turn(hue)
  {
    var sector := Turn(hue) * 6.0;
    var whole := sector.Floor;
    SectorOfSectorColor(whole, sector - whole as real, chroma, base, HueColor(hue, chroma, base));
  }

  /** Recoloring keeps how bright and how dim a color is, whatever the hue. */
  lemma RecolorKeeps(c: Color, hue: real, shift: bool)
    ensures Brightest(Recolor(c, hue, shift)) == Brightest(c)
    ensures Dimmest(Recolor(c, hue, shift)) == Dimmest(c)
  {
    var h := if shift then Hue(c) + hue else hue;
    if Brightest(c) == Dimmest(c) {
      GrayColor(h, Dimmest(c));
    } else {
      HueOfHueColor(h, Brightest(c) - Dimmest(c), Dimmest(c));
    }
  }

  /** Recolored, a color that is not gray has the hue asked for, or its own and the shift, in 0 up to 1. */
  lemma RecolorTurns(c: Color, hue: real, shift: bool)
    requires Brightest(c) != Dimmest(c)
    ensures Hue(Recolor(c, hue, true)) == Turn(Hue(c) + hue)
    ensures Hue(Recolor(c, hue, false)) == Turn(hue)
    ensures 0.0 <= Hue(Recolor(c, hue, shift)) < 1.0
    ensures Congruent(Hue(Recolor(c, hue, shift)), if shift then Hue(c) + hue else hue)
  {
    var chroma, base := Brightest(c) - Dimmest(c), Dimmest(c);
    HueOfHueColor(Hue(c) + hue, chroma, base);
    HueOfHueColor(hue, chroma, base);
    var h := if shift then Hue(c) + hue else hue;
    assert Turn(h) == Turned(h, -h.Floor);
  }

  /** Red, green and blue are a third of a turn apart. */
  lemma HuesOfPrimaries()
    ensures Hue(Color(1.0, 0.0, 0.0)) == 0.0
    ensures Hue(Color(0.0, 1.0, 0.0)) == 1.0 / 3.0
    ensures Hue(Color(0.0, 0.0, 1.0)) == 2.0 / 3.0
  {
  }

  /** Two shifts of hue make one shift by their sum. */
  lemma ShiftsAdd(c: Color, a: real, b: real)
    ensures Recolor(Recolor(c, a, true), b, true) == Recolor(c, a + b, true)
  {
    RecolorKeeps(c, a, true);
    if Brightest(c) == Dimmest(c) {
      GrayColor(Hue(c) + a, Dimmest(c));
      GrayColor(Hue(Recolor(c, a, true)) + b, Dimmest(c));
      GrayColor(Hue(c) + (a + b), Dimmest(c));
    } else {
      var h := Hue(c) + a;
      HueOfHueColor(h, Brightest(c) - Dimmest(c), Dimmest(c));
      assert Turn(h) + b == Turned(Hue(c) + (a + b), -h.Floor);
      SameTurn(Turn(h) + b, Hue(c) + (a + b));
    }
  }

  /** A shift by whole turns, and replacing the hue by itself, change nothing. */
  lemma WholeTurnsDoNothing(c: Color, turns: int)
    ensures Recolor(c, turns as real, true) == c && Recolor(c, Hue(c), false) == c
  {
    assert Hue(c) + turns as real == Turned(Hue(c), turns);
    assert Hue(c) == Turned(Hue(c), 0);
    HueColorOfHue(c, Hue(c) + turns as real);
    HueColorOfHue(c, Hue(c));
  }

  lemma ChromaOfSaturation(c: Color)
    requires NonNegative(c)
    ensures Brightest(c) * Saturation(c) == Brightest(c) - Dimmest(c)
  {
    if Brightest(c) != 0.0 {
      var s := Saturation(c);
      assert s * Brightest(c) == Brightest(c) - Dimmest(c);
      Commute(s, Brightest(c));
    }
  }

  lemma HsvWithChroma(h: real, s: real, v: real, chroma: real)
    requires v * s == chroma
    ensures Hsv(h, s, v) == HueColor(h, chroma, v - chroma)
  {
  }

  lemma ZeroTimes(s: real)
    ensures 0.0 * s == 0.0
  {
  }

  lemma HueMatters(c: Color, h: real)
    requires NonNegative(c) && Brightest(c) > 0.0 && (Saturation(c) > 0.0 ==> Congruent(h, Hue(c)))
    ensures HueColor(h, Brightest(c) - Dimmest(c), Dimmest(c)) == c
  {
    if Brightest(c) != Dimmest(c) { SaturationPositive(c); }
    HueColorOfHue(c, h);
  }

  /** Hue, saturation and intensity name a color even when the hue of a gray, and the
      hue and saturation of black, are anything at all. */
  lemma HsvNames(c: Color, h: real, s: real)
    requires NonNegative(c)
    requires Brightest(c) > 0.0 ==> s == Saturation(c)
    requires Brightest(c) > 0.0 && Saturation(c) > 0.0 ==> Congruent(h, Hue(c))
    ensures Hsv(h, s, Brightest(c)) == c
  {
    if Brightest(c) == 0.0 {
      ZeroTimes(s);
      HsvWithChroma(h, s, Brightest(c), 0.0);
      GrayColor(h, 0.0);
    } else {
      ChromaOfSaturation(c);
      HsvWithChroma(h, s, Brightest(c), Brightest(c) - Dimmest(c));
      HueMatters(c, h);
    }
  }

  lemma SaturationOf(c: Color, s: real)
    requires Brightest(c) > 0.0 && Brightest(c) - Dimmest(c) == Brightest(c) * s
    ensures Saturation(c) == s
  {
    CancelFactor(Brightest(c), s);
  }

  lemma {:induction false} HueColorHas(h: real, chroma: real, v: real, s: real)
    requires 0.0 < chroma <= v && chroma == v * s
    ensures var c := HueColor(h, chroma, v - chroma);
            NonNegative(c) && Hue(c) == Turn(h) && Saturation(c) == s && Brightest(c) == v
  {
    HueOfHueColor(h, chroma, v - chroma);
    SaturationOf(HueColor(h, chroma, v - chroma), s);
  }

  /** And a color named by hue, saturation and intensity has them, the hue within one turn. */
  lemma {:induction false} HsvHas(h: real, s: real, v: real)
    requires 0.0 < s <= 1.0 && 0.0 < v
    ensures var c := Hsv(h, s, v);
            NonNegative(c) && Hue(c) == Turn(h) && Saturation(c) == s && Brightest(c) == v
  {
    var chroma := v * s;
    assert 0.0 < chroma <= v by {
      Positive(v, s);
      Commute(v, s);
      Scales(s, 1.0, v);
    }
    HsvWithChroma(h, s, v, chroma);
    HueColorHas(h, chroma, v, s);
  }

  lemma SaturationPositive(c: Color)
    requires NonNegative(c) && Brightest(c) != Dimmest(c)
    ensures Saturation(c) > 0.0
  {
    var s := Saturation(c);
    assert s * Brightest(c) == Brightest(c) - Dimmest(c);
    Scales(s, 0.0, Brightest(c));
  }
}
