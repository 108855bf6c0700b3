/** The few facts about products and quotients of reals the curve proofs use. */
module Fractions {

  lemma Positive(a: real, b: real)
    requires a > 0.0 && b > 0.0
    ensures a * b > 0.0
  {
  }

  lemma Distribute(a: real, b: real, c: real)
    ensures (a + b) * c == a * c + b * c
  {
  }

  lemma Commute(a: real, b: real)
    ensures a * b == b * a
  {
  }

  lemma Associate(a: real, b: real, c: real)
    ensures (a * b) * c == a * (b * c)
  {
  }

  lemma MulNegate(a: real, b: real)
    ensures a * -b == -(a * b)
  {
  }

  lemma MulNegate'(a: real, b: real)
    ensures -a * b == -(a * b)
  {
  }

  /** Scaling by a positive number keeps the order. */
  lemma Scales(a: real, b: real, scale: real)
    requires scale > 0.0
    ensures a <= b <==> a * scale <= b * scale
    ensures a < b <==> a * scale < b * scale
  {
    var d := b - a;
    Distribute(a, d, scale);
    if d > 0.0 {
      Positive(d, scale);
    } else if d < 0.0 {
      Positive(-d, scale);
      MulNegate'(d, scale);
    }
  }

  lemma Cancel(a: real, b: real, d: real)
    requires d != 0.0 && a * d == b * d
    ensures a == b
  {
    if d > 0.0 {
      Scales(a, b, d);
    } else {
      MulNegate(a, d);
      MulNegate(b, d);
      Scales(a, b, -d);
    }
  }

  lemma CancelLeft(d: real, a: real, b: real)
    requires d != 0.0 && d * a == d * b
    ensures a == b
  {
    Commute(d, a);
    Commute(d, b);
    Cancel(a, b, d);
  }

  /** A nonzero rise over two different runs gives different slopes. */
  lemma SlopesDiffer(rise: real, near: real, far: real)
    requires rise != 0.0 && near != far && near != 0.0 && far != 0.0
    ensures rise / near != rise / far
  {
    var k, k' := rise / near, rise / far;
    assert k * near == rise && k' * far == rise;
    if k == k' { CancelLeft(k, near, far); }
  }

  lemma CancelFactor(d: real, k: real)
    requires d != 0.0
    ensures (d * k) / d == k
  {
    var q := (d * k) / d;
    assert q * d == d * k;
    Commute(d, k);
    Cancel(q, k, d);
  }

  lemma ScaledFraction(a: real, b: real, c: real)
    requires c != 0.0
    ensures a * (b / c) == (a / c) * b
  {
    var q, r := b / c, a / c;
    assert q * c == b && r * c == a;
    Associate(a, q, c);
    Associate(r, b, c);
    Commute(b, c);
    Associate(r, c, b);
    Cancel(a * q, r * b, c);
  }

  lemma SlopeScaled(rise: real, run: real, scale: real)
    requires run > 0.0 && scale > 0.0
    ensures run * scale > 0.0
    ensures rise / (run * scale) * scale == rise / run
  {
    Positive(run, scale);
    var q := rise / (run * scale);
    assert q * (run * scale) == rise;
    Commute(run, scale);
    Associate(q, scale, run);
    assert rise / run * run == rise;
    Cancel(q * scale, rise / run, run);
  }

  lemma FractionWithin(n: real, d: real)
    requires 0.0 <= n <= d && 0.0 < d
    ensures 0.0 <= n / d <= 1.0
  {
    var f := n / d;
    assert f * d == n;
    Scales(f, 0.0, d);
    Scales(f, 1.0, d);
  }

  lemma PartOf(f: real, d: real)
    requires 0.0 <= f <= 1.0 && 0.0 <= d
    ensures 0.0 <= f * d <= d
  {
    if d > 0.0 {
      Scales(0.0, f, d);
      Scales(f, 1.0, d);
    }
  }
}
