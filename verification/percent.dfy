/** Whole-number percentages as the source displays them: `Math.round` of a
    ratio times 100, and `toFixed(0)` of a non-negative percentage. */
module Percent {

  /** `Math.round` on a real: the integer nearest to `x`, halves rounding up. */
  function MathRound(x: real): int
  {
    (x + 0.5).Floor
  }

  /** `Math.round(part / whole * 100)`, computed exactly on integers: the
      percentage nearest to the ratio, halves rounding up; it lies in
      `[0, 100]` whenever `part <= whole`. */
  function RoundPercent(part: nat, whole: nat): (r: int)
    requires whole > 0
    ensures r == MathRound(100.0 * (part as real) / (whole as real))
    ensures 0 <= r && (part <= whole ==> r <= 100)
    ensures part == 0 ==> r == 0
    ensures part == whole ==> r == 100
  {
    HalfShift(part, whole);
    FloorOfQuotient(200 * part + whole, 2 * whole);
    RoundPercentBounds(part, whole);
    (200 * part + whole) / (2 * whole)
  }

  /** A rate that is 0 when there is nothing to divide by. */
  function Rate(part: nat, whole: nat): (r: int)
    ensures whole == 0 ==> r == 0
    ensures whole > 0 ==> r == MathRound(100.0 * (part as real) / (whole as real))
    ensures part <= whole ==> 0 <= r <= 100
  {
    if whole > 0 then RoundPercent(part, whole) else 0
  }

  // Arithmetic facts behind RoundPercent.

  lemma CastMul(a: int, b: int)
    ensures (a * b) as real == (a as real) * (b as real)
  {
  }

  lemma MulZero(a: real, b: real)
    requires b != 0.0 && a * b == 0.0
    ensures a == 0.0
  {
  }

  lemma MulNeg(a: real, b: real)
    requires a < 0.0 && b > 0.0
    ensures a * b < 0.0
  {
  }

  lemma MulMono(d: nat, a: int, b: int)
    requires a <= b
    ensures d * a <= d * b
  {
  }

  lemma DivAtLeast(a: real, b: real, c: real)
    requires b > 0.0 && a >= c * b
    ensures a / b >= c
  {
  }

  lemma DivAtMostReal(a: real, b: real, c: real)
    requires b > 0.0 && a <= c * b
    ensures a / b <= c
  {
  }

  lemma DivBelow(a: real, b: real, c: real)
    requires b > 0.0 && a < c * b
    ensures a / b < c
  {
    if a / b >= c {
      assert (a / b - c) * b == a - c * b;
      MulNeg(c - a / b, b);
    }
  }

  /** The floor of a non-negative rational is integer division. */
  lemma FloorOfQuotient(p: nat, q: nat)
    requires q > 0
    ensures (p as real / q as real).Floor == p / q
  {
    var k := p / q;
    assert p == k * q + p % q;
    CastMul(k, q);
    CastMul(k + 1, q);
    DivAtLeast(p as real, q as real, k as real);
    DivBelow(p as real, q as real, (k + 1) as real);
  }

  /** Adding one half to `100·part/whole` gives `(200·part + whole) / (2·whole)`. */
  lemma HalfShift(part: nat, whole: nat)
    requires whole > 0
    ensures 100.0 * (part as real) / (whole as real) + 0.5 == (200 * part + whole) as real / (2 * whole) as real
  {
    var w := whole as real;
    var p := part as real;
    CastMul(200, part);
    CastMul(2, whole);
    var x := 100.0 * p / w;
    var y := (200.0 * p + w) / (2.0 * w);
    assert x * w == 100.0 * p;
    assert y * (2.0 * w) == 200.0 * p + w;
    assert (x + 0.5 - y) * (2.0 * w) == 0.0;
    MulZero(x + 0.5 - y, 2.0 * w);
  }

  lemma DivAtMost(n: nat, d: nat, c: nat)
    requires d > 0 && n < d * (c + 1)
    ensures n / d <= c
  {
    assert d * (n / d) <= n;
  }

  lemma DivExact(d: nat, c: nat, extra: nat)
    requires d > 0 && extra < d
    ensures (d * c + extra) / d == c
  {
    var n := d * c + extra;
    var q := n / d;
    assert d * q + n % d == n;
    if q > c {
      MulMono(d, c + 1, q);
    } else if q < c {
      MulMono(d, q + 1, c);
    }
  }

  lemma RoundPercentBounds(part: nat, whole: nat)
    requires whole > 0
    ensures var r := (200 * part + whole) / (2 * whole);
      0 <= r && (part <= whole ==> r <= 100) && (part == 0 ==> r == 0) && (part == whole ==> r == 100)
  {
    var n := 200 * part + whole;
    var d := 2 * whole;
    if part <= whole {
      DivAtMost(n, d, 100);
    }
    if part == whole {
      assert n == d * 100 + whole;
      DivExact(d, 100, whole);
    }
    if part == 0 {
      DivExact(d, 0, whole);
    }
  }
}
