/** The C arithmetic that the timing code relies on, over exact values. */
module Rounding {

  /** `llround`: the nearest integer, with halves rounded away from zero. */
  function LRound(x: real): int {
    if x >= 0.0 then (x + 0.5).Floor else -((0.5 - x).Floor)
  }

  /** `llround(n / d)` for a quotient of integers. */
  function RoundDiv(n: int, d: int): int
    requires d > 0
  {
    if n >= 0 then (2 * n + d) / (2 * d) else -((d - 2 * n) / (2 * d))
  }

  /** C++ `/` on integers truncates toward zero. */
  function TruncDiv(a: int, b: int): int
    requires b != 0
  {
    if a >= 0 then a / b else -((-a) / b)
  }

  /** C++ `%` on integers: the remainder has the sign of the dividend. */
  function TruncMod(a: int, b: int): int
    requires b != 0
  {
    a - b * TruncDiv(a, b)
  }

  function Abs(a: int): nat {
    if a < 0 then -a else a
  }

  function Max(a: int, b: int): int {
    if a < b then b else a
  }

  function Min(a: int, b: int): int {
    if a < b then a else b
  }

  // ---- What `llround` means, without its definition ----

  ghost predicate RoundsTo(x: real, n: int) {
    var d := n as real - x;
    -0.5 <= d <= 0.5
    && (d == 0.5 ==> x > 0.0)
    && (d == -0.5 ==> x < 0.0)
  }

  /** The rounded value is the one nearest integer; a tie goes away from zero. */
  lemma LRoundCharacterised(x: real, n: int)
    ensures LRound(x) == n <==> RoundsTo(x, n)
  {
    var f := (if x >= 0.0 then x + 0.5 else 0.5 - x).Floor;
    assert f as real <= (if x >= 0.0 then x + 0.5 else 0.5 - x) < f as real + 1.0;
    if RoundsTo(x, n) {
      assert n as real - 1.0 < LRound(x) as real < n as real + 1.0;
    }
  }

  lemma LRoundMonotone(x: real, y: real)
    requires x <= y
    ensures LRound(x) <= LRound(y)
  {
    LRoundCharacterised(x, LRound(x));
    LRoundCharacterised(y, LRound(y));
  }

  lemma LRoundInt(n: int)
    ensures LRound(n as real) == n
  {
    LRoundCharacterised(n as real, n);
  }

  lemma FloorQuotient(a: int, b: int)
    requires b > 0
    ensures (a as real / b as real).Floor == a / b
  {
    var r, q, m := a as real / b as real, a / b, a % b;
    assert a == q * b + m;
    var f := m as real / b as real;
    assert 0.0 <= f < 1.0 by { assert f * b as real == m as real; }
    assert r == q as real + f by {
      assert (q * b) as real == q as real * b as real;
      assert (q as real + f) * b as real == a as real;
    }
  }

  lemma QuotientUnique(a: real, b: real, c: real)
    requires b != 0.0 && c * b == a
    ensures a / b == c
  {
  }

  lemma HalfQuotient(n: real, d: real)
    requires d > 0.0
    ensures n / d + 0.5 == (2.0 * n + d) / (2.0 * d)
    ensures 0.5 - n / d == (d - 2.0 * n) / (2.0 * d)
  {
    var x := n / d;
    assert x * d == n;
    QuotientUnique(2.0 * n + d, 2.0 * d, x + 0.5);
    QuotientUnique(d - 2.0 * n, 2.0 * d, 0.5 - x);
  }

  /** The integer form is `llround` of the exact quotient. */
  lemma RoundDivIsLRound(n: int, d: int)
    requires d > 0
    ensures RoundDiv(n, d) == LRound(n as real / d as real)
  {
    var x := n as real / d as real;
    HalfQuotient(n as real, d as real);
    FloorQuotient(2 * n + d, 2 * d);
    FloorQuotient(d - 2 * n, 2 * d);
    assert x >= 0.0 <==> n >= 0;
  }

  /** The rounding error, as an inequality over integers; it is a full half only away
      from zero. */
  lemma RoundDivError(n: int, d: int)
    requires d > 0
    ensures var e := RoundDiv(n, d) * d - n;
            -d <= 2 * e <= d
            && (2 * e == d ==> n > 0) && (2 * e == -d ==> n < 0)
  {
    var a := 2 * Abs(n) + d;
    var q := a / (2 * d);
    assert a == q * (2 * d) + a % (2 * d);
    assert q * (2 * d) == 2 * (q * d);
    assert RoundDiv(n, d) * d == if n >= 0 then q * d else -(q * d);
  }

  /** Rounding commutes with negation. The exactness results on client timelines rest on this. */
  lemma RoundDivOdd(n: int, d: int)
    requires d > 0
    ensures RoundDiv(-n, d) == -RoundDiv(n, d)
  {
  }

  lemma RoundDivMonotone(a: int, b: int, d: int)
    requires d > 0 && a <= b
    ensures RoundDiv(a, d) <= RoundDiv(b, d)
  {
    if a < b {
      RoundDivError(a, d);
      RoundDivError(b, d);
      OrderFromProducts(RoundDiv(a, d), RoundDiv(b, d), d);
    }
  }

  lemma OrderFromProducts(p: int, q: int, d: int)
    requires d > 0 && p * d < q * d + d
    ensures p <= q
  {
    if q + 1 <= p { ProductMonotone(q + 1, p, d); }
  }

  lemma ProductMonotone(a: int, b: int, d: int)
    requires a <= b && d >= 0
    ensures a * d <= b * d
  {
  }

  // ---- Truncated and Euclidean remainders agree on non-negative dividends ----

  lemma ModUnique(a: int, q: int, r: int, k: int)
    requires q > 0
    requires a == k * q + r && 0 <= r < q
    ensures a % q == r && a / q == k
  {
    var e := a / q - k;
    assert e * q == r - a % q;
  }

  lemma ModShift(a: int, q: int, k: int)
    requires q > 0
    ensures (a + k * q) % q == a % q
  {
    ModUnique(a + k * q, q, a % q, a / q + k);
  }

  lemma TruncModNonNegative(a: int, q: int)
    requires a >= 0 && q > 0
    ensures TruncMod(a, q) == a % q
  {
  }

  /** The truncated remainder has the sign of the dividend and is what is left below a multiple. */
  lemma TruncModMeans(a: int, q: int)
    requires q > 0
    ensures var r := TruncMod(a, q);
            -q < r < q && (a >= 0 ==> r >= 0) && (a <= 0 ==> r <= 0) && (a - r) % q == 0
  {
    var b := Abs(a);
    var k := TruncDiv(a, q);
    assert b == b / q * q + b % q;
    SignedMultiple(b / q, q);
    assert a - TruncMod(a, q) == k * q;
    ModUnique(k * q, q, 0, k);
  }

  lemma SignedMultiple(k: int, q: int)
    ensures (-k) * q == -(k * q)
  {
  }

  lemma ResidueOfDifference(a: int, b: int, q: int)
    requires q > 0
    ensures (a % q - b % q) % q == (a - b) % q == (a % q - b % q + q) % q
  {
    var ra, rb, ka, kb := a % q, b % q, a / q, b / q;
    assert a == ka * q + ra && b == kb * q + rb;
    assert a - b == ra - rb + (ka - kb) * q;
    ModShift(ra - rb, q, ka - kb);
    ModShift(ra - rb, q, 1);
  }

  lemma EqualResidues(a: int, b: int, q: int)
    requires q > 0
    ensures a % q == b % q <==> (a - b) % q == 0
  {
    ResidueOfDifference(a, b, q);
    var e := a % q - b % q;
    ModUnique(0, q, 0, 0);
    if e > 0 { ModUnique(e, q, e, 0); }
    if e < 0 { ModUnique(e, q, e + q, -1); }
  }

  /** x plus the residue of t - x is the least value at or above x that is congruent to t. */
  lemma LeastCongruent(x: int, t: int, q: int, y: int)
    requires q > 0
    ensures var n := x + (t - x) % q;
            n >= x && (n - t) % q == 0
            && (x <= y && (y - t) % q == 0 ==> n <= y)
            && (n == x <==> (x - t) % q == 0)
  {
    var r, k := (t - x) % q, (t - x) / q;
    assert t - x == k * q + r;
    ModUnique(x + r - t, q, 0, -k);
    if r == 0 { ModUnique(x - t, q, 0, -k); } else { ModUnique(x - t, q, q - r, -k - 1); }
    if x <= y && (y - t) % q == 0 {
      var j := (y - t) / q;
      assert y - x == (j + k) * q + r by {
        assert y - t == j * q;
        assert j * q + k * q == (j + k) * q;
      }
      if j + k <= -1 { ProductMonotone(j + k, -1, q); } else { ProductMonotone(0, j + k, q); }
    }
  }

  /** Distinct congruent values are at least q apart. */
  lemma CongruentGap(a: int, b: int, q: int)
    requires q > 0 && (a - b) % q == 0
    ensures a == b || a - b >= q || b - a >= q
  {
    var k := (a - b) / q;
    assert a - b == k * q;
    if k >= 1 { ProductMonotone(1, k, q); }
    if k <= -1 { ProductMonotone(k, -1, q); }
  }
}
