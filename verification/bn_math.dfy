/** Integer division as the source performs it. BN.js `div`/`mod` and
    JavaScript BigInt `/` truncate toward zero, whereas Dafny's `/` and `%`
    are Euclidean; the two agree on a non-negative dividend and a positive
    divisor, which `DivIsEuclidean` records. */
module BnMath {

  function Abs(x: int): int {
    if x < 0 then -x else x
  }

  /** Truncating quotient. Its remainder `a - b * q` is smaller than the
      divisor in magnitude and carries the sign of the dividend, which
      determines `q` uniquely. */
  function Div(a: int, b: int): (q: int)
    requires b != 0
    ensures a >= 0 ==> 0 <= a - b * q < Abs(b)
    ensures a < 0 ==> -Abs(b) < a - b * q <= 0
  {
    var m := Abs(a) / Abs(b);
    var t := Abs(a) % Abs(b);
    assert Abs(a) == Abs(b) * m + t && 0 <= t < Abs(b);
    if (a < 0) == (b < 0) then
      assert a - b * m == (if a < 0 then -t else t);
      m
    else
      assert a - b * (-m) == (if a < 0 then -t else t);
      -m
  }

  /** Truncating remainder (BN.js `mod`). */
  function Rem(a: int, b: int): (r: int)
    requires b != 0
    ensures a == b * Div(a, b) + r
    ensures a >= 0 ==> 0 <= r < Abs(b)
    ensures a < 0 ==> -Abs(b) < r <= 0
  {
    a - b * Div(a, b)
  }

  /** If `t` is a remainder of `v` modulo `m` in the Euclidean sense, it is
      the remainder and `k` the quotient. */
  lemma DivModUnique(v: int, m: int, k: int, t: int)
    requires m > 0 && v == m * k + t && 0 <= t < m
    ensures v / m == k && v % m == t
  {
    var q, r := v / m, v % m;
    assert v == m * q + r && 0 <= r < m;
    var d := q - k;
    assert d * m == t - r;
    if d >= 1 {
      MulAtLeast(d, m);
      assert false;
    } else if d <= -1 {
      MulAtLeast(-d, m);
      assert false;
    }
  }

  lemma {:induction false} MulAtLeast(d: int, m: int)
    requires d >= 1 && m > 0
    ensures d * m >= m
    decreases d
  {
    if d > 1 {
      MulAtLeast(d - 1, m);
    }
  }

  lemma DivIsEuclidean(a: int, b: int)
    requires a >= 0 && b > 0
    ensures Div(a, b) == a / b && Rem(a, b) == a % b
  {
    DivModUnique(a, b, Div(a, b), a - b * Div(a, b));
  }

  /** The Euclidean quotient with a positive divisor is the floor:
      `q * d <= x < (q + 1) * d` and no other integer satisfies this. */
  lemma FloorDivBounds(x: int, d: int)
    requires d > 0
    ensures (x / d) * d <= x < (x / d + 1) * d
  {
    assert x == d * (x / d) + x % d;
  }

  lemma FloorUnique(x: int, d: int, q: int)
    requires d > 0 && q * d <= x < (q + 1) * d
    ensures x / d == q
  {
    DivModUnique(x, d, q, x - d * q);
  }

  /** A dividend at least as large as the positive divisor has a positive
      quotient; a smaller non-negative one has quotient zero. */
  lemma QuotientPositive(x: int, d: int)
    requires d > 0 && x >= 0
    ensures x / d >= 1 <==> x >= d
    ensures x / d >= 0
  {
    if x < d {
      DivModUnique(x, d, 0, x);
    } else {
      FloorDivBounds(x - d, d);
      assert (x - d) / d >= 0 by {
        if (x - d) / d < 0 {
          MulAtLeast(-((x - d) / d), d);
          assert false;
        }
      }
      DivModUnique(x, d, (x - d) / d + 1, x - d - d * ((x - d) / d));
    }
  }

  lemma MulMonoLe(a: int, b: int, c: int)
    requires a <= b && c >= 0
    ensures a * c <= b * c
  {
    if a < b && c > 0 {
      MulAtLeast(b - a, c);
    }
  }

  /** Cancelling a positive factor from a strict inequality. */
  lemma MulCancelLt(a: int, b: int, d: int)
    requires d > 0 && a * d < b * d
    ensures a < b
  {
    if a >= b {
      MulMonoLe(b, a, d);
      assert false;
    }
  }

  /** A basis-point share of a non-negative amount, truncated, is
      non-negative, and at most the amount when the share is at most the
      whole. */
  lemma ScaledShareBounds(x: int, k: int, scale: int)
    requires x >= 0 && k >= 0 && scale > 0
    ensures x * k >= 0
    ensures Div(x * k, scale) >= 0
    ensures k <= scale ==> Div(x * k, scale) <= x
  {
    MulMonoLe(0, x, k);
    DivIsEuclidean(x * k, scale);
    FloorDivBounds(x * k, scale);
    QuotientPositive(x * k, scale);
    if k <= scale {
      MulMonoLe(k, scale, x);
      var q := Div(x * k, scale);
      if q > x {
        MulMonoLe(x + 1, q, scale);
        assert false;
      }
    }
  }
}
