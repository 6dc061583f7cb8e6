/** Division with remainder, for the proofs that need more than constant divisors. */
module Arithmetic {

  lemma NoMultiple(d: int, k: int)
    requires d > 0
    ensures k >= 1 ==> d * k >= d
    ensures k <= -1 ==> d * k <= -d
  {
  }

  /** Quotient and remainder are unique. */
  lemma DivModUnique(v: int, d: int, q: int, r: int)
    requires d > 0 && v == d * q + r && 0 <= r < d
    ensures v / d == q && v % d == r
  {
    var q', r' := v / d, v % d;
    assert d * (q - q') == r' - r by {
      assert v == d * q' + r';
      assert d * (q - q') == d * q - d * q';
    }
    NoMultiple(d, q - q');
  }

  lemma ModPeriod(x: int, q: int, n: int)
    requires n > 0
    ensures (x + n * q) % n == x % n
  {
    var k := x / n;
    assert x == n * k + x % n;
    assert n * (k + q) == n * k + n * q;
    DivModUnique(x + n * q, n, k + q, x % n);
  }

  lemma ModNext(x: int, n: int)
    requires n > 0
    ensures (x + 1) % n == if x % n == n - 1 then 0 else x % n + 1
  {
    var q, r := x / n, x % n;
    assert x == n * q + r;
    if r == n - 1 {
      assert n * (q + 1) == n * q + n;
      DivModUnique(x + 1, n, q + 1, 0);
    } else {
      DivModUnique(x + 1, n, q, r + 1);
    }
  }

  lemma MulSplit(a: int, b: int, q: int, r: int)
    ensures a * (b * q + r) == (a * b) * q + a * r
  {
  }

  lemma MulBounds(a: int, r: int, s: int, b: int)
    requires 0 <= r < a && 0 <= s < b
    ensures 0 <= a * s + r < a * b
  {
    var d := b - 1 - s;
    assert a * d >= 0;
    assert a * b == a * s + a * d + a by {
      assert b == s + d + 1;
    }
    assert a * s >= 0;
  }

  lemma DivTwice(v: nat, a: nat, b: nat)
    requires a > 0 && b > 0
    ensures a * b > 0 && v / a / b == v / (a * b)
  {
    var q, r := v / a, v % a;
    var q2, r2 := q / b, q % b;
    assert v == a * q + r && q == b * q2 + r2;
    MulSplit(a, b, q2, r2);
    MulBounds(a, r, r2, b);
    DivModUnique(v, a * b, q2, a * r2 + r);
  }
}
