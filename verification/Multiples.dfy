/** Multiples of a slide on the time line. Dafny's `%` is never negative, before the epoch too. */
module Multiples {

  /** The greatest multiple of `d` that is not above `x`. */
  function Floor(x: int, d: int): int
    requires d > 0
  {
    x - x % d
  }

  lemma {:induction false} FloorIsMultiple(x: int, d: int)
    requires d > 0
    ensures Floor(x, d) % d == 0 && Floor(x, d) <= x < Floor(x, d) + d
  {
    var q := x / d;
    assert Floor(x, d) == q * d;
    MultipleOf(q, d);
  }

  lemma AtLeastOnce(k: int, d: int)
    requires k >= 1 && d > 0
    ensures k * d >= d && (-k) * d == -(k * d)
  {
  }

  lemma {:induction false} MultipleOf(q: int, d: int)
    requires d > 0
    ensures (q * d) % d == 0
  {
    var k, r := (q * d) / d, (q * d) % d;
    assert r == (q - k) * d;
    if q - k >= 1 {
      AtLeastOnce(q - k, d);
    } else if q - k <= -1 {
      AtLeastOnce(k - q, d);
    }
  }

  lemma {:induction false} OneMultiplePerStretch(a: int, b: int, d: int)
    requires d > 0 && a % d == 0 && b % d == 0 && -d < a - b < d
    ensures a == b
  {
    assert a == (a / d) * d && b == (b / d) * d;
    QuotientsAgree(a / d, b / d, d);
  }

  lemma {:induction false} QuotientsAgree(x: int, y: int, d: int)
    requires d > 0 && -d < x * d - y * d < d
    ensures x == y
  {
    assert x * d - y * d == (x - y) * d;
    if x - y >= 1 {
      AtLeastOnce(x - y, d);
    } else if x - y <= -1 {
      AtLeastOnce(y - x, d);
    }
  }

  /** The multiples of `d` in (lo, hi]. */
  function Between(lo: int, hi: int, d: int): set<int>
    requires d > 0
  {
    set s | lo < s <= hi && s % d == 0
  }

  lemma {:induction false} CountBetween(lo: int, hi: int, d: int, k: nat)
    requires d > 0 && hi - lo == k * d
    ensures |Between(lo, hi, d)| == k
    decreases k
  {
    if k > 0 {
      Step(k, d);
      CountBetween(lo + d, hi, d, k - 1);
      SplitFirst(lo, hi, d);
    }
  }

  lemma Step(k: nat, d: int)
    requires k > 0
    ensures k * d == (k - 1) * d + d
    ensures d > 0 ==> 0 <= (k - 1) * d
  {
  }

  lemma SplitFirst(lo: int, hi: int, d: int)
    requires d > 0 && lo + d <= hi
    ensures |Between(lo, hi, d)| == |Between(lo + d, hi, d)| + 1
  {
    var m := Floor(lo + d, d);
    FloorIsMultiple(lo + d, d);
    forall s ensures s in Between(lo, hi, d) <==> s in Between(lo + d, hi, d) + {m} {
      if s in Between(lo, hi, d) && s <= lo + d {
        OneMultiplePerStretch(s, m, d);
      }
    }
    assert Between(lo, hi, d) == Between(lo + d, hi, d) + {m};
  }

  /** `k` times `n`, by repeated addition. */
  function Times(k: nat, n: nat): nat {
    if k == 0 then 0 else Times(k - 1, n) + n
  }

  lemma {:induction false} TimesIsProduct(k: nat, n: nat)
    ensures Times(k, n) == k * n
  {
    if k > 0 {
      TimesIsProduct(k - 1, n);
      assert k * n == (k - 1) * n + n;
    }
  }

  lemma {:induction false} AtMostQuotient(k: nat, n: nat, m: nat)
    requires n > 0 && k * n <= m
    ensures k <= m / n
  {
    var q := m / n;
    OnceMore(q, n);
    if k > q {
      MoreTimes(q + 1, k, n);
    }
  }

  lemma OnceMore(k: nat, n: nat)
    ensures (k + 1) * n == k * n + n
  {
  }

  lemma MoreTimes(a: nat, b: nat, n: nat)
    requires a <= b
    ensures a * n <= b * n
  {
  }

  lemma {:induction false} ExactQuotient(k: nat, n: nat, m: nat)
    requires n > 0 && k * n <= m < k * n + n
    ensures k == m / n
  {
    AtMostQuotient(k, n, m);
    OnceMore(k, n);
    if k < m / n {
      MoreTimes(k + 1, m / n, n);
    }
  }
}
