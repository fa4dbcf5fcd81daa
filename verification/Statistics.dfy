/**
 Sums and means of reals. Products with a count are written as repeated addition, `Scale`,
 which keeps the reasoning about means linear; `ScaleIsProduct` says that it is the product.
 */
module Statistics {
  import opened Sequences

  function Sum(xs: seq<real>): real {
    if xs == [] then 0.0 else Sum(xs[..|xs| - 1]) + xs[|xs| - 1]
  }

  function Mean(xs: seq<real>): real
    requires xs != []
  {
    Sum(xs) / (|xs| as real)
  }

  function Abs(x: real): real {
    if x < 0.0 then -x else x
  }

  /** `n` times `x`. */
  function Scale(x: real, n: nat): real {
    if n == 0 then 0.0 else Scale(x, n - 1) + x
  }

  lemma {:induction false} ScaleIsProduct(x: real, n: nat)
    ensures Scale(x, n) == x * (n as real)
  {
    if n > 0 {
      ScaleIsProduct(x, n - 1);
      Distribute(x, (n - 1) as real);
    }
  }

  lemma Distribute(x: real, m: real)
    ensures x * (m + 1.0) == x * m + x
  {
  }

  lemma {:induction false} ScaleSum(x: real, m: nat, n: nat)
    ensures Scale(x, m + n) == Scale(x, m) + Scale(x, n)
  {
    if n > 0 {
      ScaleSum(x, m, n - 1);
    }
  }

  lemma {:induction false} SumConcat(a: seq<real>, b: seq<real>)
    ensures Sum(a + b) == Sum(a) + Sum(b)
  {
    if b == [] {
      assert a + b == a;
    } else {
      assert (a + b)[..|a + b| - 1] == a + b[..|b| - 1];
      SumConcat(a, b[..|b| - 1]);
    }
  }

  /** The mean, characterised without division. */
  ghost predicate IsMean(xs: seq<real>, m: real) {
    xs != [] && Scale(m, |xs|) == Sum(xs)
  }

  lemma MeanIsMean(xs: seq<real>)
    requires xs != []
    ensures IsMean(xs, Mean(xs))
  {
    QuotientScales(Sum(xs), |xs|);
  }

  lemma QuotientScales(a: real, n: nat)
    requires n > 0
    ensures Scale(a / (n as real), n) == a
  {
    ScaleIsProduct(a / (n as real), n);
  }

  ghost predicate CloseToMean(xs: seq<real>, x: real, eps: real) {
    exists m :: IsMean(xs, m) && Abs(x - m) <= eps
  }

  lemma {:induction false} ScaledClose(a: real, b: real, n: nat, eps: real)
    requires Abs(a - b) <= eps
    ensures Abs(Scale(a, n) - Scale(b, n)) <= Scale(eps, n)
  {
    if n > 0 {
      ScaledClose(a, b, n - 1, eps);
    }
  }

  lemma {:induction false} ScaleStrict(a: real, b: real, n: nat)
    requires a < b && n > 0
    ensures Scale(a, n) < Scale(b, n)
  {
    if n > 1 {
      ScaleStrict(a, b, n - 1);
    } else {
      assert Scale(a, 0) == 0.0 == Scale(b, 0);
    }
  }

  lemma {:induction false} ScaleLinear(a: real, b: real, n: nat)
    ensures Scale(a - b, n) == Scale(a, n) - Scale(b, n)
  {
    if n > 0 {
      ScaleLinear(a, b, n - 1);
    }
  }

  lemma {:induction false} ScaleAdds(x: real, y: real, n: nat)
    ensures Scale(x + y, n) == Scale(x, n) + Scale(y, n)
  {
    if n > 0 {
      ScaleAdds(x, y, n - 1);
    }
  }

  lemma {:induction false} ScaleInjective(x: real, y: real, n: nat)
    requires n > 0 && Scale(x, n) == Scale(y, n)
    ensures x == y
  {
    if x < y {
      ScaleStrict(x, y, n);
    } else if y < x {
      ScaleStrict(y, x, n);
    }
  }

  lemma {:induction false} UnscaledBelow(a: real, b: real, n: nat, eps: real)
    requires n > 0 && Scale(a, n) - Scale(b, n) <= Scale(eps, n)
    ensures a - b <= eps
  {
    ScaleLinear(a, b, n);
    if a - b > eps {
      ScaleStrict(eps, a - b, n);
    }
  }

  /** Close multiples have close originals. */
  lemma UnscaledClose(a: real, b: real, n: nat, eps: real)
    requires n > 0 && Abs(Scale(a, n) - Scale(b, n)) <= Scale(eps, n)
    ensures Abs(a - b) <= eps
  {
    UnscaledBelow(a, b, n, eps);
    UnscaledBelow(b, a, n, eps);
  }

  lemma Triangle(x: real, y: real, e: real, x': real, y': real, e': real)
    requires Abs(x - y) <= e && Abs(x' - y') <= e'
    ensures Abs((x + x') - (y + y')) <= e + e'
  {
  }

  /** A rounding function moves nothing by more than `eps`. */
  ghost predicate RoundsWithin(round: real -> real, eps: real) {
    forall x {:trigger round(x)} :: Abs(round(x) - x) <= eps
  }
}
