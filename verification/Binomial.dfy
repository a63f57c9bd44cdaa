/** Binomial coefficients and the binomial distribution over the reals (scripts/injection_landing_sample_size.py). */
module Binomial {
  import opened Common

  /** `math.comb`. */
  function Comb(n: nat, k: int): nat {
    if k < 0 || k > n then 0
    else if n == 0 then 1
    else Comb(n - 1, k - 1) + Comb(n - 1, k)
  }

  function Pow(x: real, n: nat): real {
    if n == 0 then 1.0 else x * Pow(x, n - 1)
  }

  /** `binom_pmf`; 0 outside 0..n. */
  function Pmf(k: int, n: nat, p: real): real {
    if k < 0 || k > n then 0.0 else Comb(n, k) as real * Pow(p, k) * Pow(1.0 - p, n - k)
  }

  /** The sum of the coefficients below m. */
  function CombSum(n: nat, m: nat): nat {
    if m == 0 then 0 else CombSum(n, m - 1) + Comb(n, m - 1)
  }

  /** P(X < m). */
  function PmfSum(m: nat, n: nat, p: real): real {
    if m == 0 then 0.0 else PmfSum(m - 1, n, p) + Pmf(m - 1, n, p)
  }

  lemma {:induction false} CombSymmetric(n: nat, k: int)
    ensures Comb(n, k) == Comb(n, n - k)
  {
    if n > 0 && 0 <= k <= n {
      CombSymmetric(n - 1, k - 1);
      CombSymmetric(n - 1, k);
    }
  }

  lemma Pascal(n: nat, k: int)
    ensures Comb(n + 1, k) == Comb(n, k - 1) + Comb(n, k)
  {
  }

  lemma {:induction false} CombSumStep(n: nat, m: nat)
    ensures CombSum(n + 1, m + 1) == CombSum(n, m) + CombSum(n, m + 1)
  {
    Pascal(n, m);
    if m > 0 {
      CombSumStep(n, m - 1);
    }
  }

  lemma {:induction false} CombSumAll(n: nat)
    ensures CombSum(n, n + 1) == Pow2(n)
  {
    if n > 0 {
      CombSumAll(n - 1);
      CombSumStep(n - 1, n);
    }
  }

  /** The coefficients from n - m + 1 on sum to the coefficients below m. */
  lemma {:induction false} UpperSum(n: nat, m: nat)
    requires m <= n + 1
    ensures CombSum(n, n + 1) - CombSum(n, n + 1 - m) == CombSum(n, m)
  {
    if m > 0 {
      UpperSum(n, m - 1);
      CombSymmetric(n, m - 1);
    }
  }

  lemma {:induction false} CombSumMonotone(n: nat, m: nat, m': nat)
    requires m <= m'
    ensures CombSum(n, m) <= CombSum(n, m')
  {
    if m < m' {
      CombSumMonotone(n, m, m' - 1);
    }
  }

  // ---------- the distribution sums to one ----------

  /** s is the average of a and b with weights p and 1 - p. */
  ghost predicate IsMix(s: real, p: real, a: real, b: real) {
    s == p * a + (1.0 - p) * b
  }

  lemma AddMixes(s: real, a: real, b: real, s': real, a': real, b': real, p: real)
    requires IsMix(s, p, a, b) && IsMix(s', p, a', b')
    ensures IsMix(s + s', p, a + a', b + b')
  {
  }

  /** Pascal's rule for one term of the binomial expansion. */
  lemma PmfStep(k: int, n: nat, p: real)
    ensures IsMix(Pmf(k, n + 1, p), p, Pmf(k - 1, n, p), Pmf(k, n, p))
  {
    if k < 0 || k > n + 1 {
    } else if k == 0 {
      FirstStep(n, p);
    } else if k == n + 1 {
      LastStep(n, p);
    } else {
      MiddleStep(k, n, p);
    }
  }

  lemma FirstStep(n: nat, p: real)
    ensures Pmf(0, n + 1, p) == (1.0 - p) * Pmf(0, n, p)
  {
    assert Comb(n + 1, 0) == Comb(n, 0);
    Regroup(Comb(n, 0) as real * 1.0, 1.0 - p, Pow(1.0 - p, n));
  }

  lemma LastStep(n: nat, p: real)
    ensures Pmf(n + 1, n + 1, p) == p * Pmf(n, n, p)
  {
    assert Comb(n + 1, n + 1) == Comb(n, n);
    Regroup(Comb(n, n) as real, p, Pow(p, n));
  }

  lemma MiddleStep(k: int, n: nat, p: real)
    requires 0 < k <= n
    ensures IsMix(Pmf(k, n + 1, p), p, Pmf(k - 1, n, p), Pmf(k, n, p))
  {
    var q := 1.0 - p;
    var a, b, x, y := Comb(n, k - 1) as real, Comb(n, k) as real, Pow(p, k - 1), Pow(q, n - k);
    assert Comb(n + 1, k) as real == a + b;
    assert Pow(p, k) == p * x && Pow(q, n + 1 - k) == q * y;
    Expand(a, b, x, y, p, q);
  }

  lemma Regroup(c: real, p: real, x: real)
    ensures c * (p * x) == p * (c * x)
  {
  }

  lemma Expand(a: real, b: real, x: real, y: real, p: real, q: real)
    ensures (a + b) * (p * x) * (q * y) == p * (a * x * (q * y)) + q * (b * (p * x) * y)
  {
  }

  lemma {:induction false} PmfSumStep(m: nat, n: nat, p: real)
    ensures IsMix(PmfSum(m + 1, n + 1, p), p, PmfSum(m, n, p), PmfSum(m + 1, n, p))
  {
    PmfStep(m, n, p);
    if m > 0 {
      PmfSumStep(m - 1, n, p);
      AddMixes(PmfSum(m, n + 1, p), PmfSum(m - 1, n, p), PmfSum(m, n, p), Pmf(m, n + 1, p), Pmf(m - 1, n, p),
            Pmf(m, n, p), p);
    } else {
      AddMixes(0.0, 0.0, 0.0, Pmf(m, n + 1, p), Pmf(m - 1, n, p), Pmf(m, n, p), p);
    }
  }

  /** The binomial theorem for p and 1 - p. */
  lemma {:induction false} PmfSumAll(n: nat, p: real)
    ensures PmfSum(n + 1, n, p) == 1.0
  {
    if n > 0 {
      PmfSumAll(n - 1, p);
      PmfSumStep(n, n - 1, p);
      assert PmfSum(n + 1, n - 1, p) == PmfSum(n, n - 1, p) + Pmf(n, n - 1, p);
    }
  }

  lemma {:induction false} PowNonNegative(x: real, n: nat)
    requires x >= 0.0
    ensures Pow(x, n) >= 0.0
  {
    if n > 0 {
      PowNonNegative(x, n - 1);
    }
  }

  lemma PmfNonNegative(k: int, n: nat, p: real)
    requires 0.0 <= p <= 1.0
    ensures Pmf(k, n, p) >= 0.0
  {
    if 0 <= k <= n {
      PowNonNegative(p, k);
      PowNonNegative(1.0 - p, n - k);
      ProductNonNegative(Comb(n, k) as real, Pow(p, k));
      ProductNonNegative(Comb(n, k) as real * Pow(p, k), Pow(1.0 - p, n - k));
    }
  }

  lemma ProductNonNegative(x: real, y: real)
    requires x >= 0.0 && y >= 0.0
    ensures x * y >= 0.0
  {
  }

  lemma {:induction false} PowAdd(x: real, i: nat, j: nat)
    ensures Pow(x, i) * Pow(x, j) == Pow(x, i + j)
  {
    if i > 0 {
      PowAdd(x, i - 1, j);
      Associate(x, Pow(x, i - 1), Pow(x, j), Pow(x, i - 1 + j));
    }
  }

  lemma Associate(x: real, y: real, z: real, yz: real)
    requires y * z == yz
    ensures x * y * z == x * yz
  {
    assert x * y * z == x * (y * z);
  }

  lemma {:induction false} PowHalf(n: nat)
    ensures Pow(0.5, n) == 1.0 / Pow2(n) as real
  {
    if n > 0 {
      PowHalf(n - 1);
      HalfOfShare(Pow2(n - 1) as real);
      assert Pow2(n) as real == 2.0 * Pow2(n - 1) as real;
    }
  }

  lemma HalfOfShare(d: real)
    requires d > 0.0
    ensures 0.5 * (1.0 / d) == 1.0 / (2.0 * d)
  {
  }

  /** At p = 1/2 every outcome has its coefficient's share of 2^n. */
  lemma PmfHalf(k: int, n: nat)
    ensures Pmf(k, n, 0.5) == Comb(n, k) as real / Pow2(n) as real
  {
    if 0 <= k <= n {
      PowAdd(0.5, k, n - k);
      PowHalf(n);
      ShareOf(Comb(n, k) as real, Pow(0.5, k), Pow(0.5, n - k), Pow2(n) as real);
    }
  }

  lemma ShareOf(c: real, x: real, y: real, d: real)
    requires d > 0.0 && x * y == 1.0 / d
    ensures c * x * y == c / d
  {
    assert c * x * y == c * (x * y);
  }

  // ---------- expectations ----------

  function Weighed(w: real, x: real): real { w * x }

  /** The sum over k < m of w(k) * h(k). */
  function Expect(m: nat, w: int -> real, h: int -> real): real {
    if m == 0 then 0.0 else Expect(m - 1, w, h) + Weighed(w(m - 1), h(m - 1))
  }

  function Weights(n: nat, p: real): int -> real { k => Pmf(k, n, p) }

  /** E h(X) for X ~ Binomial(n, p). */
  function Mean(n: nat, p: real, h: int -> real): real {
    Expect(n + 1, Weights(n, p), h)
  }

  function Shift(h: int -> real): int -> real { k => h(k + 1) }

  /** One more trial: with probability p the count moves up by one. */
  lemma MeanStep(n: nat, p: real, h: int -> real)
    ensures IsMix(Mean(n + 1, p, h), p, Mean(n, p, Shift(h)), Mean(n, p, h))
  {
    var v, w := Weights(n + 1, p), Weights(n, p);
    forall k: nat | true
      ensures MixesAt(k, v, p, w)
    {
      PmfStep(k, n, p);
    }
    ExpectStep(n + 1, v, p, w, h);
    assert Weighed(w(n + 1), h(n + 1)) == 0.0;
  }

  ghost predicate MixesAt(k: int, v: int -> real, p: real, w: int -> real) {
    IsMix(v(k), p, w(k - 1), w(k))
  }

  lemma {:induction false} ExpectStep(m: nat, v: int -> real, p: real, w: int -> real, h: int -> real)
    requires w(-1) == 0.0
    requires forall k: nat {:trigger MixesAt(k, v, p, w)} :: MixesAt(k, v, p, w)
    ensures IsMix(Expect(m + 1, v, h), p, Expect(m, w, Shift(h)), Expect(m + 1, w, h))
  {
    assert MixesAt(m, v, p, w);
    ScaleMix(v(m), p, w(m - 1), w(m), h(m));
    if m == 0 {
      AddMixes(0.0, 0.0, 0.0, Weighed(v(0), h(0)), Weighed(w(-1), h(0)), Weighed(w(0), h(0)), p);
    } else {
      ExpectStep(m - 1, v, p, w, h);
      AddMixes(Expect(m, v, h), Expect(m - 1, w, Shift(h)), Expect(m, w, h),
               Weighed(v(m), h(m)), Weighed(w(m - 1), h(m)), Weighed(w(m), h(m)), p);
      assert Expect(m, w, Shift(h)) == Expect(m - 1, w, Shift(h)) + Weighed(w(m - 1), h(m));
    }
  }

  lemma ScaleMix(s: real, p: real, a: real, b: real, x: real)
    requires IsMix(s, p, a, b)
    ensures IsMix(Weighed(s, x), p, Weighed(a, x), Weighed(b, x))
    ensures IsMix(Weighed(x, s), p, Weighed(x, a), Weighed(x, b))
  {
    assert p * (a * x) == p * a * x && (1.0 - p) * (b * x) == (1.0 - p) * b * x;
    assert s * x == p * a * x + (1.0 - p) * b * x;
  }

  ghost predicate SameBelow(f: int -> real, g: int -> real, m: nat) {
    forall k :: 0 <= k < m ==> f(k) == g(k)
  }

  lemma {:induction false} ExpectCongruent(m: nat, w: int -> real, f: int -> real, g: int -> real)
    requires SameBelow(f, g, m)
    ensures Expect(m, w, f) == Expect(m, w, g)
  {
    if m > 0 {
      ExpectCongruent(m - 1, w, f, g);
    }
  }

  ghost predicate MixBelow(h: int -> real, x: real, f: int -> real, g: int -> real, m: nat) {
    forall k :: 0 <= k < m ==> IsMix(h(k), x, f(k), g(k))
  }

  /** The expectation is linear. */
  lemma {:induction false} ExpectMix(m: nat, w: int -> real, h: int -> real, x: real, f: int -> real, g: int -> real)
    requires MixBelow(h, x, f, g, m)
    ensures IsMix(Expect(m, w, h), x, Expect(m, w, f), Expect(m, w, g))
  {
    if m > 0 {
      ExpectMix(m - 1, w, h, x, f, g);
      ScaleMix(h(m - 1), x, f(m - 1), g(m - 1), w(m - 1));
      AddMixes(Expect(m - 1, w, h), Expect(m - 1, w, f), Expect(m - 1, w, g),
               Weighed(w(m - 1), h(m - 1)), Weighed(w(m - 1), f(m - 1)), Weighed(w(m - 1), g(m - 1)), x);
    }
  }

  ghost predicate AtMostBelow(h: int -> real, c: real, m: nat) {
    forall k :: 0 <= k < m ==> h(k) <= c
  }

  /** An expectation is at most the largest value. */
  lemma {:induction false} ExpectAtMost(m: nat, n: nat, p: real, h: int -> real, c: real)
    requires 0.0 <= p <= 1.0 && AtMostBelow(h, c, m)
    ensures Expect(m, Weights(n, p), h) <= Weighed(PmfSum(m, n, p), c)
  {
    if m > 0 {
      ExpectAtMost(m - 1, n, p, h, c);
      PmfNonNegative(m - 1, n, p);
      WeighedStep(PmfSum(m - 1, n, p), Pmf(m - 1, n, p), h(m - 1), c);
    }
  }

  lemma WeighedStep(s: real, w: real, x: real, c: real)
    requires w >= 0.0 && x <= c
    ensures Weighed(s, c) + Weighed(w, x) <= Weighed(s + w, c)
  {
    assert w * x <= w * c;
    assert (s + w) * c == s * c + w * c;
  }

  lemma MeanAtMost(n: nat, p: real, h: int -> real, c: real)
    requires 0.0 <= p <= 1.0 && AtMostBelow(h, c, n + 1)
    ensures Mean(n, p, h) <= c
  {
    ExpectAtMost(n + 1, n, p, h, c);
    PmfSumAll(n, p);
  }
}
