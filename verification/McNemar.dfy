/**
 The exact McNemar test: three p-value implementations (eval/injection_guard_order.py,
 eval/run_injection_twin_control.py, scripts/injection_landing_sample_size.py), the memoised critical value, the
 rejection probability and the power.
 */
module McNemar {
  import opened Common
  import opened Binomial

  const ALPHA := 0.05

  /** `exact_two_sided_p`: b successes in d trials at 1/2. */
  function ExactTwoSidedP(b: nat, d: nat): real
    requires b <= d
  {
    if d == 0 then 1.0 else
      MinReal(1.0, (2 * CombSum(d, MinNat(b, d - b) + 1)) as real / Pow2(d) as real)
  }

  /** `mcnemar_exact` and `mcnemar_exact_p`: the tail first, then doubled. */
  function McnemarExact(b: nat, c: nat): real {
    var n := b + c;
    if n == 0 then 1.0 else
      var tail := CombSum(n, MinNat(b, c) + 1) as real / Pow2(n) as real;
      MinReal(1.0, 2.0 * tail)
  }

  // ---------- what the p-value means ----------

  /** Outcome i of d is at least as far from d / 2 as outcome b. */
  predicate AsExtreme(i: int, b: int, d: int) {
    Distance(i, d) >= Distance(b, d)
  }

  function Distance(i: int, d: int): int {
    if 2 * i >= d then 2 * i - d else d - 2 * i
  }

  /** The probability, at 1/2, of an outcome below m that is at least as extreme as b. */
  function ExtremeProbability(m: nat, b: int, d: nat): real {
    if m == 0 then 0.0 else
      ExtremeProbability(m - 1, b, d) + if AsExtreme(m - 1, b, d) then Pmf(m - 1, d, 0.5) else 0.0
  }

  /** The same as a count of coefficients. */
  function ExtremeCount(m: nat, b: int, d: nat): nat {
    if m == 0 then 0 else ExtremeCount(m - 1, b, d) + if AsExtreme(m - 1, b, d) then Comb(d, m - 1) else 0
  }

  lemma AddShares(x: int, y: int, d: int)
    requires d > 0
    ensures x as real / d as real + y as real / d as real == (x + y) as real / d as real
  {
  }

  lemma {:induction false} ProbabilityIsShare(m: nat, b: int, d: nat)
    ensures ExtremeProbability(m, b, d) == ExtremeCount(m, b, d) as real / Pow2(d) as real
  {
    if m > 0 {
      ProbabilityIsShare(m - 1, b, d);
      PmfHalf(m - 1, d);
      AddShares(ExtremeCount(m - 1, b, d), if AsExtreme(m - 1, b, d) then Comb(d, m - 1) else 0, Pow2(d));
    }
  }

  /** Below the middle the extreme outcomes are those up to k; from the middle on, those from d - k. */
  lemma {:induction false} ExtremeCountIs(m: nat, b: nat, d: nat)
    requires b <= d && m <= d + 1
    ensures var k := MinNat(b, d - b);
      ExtremeCount(m, b, d) ==
      if m <= k + 1 then CombSum(d, m)
      else if m <= d - k then CombSum(d, k + 1)
      else CombSum(d, m) - CombSum(d, MaxInt(d - k, k + 1)) + CombSum(d, k + 1)
  {
    if m > 0 {
      ExtremeCountIs(m - 1, b, d);
    }
  }

  lemma ExtremeCountAll(b: nat, d: nat)
    requires b <= d
    ensures ExtremeCount(d + 1, b, d) == MinNat(2 * CombSum(d, MinNat(b, d - b) + 1), Pow2(d))
  {
    var k := MinNat(b, d - b);
    ExtremeCountIs(d + 1, b, d);
    CombSumAll(d);
    UpperSum(d, k + 1);
    if 2 * k == d {
      assert d + 1 - (k + 1) == k;
      CombSumMonotone(d, k, k + 1);
    } else {
      CombSumMonotone(d, k + 1, d - k);
    }
  }

  /** The p-value is the probability of an outcome at least as extreme as the observed one. */
  lemma PValueIsExtremeProbability(b: nat, d: nat)
    requires b <= d
    ensures ExactTwoSidedP(b, d) == ExtremeProbability(d + 1, b, d)
  {
    ProbabilityIsShare(d + 1, b, d);
    ExtremeCountAll(b, d);
    CappedShare(2 * CombSum(d, MinNat(b, d - b) + 1), Pow2(d));
    if d == 0 {
      assert CombSum(0, 1) == 1;
    }
  }

  lemma CappedShare(x: nat, y: nat)
    requires y > 0
    ensures MinReal(1.0, x as real / y as real) == MinNat(x, y) as real / y as real
  {
  }

  lemma ShareOrder(x: int, y: int)
    requires y > 0
    ensures x <= y ==> x as real / y as real <= 1.0
    ensures x >= y ==> x as real / y as real >= 1.0
    ensures x == y ==> x as real / y as real == 1.0
  {
  }

  /** All implementations agree on every pair of discordant counts. */
  lemma ImplementationsAgree(b: nat, c: nat)
    ensures McnemarExact(b, c) == ExactTwoSidedP(b, b + c) == McnemarExact(c, b)
  {
    if b + c > 0 {
      Double(CombSum(b + c, MinNat(b, c) + 1), Pow2(b + c));
    }
  }

  lemma Double(x: int, y: int)
    requires y > 0
    ensures 2.0 * (x as real / y as real) == (2 * x) as real / y as real
  {
  }

  // ---------- the critical value ----------

  ghost predicate Rejects(b: nat, d: nat)
    requires b <= d
  {
    ExactTwoSidedP(b, d) <= ALPHA
  }

  /** k is the largest value up to d / 2 whose p-value is at most ALPHA, or -1. */
  ghost predicate IsCritical(k: int, d: nat) {
    && -1 <= k <= d / 2 && (k >= 0 ==> Rejects(k, d))
    && (k + 1 <= d / 2 ==> !Rejects(k + 1, d))
  }

  lemma PValueMonotone(k: nat, k': nat, d: nat)
    requires k <= k' <= d / 2
    ensures ExactTwoSidedP(k, d) <= ExactTwoSidedP(k', d)
  {
    if d > 0 {
      assert MinNat(k, d - k) == k && MinNat(k', d - k') == k';
      CombSumMonotone(d, k + 1, k' + 1);
      Larger(2 * CombSum(d, k + 1), 2 * CombSum(d, k' + 1), Pow2(d));
    }
  }

  lemma Larger(x: int, y: int, d: int)
    requires d > 0 && x <= y
    ensures x as real / d as real <= y as real / d as real
  {
  }

  lemma PValueSymmetric(b: nat, d: nat)
    requires b <= d
    ensures ExactTwoSidedP(b, d) == ExactTwoSidedP(d - b, d)
  {
  }

  lemma MiddleNeverRejects(k: nat)
    ensures ExactTwoSidedP(k, 2 * k) == 1.0
  {
    var d := 2 * k;
    if k > 0 {
      CombSumAll(d);
      UpperSum(d, k + 1);
      CombSumMonotone(d, k, k + 1);
      ShareOrder(2 * CombSum(d, k + 1), Pow2(d));
    }
  }

  /** With a critical value k the two rejection tails are disjoint and hold exactly the outcomes whose p-value is
      at most ALPHA. */
  lemma CriticalSplits(k: int, d: nat, b: nat)
    requires IsCritical(k, d) && b <= d
    ensures k >= 0 ==> k < d - k
    ensures Rejects(b, d) <==> k >= 0 && (b <= k || b >= d - k)
  {
    if k >= 0 && 2 * k == d {
      MiddleNeverRejects(k);
    }
    var m := MinNat(b, d - b);
    PValueSymmetric(b, d);
    if k >= m {
      PValueMonotone(m, k, d);
    } else {
      PValueMonotone(k + 1, m, d);
    }
  }

  // ---------- the rejection probability ----------

  /** P(reject) over the outcomes below m: the probability of a p-value of at most ALPHA. */
  ghost function RejectionBelow(m: nat, d: nat, psi: real): real
    requires m <= d + 1
  {
    if m == 0 then 0.0 else
      RejectionBelow(m - 1, d, psi) + if Rejects(m - 1, d) then Pmf(m - 1, d, psi) else 0.0
  }

  ghost function RejectionProbability(d: nat, psi: real): real {
    RejectionBelow(d + 1, d, psi)
  }

  lemma {:induction false} RejectionByTails(k: int, m: nat, d: nat, psi: real)
    requires IsCritical(k, d) && m <= d + 1
    ensures RejectionBelow(m, d, psi) ==
            if k < 0 then 0.0
            else if m <= k + 1 then PmfSum(m, d, psi)
            else if m <= d - k then PmfSum(k + 1, d, psi)
            else PmfSum(k + 1, d, psi) + (PmfSum(m, d, psi) - PmfSum(d - k, d, psi))
    decreases m
  {
    if m > 0 {
      RejectionByTails(k, m - 1, d, psi);
      CriticalSplits(k, d, m - 1);
    }
  }

  /** The loop of `_rej_prob`: the critical value found from k on. */
  ghost function Critical(k: int, d: nat): (r: int)
    requires -1 <= k <= d / 2 && (k >= 0 ==> Rejects(k, d))
    ensures IsCritical(r, d)
    decreases d / 2 - k
  {
    if k + 1 <= d / 2 && Rejects(k + 1, d) then Critical(k + 1, d) else k
  }

  /** With critical value k, rejecting means being at least as extreme as k. */
  lemma {:induction false} RejectionIsExtreme(k: nat, m: nat, d: nat)
    requires IsCritical(k, d) && m <= d + 1
    ensures RejectionBelow(m, d, 0.5) == ExtremeProbability(m, k, d)
  {
    if m > 0 {
      RejectionIsExtreme(k, m - 1, d);
      CriticalSplits(k, d, m - 1);
    }
  }

  /** The true size: when both orders of a discordant pair are equally likely the test rejects with probability at
      most ALPHA. */
  lemma TrueSize(d: nat)
    ensures RejectionProbability(d, 0.5) <= ALPHA
  {
    var k := Critical(-1, d);
    if k < 0 {
      RejectionByTails(k, d + 1, d, 0.5);
    } else {
      RejectionIsExtreme(k, d + 1, d);
      PValueIsExtremeProbability(k, d);
    }
  }

  lemma {:induction false} RejectionBounds(m: nat, d: nat, psi: real)
    requires m <= d + 1 && 0.0 <= psi <= 1.0
    ensures 0.0 <= RejectionBelow(m, d, psi) <= PmfSum(m, d, psi)
  {
    if m > 0 {
      RejectionBounds(m - 1, d, psi);
      PmfNonNegative(m - 1, d, psi);
    }
  }

  // ---------- the power ----------

  /** Numbers of discordant pairs no more likely than this are skipped. */
  const NEGLIGIBLE := 0.000000000000001

  ghost function PowerTerm(d: nat, n: nat, pd: real, psi: real): real {
    if Pmf(d, n, pd) > NEGLIGIBLE then Weighed(Pmf(d, n, pd), RejectionProbability(d, psi)) else 0.0
  }

  ghost function PowerBelow(m: nat, n: nat, pd: real, psi: real): real {
    if m <= 1 then 0.0 else PowerBelow(m - 1, n, pd, psi) + PowerTerm(m - 1, n, pd, psi)
  }

  ghost function Power(n: nat, p10: real, p01: real): real {
    var pd := p10 + p01;
    if pd == 0.0 then 0.0 else PowerBelow(n + 1, n, pd, p10 / pd)
  }

  class Test {
    /** The module-level memo from d to its critical value. */
    var critCache: map<nat, int>

    ghost predicate Valid()
      reads this
    {
      forall d :: d in critCache ==> IsCritical(critCache[d], d)
    }

    constructor ()
      ensures Valid() && critCache == map[]
    {
      critCache := map[];
    }

    /** `_rej_prob`: whatever is in the memo, the result is the probability of a p-value of at most ALPHA. */
    method RejProb(d: nat, psi: real) returns (r: real)
      requires Valid()
      modifies this
      ensures Valid() && d in critCache && forall e :: e in old(critCache) ==>
            e in critCache && critCache[e] == old(critCache[e])
      ensures r == RejectionProbability(d, psi)
    {
      if d !in critCache {
        var k := -1;
        while k + 1 <= d / 2 && ExactTwoSidedP(k + 1, d) <= ALPHA
          invariant -1 <= k <= d / 2 && (k >= 0 ==> Rejects(k, d))
        {
          k := k + 1;
        }
        critCache := critCache[d := k];
      }
      var k := critCache[d];
      RejectionByTails(k, d + 1, d, psi);
      if k < 0 {
        return 0.0;
      }
      CriticalSplits(k, d, 0);
      r := 0.0;
      for b := 0 to k + 1
        invariant r == PmfSum(b, d, psi)
      {
        r := r + Pmf(b, d, psi);
      }
      for b := d - k to d + 1
        invariant r == PmfSum(k + 1, d, psi) + (PmfSum(b, d, psi) - PmfSum(d - k, d, psi))
      {
        r := r + Pmf(b, d, psi);
      }
    }

    /** `mcnemar_power`. */
    method McnemarPower(n: nat, p10: real, p01: real) returns (r: real)
      requires Valid()
      modifies this
      ensures Valid()
      ensures r == Power(n, p10, p01)
    {
      var pd := p10 + p01;
      if pd == 0.0 {
        return 0.0;
      }
      var psi := p10 / pd;
      r := 0.0;
      for d := 1 to n + 1
        invariant Valid() && r == PowerBelow(d, n, pd, psi)
      {
        if Pmf(d, n, pd) > NEGLIGIBLE {
          var reject := RejProb(d, psi);
          r := r + Weighed(Pmf(d, n, pd), reject);
        }
      }
    }
  }
}
