/**
 What `mcnemar_power` computes (scripts/injection_landing_sample_size.py): the probability that the exact test
 rejects after n independently drawn pairs.
 */
module McNemarPower {
  import opened Common
  import opened Binomial
  import opened Reals
  import opened McNemar

  /** 1 when the test rejects with b and c discordant pairs of the two orders. */
  function Verdict(b: int, c: int): real {
    if b >= 0 && c >= 0 && McnemarExact(b, c) <= ALPHA then 1.0 else 0.0
  }

  /** The probability that the test rejects after n more pairs, drawn one at a time, when b and c have been counted:
      a pair adds to b with probability p10, to c with probability p01, and to neither otherwise. */
  function RejectsAfter(n: nat, b: int, c: int, p10: real, p01: real): real {
    if n == 0 then Verdict(b, c) else
      OneDraw(p10, p01, RejectsAfter(n - 1, b + 1, c, p10, p01), RejectsAfter(n - 1, b, c + 1, p10, p01),
              RejectsAfter(n - 1, b, c, p10, p01))
  }

  function OneDraw(p10: real, p01: real, x: real, y: real, z: real): real {
    p10 * x + p01 * y + (1.0 - (p10 + p01)) * z
  }

  /** pd is the probability of a discordant pair, psi the share of those that go to b. */
  ghost predicate Splits(pd: real, psi: real, p10: real, p01: real) {
    p10 == pd * psi && p01 == pd * (1.0 - psi)
  }

  /** The verdict as a function of how many of d discordant pairs go to b. */
  function Row(b: int, c: int, d: int): int -> real { i => Verdict(b + i, c + (d - i)) }

  /** The mean verdict as a function of the number of discordant pairs. */
  function Rows(b: int, c: int, psi: real): int -> real {
    d => if d < 0 then 0.0 else Mean(d, psi, Row(b, c, d))
  }

  lemma RowStep(b: int, c: int, d: nat, psi: real)
    ensures IsMix(Rows(b, c, psi)(d + 1), psi, Rows(b + 1, c, psi)(d), Rows(b, c + 1, psi)(d))
  {
    var h := Row(b, c, d + 1);
    MeanStep(d, psi, h);
    ExpectCongruent(d + 1, Weights(d, psi), Shift(h), Row(b + 1, c, d));
    ExpectCongruent(d + 1, Weights(d, psi), h, Row(b, c + 1, d));
  }

  /** One more pair. */
  lemma PairStep(n: nat, b: int, c: int, pd: real, psi: real)
    ensures var t := Mean(n, pd, Shift(Rows(b, c, psi)));
      && IsMix(Mean(n + 1, pd, Rows(b, c, psi)), pd, t, Mean(n, pd, Rows(b, c, psi)))
      && IsMix(t, psi, Mean(n, pd, Rows(b + 1, c, psi)), Mean(n, pd, Rows(b, c + 1, psi)))
  {
    MeanStep(n, pd, Rows(b, c, psi));
    forall d: nat | d <= n
      ensures IsMix(Shift(Rows(b, c, psi))(d), psi, Rows(b + 1, c, psi)(d), Rows(b, c + 1, psi)(d))
    {
      RowStep(b, c, d, psi);
    }
    ExpectMix(n + 1, Weights(n, pd), Shift(Rows(b, c, psi)), psi, Rows(b + 1, c, psi), Rows(b, c + 1, psi));
  }

  /** Drawing the number of discordant pairs first and splitting it afterwards gives the same probability as drawing
      the pairs one at a time. */
  lemma {:induction false} DrawnOneAtATime(n: nat, b: int, c: int, pd: real, psi: real, p10: real, p01: real)
    requires Splits(pd, psi, p10, p01)
    ensures Mean(n, pd, Rows(b, c, psi)) == RejectsAfter(n, b, c, p10, p01)
  {
    if n == 0 {
      NoTrials(pd, Rows(b, c, psi));
      NoTrials(psi, Row(b, c, 0));
    } else {
      DrawnOneAtATime(n - 1, b + 1, c, pd, psi, p10, p01);
      DrawnOneAtATime(n - 1, b, c + 1, pd, psi, p10, p01);
      DrawnOneAtATime(n - 1, b, c, pd, psi, p10, p01);
      PairStep(n - 1, b, c, pd, psi);
      Nested(Mean(n, pd, Rows(b, c, psi)), Mean(n - 1, pd, Shift(Rows(b, c, psi))), RejectsAfter(n - 1, b, c, p10, p01),
             RejectsAfter(n - 1, b + 1, c, p10, p01), RejectsAfter(n - 1, b, c + 1, p10, p01), pd, psi, p10, p01);
    }
  }

  lemma NoTrials(p: real, h: int -> real)
    ensures Mean(0, p, h) == h(0)
  {
    assert Expect(1, Weights(0, p), h) == Expect(0, Weights(0, p), h) + Weighed(Weights(0, p)(0), h(0));
  }

  lemma Nested(s: real, t: real, z: real, x: real, y: real, pd: real, psi: real, p10: real, p01: real)
    requires IsMix(s, pd, t, z) && IsMix(t, psi, x, y)
    requires Splits(pd, psi, p10, p01)
    ensures s == OneDraw(p10, p01, x, y, z)
  {
    assert pd * t == pd * psi * x + pd * (1.0 - psi) * y;
  }

  // ---------- the computed power ----------

  function Rejection(psi: real): int -> real { Rows(0, 0, psi) }

  lemma {:induction false} RejectionIsExpect(m: nat, d: nat, psi: real)
    requires m <= d + 1
    ensures RejectionBelow(m, d, psi) == Expect(m, Weights(d, psi), Row(0, 0, d))
  {
    if m > 0 {
      RejectionIsExpect(m - 1, d, psi);
      ImplementationsAgree(m - 1, d - (m - 1));
      AllOrNothing(Pmf(m - 1, d, psi));
      assert Row(0, 0, d)(m - 1) == Verdict(m - 1, d - (m - 1));
    }
  }

  lemma AllOrNothing(w: real)
    ensures Weighed(w, 1.0) == w && Weighed(w, 0.0) == 0.0
  {
  }

  lemma RejectionAt(d: nat, psi: real)
    ensures Rejection(psi)(d) == RejectionProbability(d, psi)
  {
    RejectionIsExpect(d + 1, d, psi);
  }

  /** Skipping the negligible terms loses at most NEGLIGIBLE each. */
  lemma {:induction false} PowerBelowIs(m: nat, n: nat, pd: real, psi: real)
    requires 0.0 <= pd <= 1.0 && 0.0 <= psi <= 1.0 && m >= 1
    ensures var exact := Expect(m, Weights(n, pd), Rejection(psi));
      exact - (m - 1) as real * NEGLIGIBLE <= PowerBelow(m, n, pd, psi) <= exact
  {
    var d := m - 1;
    RejectionAt(d, psi);
    if m == 1 {
      assert ExactTwoSidedP(0, 0) == 1.0;
      assert !Rejects(0, 0);
      assert RejectionBelow(1, 0, psi) == RejectionBelow(0, 0, psi);
      AllOrNothing(Pmf(0, n, pd));
      assert Expect(1, Weights(n, pd), Rejection(psi))
          == Expect(0, Weights(n, pd), Rejection(psi)) + Weighed(Pmf(0, n, pd), 0.0);
    } else {
      PowerBelowIs(m - 1, n, pd, psi);
      PmfNonNegative(d, n, pd);
      RejectionBounds(d + 1, d, psi);
      PmfSumAll(d, psi);
      WithinWeight(Pmf(d, n, pd), RejectionProbability(d, psi));
    }
  }

  lemma WithinWeight(w: real, x: real)
    requires w >= 0.0 && 0.0 <= x <= 1.0
    ensures 0.0 <= Weighed(w, x) <= w
  {
  }

  lemma SplitDiscordant(p10: real, p01: real)
    requires p10 >= 0.0 && p01 >= 0.0 && p10 + p01 > 0.0
    ensures var pd := p10 + p01;
      0.0 <= p10 / pd <= 1.0 && Splits(pd, p10 / pd, p10, p01)
  {
    var pd := p10 + p01;
    var psi := p10 / pd;
    assert psi * pd == p10;
    assert (1.0 - psi) * pd == p01;
    assert psi <= 1.0;
  }

  lemma {:induction false} NeverRejects(n: nat)
    ensures RejectsAfter(n, 0, 0, 0.0, 0.0) == 0.0
  {
    if n > 0 {
      NeverRejects(n - 1);
    }
  }

  /** The computed power is the probability that the test rejects after n pairs, short of it by at most n negligible
      terms. */
  lemma PowerIsRejectionProbability(n: nat, p10: real, p01: real)
    requires p10 >= 0.0 && p01 >= 0.0 && p10 + p01 <= 1.0
    ensures var exact := RejectsAfter(n, 0, 0, p10, p01);
      exact - n as real * NEGLIGIBLE <= Power(n, p10, p01) <= exact
  {
    var pd := p10 + p01;
    if pd == 0.0 {
      NeverRejects(n);
    } else {
      SplitDiscordant(p10, p01);
      PowerBelowIs(n + 1, n, pd, p10 / pd);
      DrawnOneAtATime(n, 0, 0, pd, p10 / pd, p10, p01);
    }
  }

  /** Under the null of equal discordant probabilities neither the true nor the computed rejection probability
      exceeds ALPHA, whatever the number of pairs. */
  lemma NullIsControlled(n: nat, p: real)
    requires 0.0 <= p <= 0.5
    ensures Power(n, p, p) <= RejectsAfter(n, 0, 0, p, p) <= ALPHA
  {
    PowerIsRejectionProbability(n, p, p);
    if p == 0.0 {
      NeverRejects(n);
    } else {
      assert p / (p + p) == 0.5;
      forall d | 0 <= d < n + 1
        ensures Rejection(0.5)(d) <= ALPHA
      {
        RejectionAt(d, 0.5);
        TrueSize(d);
      }
      MeanAtMost(n, p + p, Rejection(0.5), ALPHA);
      DrawnOneAtATime(n, 0, 0, p + p, 0.5, p, p);
    }
  }

  // ---------- marginals with a correlation ----------

  /** The variances' product pa (1 - pa) pt (1 - pt). */
  function Spread(pa: real, pt: real): real {
    Times(Times(Times(pa, 1.0 - pa), pt), 1.0 - pt)
  }

  /** `joint`. */
  function Joint(pa: real, pt: real, phi: real, sqrt: real -> real): (real, real) {
    var p11 := Times(pa, pt) + Times(phi, sqrt(Spread(pa, pt)));
    var clamped := MaxReal(MaxReal(0.0, pa + pt - 1.0), MinReal(MinReal(pa, pt), p11));
    (pa - clamped, pt - clamped)
  }

  /** The least and the largest probability of both at once that the marginals allow. */
  function Least(pa: real, pt: real): real { if pa + pt <= 1.0 then 0.0 else pa + pt - 1.0 }

  function Largest(pa: real, pt: real): real { if pa <= pt then pa else pt }

  /** Whatever the correlation, the clamp gives a pair of probabilities the power is defined for; uncorrelated
      marginals are never clamped. */
  lemma JointIsFeasible(pa: real, pt: real, phi: real, sqrt: real -> real)
    requires 0.0 <= pa <= 1.0 && 0.0 <= pt <= 1.0
    ensures var (p10, p01) := Joint(pa, pt, phi, sqrt);
      && p10 >= 0.0 && p01 >= 0.0 && p10 + p01 <= 1.0
      && (phi == 0.0 ==> p10 == Times(pa, 1.0 - pt) && p01 == Times(pt, 1.0 - pa))
  {
    TimesNonNegative(pa, pt);
    TimesNonNegative(pa, 1.0 - pt);
    TimesNonNegative(1.0 - pa, pt);
    TimesNonNegative(1.0 - pa, 1.0 - pt);
    Independent(pa, pt, sqrt(Spread(pa, pt)));
  }

  lemma Independent(pa: real, pt: real, root: real)
    ensures Times(0.0, root) == 0.0
    ensures Times(pa, 1.0 - pt) == pa - Times(pa, pt) && Times(pt, 1.0 - pa) == pt - Times(pa, pt)
    ensures Times(1.0 - pa, 1.0 - pt) == 1.0 - pa - pt + Times(pa, pt)
    ensures Times(1.0 - pa, pt) == Times(pt, 1.0 - pa)
  {
  }

  /** The two discordant probabilities leave the same probability of both at once.  Its excess over independence is the
      correlation times the root of the variances' product where the marginals allow that; otherwise it is the bound
      on that side. */
  lemma JointHasCorrelation(pa: real, pt: real, phi: real, sqrt: real -> real)
    requires 0.0 <= pa <= 1.0 && 0.0 <= pt <= 1.0
    ensures var (p10, p01) := Joint(pa, pt, phi, sqrt); var both := pa - p10;
      var excess := Times(phi, sqrt(Times(Times(Times(pa, 1.0 - pa), pt), 1.0 - pt)));
      var wanted := Times(pa, pt) + excess;
      && both == pt - p01
      && (Least(pa, pt) <= wanted <= Largest(pa, pt) ==> both - Times(pa, pt) == excess)
      && (wanted < Least(pa, pt) ==> both == Least(pa, pt))
      && (wanted > Largest(pa, pt) ==> both == Largest(pa, pt))
  {
  }
}
