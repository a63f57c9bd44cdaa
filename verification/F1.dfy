/** The harmonic mean of precision and recall, as eval/runner.py and scripts/analyze_pros_gold.py compute it. */
module F1 {
  import opened Reals

  /** tp matches between `predicted` and `expected` items, neither list empty. */
  function Harmonic(tp: nat, predicted: nat, expected: nat): real
    requires predicted > 0 && expected > 0
  {
    var precision, recall := tp as real / predicted as real, tp as real / expected as real;
    if precision + recall == 0.0 then 0.0 else 2.0 * Times(precision, recall) / (precision + recall)
  }

  lemma CrossMultiply(tp: real, x: real, y: real, p: real, r: real, q: real)
    requires Times(x, p) == tp && Times(y, r) == tp && Times(x + y, q) == 2.0 * tp
    ensures Times(x + y, Times(p + r, q)) == Times(x + y, 2.0 * Times(p, r))
  {
    TimesExchanges(x + y, p + r, q);
    assert Times(p + r, 2.0 * tp) == 2.0 * Times(p, tp) + 2.0 * Times(r, tp);
    Spread(x, y, p, r);
    TimesCommutes(tp, p);
  }

  lemma Spread(x: real, y: real, p: real, r: real)
    ensures Times(x + y, 2.0 * Times(p, r)) == 2.0 * Times(r, Times(x, p)) + 2.0 * Times(p, Times(y, r))
  {
  }

  /** The harmonic mean is twice the matches over all items, whatever tp. */
  lemma HarmonicIs(tp: nat, predicted: nat, expected: nat)
    requires predicted > 0 && expected > 0
    ensures Harmonic(tp, predicted, expected) == (2 * tp) as real / (predicted + expected) as real
  {
    var n, x, y := tp as real, predicted as real, expected as real;
    var p, r, q := n / x, n / y, (2 * tp) as real / (predicted + expected) as real;
    QuotientTimes(n, x);
    QuotientTimes(n, y);
    QuotientTimes(2.0 * n, x + y);
    if tp == 0 {
      QuotientIs(0.0, x, 0.0);
      QuotientIs(0.0, y, 0.0);
      QuotientIs(0.0, x + y, 0.0);
    } else {
      QuotientPositive(n, x);
      QuotientPositive(n, y);
      CrossMultiply(n, x, y, p, r, q);
      TimesCancels(x + y, Times(p + r, q), 2.0 * Times(p, r));
      QuotientIs(2.0 * Times(p, r), p + r, q);
    }
  }

  /** It lies in [0, 1], is 1 exactly when everything is matched and grows with the matches. */
  lemma HarmonicBounds(tp: nat, predicted: nat, expected: nat)
    requires predicted > 0 && expected > 0 && tp <= predicted && tp <= expected
    ensures 0.0 <= Harmonic(tp, predicted, expected) <= 1.0
    ensures Harmonic(tp, predicted, expected) == 1.0 <==> tp == predicted == expected
    ensures Harmonic(tp, predicted, expected) == 0.0 <==> tp == 0
  {
    HarmonicIs(tp, predicted, expected);
    var d, q := (predicted + expected) as real, (2 * tp) as real / (predicted + expected) as real;
    QuotientTimes((2 * tp) as real, d);
    TimesOrder(0.0, q, d);
    TimesOrder(q, 0.0, d);
    TimesOrder(q, 1.0, d);
    TimesOrder(1.0, q, d);
    assert Times(d, 0.0) == 0.0 && Times(d, 1.0) == d;
  }

  lemma HarmonicMonotone(tp: nat, tp': nat, predicted: nat, expected: nat)
    requires predicted > 0 && expected > 0 && tp <= tp'
    ensures Harmonic(tp, predicted, expected) <= Harmonic(tp', predicted, expected)
  {
    HarmonicIs(tp, predicted, expected);
    HarmonicIs(tp', predicted, expected);
    var d := (predicted + expected) as real;
    QuotientTimes((2 * tp) as real, d);
    QuotientTimes((2 * tp') as real, d);
    TimesOrder((2 * tp) as real / d, (2 * tp') as real / d, d);
  }
}
