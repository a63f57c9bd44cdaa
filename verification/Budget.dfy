/** The per-model token guard of eval/run_injection_twin_control.py. */
module BudgetGuard {
  import opened Common
  import opened RollingWindow

  const INVOCATION_CEILING := 95000
  const ROLLING_CAP := 100000
  const MIN_EST_TOKENS_PER_CALL := 3000

  /** Tokens by model for one call, in the insertion order of the source's dict. */
  type Spent = seq<(string, int)>

  /** The state's usage log: one list, read by the budget and appended to through it. */
  class UsageLog {
    var entries: seq<Entry>

    constructor (entries: seq<Entry>)
      ensures this.entries == entries
    {
      this.entries := entries;
    }
  }

  // ---------- the budget as a value ----------

  /** What the guard decides on: the log, this invocation's usage, and the estimate of one call. */
  datatype Ledger = Ledger(log: seq<Entry>, inv: map<string, int>, est: int)

  function Get(inv: map<string, int>, m: string): int {
    if m in inv then inv[m] else 0
  }

  datatype Limits = Limits(models: seq<string>, ceiling: int, cap: int)

  /** `n` more calls at the estimate keep every configured model under both ceilings. */
  predicate Affords(limits: Limits, ledger: Ledger, n: nat, now: real) {
    forall m :: m in limits.models ==>
      && Get(ledger.inv, m) + n * ledger.est <= limits.ceiling
      && UsedInWindow(ledger.log, m, now, WINDOW_SECONDS) + n * ledger.est <= limits.cap
  }

  predicate RollingFits(limits: Limits, ledger: Ledger, n: nat, t: real) {
    forall m :: m in limits.models ==> UsedInWindow(ledger.log, m, t, WINDOW_SECONDS) + n * ledger.est <= limits.cap
  }

  function AddUsage(inv: map<string, int>, spent: Spent): map<string, int> {
    if spent == [] then inv else
      var (m, t) := spent[|spent| - 1];
      var before := AddUsage(inv, spent[..|spent| - 1]);
      before[m := Get(before, m) + t]
  }

  function Entries(now: real, spent: Spent): seq<Entry> {
    seq(|spent|, k requires 0 <= k < |spent| => Entry(now, spent[k].0, spent[k].1))
  }

  function Charged(ledger: Ledger, now: real, spent: Spent, callTokens: int): Ledger {
    Ledger(ledger.log + Entries(now, spent), AddUsage(ledger.inv, spent), MaxInt(ledger.est, callTokens))
  }

  // ---------- the budget as an object ----------

  class Budget {
    const models: seq<string>
    const usageLog: UsageLog
    const invocationCeiling: int
    const rollingCap: int
    var invUsage: map<string, int>
    var estCallTokens: int

    constructor (models: seq<string>, usageLog: UsageLog, estCallTokens: int, invocationCeiling: int, rollingCap: int)
      ensures this.models == models && this.usageLog == usageLog
      ensures this.invocationCeiling == invocationCeiling && this.rollingCap == rollingCap
      ensures Value() == Ledger(usageLog.entries, map[], MaxInt(estCallTokens, MIN_EST_TOKENS_PER_CALL))
    {
      this.models, this.usageLog := models, usageLog;
      this.invocationCeiling, this.rollingCap := invocationCeiling, rollingCap;
      this.invUsage, this.estCallTokens := map[], MaxInt(estCallTokens, MIN_EST_TOKENS_PER_CALL);
    }

    ghost function Value(): Ledger
      reads this, usageLog
    {
      Ledger(usageLog.entries, invUsage, estCallTokens)
    }

    function Bounds(): Limits {
      Limits(models, invocationCeiling, rollingCap)
    }

    method CanAfford(nCalls: nat, now: real) returns (ok: bool)
      ensures ok == Affords(Bounds(), Value(), nCalls, now)
    {
      var est := nCalls * estCallTokens;
      ok := true;
      for k := 0 to |models|
        invariant ok <==> forall i :: 0 <= i < k ==>
                            && Get(invUsage, models[i]) + est <= invocationCeiling
                            && UsedInWindow(usageLog.entries, models[i], now, WINDOW_SECONDS) + est <= rollingCap
      {
        ok := ok && Get(invUsage, models[k]) + est <= invocationCeiling
                 && UsedInWindow(usageLog.entries, models[k], now, WINDOW_SECONDS) + est <= rollingCap;
      }
    }

    /** The first time from `now` on at which `nCalls` fit under the rolling cap for every model at once. */
    method NextAllowedAt(nCalls: nat, now: real) returns (r: Option<real>)
      requires models != []
      ensures r == None <==> nCalls * estCallTokens > rollingCap
      ensures Charges(usageLog.entries) && r.Some? ==>
                && now <= r.value && RollingFits(Bounds(), Value(), nCalls, r.value)
                && (forall u :: now <= u < r.value ==> !RollingFits(Bounds(), Value(), nCalls, u))
                && (r.value == now <==> RollingFits(Bounds(), Value(), nCalls, now))
    {
      var need := nCalls * estCallTokens;
      r := RollingWindow.NextAllowedAt(usageLog.entries, models[0], now, need, rollingCap, WINDOW_SECONDS);
      for k := 1 to |models|
        invariant r == None <==> need > rollingCap
        invariant Charges(usageLog.entries) && r.Some? ==>
                    && now <= r.value
                    && (forall i :: 0 <= i < k ==>
                          Fits(usageLog.entries, models[i], r.value, need, rollingCap, WINDOW_SECONDS))
                    && exists i :: 0 <= i < k
                          && IsEarliest(usageLog.entries, models[i], now, r.value, need, rollingCap, WINDOW_SECONDS)
      {
        var t := RollingWindow.NextAllowedAt(usageLog.entries, models[k], now, need, rollingCap, WINDOW_SECONDS);
        if r.Some? && t.Some? {
          if Charges(usageLog.entries) {
            StillFits(usageLog.entries, models[..k + 1], k, r.value, t.value, need, rollingCap);
          }
          r := Some(MaxReal(r.value, t.value));
        }
      }
      if Charges(usageLog.entries) && r.Some? {
        EarliestForAll(Bounds(), Value(), nCalls, now, r.value, need);
      }
    }

    method Charge(now: real, spent: Spent, callTokens: int)
      modifies this, usageLog
      ensures Value() == Charged(old(Value()), now, spent, callTokens)
    {
      for k := 0 to |spent|
        invariant invUsage == AddUsage(old(invUsage), spent[..k])
        invariant usageLog.entries == old(usageLog.entries) + Entries(now, spent[..k])
        invariant estCallTokens == old(estCallTokens)
      {
        assert spent[..k + 1][..k] == spent[..k];
        invUsage := invUsage[spent[k].0 := Get(invUsage, spent[k].0) + spent[k].1];
        usageLog.entries := usageLog.entries + [Entry(now, spent[k].0, spent[k].1)];
      }
      assert spent[..|spent|] == spent;
      estCallTokens := MaxInt(estCallTokens, callTokens);
    }
  }

  lemma FitsLater(entries: seq<Entry>, model: string, t: real, later: real, need: int, cap: int)
    requires Charges(entries) && t <= later && Fits(entries, model, t, need, cap, WINDOW_SECONDS)
    ensures Fits(entries, model, later, need, cap, WINDOW_SECONDS)
  {
    UsedFalls(entries, model, t - WINDOW_SECONDS, later - WINDOW_SECONDS);
  }

  lemma StillFits(entries: seq<Entry>, models: seq<string>, k: nat, t: real, t': real, need: int, cap: int)
    requires Charges(entries) && |models| == k + 1
    requires forall i :: 0 <= i < k ==> Fits(entries, models[i], t, need, cap, WINDOW_SECONDS)
    requires Fits(entries, models[k], t', need, cap, WINDOW_SECONDS)
    ensures forall i :: 0 <= i <= k ==> Fits(entries, models[i], MaxReal(t, t'), need, cap, WINDOW_SECONDS)
  {
    forall i | 0 <= i <= k ensures Fits(entries, models[i], MaxReal(t, t'), need, cap, WINDOW_SECONDS) {
      FitsLater(entries, models[i], if i < k then t else t', MaxReal(t, t'), need, cap);
    }
  }

  lemma EarliestForAll(limits: Limits, ledger: Ledger, n: nat, now: real, t: real, need: int)
    requires need == n * ledger.est && now <= t
    requires forall i :: 0 <= i < |limits.models| ==>
          Fits(ledger.log, limits.models[i], t, need, limits.cap, WINDOW_SECONDS)
    requires exists i :: 0 <= i < |limits.models|
                         && IsEarliest(ledger.log, limits.models[i], now, t, need, limits.cap, WINDOW_SECONDS)
    ensures RollingFits(limits, ledger, n, t)
    ensures forall u :: now <= u < t ==> !RollingFits(limits, ledger, n, u)
  {
    var i :| 0 <= i < |limits.models|
          && IsEarliest(ledger.log, limits.models[i], now, t, need, limits.cap, WINDOW_SECONDS);
    forall u | now <= u < t ensures !RollingFits(limits, ledger, n, u) {
      assert !Fits(ledger.log, limits.models[i], u, need, limits.cap, WINDOW_SECONDS);
      assert limits.models[i] in limits.models;
    }
  }

  // ---------- what one call spends ----------

  datatype Response = Response(final: Final, model: string, tokensIn: nat, tokensOut: nat, escalated: bool)

  datatype Final = Final(buyAgain: Option<bool>, starsInferred: Option<int>, topics: seq<string>)

  function CallTokens(res: Response): nat {
    res.tokensIn + res.tokensOut
  }

  /** An escalated call also spent a small-tier attempt of the same size, on the small model's entry. */
  function TokensSpent(res: Response, smallModel: string): Spent {
    var total := CallTokens(res);
    if !res.escalated then [(res.model, total)]
    else if res.model == smallModel then [(smallModel, 2 * total)]
    else [(res.model, total), (smallModel, total)]
  }

  function SpentOn(spent: Spent, m: string): int {
    if spent == [] then 0 else
      SpentOn(spent[..|spent| - 1], m) + if spent[|spent| - 1].0 == m then spent[|spent| - 1].1 else 0
  }

  /** No configured model is charged more than `est`. */
  ghost predicate Within(spent: Spent, models: seq<string>, est: int) {
    forall m :: m in models ==> SpentOn(spent, m) <= est
  }

  lemma SpentOnFew(spent: Spent, m: string)
    requires 1 <= |spent| <= 2
    ensures SpentOn(spent, m) == (if spent[0].0 == m then spent[0].1 else 0)
                               + (if |spent| == 2 && spent[1].0 == m then spent[1].1 else 0)
  {
    var first := [spent[0]];
    assert first[..0] == [];
    assert SpentOn(first, m) == if spent[0].0 == m then spent[0].1 else 0;
    if |spent| == 2 {
      assert spent[..1] == first;
    } else {
      assert spent == first;
    }
  }

  /** What one call is charged to each model. */
  lemma SpentByModel(res: Response, smallModel: string, m: string)
    ensures SpentOn(TokensSpent(res, smallModel), m)
            == (if res.model == m then CallTokens(res) else 0)
             + (if res.escalated && smallModel == m then CallTokens(res) else 0)
    ensures forall k :: 0 <= k < |TokensSpent(res, smallModel)| ==> TokensSpent(res, smallModel)[k].1 >= 0
  {
    SpentOnFew(TokensSpent(res, smallModel), m);
  }

  /** One call stays within an estimate exactly when the estimate covers its tokens on every configured model it is
      charged to, and covers them twice if it escalated and yet reports the small model. */
  lemma SpentWithinIff(res: Response, smallModel: string, models: seq<string>, est: int)
    requires est >= 0
    ensures Within(TokensSpent(res, smallModel), models, est)
            <==> && (res.model in models || (res.escalated && smallModel in models) ==> CallTokens(res) <= est)
                 && (res.escalated && res.model == smallModel && smallModel in models ==> 2 * CallTokens(res) <= est)
  {
    forall m ensures SpentOn(TokensSpent(res, smallModel), m)
                     == (if res.model == m then CallTokens(res) else 0)
                      + (if res.escalated && smallModel == m then CallTokens(res) else 0)
    {
      SpentByModel(res, smallModel, m);
    }
    var spent := TokensSpent(res, smallModel);
    assert SpentOn(spent, res.model) >= CallTokens(res);
    assert res.escalated ==> SpentOn(spent, smallModel) >= CallTokens(res);
  }
}
