/**
 Exactly when the ceilings of eval/run_injection_twin_control.py are hard: which promise about the calls' replies
 keeps every run under them.
 */
module Ceilings {
  import opened Common
  import opened RollingWindow
  import opened BudgetGuard
  import opened TwinControl

  /** What is promised of a call's reply, given the estimate that its check used. */
  type Promise = (Response, int) -> bool

  ghost predicate Allows(cfg: Config, s: Sys, run: seq<Event>, promise: Promise)
    requires Valid(cfg, s, run)
  {
    run == [] || (
      var init, e := run[..|run| - 1], run[|run| - 1];
      && Allows(cfg, s, init, promise)
      && (e.Call? ==> promise(e.res, After(cfg, s, init).pending.value.est)))
  }

  /** No usage of the invocation is negative, and no estimate is below the floor. */
  ghost predicate Grounded(s: Sys) {
    && (forall m :: Get(s.inv, m) >= 0) && s.est >= MIN_EST_TOKENS_PER_CALL
    && (s.pending.Some? ==> s.pending.value.est >= MIN_EST_TOKENS_PER_CALL)
  }

  /** A state in which the program may be started, or has just been. */
  ghost predicate Startable(s: Sys) {
    Idle(s) && Charges(s.disk.log) && Grounded(s)
  }

  /** Over all runs, with any crashes and resumes, whose replies keep the promise: right after each call, and as
      long as nothing else is charged, no configured model is over either ceiling. */
  ghost predicate CeilingsHold(cfg: Config, promise: Promise) {
    forall s, run, t :: UnderAfter(cfg, s, run, t, promise)
  }

  ghost predicate UnderAfter(cfg: Config, s: Sys, run: seq<Event>, t: real, promise: Promise) {
    Startable(s) && Valid(cfg, s, run) && Allows(cfg, s, run, promise)
    && run != [] && run[|run| - 1].Call? && After(cfg, s, run).time <= t
    ==> UnderCeilings(cfg, After(cfg, s, run), t)
  }

  /** An estimate with which some check can pass. */
  predicate Usable(cfg: Config, est: int) {
    MIN_EST_TOKENS_PER_CALL <= est <= cfg.limits.ceiling && est <= cfg.limits.cap
  }

  /** Under a usable estimate a reply that keeps the promise charges no configured model more than the estimate. */
  ghost predicate PromisesWithin(cfg: Config, promise: Promise) {
    forall res, est :: Usable(cfg, est) && promise(res, est) ==>
          Within(TokensSpent(res, cfg.small), cfg.limits.models, est)
  }

  // ---------- the promise is enough ----------

  lemma {:induction false} UsageNonNegative(inv: map<string, int>, spent: Spent, m: string)
    requires Get(inv, m) >= 0 && forall k :: 0 <= k < |spent| ==> spent[k].1 >= 0
    ensures Get(AddUsage(inv, spent), m) >= 0
  {
    if spent != [] {
      UsageNonNegative(inv, spent[..|spent| - 1], m);
    }
  }

  lemma StepGrounded(cfg: Config, s: Sys, e: Event)
    requires Enabled(cfg, s, e) && Grounded(s)
    ensures Grounded(Next(cfg, s, e))
  {
    if e.Call? {
      forall m ensures Get(AddUsage(s.inv, TokensSpent(e.res, cfg.small)), m) >= 0 {
        SpentByModel(e.res, cfg.small, m);
        UsageNonNegative(s.inv, TokensSpent(e.res, cfg.small), m);
      }
    }
  }

  /** An estimate with an approved call still to come is usable. */
  lemma ApprovedIsUsable(cfg: Config, s: Sys, m: string)
    requires Reserved(cfg, s) && Grounded(s) && s.pending.Some? && s.pending.value.todo != [] && m in cfg.limits.models
    ensures Usable(cfg, s.pending.value.est)
  {
    var n, est := |s.pending.value.todo|, s.pending.value.est;
    assert n * est >= est;
    UsedFalls(s.mem.log, m, s.time - WINDOW_SECONDS, s.time - WINDOW_SECONDS);
    assert Get(s.inv, m) + n * est <= cfg.limits.ceiling;
  }

  lemma {:induction false} PromiseKeepsRoom(cfg: Config, s: Sys, run: seq<Event>, promise: Promise)
    requires Startable(s) && Valid(cfg, s, run) && Allows(cfg, s, run, promise) && PromisesWithin(cfg, promise)
    ensures CallsWithin(cfg, s, run) && Reserved(cfg, After(cfg, s, run)) && Grounded(After(cfg, s, run))
  {
    if run != [] {
      var init, e := run[..|run| - 1], run[|run| - 1];
      PromiseKeepsRoom(cfg, s, init, promise);
      var s' := After(cfg, s, init);
      if e.Call? {
        forall m | m in cfg.limits.models ensures SpentOn(TokensSpent(e.res, cfg.small), m) <= s'.pending.value.est {
          ApprovedIsUsable(cfg, s', m);
        }
      }
      StepReserved(cfg, s', e);
      StepGrounded(cfg, s', e);
    }
  }

  // ---------- the promise is needed ----------

  /** One arm of the pair is stored, and the log leaves the model exactly one estimate of room. */
  function TightFile(pair: Pair, arm: Packed, m: string, cap: int, est: int): Persistent {
    Persistent(map[], map[pair.id := map[Attack := arm]], [Entry(0.0, m, cap - est)], est)
  }

  function TightStart(p: Persistent): Sys { Sys(p, p, map[], p.maxSeen, 0.0, None) }

  /** The missing arm is approved there, at the estimate. */
  lemma TightApproved(cfg: Config, m: string, est: int, pair: Pair, arm: Packed)
    requires Usable(cfg, est)
    ensures var s := TightStart(TightFile(pair, arm, m, cfg.limits.cap, est)); var run := [Begin, Check(1.0, pair)];
      && Valid(cfg, s, run)
      && var s' := After(cfg, s, run);
         && s'.pending == Some(Pending(pair, [Twin], est)) && s'.inv == map[] && s'.time == 1.0
         && s'.mem.log == [Entry(0.0, m, cfg.limits.cap - est)]
  {
    var s := TightStart(TightFile(pair, arm, m, cfg.limits.cap, est));
    var s1 := Next(cfg, s, Begin);
    RunStep(cfg, s, [], Begin);
    assert [] + [Begin] == [Begin];
    assert Todo(PartOf(s1.mem, pair.id), pair) == [Twin];
    forall m' ensures UsedInWindow(s1.mem.log, m', 1.0, WINDOW_SECONDS) == if m' == m then cfg.limits.cap - est else 0 {
      UsedOfOne(s1.mem.log[0], m', 1.0 - WINDOW_SECONDS);
    }
    RunStep(cfg, s, [Begin], Check(1.0, pair));
    assert [Begin] + [Check(1.0, pair)] == [Begin, Check(1.0, pair)];
  }

  /** From there one call that charges the model more than the estimate ends over the cap. */
  lemma OvershootBreaksCap(cfg: Config, m: string, est: int, res: Response, pair: Pair, arm: Packed)
    requires Usable(cfg, est) && m in cfg.limits.models && SpentOn(TokensSpent(res, cfg.small), m) > est
    ensures var s := TightStart(TightFile(pair, arm, m, cfg.limits.cap, est));
      var run := [Begin, Check(1.0, pair), Call(1.0, res)];
      && Startable(s) && Valid(cfg, s, run) && Valid(cfg, s, run[..2])
      && After(cfg, s, run[..2]).pending.Some? && After(cfg, s, run[..2]).pending.value.est == est
      && !UnderCeilings(cfg, After(cfg, s, run), 1.0) && After(cfg, s, run).time == 1.0
  {
    var s := TightStart(TightFile(pair, arm, m, cfg.limits.cap, est));
    var approved, run := [Begin, Check(1.0, pair)], [Begin, Check(1.0, pair), Call(1.0, res)];
    TightApproved(cfg, m, est, pair, arm);
    RunStep(cfg, s, approved, Call(1.0, res));
    assert approved + [Call(1.0, res)] == run && run[..2] == approved;
    OverCap(cfg, m, est, res, After(cfg, s, approved), After(cfg, s, run));
  }

  lemma OverCap(cfg: Config, m: string, est: int, res: Response, s: Sys, s': Sys)
    requires Enabled(cfg, s, Call(1.0, res)) && s' == Next(cfg, s, Call(1.0, res))
    requires s.mem.log == [Entry(0.0, m, cfg.limits.cap - est)]
    requires m in cfg.limits.models && SpentOn(TokensSpent(res, cfg.small), m) > est
    ensures !UnderCeilings(cfg, s', 1.0) && s'.time == 1.0
  {
    var spent, cutoff := TokensSpent(res, cfg.small), 1.0 - WINDOW_SECONDS;
    UsedOfOne(s.mem.log[0], m, cutoff);
    UsedAppend(s.mem.log, Entries(1.0, spent), m, cutoff);
    AllEntriesUsed(1.0, spent, m, cutoff);
  }

  lemma {:induction false} AllEntriesUsed(now: real, spent: Spent, m: string, cutoff: real)
    requires cutoff < now
    ensures UsedAfter(Entries(now, spent), m, cutoff) == SpentOn(spent, m)
  {
    if spent != [] {
      var init := spent[..|spent| - 1];
      AllEntriesUsed(now, init, m, cutoff);
      assert Entries(now, spent)[..|init|] == Entries(now, init);
    }
  }

  const ANY_PAIR := Pair("any", BuyAgain, true)

  const ANY_ARM := Packed(false, Final(None, None, []), "any", 0, 0, false)

  lemma TightRunAllows(cfg: Config, s: Sys, pair: Pair, res: Response, promise: Promise)
    requires var run := [Begin, Check(1.0, pair), Call(1.0, res)];
      Valid(cfg, s, run) && Valid(cfg, s, run[..2]) && After(cfg, s, run[..2]).pending.Some?
      && promise(res, After(cfg, s, run[..2]).pending.value.est)
    ensures Allows(cfg, s, [Begin, Check(1.0, pair), Call(1.0, res)], promise)
  {
    var run := [Begin, Check(1.0, pair), Call(1.0, res)];
    assert run[..2][..1] == [Begin] && [Begin][..0] == [];
    assert Allows(cfg, s, [Begin], promise);
    assert Allows(cfg, s, run[..2], promise);
  }

  /** The ceilings hold over all runs whose replies keep a promise if and only if, under every usable estimate, the
      promise bounds what a reply charges to each configured model by the estimate. */
  lemma CeilingsHoldIff(cfg: Config, promise: Promise)
    ensures CeilingsHold(cfg, promise) <==> PromisesWithin(cfg, promise)
  {
    if PromisesWithin(cfg, promise) {
      forall s: Sys, run: seq<Event>, t: real ensures UnderAfter(cfg, s, run, t, promise) {
        if Startable(s) && Valid(cfg, s, run) && Allows(cfg, s, run, promise)
           && run != [] && run[|run| - 1].Call? && After(cfg, s, run).time <= t
        {
          PromiseKeepsRoom(cfg, s, run, promise);
          CeilingsHoldAfterEveryCall(cfg, s, run, t);
        }
      }
    } else {
      var res, est :| Usable(cfg, est) && promise(res, est)
                      && !Within(TokensSpent(res, cfg.small), cfg.limits.models, est);
      var m :| m in cfg.limits.models && SpentOn(TokensSpent(res, cfg.small), m) > est;
      var s := TightStart(TightFile(ANY_PAIR, ANY_ARM, m, cfg.limits.cap, est));
      OvershootBreaksCap(cfg, m, est, res, ANY_PAIR, ANY_ARM);
      TightRunAllows(cfg, s, ANY_PAIR, res, promise);
      assert !UnderAfter(cfg, s, [Begin, Check(1.0, ANY_PAIR), Call(1.0, res)], 1.0, promise);
    }
  }

  // ---------- what the code relies on ----------

  /** A promise about the tokens of a call alone, the quantity the estimate is raised by, keeps the ceilings exactly
      when the small model is not guarded: it is charged twice for an escalated call that reports it. */
  lemma TokensAloneAreEnoughIff(cfg: Config)
    ensures CeilingsHold(cfg, (res: Response, est) => CallTokens(res) <= est)
            <==> cfg.small !in cfg.limits.models || forall est :: !Usable(cfg, est)
  {
    var promise: Promise := (res: Response, est) => CallTokens(res) <= est;
    CeilingsHoldIff(cfg, promise);
    forall res: Response, est | Usable(cfg, est) && promise(res, est)
      ensures Within(TokensSpent(res, cfg.small), cfg.limits.models, est)
              <==> !(res.escalated && res.model == cfg.small && cfg.small in cfg.limits.models
                    && 2 * CallTokens(res) > est)
    {
      SpentWithinIff(res, cfg.small, cfg.limits.models, est);
    }
    if cfg.small in cfg.limits.models && exists est :: Usable(cfg, est) {
      var est :| Usable(cfg, est);
      var res := Response(Final(None, None, []), cfg.small, est, 0, true);
      assert promise(res, est) && CallTokens(res) == est;
    }
  }

  /** The same with the program's two models and constants: the router's degraded reply, which reports the small
      model and yet counts as escalated, of any size between half the estimate and the estimate. */
  lemma DoubleChargeBreaksCap(cfg: Config, large: string, est: int, res: Response, pair: Pair, arm: Packed)
    requires cfg.limits == Limits([cfg.small, large], INVOCATION_CEILING, ROLLING_CAP)
    requires MIN_EST_TOKENS_PER_CALL <= est <= INVOCATION_CEILING
    requires res.model == cfg.small && res.escalated && CallTokens(res) <= est < 2 * CallTokens(res)
    ensures var s := TightStart(TightFile(pair, arm, cfg.small, ROLLING_CAP, est));
      var run := [Begin, Check(1.0, pair), Call(1.0, res)];
      && Startable(s) && Valid(cfg, s, run) && Valid(cfg, s, run[..2])
      && After(cfg, s, run[..2]).pending.Some? && CallTokens(res) <= After(cfg, s, run[..2]).pending.value.est
      && !UnderCeilings(cfg, After(cfg, s, run), 1.0)
  {
    SpentByModel(res, cfg.small, cfg.small);
    assert cfg.small == cfg.limits.models[0];
    OvershootBreaksCap(cfg, cfg.small, est, res, pair, arm);
  }
}
