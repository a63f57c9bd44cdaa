/**
 `record` of eval/run_injection_twin_control.py in its own form: nested loops that update the state, the shared
 usage log and the budget, and save after every call.  Every execution is shown to be a run of TwinControl.

 `World` stands for what the program cannot control: a clock that never goes back, the model's answers, and a
 crash that may happen at any save.  It remembers how many calls failed and how many crashes there were.
 */
module Recorder {
  import opened Common
  import opened RollingWindow
  import opened BudgetGuard
  import opened TwinControl

  class World {
    var clock: real
    ghost var failures: nat
    ghost var crashes: nat

    constructor ()
    {
      clock := 0.0;
    }

    method Now() returns (t: real)
      modifies `clock
      ensures t == clock >= old(clock)
    {
      t := *;
      if t < clock {
        t := clock;
      }
      clock := t;
    }

    method Extract() returns (res: Option<Response>)
      modifies `clock, `failures
      ensures clock >= old(clock) && failures == old(failures) + if res == None then 1 else 0
    {
      var t := Now();
      res := *;
      if res == None {
        failures := failures + 1;
      }
    }

    method Crashes() returns (b: bool)
      modifies `crashes
      ensures crashes == old(crashes) + if b then 1 else 0
    {
      b := *;
      if b {
        crashes := crashes + 1;
      }
    }
  }

  /** The state dict in memory; its usage log is the list that the budget holds as well. */
  class State {
    var completed: map<string, Finished>
    var partial: map<string, Arms>
    var maxSeen: int
    const usageLog: UsageLog

    constructor (p: Persistent)
      ensures completed == p.completed && partial == p.partial && maxSeen == p.maxSeen
      ensures fresh(usageLog) && usageLog.entries == p.log
    {
      completed, partial, maxSeen := p.completed, p.partial, p.maxSeen;
      usageLog := new UsageLog(p.log);
    }

    function Snapshot(): Persistent
      reads this, usageLog
    {
      Persistent(completed, partial, usageLog.entries, maxSeen)
    }
  }

  class StateFile {
    var saved: Persistent

    constructor (p: Persistent)
      ensures saved == p
    {
      saved := p;
    }

    /** Written to a temporary file and moved into place, so a save happens as a whole. */
    method Save(p: Persistent)
      modifies this
      ensures saved == p
    {
      saved := p;
    }
  }

  /** The objects hold exactly the abstract state `s`. */
  ghost predicate Matches(s: Sys, state: State, budget: Budget, file: StateFile, world: World)
    reads state, state.usageLog, budget, file, world
  {
    && budget.usageLog == state.usageLog
    && s.mem == state.Snapshot() && s.disk == file.saved
    && s.inv == budget.invUsage && s.est == budget.estCallTokens && s.time <= world.clock
  }

  datatype Stop =
    | AllComplete
    | MaxPairsReached
    | Guarded(next: Option<real>)
    | CallFailed(id: string, arm: Arm)
    | Crashed

  /** The failed calls that a stop stands for. */
  function FailuresAt(stop: Option<Stop>): nat {
    if stop.Some? && stop.value.CallFailed? then 1 else 0
  }

  function CrashesAt(stop: Option<Stop>): nat {
    if stop == Some(Crashed) then 1 else 0
  }

  /** Of the pairs in order, the first that is not complete is the k-th. */
  ghost predicate FirstLeft(pairs: seq<Pair>, k: nat, completed: map<string, Finished>) {
    k < |pairs| && pairs[k].id !in completed && forall i :: 0 <= i < k ==> pairs[i].id in completed
  }

  ghost predicate AllDone(pairs: seq<Pair>, completed: map<string, Finished>) {
    forall k :: 0 <= k < |pairs| ==> pairs[k].id in completed
  }

  /** The calls the pair still needs do not fit under the ceilings at time `now`. */
  ghost predicate Refused(pair: Pair, state: State, budget: Budget, now: real)
    reads state, state.usageLog, budget, budget.usageLog
  {
    !Affords(budget.Bounds(), budget.Value(), |Todo(PartOf(state.Snapshot(), pair.id), pair)|, now)
  }

  /** `after` holds what `before` does and one more pair. */
  ghost predicate OneMore(before: map<string, Finished>, after: map<string, Finished>, id: string) {
    && id !in before && after.Keys == before.Keys + {id} && |after| == |before| + 1
    && forall i :: i in before ==> after[i] == before[i]
  }

  /** `after` holds what `before` does and n more pairs. */
  ghost predicate Grown(before: map<string, Finished>, after: map<string, Finished>, n: nat) {
    |after| == |before| + n && forall i :: i in before ==> i in after && after[i] == before[i]
  }

  ghost predicate DoneUpTo(pairs: seq<Pair>, k: nat, completed: map<string, Finished>) {
    k <= |pairs| && forall i :: 0 <= i < k ==> pairs[i].id in completed
  }

  /** What one pass leaves: without a crash `finished` is the number of pairs it completed, and a crash hides one at
      most; never more than `maxPairs` of them.  Without a crash it says that all pairs are complete exactly when they
      are, and it stops at the limit exactly when that many were finished and one is left. */
  ghost predicate Recorded(before: map<string, Finished>, after: map<string, Finished>, pairs: seq<Pair>,
        maxPairs: Option<nat>, finished: nat, stopped: Stop)
  {
    && (Grown(before, after, finished) || (stopped == Crashed && Grown(before, after, finished + 1)))
    && (maxPairs.Some? ==> |after| <= |before| + maxPairs.value)
    && (stopped != Crashed ==> (stopped == AllComplete <==> AllDone(pairs, after)))
    && (stopped == MaxPairsReached <==> maxPairs == Some(finished) && !AllDone(pairs, after))
  }

  /** What one pair that is the k-th and not complete does to the completed ones. */
  ghost predicate PairEnds(before: map<string, Finished>, after: map<string, Finished>, id: string, stop: Option<Stop>)
  {
    && (stop == None ==> OneMore(before, after, id))
    && (stop == Some(Crashed) ==> after == before || OneMore(before, after, id))
    && (stop != None && stop != Some(Crashed) ==> after == before)
  }

  lemma AfterPair(pairs: seq<Pair>, k: nat, start: map<string, Finished>, before: map<string, Finished>,
        after: map<string, Finished>, n: nat, stop: Option<Stop>)
    requires Grown(start, before, n) && DoneUpTo(pairs, k, before) && k < |pairs| && pairs[k].id !in before
    requires PairEnds(before, after, pairs[k].id, stop)
    ensures stop == None ==> Grown(start, after, n + 1) == true && DoneUpTo(pairs, k + 1, after) == true
    ensures stop != None ==> Grown(start, after, n) || (stop == Some(Crashed) && Grown(start, after, n + 1))
    ensures stop != None && stop != Some(Crashed) ==> FirstLeft(pairs, k, after)
  {
  }

  lemma AlreadyDone(pairs: seq<Pair>, k: nat, completed: map<string, Finished>)
    requires DoneUpTo(pairs, k, completed) && k < |pairs| && pairs[k].id in completed
    ensures DoneUpTo(pairs, k + 1, completed) == true
  {
  }

  /** A stop in the middle of the pairs. */
  lemma RecordedAt(pairs: seq<Pair>, k: nat, start: map<string, Finished>, after: map<string, Finished>,
                   maxPairs: Option<nat>, n: nat, stopped: Stop)
    requires Grown(start, after, n) || (stopped == Crashed && Grown(start, after, n + 1))
    requires maxPairs.Some? ==> n < maxPairs.value
    requires stopped != AllComplete && stopped != MaxPairsReached
    requires stopped != Crashed ==> FirstLeft(pairs, k, after)
    ensures Recorded(start, after, pairs, maxPairs, n, stopped)
  {
  }

  /** What holds at a stop while working on `pair`: refused, the calls it needs do not fit; after a failed call, the arm
      called is not stored. */
  ghost predicate StopsAt(stop: Stop, pair: Pair, state: State, budget: Budget, world: World)
    reads state, state.usageLog, budget, budget.usageLog, world
  {
    match stop
    case Guarded(_) => exists now :: now <= world.clock && Refused(pair, state, budget, now)
    case CallFailed(id, arm) => id == pair.id && !HasArm(state.Snapshot(), pair.id, arm)
    case Crashed => true
    case AllComplete => false
    case MaxPairsReached => false
  }

  /** One call: ask, charge, store, save.  A failed call changes nothing. */
  method CallArm(ghost cfg: Config, ghost s: Sys, pair: Pair, arm: Arm, small: string,
                 state: State, budget: Budget, file: StateFile, world: World)
    returns (ok: bool, ghost e: Event)
    requires Matches(s, state, budget, file, world) && Kept(s) && small == cfg.small
    requires s.pending.Some? && s.pending.value.pair == pair && s.pending.value.todo != []
          && s.pending.value.todo[0] == arm
    modifies state, state.usageLog, budget, file, world
    ensures state.completed == old(state.completed) && world.crashes == old(world.crashes)
    ensures world.failures == old(world.failures) + if ok then 0 else 1
    ensures !ok ==> Matches(s, state, budget, file, world) && !HasArm(state.Snapshot(), pair.id, arm)
    ensures ok ==> e.Call? && Enabled(cfg, s, e) && Matches(Next(cfg, s, e), state, budget, file, world)
  {
    e := Save;
    var res := world.Extract();
    if res == None {
      assert arm in s.pending.value.todo;
      return false, e;
    }
    var callTokens := CallTokens(res.value);
    var now := world.Now();
    e := Call(now, res.value);
    assert Enabled(cfg, s, e);
    budget.Charge(now, TokensSpent(res.value, small), callTokens);
    var part := state.partial[pair.id];
    state.partial := state.partial[pair.id := part[arm := Pack(res.value, pair.kind)]];
    state.maxSeen := MaxInt(state.maxSeen, callTokens);
    file.Save(state.Snapshot());
    ok := true;
  }

  /** The arms approved for one pair, in order; the loop ends early at a failed call or a crash. */
  method CallArms(ghost cfg: Config, ghost s0: Sys, ghost run0: seq<Event>, pair: Pair, remaining: seq<Arm>,
        small: string,
                  state: State, budget: Budget, file: StateFile, world: World)
    returns (stop: Option<Stop>, ghost run: seq<Event>)
    requires Valid(cfg, s0, run0) && Kept(After(cfg, s0, run0)) && small == cfg.small
    requires Matches(After(cfg, s0, run0), state, budget, file, world)
    requires var p := After(cfg, s0, run0).pending; p.Some? && p.value.pair == pair && p.value.todo == remaining
    modifies state, state.usageLog, budget, file, world
    ensures Valid(cfg, s0, run) && Kept(After(cfg, s0, run)) && Matches(After(cfg, s0, run), state, budget, file, world)
    ensures stop == None ==>
              var p := After(cfg, s0, run).pending; p.Some? && p.value.pair == pair && p.value.todo == []
    ensures state.completed == old(state.completed)
    ensures stop.Some? ==> stop.value.CallFailed? || stop.value.Crashed?
    ensures world.failures == old(world.failures) + FailuresAt(stop)
    ensures world.crashes == old(world.crashes) + CrashesAt(stop)
    ensures stop.Some? && stop.value.CallFailed? ==>
              stop.value.id == pair.id && !HasArm(state.Snapshot(), pair.id, stop.value.arm)
  {
    run, stop := run0, None;
    for k := 0 to |remaining|
      invariant Valid(cfg, s0, run) && Kept(After(cfg, s0, run))
            && Matches(After(cfg, s0, run), state, budget, file, world)
      invariant var p := After(cfg, s0, run).pending; p.Some? && p.value.pair == pair && p.value.todo == remaining[k..]
      invariant state.completed == old(state.completed)
      invariant world.failures == old(world.failures) && world.crashes == old(world.crashes)
    {
      ghost var s := After(cfg, s0, run);
      var ok, e := CallArm(cfg, s, pair, remaining[k], small, state, budget, file, world);
      if !ok {
        return Some(CallFailed(pair.id, remaining[k])), run;
      }
      KeptRunStep(cfg, s0, run, e);
      run := run + [e];
      var crash := world.Crashes();
      if crash {
        return Some(Crashed), run;
      }
    }
  }

  /** Both arms are stored: finalize the pair and save. */
  method FinishPair(ghost cfg: Config, ghost s: Sys, pair: Pair, state: State, budget: Budget, file: StateFile,
        world: World)
    requires Matches(s, state, budget, file, world) && Enabled(cfg, s, Finish) && s.pending.value.pair == pair
          && Kept(s)
    modifies state, file
    ensures Matches(Next(cfg, s, Finish), state, budget, file, world)
    ensures OneMore(old(state.completed), state.completed, pair.id)
  {
    state.completed := state.completed[pair.id := Finalize(pair, state.partial[pair.id])];
    state.partial := state.partial - {pair.id};
    file.Save(state.Snapshot());
  }

  /** When the refused calls would fit, for the stop message. */
  method Refuse(budget: Budget, n: nat, world: World) returns (next: Option<real>)
    requires budget.models != []
    modifies world`clock
    ensures world.clock >= old(world.clock)
    ensures next == None <==> n * budget.estCallTokens > budget.rollingCap
    ensures next.Some? && Charges(budget.usageLog.entries) ==>
              old(world.clock) <= next.value && RollingFits(budget.Bounds(), budget.Value(), n, next.value)
  {
    var now := world.Now();
    next := budget.NextAllowedAt(n, now);
  }

  /** The budget check of one pair that is not complete; if it passes, the pair's arms are pending. */
  method CheckPair(ghost cfg: Config, ghost s0: Sys, ghost run0: seq<Event>, pair: Pair,
                   state: State, budget: Budget, file: StateFile, world: World)
    returns (stop: Option<Stop>, remaining: seq<Arm>, ghost run: seq<Event>)
    requires Valid(cfg, s0, run0) && Kept(After(cfg, s0, run0)) && After(cfg, s0, run0).pending == None
    requires Matches(After(cfg, s0, run0), state, budget, file, world) && pair.id !in state.completed
    requires cfg.limits == budget.Bounds() && budget.models != []
    modifies state`partial, world`clock
    ensures Valid(cfg, s0, run) && Kept(After(cfg, s0, run)) && Matches(After(cfg, s0, run), state, budget, file, world)
    ensures stop == None ==>
              var p := After(cfg, s0, run).pending; p.Some? && p.value.pair == pair && p.value.todo == remaining
    ensures stop.Some? ==> stop.value.Guarded?
    ensures stop.Some? ==> exists now :: old(world.clock) <= now <= world.clock && Refused(pair, state, budget, now)
  {
    run, stop := run0, None;
    var part := if pair.id in state.partial then state.partial[pair.id] else map[];
    remaining := Todo(part, pair);
    var now := world.Now();
    ghost var s := After(cfg, s0, run);
    var affordable := budget.CanAfford(|remaining|, now);
    if !affordable {
      var next := Refuse(budget, |remaining|, world);
      assert Refused(pair, state, budget, now);
      return Some(Guarded(next)), remaining, run;
    }
    assert part == PartOf(s.mem, pair.id) && LedgerOf(s) == budget.Value();
    KeptRunStep(cfg, s0, run, Check(now, pair));
    run := run + [Check(now, pair)];
    state.partial := state.partial[pair.id := part];
  }

  /** The last event of a pair: nothing is left to call. */
  method FinishRun(ghost cfg: Config, ghost s0: Sys, ghost run0: seq<Event>, pair: Pair,
                   state: State, budget: Budget, file: StateFile, world: World)
    returns (ghost run: seq<Event>)
    requires Valid(cfg, s0, run0) && Kept(After(cfg, s0, run0))
    requires Matches(After(cfg, s0, run0), state, budget, file, world)
    requires var p := After(cfg, s0, run0).pending; p.Some? && p.value.pair == pair && p.value.todo == []
    modifies state, file
    ensures Valid(cfg, s0, run) && Kept(After(cfg, s0, run)) && Matches(After(cfg, s0, run), state, budget, file, world)
    ensures After(cfg, s0, run).pending == None
    ensures OneMore(old(state.completed), state.completed, pair.id)
  {
    ghost var s := After(cfg, s0, run0);
    BothArmsStored(cfg, s);
    KeptRunStep(cfg, s0, run0, Finish);
    run := run0 + [Finish];
    FinishPair(cfg, s, pair, state, budget, file, world);
  }

  /** One pair that is not complete: check the budget, call what is missing, finalize. */
  method RunPair(ghost cfg: Config, ghost s0: Sys, ghost run0: seq<Event>, pair: Pair, small: string,
                 state: State, budget: Budget, file: StateFile, world: World)
    returns (stop: Option<Stop>, ghost run: seq<Event>)
    requires Valid(cfg, s0, run0) && Kept(After(cfg, s0, run0)) && After(cfg, s0, run0).pending == None
    requires Matches(After(cfg, s0, run0), state, budget, file, world) && pair.id !in state.completed
    requires cfg == Config(budget.Bounds(), small) && budget.models != []
    modifies state, state.usageLog, budget, file, world
    ensures Valid(cfg, s0, run) && Kept(After(cfg, s0, run)) && Matches(After(cfg, s0, run), state, budget, file, world)
    ensures stop == None ==> After(cfg, s0, run).pending == None
    ensures world.failures == old(world.failures) + FailuresAt(stop)
    ensures world.crashes == old(world.crashes) + CrashesAt(stop)
    ensures PairEnds(old(state.completed), state.completed, pair.id, stop) == true
    ensures stop.Some? ==> StopsAt(stop.value, pair, state, budget, world)
  {
    var remaining;
    stop, remaining, run := CheckPair(cfg, s0, run0, pair, state, budget, file, world);
    if stop.Some? {
      return;
    }
    stop, run := CallArms(cfg, s0, run, pair, remaining, small, state, budget, file, world);
    if stop.Some? {
      return;
    }
    run := FinishRun(cfg, s0, run, pair, state, budget, file, world);
    var crash := world.Crashes();
    stop := if crash then Some(Crashed) else None;
  }

  /** One pass over the pairs.  The result `run` is a run of the transition system from `s0` to the objects' state. */
  method Record(ghost cfg: Config, ghost s0: Sys, pairs: seq<Pair>, small: string, maxPairs: Option<nat>,
                state: State, budget: Budget, file: StateFile, world: World)
    returns (finished: nat, stopped: Stop, ghost run: seq<Event>)
    requires Matches(s0, state, budget, file, world) && s0.pending == None && Kept(s0)
    requires cfg == Config(budget.Bounds(), small) && budget.models != []
    modifies state, state.usageLog, budget, file, world
    ensures Valid(cfg, s0, run) && Kept(After(cfg, s0, run)) && Matches(After(cfg, s0, run), state, budget, file, world)
    ensures world.failures == old(world.failures) + FailuresAt(Some(stopped))
    ensures world.crashes == old(world.crashes) + CrashesAt(Some(stopped))
    ensures Recorded(old(state.completed), state.completed, pairs, maxPairs, finished, stopped)
    ensures stopped.Guarded? || stopped.CallFailed? ==>
              exists k: nat :: FirstLeft(pairs, k, state.completed) && StopsAt(stopped, pairs[k], state, budget, world)
  {
    run, finished, stopped := [], 0, AllComplete;
    for k := 0 to |pairs|
      invariant Valid(cfg, s0, run) && Kept(After(cfg, s0, run))
            && Matches(After(cfg, s0, run), state, budget, file, world)
      invariant After(cfg, s0, run).pending == None
      invariant world.failures == old(world.failures) && world.crashes == old(world.crashes)
      invariant Grown(old(state.completed), state.completed, finished) == true
      invariant DoneUpTo(pairs, k, state.completed) == true
      invariant maxPairs.Some? ==> finished <= maxPairs.value
    {
      if pairs[k].id in state.completed {
        AlreadyDone(pairs, k, state.completed);
        continue;
      }
      if maxPairs.Some? && finished >= maxPairs.value {
        return finished, MaxPairsReached, run;
      }
      ghost var before := state.completed;
      var stop;
      stop, run := RunPair(cfg, s0, run, pairs[k], small, state, budget, file, world);
      AfterPair(pairs, k, old(state.completed), before, state.completed, finished, stop);
      if stop.Some? {
        RecordedAt(pairs, k, old(state.completed), state.completed, maxPairs, finished, stop.value);
        return finished, stop.value, run;
      }
      finished := finished + 1;
    }
  }

  /** One start of the program: load the file, build the budget, record, and save at the end unless it crashed. */
  method Invoke(ghost cfg: Config, ghost s0: Sys, pairs: seq<Pair>, small: string, models: seq<string>,
                maxPairs: Option<nat>, file: StateFile, world: World)
    returns (finished: nat, stopped: Stop, ghost run: seq<Event>)
    requires cfg == Config(Limits(models, INVOCATION_CEILING, ROLLING_CAP), small) && models != []
    requires Kept(s0) && s0.disk == file.saved && s0.time <= world.clock
    modifies file, world
    ensures Valid(cfg, s0, run) && Kept(After(cfg, s0, run))
    ensures After(cfg, s0, run).disk == file.saved && After(cfg, s0, run).time <= world.clock
    ensures world.failures == old(world.failures) + FailuresAt(Some(stopped))
    ensures world.crashes == old(world.crashes) + CrashesAt(Some(stopped))
    ensures Recorded(old(file.saved.completed), file.saved.completed, pairs, maxPairs, finished, stopped)
  {
    var state := new State(file.saved);
    var budget := new Budget(models, state.usageLog, state.maxSeen, INVOCATION_CEILING, ROLLING_CAP);
    KeptRunStep(cfg, s0, [], Begin);
    assert [] + [Begin] == [Begin];
    ghost var s1 := After(cfg, s0, [Begin]);
    finished, stopped, run := Record(cfg, s1, pairs, small, maxPairs, state, budget, file, world);
    RunConcat(cfg, s0, [Begin], run);
    run := [Begin] + run;
    if stopped != Crashed {
      KeptRunStep(cfg, s0, run, Save);
      run := run + [Save];
      file.Save(state.Snapshot());
    }
  }

  /** The arguments of one start. */
  datatype Start = Start(pairs: seq<Pair>, maxPairs: Option<nat>)

  /** The program started over and over on one state file, each time until it finishes, is stopped, or crashes.  All
      starts together are one run: no arm is called twice, and as long as every call stays within the estimate of its
      check, every model is under both ceilings right after every call. */
  method InvokeAll(ghost cfg: Config, ghost s0: Sys, starts: seq<Start>, small: string, models: seq<string>,
                   file: StateFile, world: World)
    returns (ghost run: seq<Event>)
    requires cfg == Config(Limits(models, INVOCATION_CEILING, ROLLING_CAP), small) && models != []
    requires Idle(s0) && Charges(s0.disk.log) && s0.est >= 0 && s0.disk == file.saved && s0.time <= world.clock
    modifies file, world
    ensures Valid(cfg, s0, run) && After(cfg, s0, run).disk == file.saved
    ensures Distinct(CallsOf(cfg, s0, run))
    ensures forall id, arm ::
              HasArm(file.saved, id, arm) <==> HasArm(s0.disk, id, arm) || (id, arm) in CallsOf(cfg, s0, run)
    ensures CallsWithin(cfg, s0, run) ==> forall k :: 0 < k <= |run| && run[k - 1].Call? ==> UnderAt(cfg, s0, run, k)
  {
    run := [];
    for i := 0 to |starts|
      invariant Valid(cfg, s0, run) && Kept(After(cfg, s0, run))
      invariant After(cfg, s0, run).disk == file.saved && After(cfg, s0, run).time <= world.clock
    {
      var finished, stopped;
      ghost var more;
      finished, stopped, more := Invoke(cfg, After(cfg, s0, run), starts[i].pairs, small, models, starts[i].maxPairs,
            file,
            world);
      RunConcat(cfg, s0, run, more);
      run := run + more;
    }
    EveryArmCalledOnce(cfg, s0, run);
    if CallsWithin(cfg, s0, run) {
      CeilingsHoldThroughout(cfg, s0, run);
    }
  }
}
