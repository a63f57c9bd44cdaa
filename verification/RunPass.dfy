/** The resumable scoring pass of eval/injection_guard_order.py. */
module GuardRun {
  import opened Common
  import opened GuardCache

  const MAX_CONSECUTIVE_ERRORS := 5

  datatype Request = Request(key: string, text: string)

  /** What one score call came back with. */
  datatype Answer = Answer(ok: bool, payload: string)

  datatype Stop = Running | LimitReached | Aborted

  datatype Pass = Pass(records: Records, done: nat, errors: nat, consecutive: nat, calls: seq<string>, stop: Stop)

  function RecordOf(req: Request, a: Answer): Rec {
    Rec(FIELDS, req.key, a.ok, a.payload)
  }

  function AtLimit(limit: Option<nat>, n: nat): bool {
    limit.Some? && n >= limit.value
  }

  /** One request: skipped if it is ok already, else scored with the next answer. */
  function PassStep(p: Pass, req: Request, limit: Option<nat>, answers: seq<Answer>): Pass
    requires |p.calls| < |answers|
  {
    if p.stop != Running || HasOk(p.records, req.key) then p
    else if AtLimit(limit, p.done + p.errors) then p.(stop := LimitReached)
    else
      var a := answers[|p.calls|];
      var q := p.(records := Keep(p.records, RecordOf(req, a)), calls := p.calls + [req.key]);
      if a.ok then q.(done := p.done + 1, consecutive := 0)
      else q.(errors := p.errors + 1, consecutive := p.consecutive + 1,
              stop := if p.consecutive + 1 >= MAX_CONSECUTIVE_ERRORS then Aborted else Running)
  }

  /** The pass over the first k requests. */
  function PassOver(requests: seq<Request>, k: nat, records: Records, limit: Option<nat>,
        answers: seq<Answer>): (p: Pass)
    requires k <= |requests| <= |answers|
    ensures |p.calls| <= k
  {
    if k == 0 then Pass(records, 0, 0, 0, [], Running)
    else PassStep(PassOver(requests, k - 1, records, limit, answers), requests[k - 1], limit, answers)
  }

  function CountCached(requests: seq<Request>, k: nat, records: Records): nat
    requires k <= |requests|
  {
    if k == 0 then 0 else CountCached(requests, k - 1, records) + if HasOk(records, requests[k - 1].key) then 1 else 0
  }

  lemma {:induction false} StoppedStays(requests: seq<Request>, i: nat, k: nat, records: Records, limit: Option<nat>,
                                        answers: seq<Answer>)
    requires i <= k <= |requests| <= |answers| && PassOver(requests, i, records, limit, answers).stop != Running
    ensures PassOver(requests, k, records, limit, answers) == PassOver(requests, i, records, limit, answers)
  {
    if i < k {
      StoppedStays(requests, i, k - 1, records, limit, answers);
    }
  }

  lemma NextStep(requests: seq<Request>, k: nat, records: Records, limit: Option<nat>, answers: seq<Answer>, p: Pass)
    requires k < |requests| <= |answers| && p == PassOver(requests, k, records, limit, answers)
    ensures PassOver(requests, k + 1, records, limit, answers) == PassStep(p, requests[k], limit, answers)
    ensures p.stop == Running && HasOk(p.records, requests[k].key) ==>
              PassOver(requests, k + 1, records, limit, answers) == p
  {
  }

  /** The loop as the program runs it.  Reaching the limit ends it, too many errors in a row abort it. */
  method RunPass(requests: seq<Request>, cache: Cache, answers: seq<Answer>, limit: Option<nat>)
    returns (ghost pass: Pass, done: nat, errors: nat, cached: nat, aborted: bool)
    requires |requests| <= |answers| && Lawful(cache.codec) && cache.Valid()
    modifies cache`records, cache`checked, cache.path
    ensures cache.Valid()
    ensures pass == PassOver(requests, |requests|, old(cache.records), limit, answers)
    ensures cache.records == pass.records && done == pass.done && errors == pass.errors
    ensures aborted == (pass.stop == Aborted) && cached == CountCached(requests, |requests|, old(cache.records))
  {
    ghost var before := cache.records;
    cached := 0;
    for k := 0 to |requests|
      invariant cached == CountCached(requests, k, cache.records)
    {
      if HasOk(cache.records, requests[k].key) {
        cached := cached + 1;
      }
    }
    done, errors, aborted := 0, 0, false;
    var consecutive, calls: nat := 0, 0;
    pass := Pass(before, 0, 0, 0, [], Running);
    for k := 0 to |requests|
      invariant pass == PassOver(requests, k, before, limit, answers)
      invariant pass == Pass(cache.records, done, errors, consecutive, pass.calls, Running) && calls == |pass.calls|
      invariant cache.Valid() && !aborted
    {
      var req := requests[k];
      ghost var next := PassStep(pass, req, limit, answers);
      NextStep(requests, k, before, limit, answers, pass);
      if HasOk(cache.records, req.key) {
        continue;
      }
      if limit.Some? && done + errors >= limit.value {
        StoppedStays(requests, k + 1, |requests|, before, limit, answers);
        pass := next;
        return;
      }
      var res := answers[calls];
      var _ := cache.Append(RecordOf(req, res));
      calls := calls + 1;
      if res.ok {
        done, consecutive := done + 1, 0;
      } else {
        errors, consecutive := errors + 1, consecutive + 1;
        if consecutive >= MAX_CONSECUTIVE_ERRORS {
          StoppedStays(requests, k + 1, |requests|, before, limit, answers);
          pass, aborted := next, true;
          return;
        }
      }
      pass := next;
    }
  }

  // ---------- laws of a pass ----------

  ghost predicate DistinctKeys(requests: seq<Request>) {
    forall i, j :: 0 <= i < j < |requests| ==> requests[i].key != requests[j].key
  }

  /** An ok record survives every pass unchanged, so over any number of reruns the ok keys only grow; no call is
      made for a key that was ok; and a limit bounds the calls. */
  lemma {:induction false} PassKeepsOk(requests: seq<Request>, k: nat, records: Records, limit: Option<nat>,
        answers: seq<Answer>)
    requires k <= |requests| <= |answers|
    ensures var p := PassOver(requests, k, records, limit, answers);
      && (forall key :: HasOk(records, key) ==> key in p.records && p.records[key] == records[key])
      && (forall c :: c in p.calls ==> !HasOk(records, c))
      && |p.calls| == p.done + p.errors && (limit.Some? ==> p.done + p.errors <= limit.value)
  {
    if k > 0 {
      PassKeepsOk(requests, k - 1, records, limit, answers);
    }
  }

  /** The number of errors that end the answers used so far. */
  function TrailingErrors(answers: seq<Answer>, n: nat): nat
    requires n <= |answers|
  {
    if n == 0 || answers[n - 1].ok then 0 else 1 + TrailingErrors(answers, n - 1)
  }

  /** The pass aborts exactly when the answers used end in five errors, and never lets five pass before. */
  lemma {:induction false} AbortsAfterFiveErrors(requests: seq<Request>, k: nat, records: Records, limit: Option<nat>,
                                                 answers: seq<Answer>)
    requires k <= |requests| <= |answers|
    ensures var p := PassOver(requests, k, records, limit, answers);
      && p.consecutive == TrailingErrors(answers, |p.calls|) <= MAX_CONSECUTIVE_ERRORS
      && (p.stop == Aborted <==> TrailingErrors(answers, |p.calls|) == MAX_CONSECUTIVE_ERRORS)
      && forall n :: 0 <= n < |p.calls| ==> TrailingErrors(answers, n) < MAX_CONSECUTIVE_ERRORS
  {
    if k > 0 {
      AbortsAfterFiveErrors(requests, k - 1, records, limit, answers);
    }
  }

  lemma {:induction false} OtherKeysUntouched(requests: seq<Request>, k: nat, records: Records, limit: Option<nat>,
                                              answers: seq<Answer>, key: string)
    requires k <= |requests| <= |answers| && forall i :: 0 <= i < k ==> requests[i].key != key
    ensures var p := PassOver(requests, k, records, limit, answers);
      && (key in p.records <==> key in records) && (key in records ==> p.records[key] == records[key])
  {
    if k > 0 {
      OtherKeysUntouched(requests, k - 1, records, limit, answers, key);
    }
  }

  /** Over distinct keys, a pass that ends without limit or abort has dealt with every request exactly once: it was
      cached before, or scored, or an error. */
  lemma {:induction false} EveryRequestCounted(requests: seq<Request>, k: nat, records: Records, limit: Option<nat>,
                                               answers: seq<Answer>)
    requires k <= |requests| <= |answers| && DistinctKeys(requests)
    requires PassOver(requests, k, records, limit, answers).stop == Running
    ensures var p := PassOver(requests, k, records, limit, answers);
      p.done + p.errors + CountCached(requests, k, records) == k
  {
    if k > 0 {
      EveryRequestCounted(requests, k - 1, records, limit, answers);
      OtherKeysUntouched(requests, k - 1, records, limit, answers, requests[k - 1].key);
    }
  }

  /** Every call is for one of the requests' keys, and over distinct keys none is made twice. */
  lemma {:induction false} CallsAreDistinct(requests: seq<Request>, k: nat, records: Records, limit: Option<nat>,
                                            answers: seq<Answer>)
    requires k <= |requests| <= |answers| && DistinctKeys(requests)
    ensures var calls := PassOver(requests, k, records, limit, answers).calls;
      Distinct(calls) && forall key :: (forall i :: 0 <= i < k ==> requests[i].key != key) ==> key !in calls
  {
    if k > 0 {
      CallsAreDistinct(requests, k - 1, records, limit, answers);
      var calls := PassOver(requests, k - 1, records, limit, answers).calls;
      assert requests[k - 1].key !in calls;
    }
  }

  /** How many of the first n answers are ok. */
  function OkAmong(answers: seq<Answer>, n: nat): nat
    requires n <= |answers|
  {
    if n == 0 then 0 else OkAmong(answers, n - 1) + if answers[n - 1].ok then 1 else 0
  }

  /** A pass reports as scored the ok answers it used, and as errors the others. */
  lemma {:induction false} CountsAreOfAnswers(requests: seq<Request>, k: nat, records: Records, limit: Option<nat>,
                                              answers: seq<Answer>)
    requires k <= |requests| <= |answers|
    ensures var p := PassOver(requests, k, records, limit, answers);
      p.done == OkAmong(answers, |p.calls|) && p.errors == |p.calls| - OkAmong(answers, |p.calls|)
  {
    if k > 0 {
      CountsAreOfAnswers(requests, k - 1, records, limit, answers);
    }
  }

  /** The record of `key` holds what the answer came back with. */
  ghost predicate RecordIs(records: Records, key: string, a: Answer) {
    key in records && records[key].key == key && records[key].ok == a.ok && records[key].payload == a.payload
  }

  ghost predicate Answered(records: Records, calls: seq<string>, answers: seq<Answer>) {
    |calls| <= |answers| && forall i :: 0 <= i < |calls| ==> RecordIs(records, calls[i], answers[i]) == true
  }

  ghost predicate SameRecord(before: Records, after: Records, key: string) {
    (key in after <==> key in before) && (key in before ==> after[key] == before[key])
  }

  ghost predicate SameExcept(before: Records, after: Records, calls: seq<string>) {
    forall key :: key !in calls ==> SameRecord(before, after, key)
  }

  lemma CallAnswered(before: Records, records: Records, calls: seq<string>, answers: seq<Answer>, req: Request)
    requires |calls| < |answers| && Answered(records, calls, answers) && SameExcept(before, records, calls)
    requires req.key !in calls && !HasOk(records, req.key)
    ensures var after := Keep(records, RecordOf(req, answers[|calls|]));
      Answered(after, calls + [req.key], answers) && SameExcept(before, after, calls + [req.key])
  {
    var after := Keep(records, RecordOf(req, answers[|calls|]));
    var more := calls + [req.key];
    forall i | 0 <= i < |more| ensures RecordIs(after, more[i], answers[i]) {
      if i < |calls| {
        assert RecordIs(records, calls[i], answers[i]);
      }
    }
    forall key | key !in more ensures SameRecord(before, after, key) {
      assert key != req.key && SameRecord(before, records, key) by {
        assert req.key == more[|calls|];
        assert forall i :: 0 <= i < |calls| ==> calls[i] == more[i];
      }
    }
  }

  lemma StepAnswered(before: Records, p: Pass, req: Request, limit: Option<nat>, answers: seq<Answer>)
    requires |p.calls| < |answers| && req.key !in p.calls
    requires Answered(p.records, p.calls, answers) && SameExcept(before, p.records, p.calls)
    ensures var p' := PassStep(p, req, limit, answers);
      Answered(p'.records, p'.calls, answers) == true && SameExcept(before, p'.records, p'.calls) == true
  {
    if p.stop == Running && !HasOk(p.records, req.key) {
      CallAnswered(before, p.records, p.calls, answers, req);
    }
  }

  /** Over distinct keys the record of the i-th call holds the i-th answer, and every other key keeps what it had. */
  lemma {:induction false} RecordsAreAnswers(requests: seq<Request>, k: nat, records: Records, limit: Option<nat>,
                                             answers: seq<Answer>)
    requires k <= |requests| <= |answers| && DistinctKeys(requests)
    ensures var p := PassOver(requests, k, records, limit, answers);
      Answered(p.records, p.calls, answers) == true && SameExcept(records, p.records, p.calls) == true
  {
    if k > 0 {
      RecordsAreAnswers(requests, k - 1, records, limit, answers);
      CallsAreDistinct(requests, k - 1, records, limit, answers);
      StepAnswered(records, PassOver(requests, k - 1, records, limit, answers), requests[k - 1], limit, answers);
    }
  }

  /** The keys of the requests without an ok record, in order. */
  function Uncached(requests: seq<Request>, k: nat, records: Records): seq<string>
    requires k <= |requests|
  {
    if k == 0 then [] else
      Uncached(requests, k - 1, records) + if HasOk(records, requests[k - 1].key) then [] else [requests[k - 1].key]
  }

  /** The calls are for the first of the keys in `all`: for all of them unless the pass stopped, and the limit stops it
      only at that many calls and before the last one. */
  ghost predicate CallsFrom(p: Pass, all: seq<string>, limit: Option<nat>) {
    && p.calls <= all
    && (p.stop == Running ==> p.calls == all)
    && (p.stop == LimitReached ==> limit == Some(|p.calls|) && |p.calls| < |all|)
  }

  lemma StepCallsFrom(p: Pass, all: seq<string>, req: Request, limit: Option<nat>, answers: seq<Answer>)
    requires |p.calls| < |answers| && CallsFrom(p, all, limit)
    requires |p.calls| == p.done + p.errors && (limit.Some? ==> p.done + p.errors <= limit.value)
    ensures CallsFrom(PassStep(p, req, limit, answers), all + if HasOk(p.records, req.key) then []
          else [req.key], limit)
  {
  }

  /** Over distinct keys the calls are for the first of the keys without an ok record before, in order. */
  lemma {:induction false} CallsAreUncached(requests: seq<Request>, k: nat, records: Records, limit: Option<nat>,
                                            answers: seq<Answer>)
    requires k <= |requests| <= |answers| && DistinctKeys(requests)
    ensures CallsFrom(PassOver(requests, k, records, limit, answers), Uncached(requests, k, records), limit) == true
  {
    if k > 0 {
      var p, req := PassOver(requests, k - 1, records, limit, answers), requests[k - 1];
      CallsAreUncached(requests, k - 1, records, limit, answers);
      OtherKeysUntouched(requests, k - 1, records, limit, answers, req.key);
      PassKeepsOk(requests, k - 1, records, limit, answers);
      StepCallsFrom(p, Uncached(requests, k - 1, records), req, limit, answers);
    }
  }

  /** If such a pass met no error, every request has an ok record afterwards. */
  lemma {:induction false} FullPassLeavesAllOk(requests: seq<Request>, k: nat, records: Records, limit: Option<nat>,
                                               answers: seq<Answer>)
    requires k <= |requests| <= |answers|
    requires var p := PassOver(requests, k, records, limit, answers); p.stop == Running && p.errors == 0
    ensures forall i :: 0 <= i < k ==> HasOk(PassOver(requests, k, records, limit, answers).records, requests[i].key)
  {
    if k > 0 {
      FullPassLeavesAllOk(requests, k - 1, records, limit, answers);
    }
  }

  /** Running the pass again over the result of an error-free full pass makes no call at all. */
  lemma {:induction false} SecondPassIsFree(requests: seq<Request>, k: nat, records: Records, limit: Option<nat>,
        answers: seq<Answer>)
    requires k <= |requests| <= |answers| && forall i :: 0 <= i < |requests| ==> HasOk(records, requests[i].key)
    ensures PassOver(requests, k, records, limit, answers) == Pass(records, 0, 0, 0, [], Running)
  {
    if k > 0 {
      SecondPassIsFree(requests, k - 1, records, limit, answers);
    }
  }
}
