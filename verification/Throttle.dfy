/** Request pacing and the attempt loop of eval/injection_guard_order.py.  Times are real seconds. */
module Pacing {
  import opened Common

  const MIN_INTERVAL_S := 1.0
  const BACKOFF_CAP_S := 60.0
  const RETRY_AFTER_CAP_S := 120.0

  /** The clock never goes back, and a sleep advances it by at least what was asked for. */
  class Clock {
    var time: real

    constructor ()
    {
      time := 0.0;
    }

    method Now() returns (t: real)
      modifies this
      ensures t == time >= old(time)
    {
      t := *;
      if t < time {
        t := time;
      }
      time := t;
    }

    method Sleep(seconds: real)
      modifies this
      ensures time >= old(time) && time >= old(time) + seconds
    {
      var t := *;
      time := if t >= time && t >= time + seconds then t else MaxReal(time, time + seconds);
    }
  }

  /** The least distance between start k - 1 and start k: the pause takes the interval's place, it is not added. */
  function Gap(k: nat, interval: real, chunk: nat, pause: real): real
    requires chunk > 0
  {
    if k % chunk == 0 then MaxReal(interval, pause) else interval
  }

  ghost predicate Paced(starts: seq<real>, interval: real, chunk: nat, pause: real)
    requires chunk > 0
  {
    forall k :: 0 < k < |starts| ==> starts[k] - starts[k - 1] >= Gap(k, interval, chunk, pause)
  }

  /** How many chunk boundaries lie in (i, j]. */
  function Boundaries(i: nat, j: nat, chunk: nat): int
    requires chunk > 0
  {
    j / chunk - i / chunk
  }

  lemma BoundaryStep(j: nat, chunk: nat)
    requires chunk > 0 && j > 0
    ensures j / chunk - (j - 1) / chunk == if j % chunk == 0 then 1 else 0
  {
    var q, r := j / chunk, j % chunk;
    assert j == q * chunk + r;
    if r == 0 {
      assert j - 1 == (q - 1) * chunk + (chunk - 1);
      QuotientOf(j - 1, q - 1, chunk - 1, chunk);
    } else {
      QuotientOf(j - 1, q, r - 1, chunk);
    }
  }

  lemma QuotientOf(n: int, q: int, r: int, d: int)
    requires d > 0 && 0 <= r < d && n == q * d + r
    ensures n / d == q
  {
    assert n == (n / d) * d + n % d;
    OnlyZero(n / d - q, d, r - n % d);
  }

  lemma OnlyZero(e: int, d: int, x: int)
    requires -d < x < d && e * d == x
    ensures e == 0
  {
  }

  /** Between any two starts i <= j lie at least j - i intervals, and one pause in place of an interval for every
      chunk boundary passed. */
  lemma {:induction false} StartsAreSpaced(starts: seq<real>, interval: real, chunk: nat, pause: real, i: nat, j: nat)
    requires chunk > 0 && Paced(starts, interval, chunk, pause) && i <= j < |starts|
    ensures starts[j] - starts[i] >=
            (j - i) as real * interval + Boundaries(i, j, chunk) as real * (MaxReal(interval, pause) - interval)
    decreases j
  {
    if i < j {
      StartsAreSpaced(starts, interval, chunk, pause, i, j - 1);
      BoundaryStep(j, chunk);
      var extra := MaxReal(interval, pause) - interval;
      var b := Boundaries(i, j - 1, chunk);
      Advance((j - 1 - i) as real, b as real, if j % chunk == 0 then 1.0 else 0.0, interval, extra);
      assert (j - i) as real == (j - 1 - i) as real + 1.0;
      assert Boundaries(i, j, chunk) as real == b as real + if j % chunk == 0 then 1.0 else 0.0;
    }
  }

  lemma Advance(n: real, b: real, step: real, interval: real, extra: real)
    requires step == 0.0 || step == 1.0
    ensures (n + 1.0) * interval + (b + step) * extra == n * interval + b * extra + interval + step * extra
  {
  }

  class Throttle {
    const interval: real
    const chunk: nat
    const pause: real
    const clock: Clock
    var starts: seq<real>

    ghost predicate Valid()
      reads this, clock
    {
      && chunk > 0 && Paced(starts, interval, chunk, pause)
      && (starts != [] ==> starts[|starts| - 1] <= clock.time)
    }

    constructor (interval: real, chunk: nat, pause: real, clock: Clock)
      requires chunk > 0
      ensures this.interval == interval && this.chunk == chunk && this.pause == pause && this.clock == clock
      ensures Valid() && starts == []
    {
      this.interval, this.chunk, this.pause, this.clock := interval, chunk, pause, clock;
      starts := [];
    }

    /** Returns when the next request may start, having stamped its start. */
    method Wait()
      requires Valid()
      modifies this, clock
      ensures Valid() && |starts| == |old(starts)| + 1 && starts[..|old(starts)|] == old(starts)
      ensures starts[|starts| - 1] >= old(clock.time) && clock.time >= old(clock.time)
    {
      if starts != [] && |starts| % chunk == 0 {
        clock.Sleep(pause);
      }
      if starts != [] {
        var now := clock.Now();
        var gap := interval - (now - starts[|starts| - 1]);
        if gap > 0.0 {
          clock.Sleep(gap);
        }
      }
      var start := clock.Now();
      starts := starts + [start];
    }
  }

  /** An interval below the floor is refused. */
  method MakeThrottle(interval: real, chunk: nat, pause: real, clock: Clock) returns (t: Throttle?)
    requires chunk > 0
    ensures t == null <==> interval < MIN_INTERVAL_S
    ensures t != null ==> fresh(t) && t.Valid() && t.starts == [] && t.clock == clock
    ensures t != null ==> t.interval == interval && t.chunk == chunk && t.pause == pause
  {
    t := null;
    if interval >= MIN_INTERVAL_S {
      t := new Throttle(interval, chunk, pause, clock);
    }
  }

  // ---------- one text ----------

  /** What an attempt may come back with: a parsed number, a malformed reply, or an exception with its status
      code, if it has one, and its retry-after header in seconds (0 if absent). */
  datatype Reply = Number(score: real) | NotFinite | Malformed | Failed(status: Option<int>, retryAfter: real)

  datatype ScoreResult = Scored(score: real) | Error(http: Option<int>)

  /** Client errors other than 429 cannot be helped by retrying. */
  predicate Fatal(r: Reply) {
    r.Failed? && r.status.Some? && 400 <= r.status.value < 500 && r.status.value != 429
  }

  function HttpOf(r: Reply): Option<int> {
    match r
    case Failed(status, _) => status
    case _ => None
  }

  function Delay(r: Reply, attempt: nat): real {
    MaxReal(if r.Failed? then MinReal(RETRY_AFTER_CAP_S, MaxReal(0.0, r.retryAfter)) else 0.0,
            MinReal(BACKOFF_CAP_S, Pow2(attempt + 1) as real))
  }

  /** The attempt that ends the loop: the first number, the first fatal reply, or the last one allowed. */
  function LastAttempt(replies: seq<Reply>, from: nat, maxAttempts: nat): (n: nat)
    requires from <= maxAttempts <= |replies|
    ensures from <= n <= maxAttempts
    ensures forall k :: from <= k < n ==> !replies[k].Number? && !Fatal(replies[k])
    ensures n < maxAttempts ==> replies[n].Number? || Fatal(replies[n])
    decreases maxAttempts - from
  {
    if from == maxAttempts || replies[from].Number? || Fatal(replies[from]) then from
    else LastAttempt(replies, from + 1, maxAttempts)
  }

  /** A reply after which another attempt is worth it: no number, and no client error but "too many requests". */
  ghost predicate WorthRetrying(r: Reply) {
    match r
    case Number(_) => false
    case Failed(Some(status), _) => status < 400 || status == 429 || status >= 500
    case _ => true
  }

  /** The loop goes on behind attempt k exactly when everything up to it was worth retrying. */
  lemma {:induction false} RetriedIff(replies: seq<Reply>, from: nat, k: nat, maxAttempts: nat)
    requires from <= k < maxAttempts <= |replies|
    ensures k < LastAttempt(replies, from, maxAttempts)
       <==> forall i :: from <= i <= k ==> WorthRetrying(replies[i])
    decreases k - from
  {
    assert WorthRetrying(replies[from]) <==> !replies[from].Number? && !Fatal(replies[from]);
    if from < k && WorthRetrying(replies[from]) {
      RetriedIff(replies, from + 1, k, maxAttempts);
    }
  }

  /** What attempt k has to be followed by before the next one: the exponential back-off with its cap, and the wait the
      server asked for with its cap. */
  ghost predicate BacksOff(r: Reply, k: nat, wait: real) {
    && wait >= MinReal(60.0, Pow2(k + 1) as real)
    && (r.Failed? ==> wait >= MinReal(120.0, r.retryAfter))
  }

  /** The delay is the least one that is not negative and keeps both. */
  lemma DelayIsLeast(r: Reply, k: nat, wait: real)
    requires wait >= 0.0
    ensures Delay(r, k) <= wait <==> BacksOff(r, k, wait)
  {
  }

  /** The starts from the n-th on keep the back-off between them. */
  ghost predicate BackedOff(starts: seq<real>, n: nat, replies: seq<Reply>) {
    forall k: nat :: n + k + 1 < |starts| && k < |replies| ==>
      BacksOff(replies[k], k, starts[n + k + 1] - starts[n + k]) == true
  }

  /** By time `t` the next attempt may start. */
  ghost predicate Due(starts: seq<real>, n: nat, replies: seq<Reply>, attempt: nat, t: real) {
    && |starts| == n + attempt && attempt <= |replies|
    && (attempt > 0 ==> t >= starts[|starts| - 1] + Delay(replies[attempt - 1], attempt - 1))
  }

  lemma DueNext(starts: seq<real>, n: nat, replies: seq<Reply>, attempt: nat, start: real, t: real)
    requires |starts| == n + attempt + 1 && attempt < |replies| && starts[|starts| - 1] == start
    requires t >= start + Delay(replies[attempt], attempt)
    ensures Due(starts, n, replies, attempt + 1, t) == true
  {
  }

  lemma NextBackedOff(starts: seq<real>, n: nat, replies: seq<Reply>, attempt: nat, t: real, start: real)
    requires BackedOff(starts, n, replies) && Due(starts, n, replies, attempt, t) && t <= start
    ensures BackedOff(starts + [start], n, replies)
  {
    var more := starts + [start];
    forall k: nat | n + k + 1 < |more| ensures BacksOff(replies[k], k, more[n + k + 1] - more[n + k]) {
      if n + k + 1 < |starts| {
        assert BacksOff(replies[k], k, starts[n + k + 1] - starts[n + k]);
      } else {
        DelayIsLeast(replies[k], k, start - starts[n + k]);
      }
    }
  }

  /** The result after the last reply: its score, or an error with its status code if it has one. */
  ghost predicate ResultOf(last: Option<Reply>, r: ScoreResult) {
    match last
    case Some(Number(score)) => r == Scored(score)
    case Some(Failed(status, _)) => r == Error(status)
    case _ => r == Error(None)
  }

  /** Waits for the throttle; by then the back-off is over. */
  method StartAttempt(throttle: Throttle, ghost n: nat, ghost replies: seq<Reply>, ghost attempt: nat)
    returns (ghost start: real)
    requires throttle.Valid() && attempt < |replies| && BackedOff(throttle.starts, n, replies)
    requires Due(throttle.starts, n, replies, attempt, throttle.clock.time)
    modifies throttle, throttle.clock
    ensures throttle.Valid() == true && throttle.starts == old(throttle.starts) + [start]
    ensures start <= throttle.clock.time && BackedOff(throttle.starts, n, replies) == true
  {
    ghost var starts, t := throttle.starts, throttle.clock.time;
    throttle.Wait();
    start := throttle.starts[|starts|];
    NextBackedOff(starts, n, replies, attempt, t, start);
    assert throttle.starts == starts + [start];
  }

  /** Attempt k gets `replies[k]`; never more than `maxAttempts` starts, and a score only from a finite number. */
  method ScoreText(replies: seq<Reply>, throttle: Throttle, maxAttempts: nat) returns (r: ScoreResult)
    requires throttle.Valid() && maxAttempts <= |replies|
    modifies throttle, throttle.clock
    ensures throttle.Valid()
          && throttle.starts[..MinNat(|old(throttle.starts)|, |throttle.starts|)] == old(throttle.starts)
    ensures BackedOff(throttle.starts, |old(throttle.starts)|, replies)
    ensures var last := LastAttempt(replies, 0, maxAttempts);
      && |throttle.starts| == |old(throttle.starts)| + MinNat(last + 1, maxAttempts)
      && ResultOf(if maxAttempts == 0 then None else Some(replies[MinNat(last, maxAttempts - 1)]), r)
  {
    var http: Option<int> := None;
    ghost var before := throttle.starts;
    for attempt := 0 to maxAttempts
      invariant throttle.Valid() == true && |throttle.starts| == |before| + attempt
            && throttle.starts[..|before|] == before
      invariant LastAttempt(replies, 0, maxAttempts) == LastAttempt(replies, attempt, maxAttempts)
      invariant BackedOff(throttle.starts, |before|, replies) == true
      invariant attempt < maxAttempts ==> Due(throttle.starts, |before|, replies, attempt, throttle.clock.time) == true
      invariant http == if attempt == 0 then None else HttpOf(replies[attempt - 1])
    {
      ghost var start := StartAttempt(throttle, |before|, replies, attempt);
      var reply := replies[attempt];
      if reply.Number? {
        return Scored(reply.score);
      }
      http := HttpOf(reply);
      if Fatal(reply) {
        return Error(http);
      }
      if attempt + 1 < maxAttempts {
        throttle.clock.Sleep(Delay(reply, attempt));
        DueNext(throttle.starts, |before|, replies, attempt, start, throttle.clock.time);
      }
    }
    r := Error(http);
  }
}
