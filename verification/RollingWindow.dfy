/** Trailing-24h token accounting (eval/rolling_window.py).  Times are real seconds since the epoch. */
module RollingWindow {
  import opened Common

  datatype Entry = Entry(ts: real, model: string, tokens: int)

  const WINDOW_SECONDS := 86400.0

  /** Tokens of `model` later than the cutoff; entries dated in the future count too. */
  function UsedAfter(entries: seq<Entry>, model: string, cutoff: real): int {
    if entries == [] then 0 else
      var e := entries[|entries| - 1];
      UsedAfter(entries[..|entries| - 1], model, cutoff) + if e.model == model && e.ts > cutoff then e.tokens else 0
  }

  function UsedInWindow(entries: seq<Entry>, model: string, now: real, window: real): int {
    UsedAfter(entries, model, now - window)
  }

  /** Every charge is nonnegative. */
  ghost predicate Charges(entries: seq<Entry>) {
    forall k :: 0 <= k < |entries| ==> entries[k].tokens >= 0
  }

  // ---------- laws of the sum ----------

  lemma {:induction false} UsedAppend(a: seq<Entry>, b: seq<Entry>, model: string, cutoff: real)
    ensures UsedAfter(a + b, model, cutoff) == UsedAfter(a, model, cutoff) + UsedAfter(b, model, cutoff)
  {
    if b == [] {
      assert a + b == a;
    } else {
      assert (a + b)[..|a + b| - 1] == a + b[..|b| - 1];
      UsedAppend(a, b[..|b| - 1], model, cutoff);
    }
  }

  /** As time passes and nothing is spent, the usage in the window only falls. */
  lemma {:induction false} UsedFalls(entries: seq<Entry>, model: string, earlier: real, later: real)
    requires Charges(entries) && earlier <= later
    ensures 0 <= UsedAfter(entries, model, later) <= UsedAfter(entries, model, earlier)
  {
    if entries != [] {
      UsedFalls(entries[..|entries| - 1], model, earlier, later);
    }
  }

  /** Dating spends later than they were can only raise the usage at every time. */
  lemma {:induction false} LaterIsConservative(entries: seq<Entry>, late: seq<Entry>, model: string, cutoff: real)
    requires |entries| == |late| && Charges(entries)
    requires forall k :: 0 <= k < |entries| ==>
               late[k].model == entries[k].model && late[k].tokens == entries[k].tokens && entries[k].ts <= late[k].ts
    ensures UsedAfter(entries, model, cutoff) <= UsedAfter(late, model, cutoff)
  {
    if entries != [] {
      LaterIsConservative(entries[..|entries| - 1], late[..|late| - 1], model, cutoff);
    }
  }

  // ---------- the sorted live entries ----------

  predicate Live(e: Entry, model: string, cutoff: real) {
    e.model == model && e.ts > cutoff
  }

  /** `sorted(..., key=ts)` of the entries that pass the filter, by stable insertion. */
  function SortedLive(entries: seq<Entry>, model: string, cutoff: real): seq<Entry> {
    if entries == [] then [] else
      var e, rest := entries[|entries| - 1], SortedLive(entries[..|entries| - 1], model, cutoff);
      if Live(e, model, cutoff) then Insert(rest, e) else rest
  }

  function Insert(s: seq<Entry>, e: Entry): seq<Entry> {
    if s == [] || s[|s| - 1].ts <= e.ts then s + [e] else Insert(s[..|s| - 1], e) + [s[|s| - 1]]
  }

  ghost predicate Sorted(s: seq<Entry>) {
    forall i, j :: 0 <= i < j < |s| ==> s[i].ts <= s[j].ts
  }

  lemma {:induction false} InsertSorts(s: seq<Entry>, e: Entry)
    requires Sorted(s)
    ensures Sorted(Insert(s, e))
    ensures forall x :: x in Insert(s, e) <==> x == e || x in s
  {
    if s != [] && s[|s| - 1].ts > e.ts {
      var init, last := s[..|s| - 1], s[|s| - 1];
      InsertSorts(init, e);
      assert s == init + [last];
      var r := Insert(init, e);
      forall i | 0 <= i < |r| ensures r[i].ts <= last.ts {
        assert r[i] in r;
      }
    }
  }

  lemma {:induction false} InsertUsed(s: seq<Entry>, e: Entry, model: string, cutoff: real)
    ensures UsedAfter(Insert(s, e), model, cutoff) == UsedAfter(s, model, cutoff) + UsedAfter([e], model, cutoff)
  {
    if s == [] || s[|s| - 1].ts <= e.ts {
      UsedAppend(s, [e], model, cutoff);
    } else {
      var init, last := s[..|s| - 1], s[|s| - 1];
      InsertUsed(init, e, model, cutoff);
      UsedAppend(Insert(init, e), [last], model, cutoff);
      UsedAppend(init, [last], model, cutoff);
      assert s == init + [last];
    }
  }

  lemma {:induction false} SortedLiveShape(entries: seq<Entry>, model: string, cutoff: real)
    ensures Sorted(SortedLive(entries, model, cutoff))
    ensures forall x :: x in SortedLive(entries, model, cutoff) <==> x in entries && Live(x, model, cutoff)
  {
    if entries != [] {
      var init, e := entries[..|entries| - 1], entries[|entries| - 1];
      SortedLiveShape(init, model, cutoff);
      assert entries == init + [e];
      if Live(e, model, cutoff) {
        InsertSorts(SortedLive(init, model, cutoff), e);
      }
    }
  }

  /** From the cutoff on, the live entries alone decide the usage. */
  lemma {:induction false} LiveUsed(entries: seq<Entry>, model: string, cutoff: real, later: real)
    requires cutoff <= later
    ensures UsedAfter(SortedLive(entries, model, cutoff), model, later) == UsedAfter(entries, model, later)
  {
    if entries != [] {
      var init, e := entries[..|entries| - 1], entries[|entries| - 1];
      LiveUsed(init, model, cutoff, later);
      assert entries == init + [e];
      UsedAppend(init, [e], model, later);
      if Live(e, model, cutoff) {
        InsertUsed(SortedLive(init, model, cutoff), e, model, later);
      }
    }
  }

  function Tokens(s: seq<Entry>): int {
    if s == [] then 0 else Tokens(s[..|s| - 1]) + s[|s| - 1].tokens
  }

  lemma {:induction false} AllAfter(s: seq<Entry>, model: string, cutoff: real)
    requires forall k :: 0 <= k < |s| ==> Live(s[k], model, cutoff)
    ensures UsedAfter(s, model, cutoff) == Tokens(s)
  {
    if s != [] {
      AllAfter(s[..|s| - 1], model, cutoff);
    }
  }

  lemma {:induction false} NoneAfter(s: seq<Entry>, model: string, cutoff: real)
    requires forall k :: 0 <= k < |s| ==> s[k].ts <= cutoff
    ensures UsedAfter(s, model, cutoff) == 0
  {
    if s != [] {
      NoneAfter(s[..|s| - 1], model, cutoff);
    }
  }

  lemma {:induction false} TokensBound(s: seq<Entry>, model: string, cutoff: real)
    requires Charges(s) && forall k :: 0 <= k < |s| ==> s[k].model == model
    ensures 0 <= UsedAfter(s, model, cutoff) <= Tokens(s)
  {
    if s != [] {
      TokensBound(s[..|s| - 1], model, cutoff);
    }
  }

  /** A sorted list of charges to `model`, all after the cutoff. */
  ghost predicate LiveList(live: seq<Entry>, model: string, cutoff: real) {
    Sorted(live) && Charges(live) && forall k :: 0 <= k < |live| ==> Live(live[k], model, cutoff)
  }

  lemma SplitUsed(live: seq<Entry>, model: string, k: nat, cutoff: real)
    requires k <= |live|
    ensures UsedAfter(live, model, cutoff) == UsedAfter(live[..k], model, cutoff) + UsedAfter(live[k..], model, cutoff)
  {
    assert live == live[..k] + live[k..];
    UsedAppend(live[..k], live[k..], model, cutoff);
  }

  /** Once the first k entries have expired, at most the rest counts. */
  lemma SuffixAbove(live: seq<Entry>, model: string, k: nat, cutoff: real, start: real)
    requires LiveList(live, model, start) && 0 < k <= |live| && live[k - 1].ts <= cutoff
    ensures UsedAfter(live, model, cutoff) <= Tokens(live[k..])
  {
    SplitUsed(live, model, k, cutoff);
    NoneAfter(live[..k], model, cutoff);
    TokensBound(live[k..], model, cutoff);
  }

  /** Until the (k+1)-st entry expires, it and all later ones count. */
  lemma SuffixBelow(live: seq<Entry>, model: string, k: nat, cutoff: real, start: real)
    requires LiveList(live, model, start) && k < |live| && cutoff < live[k].ts
    ensures UsedAfter(live, model, cutoff) >= Tokens(live[k..])
  {
    SplitUsed(live, model, k, cutoff);
    TokensBound(live[..k], model, cutoff);
    AllAfter(live[k..], model, cutoff);
  }

  lemma {:induction false} TokensStep(s: seq<Entry>)
    requires s != []
    ensures Tokens(s) == s[0].tokens + Tokens(s[1..])
  {
    if |s| > 1 {
      TokensStep(s[..|s| - 1]);
      assert s[..|s| - 1][1..] == s[1..][..|s| - 2];
    }
  }

  lemma TokensFrom(s: seq<Entry>, k: nat)
    requires k < |s|
    ensures Tokens(s[k..]) == s[k].tokens + Tokens(s[k + 1..])
  {
    TokensStep(s[k..]);
    assert s[k..][1..] == s[k + 1..];
  }

  // ---------- the earliest time that fits ----------

  ghost predicate Fits(entries: seq<Entry>, model: string, t: real, need: int, cap: int, window: real) {
    UsedInWindow(entries, model, t, window) + need <= cap
  }

  /** `t` is the first time from `now` on at which `need` more tokens fit, if nothing else is spent. */
  ghost predicate IsEarliest(entries: seq<Entry>, model: string, now: real, t: real, need: int, cap: int,
        window: real) {
    && now <= t && Fits(entries, model, t, need, cap, window)
    && forall u :: now <= u < t ==> !Fits(entries, model, u, need, cap, window)
  }

  method NextAllowedAt(entries: seq<Entry>, model: string, now: real, need: int, cap: int, window: real)
    returns (r: Option<real>)
    ensures r == None <==> need > cap
    ensures Charges(entries) && r.Some? ==> IsEarliest(entries, model, now, r.value, need, cap, window)
  {
    if need > cap {
      return None;
    }
    var live := SortedLive(entries, model, now - window);
    var used, at, k := Tokens(live), now, 0;
    LiveIsSorted(entries, model, now - window);
    assert live[0..] == live;
    while k < |live| && used + need > cap
      invariant 0 <= k <= |live| && used == Tokens(live[k..])
      invariant at == ReadyAt(live, k, now, window)
      invariant k > 0 ==> Tokens(live[k - 1..]) + need > cap
    {
      TokensFrom(live, k);
      used := used - live[k].tokens;
      at := MaxReal(at, live[k].ts + window);
      k := k + 1;
    }
    if Charges(entries) {
      EarliestFound(entries, model, now, need, cap, window, live, k);
    }
    r := Some(at);
  }

  /** When the first k live entries have left the window. */
  function ReadyAt(live: seq<Entry>, k: nat, now: real, window: real): real
    requires k <= |live|
  {
    if k == 0 then now else live[k - 1].ts + window
  }

  lemma LiveIsSorted(entries: seq<Entry>, model: string, cutoff: real)
    ensures var live := SortedLive(entries, model, cutoff);
      && Sorted(live) && (forall k :: 0 <= k < |live| ==> Live(live[k], model, cutoff))
      && (Charges(entries) ==> LiveList(live, model, cutoff))
  {
    var live := SortedLive(entries, model, cutoff);
    SortedLiveShape(entries, model, cutoff);
    forall k | 0 <= k < |live| ensures Live(live[k], model, cutoff) && live[k] in entries {
      assert live[k] in live;
    }
  }

  lemma FitsWhenReady(entries: seq<Entry>, model: string, now: real, need: int, cap: int, window: real,
                      live: seq<Entry>, k: nat)
    requires LiveList(live, model, now - window) && live == SortedLive(entries, model, now - window) && k <= |live|
    requires Tokens(live[k..]) + need <= cap
    ensures Fits(entries, model, ReadyAt(live, k, now, window), need, cap, window)
  {
    var start, cutoff := now - window, ReadyAt(live, k, now, window) - window;
    LiveUsed(entries, model, start, cutoff);
    if k == 0 {
      AllAfter(live, model, start);
      assert live[0..] == live;
    } else {
      assert live[k - 1].ts == cutoff;
      SuffixAbove(live, model, k, cutoff, start);
    }
  }

  lemma NoFitBeforeReady(entries: seq<Entry>, model: string, now: real, need: int, cap: int, window: real,
                         live: seq<Entry>, k: nat, u: real)
    requires LiveList(live, model, now - window) && live == SortedLive(entries, model, now - window) && 0 < k <= |live|
    requires Tokens(live[k - 1..]) + need > cap && now <= u < ReadyAt(live, k, now, window)
    ensures !Fits(entries, model, u, need, cap, window)
  {
    var start, cutoff := now - window, u - window;
    assert start <= cutoff < live[k - 1].ts;
    LiveUsed(entries, model, start, cutoff);
    SuffixBelow(live, model, k - 1, cutoff, start);
  }

  lemma EarliestFound(entries: seq<Entry>, model: string, now: real, need: int, cap: int, window: real,
                      live: seq<Entry>, k: nat)
    requires Charges(entries) && live == SortedLive(entries, model, now - window) && k <= |live|
    requires Tokens(live[k..]) + need <= cap
    requires k > 0 ==> Tokens(live[k - 1..]) + need > cap
    ensures IsEarliest(entries, model, now, ReadyAt(live, k, now, window), need, cap, window)
  {
    LiveIsSorted(entries, model, now - window);
    FitsWhenReady(entries, model, now, need, cap, window, live, k);
    forall u | now <= u < ReadyAt(live, k, now, window) ensures !Fits(entries, model, u, need, cap, window) {
      NoFitBeforeReady(entries, model, now, need, cap, window, live, k, u);
    }
  }
}
