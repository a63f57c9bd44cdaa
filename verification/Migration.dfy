/**
 The migration of a version-1 state (eval/run_injection_twin_control.py): tokens per UTC day and model become log
 entries at the day's last second (eval/rolling_window.py).
 */
module Migration {
  import opened RollingWindow

  const SECONDS_PER_DAY := 86400

  /** The totals of one day, in the order in which the migration visits the models. */
  datatype LegacyDay = LegacyDay(day: int, totals: seq<(string, int)>)

  /** `date_to_end_of_day_ts`: the last second of a UTC day, counted in days since the epoch. */
  function EndOfDay(day: int): real { (day + 1) as real * SECONDS_PER_DAY as real - 1.0 }

  function DayEntries(day: LegacyDay, n: nat): seq<Entry>
    requires n <= |day.totals|
  {
    seq(n, k requires 0 <= k < n => Entry(EndOfDay(day.day), day.totals[k].0, day.totals[k].1))
  }

  function AllEntries(days: seq<LegacyDay>): seq<Entry> {
    if days == [] then [] else
      AllEntries(days[..|days| - 1]) + DayEntries(days[|days| - 1], |days[|days| - 1].totals|)
  }

  /** `migrate_state`: the days are visited in any order. */
  method Migrate(log: seq<Entry>, days: seq<LegacyDay>) returns (r: seq<Entry>)
    ensures r == log + AllEntries(days)
  {
    r := log;
    for d := 0 to |days|
      invariant r == log + AllEntries(days[..d])
    {
      ghost var before := r;
      for k := 0 to |days[d].totals|
        invariant r == before + DayEntries(days[d], k)
      {
        r := r + [Entry(EndOfDay(days[d].day), days[d].totals[k].0, days[d].totals[k].1)];
      }
      assert days[..d + 1][..d] == days[..d];
    }
    assert days[..|days|] == days;
  }

  // ---------- spends and their totals ----------

  /** A spend at a whole second since the epoch. */
  datatype Spend = Spend(second: int, model: string, tokens: nat)

  function DayOf(s: Spend): int { s.second / SECONDS_PER_DAY }

  function SpendEntries(spends: seq<Spend>): seq<Entry> {
    seq(|spends|, k requires 0 <= k < |spends| => Entry(spends[k].second as real, spends[k].model, spends[k].tokens))
  }

  /** What the model spent on a day. */
  function SpentOnDay(spends: seq<Spend>, model: string, day: int): nat {
    if spends == [] then 0 else
      var s := spends[|spends| - 1];
      SpentOnDay(spends[..|spends| - 1], model, day) + if s.model == model && DayOf(s) == day then s.tokens else 0
  }

  /** What the log holds for the model at the last second of a day. */
  function LoggedAt(entries: seq<Entry>, model: string, ts: real): int {
    if entries == [] then 0 else
      var e := entries[|entries| - 1];
      LoggedAt(entries[..|entries| - 1], model, ts) + if e.model == model && e.ts == ts then e.tokens else 0
  }

  /** The legacy totals are the per-day sums of the spends. */
  ghost predicate Totals(spends: seq<Spend>, entries: seq<Entry>, model: string) {
    forall day :: LoggedAt(entries, model, EndOfDay(day)) == SpentOnDay(spends, model, day)
  }

  // ---------- one day at a time ----------

  function OtherSpends(spends: seq<Spend>, day: int): seq<Spend> {
    if spends == [] then [] else
      var s := spends[|spends| - 1];
      OtherSpends(spends[..|spends| - 1], day) + if DayOf(s) == day then [] else [s]
  }

  function OtherEntries(entries: seq<Entry>, ts: real): seq<Entry> {
    if entries == [] then [] else
      var e := entries[|entries| - 1];
      OtherEntries(entries[..|entries| - 1], ts) + if e.ts == ts then [] else [e]
  }

  /** The day's last second is not before any spend of the day, and different days end differently. */
  lemma EndOfDayIsLatest(s: Spend, day: int)
    ensures s.second as real <= EndOfDay(DayOf(s))
    ensures day != DayOf(s) ==> EndOfDay(day) != EndOfDay(DayOf(s))
  {
    assert s.second <= (DayOf(s) + 1) * SECONDS_PER_DAY - 1;
    WholeSeconds(DayOf(s));
    WholeSeconds(day);
    assert day != DayOf(s) ==> (day + 1) * SECONDS_PER_DAY != (DayOf(s) + 1) * SECONDS_PER_DAY;
  }

  lemma WholeSeconds(day: int)
    ensures EndOfDay(day) == ((day + 1) * SECONDS_PER_DAY - 1) as real
  {
  }

  lemma SpendStep(spends: seq<Spend>, s: Spend, model: string, cutoff: real)
    ensures UsedAfter(SpendEntries(spends + [s]), model, cutoff)
            == UsedAfter(SpendEntries(spends), model, cutoff)
             + if s.model == model && s.second as real > cutoff then s.tokens else 0
  {
    assert SpendEntries(spends + [s]) == SpendEntries(spends) + [Entry(s.second as real, s.model, s.tokens)];
    assert (SpendEntries(spends) + [Entry(s.second as real, s.model, s.tokens)])[..|spends|] == SpendEntries(spends);
  }

  /** A day's spends count at most its sum, and nothing once the day's last second has left the window. */
  lemma {:induction false} DayApart(spends: seq<Spend>, model: string, day: int, cutoff: real)
    ensures |OtherSpends(spends, day)| <= |spends|
    ensures (exists k :: 0 <= k < |spends| && DayOf(spends[k]) == day) ==> |OtherSpends(spends, day)| < |spends|
    ensures UsedAfter(SpendEntries(spends), model, cutoff)
            <= UsedAfter(SpendEntries(OtherSpends(spends, day)), model, cutoff)
             + if EndOfDay(day) > cutoff then SpentOnDay(spends, model, day) else 0
  {
    if spends != [] {
      var init, s := spends[..|spends| - 1], spends[|spends| - 1];
      DayApart(init, model, day, cutoff);
      assert spends == init + [s];
      SpendStep(init, s, model, cutoff);
      EndOfDayIsLatest(s, day);
      if DayOf(s) == day {
        assert OtherSpends(spends, day) == OtherSpends(init, day);
      } else {
        SpendStep(OtherSpends(init, day), s, model, cutoff);
      }
    }
  }

  lemma {:induction false} OtherDays(spends: seq<Spend>, model: string, day: int, d: int)
    ensures SpentOnDay(OtherSpends(spends, day), model, d) == if d == day then 0 else SpentOnDay(spends, model, d)
  {
    if spends != [] {
      var init, s := spends[..|spends| - 1], spends[|spends| - 1];
      OtherDays(init, model, day, d);
      var rest := OtherSpends(init, day);
      assert (rest + [s])[..|rest|] == rest;
      if DayOf(s) == day {
        assert OtherSpends(spends, day) == rest;
      }
    }
  }

  lemma {:induction false} EntriesApart(entries: seq<Entry>, model: string, ts: real, cutoff: real)
    ensures UsedAfter(entries, model, cutoff)
            == UsedAfter(OtherEntries(entries, ts), model, cutoff) + if ts > cutoff then LoggedAt(entries, model, ts)
                  else 0
  {
    if entries != [] {
      var init, e := entries[..|entries| - 1], entries[|entries| - 1];
      EntriesApart(init, model, ts, cutoff);
      var rest := OtherEntries(init, ts);
      assert (rest + [e])[..|rest|] == rest;
      if e.ts == ts {
        assert OtherEntries(entries, ts) == rest;
      }
    }
  }

  lemma LoggedStep(rest: seq<Entry>, e: Entry, model: string, t: real)
    ensures LoggedAt(rest + [e], model, t)
            == LoggedAt(rest, model, t) + if e.model == model && e.ts == t then e.tokens else 0
  {
    assert (rest + [e])[..|rest|] == rest;
  }

  lemma {:induction false} OtherTimes(entries: seq<Entry>, model: string, ts: real, t: real)
    ensures LoggedAt(OtherEntries(entries, ts), model, t) == if t == ts then 0 else LoggedAt(entries, model, t)
  {
    if entries != [] {
      var init, e := entries[..|entries| - 1], entries[|entries| - 1];
      OtherTimes(init, model, ts, t);
      var rest := OtherEntries(init, ts);
      if e.ts == ts {
        assert OtherEntries(entries, ts) == rest;
      } else {
        LoggedStep(rest, e, model, t);
      }
    }
  }

  lemma {:induction false} OtherCharges(entries: seq<Entry>, ts: real)
    requires Charges(entries)
    ensures Charges(OtherEntries(entries, ts))
  {
    if entries != [] {
      OtherCharges(entries[..|entries| - 1], ts);
    }
  }

  /** Entries at the ends of the days, whose totals are the spends' per-day sums, count at least the spends. */
  lemma {:induction false} TotalsCover(spends: seq<Spend>, entries: seq<Entry>, model: string, cutoff: real)
    requires Totals(spends, entries, model) && Charges(entries)
    ensures UsedAfter(SpendEntries(spends), model, cutoff) <= UsedAfter(entries, model, cutoff)
    decreases |spends|
  {
    if spends == [] {
      UsedFalls(entries, model, cutoff, cutoff);
    } else {
      var day := DayOf(spends[0]);
      var ts := EndOfDay(day);
      var spends', entries' := OtherSpends(spends, day), OtherEntries(entries, ts);
      DayApart(spends, model, day, cutoff);
      EntriesApart(entries, model, ts, cutoff);
      OtherCharges(entries, ts);
      forall d ensures LoggedAt(entries', model, EndOfDay(d)) == SpentOnDay(spends', model, d) {
        OtherDays(spends, model, day, d);
        OtherTimes(entries, model, ts, EndOfDay(d));
        EndOfDayIsLatest(spends[0], d);
        assert LoggedAt(entries, model, EndOfDay(d)) == SpentOnDay(spends, model, d);
      }
      TotalsCover(spends', entries', model, cutoff);
    }
  }

  /** Migration can only over-refuse: at every time the migrated log counts at least what was really spent, for a
      model whose legacy totals are the per-day sums of its spends. */
  lemma MigrationIsConservative(log: seq<Entry>, days: seq<LegacyDay>, spends: seq<Spend>, model: string,
                                now: real, window: real)
    requires Totals(spends, AllEntries(days), model) && Charges(AllEntries(days))
    ensures UsedInWindow(log + SpendEntries(spends), model, now, window)
            <= UsedInWindow(log + AllEntries(days), model, now, window)
  {
    Conservative(log, AllEntries(days), spends, model, now - window);
  }

  lemma Conservative(log: seq<Entry>, entries: seq<Entry>, spends: seq<Spend>, model: string, cutoff: real)
    requires Totals(spends, entries, model) && Charges(entries)
    ensures UsedAfter(log + SpendEntries(spends), model, cutoff) <= UsedAfter(log + entries, model, cutoff)
  {
    UsedAppend(log, SpendEntries(spends), model, cutoff);
    UsedAppend(log, entries, model, cutoff);
    TotalsCover(spends, entries, model, cutoff);
  }
}
