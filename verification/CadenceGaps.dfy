/** The gap between successive checks of one monitor, from both sides, over whole runs. */
module CadenceGaps {
  import opened Tables
  import opened Buckets
  import opened Aggregate
  import opened History
  import opened Cadence

  function Interval(mon: Monitor): int {
    mon.interval * 1_000_000
  }

  function Offset(sha: string -> nat, m: string, mon: Monitor): real {
    PhaseOffset(Prefix(sha, m), mon.interval)
  }

  /** Ticks start at most `g` apart, and a check finishes at most `d` after its tick started. */
  predicate InTime(s: Sched, e: SchedEvent, g: nat, d: nat) {
    e.Other? && e.ev.Advance? ==>
      && s.db.now + e.ev.dt <= s.lastTick + g
      && (s.pending != {} ==> s.db.now + e.ev.dt <= s.lastTick + d)
  }

  /** The monitor stays as it is, active, and a purge keeps at least one interval of its history. */
  predicate Undisturbed(db: Db, e: SchedEvent, m: string) {
    e.Other? ==>
      && m in db.monitors && m in StepDb(db, e.ev).monitors
      && StepDb(db, e.ev).monitors[m] == db.monitors[m]
      && (e.ev.RunPurge? ==> Interval(db.monitors[m]) <= RetentionDays(OwnerPlan(db, m), e.ev.ceiling) * DAY)
  }

  predicate Calm(s: Sched, sha: string -> nat, es: seq<SchedEvent>, m: string, g: nat, d: nat) {
    es == [] ||
    var before, e := es[..|es| - 1], es[|es| - 1];
    && Calm(s, sha, before, m, g, d)
    && Enabled(SchedRun(s, sha, before), e)
    && InTime(SchedRun(s, sha, before), e, g, d)
    && Undisturbed(SchedRun(s, sha, before).db, e, m)
  }

  /** What holds between ticks of the active monitor `mon`, with offset `off`, whose newest check was
      saved at `saved[m]`. `slack` is the time lost to restarts that dropped its check in flight. */
  ghost predicate OnSchedule(s: Sched, m: string, mon: Monitor, off: real, g: nat, slack: nat) {
    && m in s.db.monitors && s.db.monitors[m] == mon && mon.active && mon.interval >= 30
    && 0.0 <= off <= mon.interval as real * 100_000.0
    && m in s.saved && s.saved[m] <= s.db.now && s.lastTick <= s.db.now <= s.lastTick + g
    && LatestIs(s.db, m, s.saved[m])
    && (LatestAt(s.db.raw, m) == None ==> s.saved[m] + Interval(mon) <= s.db.now)
    && (m !in s.pending ==> Before(s.lastTick, s.saved[m], Interval(mon), off, slack))
    && (m in s.pending ==>
          s.saved[m] + Interval(mon) <= s.lastTick && Before(s.lastTick, s.saved[m], Interval(mon), off, slack + g))
  }

  predicate Before(tick: int, saved: int, interval: int, off: real, slack: int) {
    tick as real < saved as real + interval as real + off + slack as real
  }

  /** The newest remaining row, if any remains, is the newest one saved. */
  ghost predicate LatestIs(db: Db, m: string, t: nat) {
    LatestAt(db.raw, m) == None || LatestAt(db.raw, m) == Some(t)
  }

  lemma OtherKeepsLatest(db: Db, ev: Event, m: string, t: nat)
    requires m in db.monitors && db.monitors[m].active && LatestIs(db, m, t)
    requires !ev.Save? && !ev.RunPurge? && Undisturbed(db, Other(ev), m)
    ensures LatestAt(StepDb(db, ev).raw, m) == LatestAt(db.raw, m)
  {
    RawOnlyShrinks(db, ev);
    if LatestAt(db.raw, m) == None {
      NoneAmongFewer(db.raw, StepDb(db, ev).raw, m);
    } else {
      var c :| c in db.raw && c.monitor == m && c.at == t;
      UntouchedRows(db, ev, m, c);
      LatestAmongFewer(db.raw, StepDb(db, ev).raw, m, c);
    }
  }

  lemma RawOnlyShrinks(db: Db, ev: Event)
    requires !ev.Save?
    ensures forall c :: c in StepDb(db, ev).raw ==> c in db.raw
  {
    var keep := RawIsFiltered(db, ev);
  }

  lemma NoneAmongFewer(raw: seq<Check>, fewer: seq<Check>, m: string)
    requires LatestAt(raw, m) == None && forall x :: x in fewer ==> x in raw
    ensures LatestAt(fewer, m) == None
  {
  }

  lemma LatestAmongFewer(raw: seq<Check>, fewer: seq<Check>, m: string, c: Check)
    requires (forall x :: x in fewer ==> x in raw) && c in fewer && c.monitor == m && LatestAt(raw, m) == Some(c.at)
    ensures LatestAt(fewer, m) == Some(c.at)
  {
    var latest := LatestAt(fewer, m);
    assert latest.Some? && latest.value >= c.at;
    var d :| d in fewer && d.monitor == m && d.at == latest.value;
    assert d in raw;
  }

  lemma PurgeKeepsLatest(db: Db, ceiling: int, m: string, t: nat)
    requires m in db.monitors && LatestIs(db, m, t)
    requires Interval(db.monitors[m]) <= RetentionDays(OwnerPlan(db, m), ceiling) * DAY
    ensures LatestIs(Purge(db, ceiling), m, t)
    ensures LatestAt(Purge(db, ceiling).raw, m) == None && LatestAt(db.raw, m) != None ==>
      t + Interval(db.monitors[m]) <= db.now
  {
    var after := Purge(db, ceiling);
    if LatestAt(db.raw, m) == None {
      NoneAmongFewer(db.raw, after.raw, m);
    } else {
      var c :| c in db.raw && c.monitor == m && c.at == t;
      if c in after.raw {
        LatestAmongFewer(db.raw, after.raw, m, c);
      } else {
        forall b | b in db.raw && b.monitor == m ensures Expired(db, ceiling, m, b.at) {
          assert b.at <= t;
        }
      }
    }
  }

  lemma UntouchedRows(db: Db, ev: Event, m: string, c: Check)
    requires m in db.monitors && db.monitors[m].active && c in db.raw && c.monitor == m
    requires !ev.Save? && !ev.RunPurge? && Undisturbed(db, Other(ev), m)
    ensures c in StepDb(db, ev).raw
  {
    if ev.Fill? {
      FillFrame(db, ev.tier, FloorToBucket(ev.start, ev.tier), FloorToBucket(ev.end, ev.tier));
    }
  }

  lemma TickOnSchedule(s: Sched, sha: string -> nat, m: string, mon: Monitor, off: real, g: nat, slack: nat)
    requires OnSchedule(s, m, mon, off, g, slack) && s.pending == {} && off == Offset(sha, m, mon)
    ensures OnSchedule(SchedStep(s, sha, TickStart), m, mon, off, g, slack)
  {
    assert mon.interval as real * 1_000_000.0 == Interval(mon) as real;
  }

  lemma FinishOnSchedule(s: Sched, sha: string -> nat, e: SchedEvent, m: string, mon: Monitor, off: real, g: nat,
                         slack: nat)
    requires OnSchedule(s, m, mon, off, g, slack) && e.Finish?
    ensures OnSchedule(SchedStep(s, sha, e), m, mon, off, g, if e.monitor == m then 0 else slack)
  {
    if e.monitor == m {
      OwnFinish(s, sha, e, m, mon, off, g, slack);
    } else {
      OtherFinish(s, sha, e, m, mon, off, g, slack);
    }
  }

  lemma OtherFinish(s: Sched, sha: string -> nat, e: SchedEvent, m: string, mon: Monitor, off: real, g: nat, slack: nat)
    requires OnSchedule(s, m, mon, off, g, slack) && e.Finish? && e.monitor != m
    ensures OnSchedule(SchedStep(s, sha, e), m, mon, off, g, slack)
  {
    OtherFinishFrame(s, sha, e, m);
    ScheduleUntouched(s, SchedStep(s, sha, e), m, mon, off, g, slack);
  }

  lemma OtherFinishFrame(s: Sched, sha: string -> nat, e: SchedEvent, m: string)
    requires e.Finish? && e.monitor != m && m in s.saved
    ensures var t := SchedStep(s, sha, e);
            t.lastTick == s.lastTick && t.db.now == s.db.now && t.db.monitors == s.db.monitors &&
            m in t.saved && t.saved[m] == s.saved[m] && (m in t.pending <==> m in s.pending) &&
            LatestAt(t.db.raw, m) == LatestAt(s.db.raw, m)
  {
    LatestAppend(s.db.raw, Check(e.monitor, e.status, e.latency, s.db.now), m);
  }

  lemma ScheduleUntouched(s: Sched, t: Sched, m: string, mon: Monitor, off: real, g: nat, slack: nat)
    requires OnSchedule(s, m, mon, off, g, slack)
    requires t.lastTick == s.lastTick && t.db.now == s.db.now && t.db.monitors == s.db.monitors
    requires m in t.saved && t.saved[m] == s.saved[m] && (m in t.pending <==> m in s.pending)
    requires LatestAt(t.db.raw, m) == LatestAt(s.db.raw, m)
    ensures OnSchedule(t, m, mon, off, g, slack)
  {
  }

  lemma OwnFinish(s: Sched, sha: string -> nat, e: SchedEvent, m: string, mon: Monitor, off: real, g: nat, slack: nat)
    requires OnSchedule(s, m, mon, off, g, slack) && e.Finish? && e.monitor == m
    ensures OnSchedule(SchedStep(s, sha, e), m, mon, off, g, 0)
  {
    LatestAppend(s.db.raw, Check(m, e.status, e.latency, s.db.now), m);
    DeadlineAhead(s.lastTick, s.db.now, Interval(mon), off);
  }

  lemma DeadlineAhead(tick: int, saved: int, interval: int, off: real)
    requires tick <= saved && interval > 0 && off >= 0.0
    ensures Before(tick, saved, interval, off, 0)
  {
  }

  lemma LatestAppend(raw: seq<Check>, c: Check, m: string)
    ensures LatestAt(raw + [c], m) ==
            if c.monitor != m then LatestAt(raw, m)
            else if LatestAt(raw, m).Some? && LatestAt(raw, m).value > c.at then LatestAt(raw, m)
            else Some(c.at)
  {
    assert (raw + [c])[..|raw|] == raw;
  }

  lemma OtherOnSchedule(s: Sched, sha: string -> nat, ev: Event, m: string, mon: Monitor, off: real, g: nat, d: nat,
                        slack: nat)
    requires OnSchedule(s, m, mon, off, g, slack) && Enabled(s, Other(ev))
    requires InTime(s, Other(ev), g, d) && Undisturbed(s.db, Other(ev), m)
    ensures OnSchedule(SchedStep(s, sha, Other(ev)), m, mon, off, g, slack + Dropped(s, Other(ev), m, g))
  {
    if ev.Restart? {
      RestartOnSchedule(s, sha, m, mon, off, g, slack);
    } else {
      ClockWithin(s, ev, g, d);
      LatestKept(s.db, ev, m, s.saved[m]);
      ScheduleKept(s, StepDb(s.db, ev), m, mon, off, g, slack);
    }
  }

  /** What a restart costs `m`: its check in flight is gone, and the next tick finds it due again. */
  function Dropped(s: Sched, e: SchedEvent, m: string, g: nat): nat {
    if e.Other? && e.ev.Restart? && m in s.pending then g else 0
  }

  lemma RestartOnSchedule(s: Sched, sha: string -> nat, m: string, mon: Monitor, off: real, g: nat, slack: nat)
    requires OnSchedule(s, m, mon, off, g, slack)
    ensures OnSchedule(SchedStep(s, sha, Other(Restart)), m, mon, off, g, slack + Dropped(s, Other(Restart), m, g))
  {
  }

  lemma ClockWithin(s: Sched, ev: Event, g: nat, d: nat)
    requires s.db.now <= s.lastTick + g && InTime(s, Other(ev), g, d)
    ensures s.db.now <= StepDb(s.db, ev).now <= s.lastTick + g
  {
    ClockKept(s.db, ev);
    ClockOfOther(s.db, ev);
  }

  lemma LatestKept(db: Db, ev: Event, m: string, t: nat)
    requires m in db.monitors && db.monitors[m].active && LatestIs(db, m, t)
    requires !ev.Save? && Undisturbed(db, Other(ev), m)
    ensures LatestIs(StepDb(db, ev), m, t)
    ensures LatestAt(StepDb(db, ev).raw, m) == None && LatestAt(db.raw, m) != None ==>
      t + Interval(db.monitors[m]) <= db.now
  {
    if ev.RunPurge? {
      PurgeKeepsLatest(db, ev.ceiling, m, t);
    } else {
      OtherKeepsLatest(db, ev, m, t);
    }
  }

  lemma ScheduleKept(s: Sched, after: Db, m: string, mon: Monitor, off: real, g: nat, slack: nat)
    requires OnSchedule(s, m, mon, off, g, slack)
    requires m in after.monitors && after.monitors[m] == mon && s.db.now <= after.now <= s.lastTick + g
    requires LatestIs(after, m, s.saved[m])
    requires LatestAt(after.raw, m) == None && LatestAt(s.db.raw, m) != None ==>
      s.saved[m] + Interval(mon) <= s.db.now
    ensures OnSchedule(s.(db := after), m, mon, off, g, slack)
  {
  }

  lemma ClockOfOther(db: Db, ev: Event)
    ensures !ev.Advance? ==> StepDb(db, ev).now == db.now
  {
    if ev.Fill? {
      FillFrame(db, ev.tier, FloorToBucket(ev.start, ev.tier), FloorToBucket(ev.end, ev.tier));
    }
  }

  /** A check finishes while its tick is still within its time. */
  ghost predicate TickInTime(s: Sched, d: nat) {
    s.pending != {} ==> s.db.now <= s.lastTick + d
  }

  /** The time lost since the newest check of `m` to restarts that dropped it in flight. */
  function Slack(s: Sched, sha: string -> nat, es: seq<SchedEvent>, m: string, g: nat): nat {
    if es == [] then 0 else
      var before, e := es[..|es| - 1], es[|es| - 1];
      if e.Finish? && e.monitor == m then 0
      else Slack(s, sha, before, m, g) + Dropped(SchedRun(s, sha, before), e, m, g)
  }

  /** How many restarts those were. */
  function Drops(s: Sched, sha: string -> nat, es: seq<SchedEvent>, m: string): nat {
    if es == [] then 0 else
      var before, e := es[..|es| - 1], es[|es| - 1];
      if e.Finish? && e.monitor == m then 0
      else Drops(s, sha, before, m) + Dropped(SchedRun(s, sha, before), e, m, 1)
  }

  lemma {:induction false} SlackCounts(s: Sched, sha: string -> nat, es: seq<SchedEvent>, m: string, g: nat)
    ensures Slack(s, sha, es, m, g) == Drops(s, sha, es, m) * g
  {
    if es == [] {
    } else {
      var before, e := es[..|es| - 1], es[|es| - 1];
      SlackCounts(s, sha, before, m, g);
      OneMoreTime(Drops(s, sha, before, m), g);
    }
  }

  lemma OneMoreTime(n: nat, g: nat)
    ensures (n + 1) * g == n * g + g && (n + 0) * g == n * g + 0
  {
  }

  /** The gap of a check that finishes now. */
  function Gap(s: Sched, m: string): int
    requires m in s.saved
  {
    s.db.now - s.saved[m]
  }

  /** Every check of `m` in the run comes at least an interval after the one before it, and less than the
      interval, the offset of the monitor, one tick gap for the tick and one for each restart that dropped
      the check, and one check duration later. */
  predicate GapsBounded(s: Sched, sha: string -> nat, es: seq<SchedEvent>, m: string, off: real, g: nat, d: nat) {
    es == [] ||
    var before, e := es[..|es| - 1], es[|es| - 1];
    && GapsBounded(s, sha, before, m, off, g, d)
    && (e.Finish? && e.monitor == m ==>
          var mid := SchedRun(s, sha, before);
          m in mid.db.monitors && m in mid.saved &&
          var interval := Interval(mid.db.monitors[m]);
          interval <= Gap(mid, m) && Before(Gap(mid, m), 0, interval, off, Slack(s, sha, before, m, g) + g + d))
  }

  lemma {:induction false} CadenceOverRuns(s: Sched, sha: string -> nat, es: seq<SchedEvent>, m: string,
                                           mon: Monitor, g: nat, d: nat)
    requires OnSchedule(s, m, mon, Offset(sha, m, mon), g, 0) && TickInTime(s, d) && Calm(s, sha, es, m, g, d)
    ensures OnSchedule(SchedRun(s, sha, es), m, mon, Offset(sha, m, mon), g, Slack(s, sha, es, m, g))
    ensures TickInTime(SchedRun(s, sha, es), d)
    ensures GapsBounded(s, sha, es, m, Offset(sha, m, mon), g, d)
  {
    if es == [] {
    } else {
      var before, e := es[..|es| - 1], es[|es| - 1];
      CadenceOverRuns(s, sha, before, m, mon, g, d);
      var mid, off, slack := SchedRun(s, sha, before), Offset(sha, m, mon), Slack(s, sha, before, m, g);
      StepOnSchedule(mid, sha, e, m, mon, g, d, slack);
      if e.Finish? && e.monitor == m {
        FinishGap(mid, m, mon, off, g, d, slack);
      }
    }
  }

  lemma StepOnSchedule(s: Sched, sha: string -> nat, e: SchedEvent, m: string, mon: Monitor, g: nat, d: nat, slack: nat)
    requires OnSchedule(s, m, mon, Offset(sha, m, mon), g, slack) && TickInTime(s, d)
    requires Enabled(s, e) && InTime(s, e, g, d) && Undisturbed(s.db, e, m)
    ensures OnSchedule(SchedStep(s, sha, e), m, mon, Offset(sha, m, mon), g,
                       if e.Finish? && e.monitor == m then 0 else slack + Dropped(s, e, m, g))
    ensures TickInTime(SchedStep(s, sha, e), d)
  {
    var off := Offset(sha, m, mon);
    match e
    case TickStart => TickOnSchedule(s, sha, m, mon, off, g, slack);
    case Finish(_, _, _) => FinishOnSchedule(s, sha, e, m, mon, off, g, slack);
    case Other(ev) =>
      OtherOnSchedule(s, sha, ev, m, mon, off, g, d, slack);
      ClockOfOther(s.db, ev);
  }

  lemma FinishGap(s: Sched, m: string, mon: Monitor, off: real, g: nat, d: nat, slack: nat)
    requires OnSchedule(s, m, mon, off, g, slack) && TickInTime(s, d) && m in s.pending
    ensures Interval(mon) <= Gap(s, m) && Before(Gap(s, m), 0, Interval(mon), off, slack + g + d)
    ensures 10 * Gap(s, m) <= 11 * Interval(mon) + 10 * (slack + g + d)
  {
  }

  /** The premise is met as soon as a check has been saved: here, right after the first one. A monitor
      without history is due at once: whenever the clock has run for one interval since the epoch. */
  lemma FirstCheckOnSchedule(s: Sched, sha: string -> nat, m: string, status: Status, latency: Option<int>, g: nat)
    requires m in s.db.monitors && s.db.monitors[m].active && s.db.monitors[m].interval >= 30
    requires s.lastTick <= s.db.now <= s.lastTick + g && LatestAt(s.db.raw, m) == None
    ensures Due(s.db, sha, m) <==> s.db.now >= Interval(s.db.monitors[m])
    ensures var after := SchedStep(s, sha, Finish(m, status, latency));
            OnSchedule(after, m, s.db.monitors[m], Offset(sha, m, s.db.monitors[m]), g, 0)
  {
    OffsetBounds(Prefix(sha, m), s.db.monitors[m].interval);
    LatestAppend(s.db.raw, Check(m, status, latency, s.db.now), m);
  }
}
