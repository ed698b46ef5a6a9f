/** How long the gap between two checks of a monitor can really be, given that the loop sleeps ten seconds
    between ticks. */
module CadenceExtremes {
  import opened Tables
  import opened Buckets
  import opened Aggregate
  import opened History
  import opened Cadence
  import opened CadenceGaps

  function Ceiling(x: real): int {
    -((-x).Floor)
  }

  lemma CeilingIs(x: real, n: int)
    ensures n as real >= x <==> n >= Ceiling(x)
  {
  }

  /** The first microsecond, counted from the newest check, at which a tick finds the monitor due. */
  function Deadline(mon: Monitor, off: real): int {
    Ceiling(mon.interval as real * 1_000_000.0 + off)
  }

  /** The only monitor, active, checked just now by a tick that has gathered. */
  ghost predicate JustChecked(s: Sched, m: string) {
    && s.db.monitors.Keys == {m} && s.db.monitors[m].active && s.db.monitors[m].interval >= 30
    && s.pending == {} && m in s.saved && s.saved[m] == s.db.now > 0
    && s.lastTick <= s.db.now && s.ready == s.db.now + SLEEP
    && LatestAt(s.db.raw, m) == Some(s.db.now)
  }

  /** How long ago the tick of that check started. */
  function Age(s: Sched): int {
    s.db.now - s.lastTick
  }

  // ---------------------------------------------------------------- the last tick too early

  function Min(a: int, b: int): int {
    if a <= b then a else b
  }

  /** How many sleeps fit before the deadline. */
  function Slots(deadline: int): int {
    (deadline - 1) / 10_000_000
  }

  /** The latest that a tick can start, counted from the check, and not find the monitor due: ticks start at
      least a sleep and at most `g` apart, the first of them `g` after one that started `age` before the check. */
  function LastQuiet(deadline: int, g: nat, age: int): int {
    Min(deadline - 1, Slots(deadline) * g - age)
  }

  /** Then one more tick gap, and the check, which has to be in time both for its tick and for the next. */
  function Longest(deadline: int, g: nat, d: nat, age: int): int {
    LastQuiet(deadline, g, age) + g + Min(d, g)
  }

  lemma SlotsAre(deadline: int)
    requires deadline > 10_000_000
    ensures Slots(deadline) >= 1
    ensures Slots(deadline) * 10_000_000 <= deadline - 1 < (Slots(deadline) + 1) * 10_000_000
  {
  }

  lemma SlotsBound(deadline: int, j: int)
    requires deadline > 10_000_000 && j * 10_000_000 <= deadline - 1
    ensures j <= Slots(deadline)
  {
  }

  lemma MulMono(i: int, j: int, g: int)
    requires i <= j && g >= 0
    ensures i * g <= j * g
  {
  }

  lemma MulMore(i: int, g: int)
    ensures (i + 1) * g == i * g + g
  {
  }

  lemma DueFrom(s: Sched, sha: string -> nat, m: string, t: nat)
    requires JustChecked(s, m)
    ensures var mon := s.db.monitors[m];
            Due(s.db.(now := t), sha, m) <==> t - s.db.now >= Deadline(mon, Offset(sha, m, mon))
  {
    var mon := s.db.monitors[m];
    CeilingIs(mon.interval as real * 1_000_000.0 + Offset(sha, m, mon), t - s.db.now);
  }

  lemma DeadlinePositive(sha: string -> nat, m: string, mon: Monitor)
    requires mon.interval >= 30
    ensures Deadline(mon, Offset(sha, m, mon)) >= Interval(mon) > 0
  {
    OffsetBounds(Prefix(sha, m), mon.interval);
    var x := mon.interval as real * 1_000_000.0 + Offset(sha, m, mon);
    assert Interval(mon) as real == mon.interval as real * 1_000_000.0;
    CeilingIs(x, Interval(mon) - 1);
  }

  // ---------------------------------------------------------------- building the run

  /** The same state at a later tick. */
  function AtTick(s: Sched, sha: string -> nat, t: nat): Sched {
    var db := s.db.(now := t);
    s.(db := db, lastTick := t, ready := t + SLEEP, pending := DueMonitors(db, sha))
  }

  lemma RunMore(s: Sched, sha: string -> nat, es: seq<SchedEvent>, e: SchedEvent, m: string, g: nat, d: nat)
    ensures SchedRun(s, sha, es + [e]) == SchedStep(SchedRun(s, sha, es), sha, e)
    ensures Calm(s, sha, es + [e], m, g, d) <==>
            && Calm(s, sha, es, m, g, d) && Enabled(SchedRun(s, sha, es), e)
            && InTime(SchedRun(s, sha, es), e, g, d) && Undisturbed(SchedRun(s, sha, es).db, e, m)
  {
    assert (es + [e])[..|es|] == es;
  }

  predicate NotYet(es: seq<SchedEvent>, m: string) {
    forall i :: 0 <= i < |es| ==> !(es[i].Finish? && es[i].monitor == m)
  }

  predicate NoRestart(es: seq<SchedEvent>) {
    forall i :: 0 <= i < |es| ==> !(es[i].Other? && es[i].ev.Restart?)
  }

  lemma NothingDue(s: Sched, sha: string -> nat, m: string, t: nat)
    requires JustChecked(s, m)
    requires t - s.db.now < Deadline(s.db.monitors[m], Offset(sha, m, s.db.monitors[m]))
    ensures DueMonitors(s.db.(now := t), sha) == {}
  {
    DueFrom(s, sha, m, t);
    assert forall x :: x in s.db.monitors ==> x == m;
  }

  lemma OnlyDue(s: Sched, sha: string -> nat, m: string, t: nat)
    requires JustChecked(s, m)
    requires t - s.db.now >= Deadline(s.db.monitors[m], Offset(sha, m, s.db.monitors[m]))
    ensures DueMonitors(s.db.(now := t), sha) == {m}
  {
    DueFrom(s, sha, m, t);
    assert forall x :: x in s.db.monitors <==> x == m;
  }

  lemma MorePlain(es: seq<SchedEvent>, e: SchedEvent, m: string)
    requires NoRestart(es) && NotYet(es, m) && !(e.Finish? && e.monitor == m) && !(e.Other? && e.ev.Restart?)
    ensures NoRestart(es + [e]) && NotYet(es + [e], m)
  {
  }

  lemma Extend(s: Sched, sha: string -> nat, es: seq<SchedEvent>, e: SchedEvent, m: string, g: nat, d: nat)
    requires Calm(s, sha, es, m, g, d) && NoRestart(es) && NotYet(es, m)
    requires var r := SchedRun(s, sha, es); Enabled(r, e) && InTime(r, e, g, d) && Undisturbed(r.db, e, m)
    requires !(e.Finish? && e.monitor == m) && !(e.Other? && e.ev.Restart?)
    ensures Calm(s, sha, es + [e], m, g, d) && NoRestart(es + [e]) && NotYet(es + [e], m)
    ensures SchedRun(s, sha, es + [e]) == SchedStep(SchedRun(s, sha, es), sha, e)
  {
    RunMore(s, sha, es, e, m, g, d);
    MorePlain(es, e, m);
  }

  lemma AdvanceFits(r: Sched, sha: string -> nat, m: string, g: nat, d: nat, dt: nat)
    requires m in r.db.monitors && r.db.now + dt <= r.lastTick + if r.pending == {} then g else Min(d, g)
    ensures var e := Other(Advance(dt));
            && Enabled(r, e) && InTime(r, e, g, d) && Undisturbed(r.db, e, m)
            && SchedStep(r, sha, e) == r.(db := r.db.(now := r.db.now + dt))
  {
  }

  /** The clock goes on until `t`. */
  lemma WaitUntil(s: Sched, sha: string -> nat, m: string, g: nat, d: nat, before: seq<SchedEvent>, t: nat)
    returns (es: seq<SchedEvent>)
    requires Calm(s, sha, before, m, g, d) && NoRestart(before) && NotYet(before, m)
    requires var r := SchedRun(s, sha, before);
             m in r.db.monitors && r.db.now <= t <= r.lastTick + if r.pending == {} then g else Min(d, g)
    ensures Calm(s, sha, es, m, g, d) && NoRestart(es) && NotYet(es, m)
    ensures var r := SchedRun(s, sha, before); SchedRun(s, sha, es) == r.(db := r.db.(now := t))
  {
    var r := SchedRun(s, sha, before);
    var e := Other(Advance(t - r.db.now));
    AdvanceFits(r, sha, m, g, d, t - r.db.now);
    Extend(s, sha, before, e, m, g, d);
    es := before + [e];
  }

  /** A tick starts as soon as the clock is at `t`. */
  lemma TickAt(s: Sched, sha: string -> nat, m: string, g: nat, d: nat, before: seq<SchedEvent>, t: nat)
    returns (es: seq<SchedEvent>)
    requires Calm(s, sha, before, m, g, d) && NoRestart(before) && NotYet(before, m)
    requires var r := SchedRun(s, sha, before);
             m in r.db.monitors && r.pending == {} && r.db.now <= t && r.ready <= t <= r.lastTick + g
    ensures Calm(s, sha, es, m, g, d) && NoRestart(es) && NotYet(es, m)
    ensures var r := SchedRun(s, sha, before); SchedRun(s, sha, es) == AtTick(r, sha, t)
  {
    var waited := WaitUntil(s, sha, m, g, d, before, t);
    Extend(s, sha, waited, TickStart, m, g, d);
    es := waited + [TickStart];
  }

  /** Where the i-th of `n` ticks goes: as late as the gaps allow, and early enough for the sleeps still to
      come before the deadline. */
  function Position(i: int, n: int, deadline: int, g: nat, age: int): int {
    Min(i * g - age, deadline - 1 - (n - i) * 10_000_000)
  }

  lemma PositionsApart(i: int, n: int, deadline: int, g: nat, age: int)
    requires g >= SLEEP && i < n
    ensures Position(i, n, deadline, g, age) + SLEEP <= Position(i + 1, n, deadline, g, age)
            <= Position(i, n, deadline, g, age) + g
  {
    MulMore(i, g);
  }

  lemma FirstPosition(n: int, deadline: int, g: nat, age: int)
    requires 1 <= n && n * 10_000_000 <= deadline - 1 && age + SLEEP <= g
    ensures SLEEP <= Position(1, n, deadline, g, age) <= g - age
  {
  }

  lemma PositionsQuiet(i: int, n: int, deadline: int, g: nat, age: int)
    requires i <= n
    ensures Position(i, n, deadline, g, age) <= deadline - 1
  {
  }

  /** An undisturbed run, with no check of `m` in it, up to a tick at `t`. */
  ghost predicate Waited(s: Sched, sha: string -> nat, m: string, g: nat, d: nat, es: seq<SchedEvent>, t: nat) {
    Calm(s, sha, es, m, g, d) && NoRestart(es) && NotYet(es, m) && SchedRun(s, sha, es) == AtTick(s, sha, t)
  }

  predicate Spread(times: seq<nat>, g: nat) {
    forall i :: 0 < i < |times| ==> times[i - 1] + SLEEP <= times[i] <= times[i - 1] + g
  }

  /** Tick times that the loop can keep, none of which finds a monitor due. */
  ghost predicate Quiet(s: Sched, sha: string -> nat, times: seq<nat>, g: nat) {
    && times != [] && s.ready <= times[0] <= s.lastTick + g
    && Spread(times, g)
    && (forall i :: 0 <= i < |times| ==> DueMonitors(s.db.(now := times[i]), sha) == {})
  }

  lemma {:induction false} Waiting(s: Sched, sha: string -> nat, m: string, g: nat, d: nat, times: seq<nat>)
    returns (es: seq<SchedEvent>)
    requires m in s.db.monitors && s.pending == {} && s.db.now <= s.ready && Quiet(s, sha, times, g)
    ensures Waited(s, sha, m, g, d, es, times[|times| - 1])
  {
    var last := |times| - 1;
    if last == 0 {
      es := TickAt(s, sha, m, g, d, [], times[0]);
    } else {
      var before := Waiting(s, sha, m, g, d, times[..last]);
      es := TickAt(s, sha, m, g, d, before, times[last]);
    }
  }

  /** The ticks up to the last one too early. */
  lemma QuietTimes(s: Sched, sha: string -> nat, m: string, g: nat, deadline: int) returns (times: seq<nat>)
    requires JustChecked(s, m) && deadline == Deadline(s.db.monitors[m], Offset(sha, m, s.db.monitors[m]))
    requires deadline > SLEEP && Age(s) + SLEEP <= g
    ensures Quiet(s, sha, times, g) && times[|times| - 1] == s.db.now + LastQuiet(deadline, g, Age(s))
  {
    var n, age, now := Slots(deadline), Age(s), s.db.now;
    SlotsAre(deadline);
    times := GridTimes(n, deadline, g, age, now);
    forall i | 0 <= i < n ensures DueMonitors(s.db.(now := times[i]), sha) == {} {
      NothingDue(s, sha, m, times[i]);
    }
  }

  lemma OneLater(before: seq<nat>, t: nat, g: nat, bound: nat) returns (times: seq<nat>)
    requires before != [] && Spread(before, g) && (forall i :: 0 <= i < |before| ==> before[i] < bound)
    requires before[|before| - 1] + SLEEP <= t <= before[|before| - 1] + g && t < bound
    ensures times == before + [t] && Spread(times, g) && (forall i :: 0 <= i < |times| ==> times[i] < bound)
  {
    times := before + [t];
  }

  lemma {:induction false} GridTimes(n: nat, deadline: int, g: nat, age: int, now: nat) returns (times: seq<nat>)
    requires 1 <= n <= Slots(deadline) && deadline > SLEEP && 0 <= age <= g - SLEEP
    ensures |times| == n && times[n - 1] == now + Position(n, Slots(deadline), deadline, g, age)
    ensures now + SLEEP <= times[0] <= now - age + g && Spread(times, g)
    ensures forall i :: 0 <= i < n ==> times[i] < now + deadline
  {
    var slots := Slots(deadline);
    SlotsAre(deadline);
    PositionsQuiet(n, slots, deadline, g, age);
    if n == 1 {
      FirstPosition(slots, deadline, g, age);
      times := [now + Position(1, slots, deadline, g, age)];
    } else {
      var before := GridTimes(n - 1, deadline, g, age, now);
      PositionsApart(n - 1, slots, deadline, g, age);
      times := OneLater(before, now + Position(n, slots, deadline, g, age), g, now + deadline);
    }
  }

  /** One tick gap after the last quiet tick, the monitor is due. */
  lemma DueAfterQuiet(deadline: int, g: nat, age: int)
    requires deadline > SLEEP && age + SLEEP <= g && age >= 0
    ensures LastQuiet(deadline, g, age) + g >= deadline
  {
    var n := Slots(deadline);
    SlotsAre(deadline);
    MulScale(n, 10_000_000, g);
  }

  lemma MulScale(n: int, a: int, b: int)
    requires n >= 0 && a <= b
    ensures n * a <= n * b
  {
  }

  /** From any state just after a check there is an undisturbed run whose next gap is the longest allowed,
      to the microsecond. */
  lemma LongestGapIsReached(s: Sched, sha: string -> nat, m: string, g: nat, d: nat, deadline: int, status: Status,
                            latency: Option<int>) returns (es: seq<SchedEvent>)
    requires JustChecked(s, m) && deadline == Deadline(s.db.monitors[m], Offset(sha, m, s.db.monitors[m]))
    requires Age(s) + SLEEP <= g
    ensures Calm(s, sha, es + [Finish(m, status, latency)], m, g, d) && NoRestart(es) && NotYet(es, m)
    ensures m in SchedRun(s, sha, es).saved && Gap(SchedRun(s, sha, es), m) == Longest(deadline, g, d, Age(s))
  {
    DeadlinePositive(sha, m, s.db.monitors[m]);
    SlotsAre(deadline);
    var times := QuietTimes(s, sha, m, g, deadline);
    var es0 := Waiting(s, sha, m, g, d, times);
    var t := s.db.now + LastQuiet(deadline, g, Age(s));
    DueAfterQuiet(deadline, g, Age(s));
    OnlyDue(s, sha, m, t + g);
    var es1 := TickAt(s, sha, m, g, d, es0, t + g);
    es := WaitUntil(s, sha, m, g, d, es1, t + g + Min(d, g));
    RunMore(s, sha, es, Finish(m, status, latency), m, g, d);
  }

  // ---------------------------------------------------------------- no gap is longer

  lemma {:induction false} NoSlack(s: Sched, sha: string -> nat, es: seq<SchedEvent>, m: string, g: nat)
    requires NoRestart(es)
    ensures Slack(s, sha, es, m, g) == 0
  {
    if es == [] {
    } else {
      NoSlack(s, sha, es[..|es| - 1], m, g);
    }
  }

  function Ticks(es: seq<SchedEvent>): nat {
    if es == [] then 0 else Ticks(es[..|es| - 1]) + if es[|es| - 1].TickStart? then 1 else 0
  }

  /** After `j` ticks since the check of `m` at `saved`: how far the ticks can have come without finding it
      due, and when they do. */
  predicate Paced(s: Sched, m: string, saved: int, j: int, deadline: int, g: nat, age: int) {
    && saved <= s.db.now && s.lastTick <= s.db.now <= s.lastTick + g
    && (m !in s.pending ==>
          && s.lastTick - saved <= Min(deadline - 1, j * g - age) && s.lastTick + SLEEP <= s.ready
          && (j == 0 ==> saved + SLEEP <= s.ready) && (j > 0 ==> j * SLEEP <= s.lastTick - saved))
    && (m in s.pending ==> s.lastTick - saved <= LastQuiet(deadline, g, age) + g)
  }

  lemma QuietWithin(x: int, j: nat, deadline: int, g: nat, age: int)
    requires deadline > SLEEP && x <= Min(deadline - 1, j * g - age) && (j > 0 ==> j * SLEEP <= x)
    ensures x <= LastQuiet(deadline, g, age)
  {
    SlotsAre(deadline);
    if j > 0 {
      SlotsBound(deadline, j);
    }
    MulMono(j, Slots(deadline), g);
  }

  lemma TickPaced(s: Sched, sha: string -> nat, m: string, saved: int, j: nat, deadline: int, g: nat, age: int)
    requires Paced(s, m, saved, j, deadline, g, age) && Enabled(s, TickStart) && deadline > SLEEP
    requires m !in DueMonitors(s.db, sha) ==> s.db.now - saved < deadline
    ensures Paced(SchedStep(s, sha, TickStart), m, saved, j + 1, deadline, g, age)
  {
    QuietWithin(s.lastTick - saved, j, deadline, g, age);
    MulMore(j, g);
  }

  lemma OtherPaced(s: Sched, sha: string -> nat, e: SchedEvent, m: string, saved: int, j: nat, deadline: int, g: nat,
                   age: int)
    requires Paced(s, m, saved, j, deadline, g, age) && !e.TickStart?
    requires !(e.Finish? && e.monitor == m) && !(e.Other? && e.ev.Restart?)
    requires s.db.now <= SchedStep(s, sha, e).db.now <= s.lastTick + g
    ensures Paced(SchedStep(s, sha, e), m, saved, j, deadline, g, age)
  {
  }

  lemma BeforeDeadline(tick: int, saved: int, mon: Monitor, off: real)
    requires Before(tick, saved, Interval(mon), off, 0)
    ensures tick - saved < Deadline(mon, off)
  {
    CeilingIs(mon.interval as real * 1_000_000.0 + off, tick - saved);
    assert Interval(mon) as real == mon.interval as real * 1_000_000.0;
  }

  /** The clock is within a tick gap of the last tick, which came before the deadline if it found nothing due. */
  ghost predicate OnTime(s: Sched, m: string, deadline: int, g: nat) {
    && m in s.saved && s.saved[m] <= s.db.now && s.lastTick <= s.db.now <= s.lastTick + g
    && (m !in s.pending ==> s.lastTick - s.saved[m] < deadline)
  }

  lemma OnTimeFrom(s: Sched, m: string, mon: Monitor, off: real, g: nat)
    requires OnSchedule(s, m, mon, off, g, 0)
    ensures OnTime(s, m, Deadline(mon, off), g)
  {
    if m !in s.pending {
      BeforeDeadline(s.lastTick, s.saved[m], mon, off);
    }
  }

  /** What CadenceOverRuns says of such a run. */
  lemma ScheduleOf(s: Sched, sha: string -> nat, m: string, g: nat, d: nat, es: seq<SchedEvent>)
    requires JustChecked(s, m) && Age(s) <= g && Calm(s, sha, es, m, g, d) && NoRestart(es)
    ensures var t, mon := SchedRun(s, sha, es), s.db.monitors[m];
            OnTime(t, m, Deadline(mon, Offset(sha, m, mon)), g) && TickInTime(t, d)
  {
    var mon := s.db.monitors[m];
    OffsetBounds(Prefix(sha, m), mon.interval);
    DeadlineAhead(s.lastTick, s.saved[m], Interval(mon), Offset(sha, m, mon));
    CadenceOverRuns(s, sha, es, m, mon, g, d);
    NoSlack(s, sha, es, m, g);
    OnTimeFrom(SchedRun(s, sha, es), m, mon, Offset(sha, m, mon), g);
  }

  lemma StepForward(s: Sched, sha: string -> nat, e: SchedEvent)
    ensures s.db.now <= SchedStep(s, sha, e).db.now
    ensures !e.TickStart? ==> SchedStep(s, sha, e).lastTick == s.lastTick
  {
    if e.Other? {
      ClockKept(s.db, e.ev);
    }
  }

  lemma StepPaced(s: Sched, sha: string -> nat, e: SchedEvent, m: string, j: nat, deadline: int, g: nat, age: int)
    requires m in s.saved && Enabled(s, e) && Paced(s, m, s.saved[m], j, deadline, g, age) && deadline > SLEEP
    requires !(e.Finish? && e.monitor == m) && !(e.Other? && e.ev.Restart?)
    requires OnTime(SchedStep(s, sha, e), m, deadline, g)
    ensures var t := SchedStep(s, sha, e);
            m in t.saved && t.saved[m] == s.saved[m] &&
            Paced(t, m, s.saved[m], if e.TickStart? then j + 1 else j, deadline, g, age)
  {
    StepForward(s, sha, e);
    if e.TickStart? {
      TickPaced(s, sha, m, s.saved[m], j, deadline, g, age);
    } else {
      OtherPaced(s, sha, e, m, s.saved[m], j, deadline, g, age);
    }
  }

  /** Every state of the run is on time, and no step of it is a restart or a check of `m`. */
  ghost predicate OnTimeRun(s: Sched, sha: string -> nat, m: string, deadline: int, g: nat, es: seq<SchedEvent>) {
    es == [] ||
    var before, e := es[..|es| - 1], es[|es| - 1];
    && OnTimeRun(s, sha, m, deadline, g, before)
    && !(e.Finish? && e.monitor == m) && !(e.Other? && e.ev.Restart?)
    && Enabled(SchedRun(s, sha, before), e) && OnTime(SchedStep(SchedRun(s, sha, before), sha, e), m, deadline, g)
  }

  lemma {:induction false} RunOnTime(s: Sched, sha: string -> nat, m: string, g: nat, d: nat, deadline: int,
                                     es: seq<SchedEvent>)
    requires JustChecked(s, m) && deadline == Deadline(s.db.monitors[m], Offset(sha, m, s.db.monitors[m]))
    requires Age(s) <= g && Calm(s, sha, es, m, g, d) && NoRestart(es) && NotYet(es, m)
    ensures OnTimeRun(s, sha, m, deadline, g, es)
  {
    if es == [] {
    } else {
      RunOnTime(s, sha, m, g, d, deadline, es[..|es| - 1]);
      ScheduleOf(s, sha, m, g, d, es);
    }
  }

  lemma PacedAtFirst(s: Sched, m: string, deadline: int, g: nat)
    requires JustChecked(s, m) && deadline > SLEEP && Age(s) <= g
    ensures Paced(s, m, s.saved[m], 0, deadline, g, Age(s))
  {
  }

  lemma {:induction false} RunPaced(s: Sched, sha: string -> nat, m: string, g: nat, deadline: int,
                                    es: seq<SchedEvent>)
    requires m in s.saved && Paced(s, m, s.saved[m], 0, deadline, g, Age(s))
    requires deadline > SLEEP && OnTimeRun(s, sha, m, deadline, g, es)
    ensures var t := SchedRun(s, sha, es);
            m in t.saved && t.saved[m] == s.saved[m] && Paced(t, m, s.saved[m], Ticks(es), deadline, g, Age(s))
  {
    if es == [] {
    } else {
      var before, e := es[..|es| - 1], es[|es| - 1];
      RunPaced(s, sha, m, g, deadline, before);
      StepPaced(SchedRun(s, sha, before), sha, e, m, Ticks(before), deadline, g, Age(s));
    }
  }

  /** When the check left no room for the sleep, no tick comes in time. */
  lemma {:induction false} NoTickInTime(s: Sched, sha: string -> nat, m: string, g: nat, deadline: int,
                                        es: seq<SchedEvent>)
    requires m in s.saved && Paced(s, m, s.saved[m], 0, deadline, g, Age(s)) && m !in s.pending
    requires deadline > SLEEP && OnTimeRun(s, sha, m, deadline, g, es) && Age(s) + SLEEP > g
    requires s.saved[m] == s.db.now
    ensures Ticks(es) == 0 && m !in SchedRun(s, sha, es).pending
  {
    if es == [] {
    } else {
      var before := es[..|es| - 1];
      NoTickInTime(s, sha, m, g, deadline, before);
      RunPaced(s, sha, m, g, deadline, before);
    }
  }

  // ---------------------------------------------------------------- the exact condition

  /** A run without restarts up to the next check of `m`, which comes `gap` after the one just made. */
  ghost predicate Shows(s: Sched, sha: string -> nat, m: string, g: nat, d: nat, es: seq<SchedEvent>, gap: int) {
    && es != [] && es[|es| - 1].Finish? && es[|es| - 1].monitor == m && NotYet(es[..|es| - 1], m)
    && Calm(s, sha, es, m, g, d) && NoRestart(es)
    && m in SchedRun(s, sha, es[..|es| - 1]).saved && Gap(SchedRun(s, sha, es[..|es| - 1]), m) == gap
  }

  lemma ShownGapsAreWithin(s: Sched, sha: string -> nat, m: string, g: nat, d: nat, deadline: int,
                           es: seq<SchedEvent>, gap: int)
    requires JustChecked(s, m) && deadline == Deadline(s.db.monitors[m], Offset(sha, m, s.db.monitors[m]))
    requires Age(s) <= g && Shows(s, sha, m, g, d, es, gap)
    ensures Age(s) + SLEEP <= g && gap <= Longest(deadline, g, d, Age(s))
  {
    var before := es[..|es| - 1];
    DeadlinePositive(sha, m, s.db.monitors[m]);
    PacedAtFirst(s, m, deadline, g);
    RunOnTime(s, sha, m, g, d, deadline, before);
    RunPaced(s, sha, m, g, deadline, before);
    ScheduleOf(s, sha, m, g, d, before);
    if Age(s) + SLEEP > g {
      NoTickInTime(s, sha, m, g, deadline, before);
    }
  }

  ghost predicate Reaches(s: Sched, sha: string -> nat, m: string, g: nat, d: nat, gap: int) {
    exists es :: Shows(s, sha, m, g, d, es, gap)
  }

  /** The next gap can exceed 1.1 intervals, with no restart and every tick in time, if and only if there is
      room for the sleep before the next tick and the last quiet tick, one tick gap and one check together
      exceed them. */
  lemma GapExceedsIff(s: Sched, sha: string -> nat, m: string, g: nat, d: nat, deadline: int)
    requires JustChecked(s, m) && deadline == Deadline(s.db.monitors[m], Offset(sha, m, s.db.monitors[m]))
    requires Age(s) <= g
    ensures (exists gap :: Reaches(s, sha, m, g, d, gap) && 10 * gap > 11 * Interval(s.db.monitors[m]))
       <==> Age(s) + SLEEP <= g && 10 * Longest(deadline, g, d, Age(s)) > 11 * Interval(s.db.monitors[m])
  {
    var longest := Longest(deadline, g, d, Age(s));
    forall gap | Reaches(s, sha, m, g, d, gap) ensures Age(s) + SLEEP <= g && gap <= longest {
      var es :| Shows(s, sha, m, g, d, es, gap);
      ShownGapsAreWithin(s, sha, m, g, d, deadline, es, gap);
    }
    if Age(s) + SLEEP <= g {
      var es := LongestGapIsReached(s, sha, m, g, d, deadline, Up, None);
      var run := es + [Finish(m, Up, None)];
      assert run[..|run| - 1] == es;
      assert Shows(s, sha, m, g, d, run, longest);
      assert Reaches(s, sha, m, g, d, longest);
    }
  }
}
