/** The scheduler's dispatch rule as a step machine: ticks that start, checks that finish while
    requests and retention go on, and what this makes of the spacing of the raw history. */
module Cadence {
  import opened Tables
  import opened Buckets
  import opened Aggregate
  import opened Plans
  import opened History

  // ---------------------------------------------------------------- the dispatch rule

  const MAX_PREFIX: int := 0xFFFF_FFFF

  /** `_phase_offset_seconds`, in microseconds: `prefix` is the first four bytes of the SHA-1 of the
      monitor id. */
  function PhaseOffset(prefix: nat, interval: int): real {
    prefix as real / 4294967295.0 * (interval as real * 100_000.0)
  }

  function Prefix(sha: string -> nat, m: string): (p: nat)
    ensures p <= MAX_PREFIX
  {
    sha(m) % 0x1_0000_0000
  }

  /** `checked_at` of `get_last_check`. */
  function LatestAt(raw: seq<Check>, m: string): (t: Option<nat>)
    ensures t == None <==> forall c :: c in raw ==> c.monitor != m
    ensures t.Some? ==> exists c :: c in raw && c.monitor == m && c.at == t.value
    ensures t.Some? ==> forall c :: c in raw && c.monitor == m ==> c.at <= t.value
  {
    if raw == [] then None else
      var rest, last := LatestAt(raw[..|raw| - 1], m), raw[|raw| - 1];
      if last.monitor != m then rest
      else if rest.Some? && rest.value > last.at then rest
      else Some(last.at)
  }

  /** Is an active monitor dispatched by a tick that starts now? */
  predicate Due(db: Db, sha: string -> nat, m: string) {
    m in db.monitors && db.monitors[m].active &&
    var interval := db.monitors[m].interval;
    var last := LatestAt(db.raw, m).GetOr(0);
    var jitter := if last != 0 then PhaseOffset(Prefix(sha, m), interval) else 0.0;
    db.now as real >= last as real + interval as real * 1_000_000.0 + jitter
  }

  function DueMonitors(db: Db, sha: string -> nat): set<string> {
    set m | m in db.monitors && Due(db, sha, m)
  }

  /** The offset lies between zero and a tenth of the interval, and reaches the tenth at the largest
      prefix only: the interval is closed at the top. */
  lemma OffsetBounds(prefix: nat, interval: int)
    requires prefix <= MAX_PREFIX && interval > 0
    ensures 0.0 <= PhaseOffset(prefix, interval) <= interval as real * 100_000.0
    ensures PhaseOffset(prefix, interval) == interval as real * 100_000.0 <==> prefix == MAX_PREFIX
  {
    var f := prefix as real / 4294967295.0;
    var w := interval as real * 100_000.0;
    assert 0.0 <= f <= 1.0 && (f == 1.0 <==> prefix == MAX_PREFIX);
    Scale(f, w);
  }

  /** The offset is the share of the tenth that the prefix has of all prefixes, so two monitors of one interval
      share an offset exactly when they share a prefix. */
  lemma OffsetsSpread(p: nat, q: nat, interval: int)
    requires interval > 0
    ensures 10.0 * PhaseOffset(p, interval) * MAX_PREFIX as real == p as real * interval as real * 1_000_000.0
    ensures PhaseOffset(p, interval) < PhaseOffset(q, interval) <==> p < q
  {
    var w := interval as real * 100_000.0;
    ShareOf(p as real, w);
    ShareOf(q as real, w);
    if p < q {
      ScaleLess(p as real / 4294967295.0, q as real / 4294967295.0, w);
    } else if q < p {
      ScaleLess(q as real / 4294967295.0, p as real / 4294967295.0, w);
    }
  }

  /** So monitors of one interval are spread by their digests: the order of their offsets is that of the first four
      bytes. */
  lemma CohortIsSpread(sha: string -> nat, a: string, b: string, interval: int)
    requires interval > 0
    ensures PhaseOffset(Prefix(sha, a), interval) < PhaseOffset(Prefix(sha, b), interval)
       <==> sha(a) % 4_294_967_296 < sha(b) % 4_294_967_296
  {
    OffsetsSpread(Prefix(sha, a), Prefix(sha, b), interval);
  }

  lemma ShareOf(x: real, w: real)
    ensures x / 4294967295.0 * w * 4294967295.0 == x * w
  {
  }

  lemma ScaleLess(x: real, y: real, w: real)
    requires x < y && w > 0.0
    ensures x * w < y * w
  {
    assert (y - x) * w > 0.0;
  }

  lemma Scale(f: real, w: real)
    requires 0.0 <= f <= 1.0 && w > 0.0
    ensures 0.0 <= f * w <= w && (f * w == w <==> f == 1.0)
  {
    assert (1.0 - f) * w >= 0.0;
    if f < 1.0 {
      assert (1.0 - f) * w > 0.0;
    }
  }

  // ---------------------------------------------------------------- the machine

  /** The sleep of the loop between two ticks. */
  const SLEEP: nat := 10_000_000

  /** `pending`: dispatched by the current tick and not finished; a restart drops them. `ready`: when the
      sleep after the last tick and its checks is over. `saved`: when each monitor's newest check was saved,
      whether or not the row still exists. */
  datatype Sched = Sched(db: Db, pending: set<string>, lastTick: nat, ready: nat, saved: map<string, nat>)

  datatype SchedEvent =
    | TickStart
    | Finish(monitor: string, status: Status, latency: Option<int>)
    | Other(ev: Event)

  function SchedStep(s: Sched, sha: string -> nat, e: SchedEvent): Sched {
    match e
    case TickStart =>
      s.(lastTick := s.db.now, ready := s.db.now + SLEEP, pending := DueMonitors(s.db, sha))
    case Finish(m, status, latency) =>
      s.(db := SaveCheck(s.db, m, status, latency), pending := s.pending - {m}, ready := s.db.now + SLEEP,
         saved := if m in s.db.monitors then s.saved[m := s.db.now] else s.saved)
    case Other(ev) =>
      s.(db := StepDb(s.db, ev), pending := if ev.Restart? then {} else s.pending,
         ready := if ev.Restart? then s.db.now else s.ready)
  }

  /** A tick starts once the previous one has gathered all its checks and the loop has slept, or at once in
      a new process; checks are saved by ticks only. */
  predicate Enabled(s: Sched, e: SchedEvent) {
    match e
    case TickStart => s.pending == {} && s.ready <= s.db.now
    case Finish(m, _, _) => m in s.pending
    case Other(ev) => !ev.Save? && Admissible(s.db, ev)
  }

  function SchedRun(s: Sched, sha: string -> nat, es: seq<SchedEvent>): Sched {
    if es == [] then s else SchedStep(SchedRun(s, sha, es[..|es| - 1]), sha, es[|es| - 1])
  }

  predicate EnabledRun(s: Sched, sha: string -> nat, es: seq<SchedEvent>) {
    es == [] ||
    (EnabledRun(s, sha, es[..|es| - 1]) && Enabled(SchedRun(s, sha, es[..|es| - 1]), es[|es| - 1]))
  }

  // ---------------------------------------------------------------- one row per due monitor

  function RowCount(db: Db, m: string): nat {
    |Where(db.raw, (c: Check) => c.monitor == m)|
  }

  function Owed(s: Sched, m: string): nat {
    if m in s.pending then 1 else 0
  }

  /** The history of `m` is left alone: the event is no insert of its own, no restart, and takes no row of
      `m` and not `m` itself away. */
  predicate Spares(db: Db, ev: Event, m: string) {
    && !ev.Save? && !ev.Restart? && m in StepDb(db, ev).monitors
    && RowCount(StepDb(db, ev), m) == RowCount(db, m)
  }

  predicate TickGoesOn(s: Sched, sha: string -> nat, es: seq<SchedEvent>, m: string) {
    es == [] ||
    var before, e := es[..|es| - 1], es[|es| - 1];
    && TickGoesOn(s, sha, before, m)
    && Enabled(SchedRun(s, sha, before), e) && !e.TickStart?
    && (e.Other? ==> Spares(SchedRun(s, sha, before).db, e.ev, m))
  }

  /** Between two ticks, whatever requests come in that leave `m` alone, rows saved plus rows owed is
      conserved for every monitor that exists: a tick saves exactly one row for each monitor it found due and
      none for any other. */
  lemma {:induction false} TickConserves(s: Sched, sha: string -> nat, es: seq<SchedEvent>, m: string)
    requires m in s.db.monitors && TickGoesOn(s, sha, es, m)
    ensures m in SchedRun(s, sha, es).db.monitors
    ensures RowCount(SchedRun(s, sha, es).db, m) + Owed(SchedRun(s, sha, es), m) == RowCount(s.db, m) + Owed(s, m)
  {
    if es == [] {
    } else {
      var before, e := es[..|es| - 1], es[|es| - 1];
      TickConserves(s, sha, before, m);
      var mid := SchedRun(s, sha, before);
      if e.Finish? {
        WhereAppend(mid.db.raw, Check(e.monitor, e.status, e.latency, mid.db.now), (c: Check) => c.monitor == m);
      }
    }
  }

  /** In particular the clock, sign-ups, other monitors, compactions and backfills do. */
  lemma PlainRequestsSpare(db: Db, ev: Event, m: string)
    requires m in db.monitors
    requires ev.Advance? || ev.SignUp? || ev.Visit? || ev.SetPlan? || ev.AddMonitor? || ev.EditInterval?
          || ev.Compact? || ev.Fill? || (ev.RemoveMonitor? && ev.id != m)
    ensures Spares(db, ev, m)
  {
    var own := (c: Check) => c.monitor == m;
    if ev.Fill? {
      FillFrame(db, ev.tier, FloorToBucket(ev.start, ev.tier), FloorToBucket(ev.end, ev.tier));
    } else if ev.RemoveMonitor? {
      var gone := {ev.id};
      FilterTwice(db.raw, (c: Check) => !(c.monitor in gone && c.monitor in db.monitors), own, own);
    }
  }

  // ---------------------------------------------------------------- spacing

  const FLOOR := 30_000_000

  /** Successive rows of a monitor are at least 30 s apart. */
  predicate Spaced(raw: seq<Check>) {
    raw == [] ||
    (Spaced(raw[..|raw| - 1]) &&
     forall c :: c in raw[..|raw| - 1] && c.monitor == raw[|raw| - 1].monitor ==> c.at + FLOOR <= raw[|raw| - 1].at)
  }

  /** Monitors respect the 30 s floor, rows are spaced, and a pending monitor's rows are old enough. */
  ghost predicate SpacedState(s: Sched) {
    && (forall m :: m in s.db.monitors ==> s.db.monitors[m].interval >= 30)
    && Spaced(s.db.raw)
    && (forall c :: c in s.db.raw && c.monitor in s.pending ==> c.at + FLOOR <= s.db.now)
  }

  lemma {:induction false} WhereSpaced(raw: seq<Check>, keep: Check -> bool)
    requires Spaced(raw)
    ensures Spaced(Where(raw, keep))
  {
    if raw == [] {
    } else {
      var front, last := raw[..|raw| - 1], raw[|raw| - 1];
      WhereSpaced(front, keep);
      if keep(last) {
        assert (Where(front, keep) + [last])[..|Where(front, keep)|] == Where(front, keep);
      }
    }
  }

  lemma EveryPlanHasFloor(plan: string, interval: int)
    requires IntervalAllowed(plan, interval)
    ensures interval >= 30
  {
  }

  /** Every step but an insert keeps a selection of the raw rows. */
  lemma RawIsFiltered(db: Db, ev: Event) returns (keep: Check -> bool)
    requires !ev.Save?
    ensures StepDb(db, ev).raw == Where(db.raw, keep)
  {
    if ev.RunPurge? {
      keep := (c: Check) => !Expired(db, ev.ceiling, c.monitor, c.at);
    } else if ev.RunArchive? {
      keep := (c: Check) => !OwnedByAbandoned(db, ev.days, c.monitor);
    } else if ev.RemoveMonitor? {
      var gone := {ev.id};
      keep := (c: Check) => !(c.monitor in gone && c.monitor in db.monitors);
    } else if ev.RemoveUser? {
      var gone := set m | m in db.monitors && db.monitors[m].owner == ev.user;
      keep := (c: Check) => !(c.monitor in gone && c.monitor in db.monitors);
    } else {
      keep := (c: Check) => true;
      WhereAll(db.raw, keep);
      if ev.Fill? {
        FillFrame(db, ev.tier, FloorToBucket(ev.start, ev.tier), FloorToBucket(ev.end, ev.tier));
      }
    }
  }

  lemma ClockKept(db: Db, ev: Event)
    ensures StepDb(db, ev).now >= db.now
  {
    if ev.Fill? {
      FillFrame(db, ev.tier, FloorToBucket(ev.start, ev.tier), FloorToBucket(ev.end, ev.tier));
    }
  }

  lemma FloorKept(db: Db, ev: Event)
    requires forall m :: m in db.monitors ==> db.monitors[m].interval >= 30
    ensures forall m :: m in StepDb(db, ev).monitors ==> StepDb(db, ev).monitors[m].interval >= 30
  {
    if ev.Fill? {
      FillFrame(db, ev.tier, FloorToBucket(ev.start, ev.tier), FloorToBucket(ev.end, ev.tier));
    }
  }

  lemma StepSpaced(s: Sched, sha: string -> nat, e: SchedEvent)
    requires SpacedState(s) && Enabled(s, e)
    ensures SpacedState(SchedStep(s, sha, e))
  {
    match e
    case TickStart =>
      forall c | c in s.db.raw && Due(s.db, sha, c.monitor) ensures c.at + FLOOR <= s.db.now {
        DueIsOld(s.db, sha, c);
      }
    case Finish(m, status, latency) =>
      if m in s.db.monitors {
        assert SchedStep(s, sha, e).db.raw[..|s.db.raw|] == s.db.raw;
      }
    case Other(ev) =>
      var keep := RawIsFiltered(s.db, ev);
      WhereSpaced(s.db.raw, keep);
      ClockKept(s.db, ev);
      FloorKept(s.db, ev);
  }

  lemma DueIsOld(db: Db, sha: string -> nat, c: Check)
    requires Due(db, sha, c.monitor) && c in db.raw && db.monitors[c.monitor].interval >= 30
    ensures c.at + FLOOR <= db.now
  {
    OffsetBounds(Prefix(sha, c.monitor), db.monitors[c.monitor].interval);
    assert LatestAt(db.raw, c.monitor).Some?;
  }

  /** Over any run of ticks, requests and retention, the rows that are in the table stay at least
      30 s apart. */
  lemma {:induction false} SpacingOverRuns(s: Sched, sha: string -> nat, es: seq<SchedEvent>)
    requires SpacedState(s) && EnabledRun(s, sha, es)
    ensures SpacedState(SchedRun(s, sha, es))
  {
    if es == [] {
    } else {
      SpacingOverRuns(s, sha, es[..|es| - 1]);
      StepSpaced(SchedRun(s, sha, es[..|es| - 1]), sha, es[|es| - 1]);
    }
  }

  function RowsBetween(raw: seq<Check>, m: string, lo: int, hi: int): nat {
    |Where(raw, (c: Check) => c.monitor == m && lo <= c.at < hi)|
  }

  lemma {:induction false} SpacedCount(raw: seq<Check>, m: string, lo: int, hi: int)
    requires Spaced(raw)
    ensures RowsBetween(raw, m, lo, hi) > 0 ==> (RowsBetween(raw, m, lo, hi) - 1) * FLOOR < hi - lo
    decreases |raw|
  {
    if raw == [] {
    } else {
      var front, last := raw[..|raw| - 1], raw[|raw| - 1];
      if last.monitor == m && lo <= last.at < hi {
        var bound := last.at - FLOOR + 1;
        SpacedCount(front, m, lo, bound);
        WhereAgree(front, (c: Check) => c.monitor == m && lo <= c.at < hi,
                   (c: Check) => c.monitor == m && lo <= c.at < bound);
        assert RowsBetween(raw, m, lo, hi) == RowsBetween(front, m, lo, bound) + 1;
      } else {
        SpacedCount(front, m, lo, hi);
      }
    }
  }

  /** Any hour holds at most 120 raw rows of a monitor: what a compaction of one bucket, or a read
      of the raw tier, has to scan. */
  lemma HourHoldsAtMost120(s: Sched, m: string, lo: int)
    requires SpacedState(s)
    ensures RowsBetween(s.db.raw, m, lo, lo + 3_600_000_000) <= 120
  {
    SpacedCount(s.db.raw, m, lo, lo + 3_600_000_000);
  }
}
