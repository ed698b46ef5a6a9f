/** The compactor's memo is an optimisation only: over any run, restarts included, it leaves the
    same tables as a compactor that always recomputes the newest ended bucket. */
module Memo {
  import opened Tables
  import opened Buckets
  import opened Aggregate
  import opened History
  import opened Lockstep

  // ---------------------------------------------------------------- the simple form

  function AlwaysTier(db: Db, tier: Tier): Db {
    if NotElapsed(db.now, tier) then db else CompactWindow(db, tier, LastWindow(db.now, tier))
  }

  function AlwaysTiers(db: Db, n: nat): Db {
    if n == 0 then db else AlwaysTier(AlwaysTiers(db, n - 1), TierAt(n - 1))
  }

  function AlwaysStep(db: Db, ev: Event): Db {
    if ev.Compact? then AlwaysTiers(db, 3) else StepDb(db, ev)
  }

  function AlwaysRun(db: Db, evs: seq<Event>): Db {
    if evs == [] then db else AlwaysStep(AlwaysRun(db, evs[..|evs| - 1]), evs[|evs| - 1])
  }

  // ---------------------------------------------------------------- what the memo stands for

  /** Every check of a live monitor in the bucket is covered by a row. */
  ghost predicate Complete(db: Db, tier: Tier, start: int) {
    forall c :: c in db.raw && c.monitor in db.monitors && InBucket(c, Key(tier, c.monitor, start))
      ==> Key(tier, c.monitor, start) in db.rollups
  }

  /** A memoised bucket has ended, and is complete for as long as it is the newest one that has. */
  ghost predicate MemoSound(s: State) {
    forall t :: t in s.memo ==>
      && Aligned(s.memo[t], t) && s.memo[t] + Width(t) <= s.db.now
      && (s.db.now < s.memo[t] + 2 * Width(t) ==> Complete(s.db, t, s.memo[t]))
  }

  lemma CompactWindowCompletes(db: Db, tier: Tier, start: int)
    requires Aligned(start, tier)
    ensures Complete(CompactWindow(db, tier, start), tier, start)
  {
    FloorFixed(start, tier);
  }

  /** Recomputing a complete bucket of tables that are in step changes nothing. */
  lemma RecomputeIsIdentity(db: Db, tier: Tier, start: int)
    requires Fresh(db) && Aligned(start, tier) && Complete(db, tier, start)
    ensures CompactWindow(db, tier, start) == db
  {
    RowsAlreadyThere(db, tier, start);
    MergeNothing(db.rollups, WindowRows(db, tier, start));
    FloorFixed(start, tier);
  }

  lemma RowsAlreadyThere(db: Db, tier: Tier, start: int)
    requires Fresh(db) && Complete(db, tier, start)
    ensures var rows := WindowRows(db, tier, start);
            forall k :: k in rows ==> k in db.rollups && rows[k] == db.rollups[k]
  {
    forall m | m in MonitorsInWindow(db, tier, start) ensures Key(tier, m, start) in db.rollups {
      InWindowIff(db, tier, m, start);
      BucketNonEmptyIff(db.raw, Key(tier, m, start));
    }
  }

  /** More rollup rows leave every memoised bucket complete. */
  lemma MemoGrows(s: State, after: Db, tier: Tier, last: int)
    requires MemoSound(s) && after.(rollups := s.db.rollups) == s.db && s.db.rollups.Keys <= after.rollups.Keys
    requires Aligned(last, tier) && last + Width(tier) <= s.db.now && Complete(after, tier, last)
    ensures MemoSound(State(after, s.memo[tier := last]))
  {
  }

  lemma TierRefines(s: State, tier: Tier)
    requires Valid(s.db) && MemoSound(s)
    ensures CompactTier(s, tier).db == AlwaysTier(s.db, tier)
    ensures Valid(CompactTier(s, tier).db) && MemoSound(CompactTier(s, tier))
  {
    CompactTierValid(s, tier);
    if !NotElapsed(s.db.now, tier) {
      var last := LastWindow(s.db.now, tier);
      LastWindowIsNewestElapsed(s.db.now, tier);
      if tier in s.memo && s.memo[tier] == last {
        RecomputeIsIdentity(s.db, tier, last);
      } else {
        CompactWindowCompletes(s.db, tier, last);
        MemoGrows(s, CompactWindow(s.db, tier, last), tier, last);
      }
    }
  }

  lemma RestartForgets(s: State)
    ensures Step(s, Restart) == s.(memo := map[])
  {
  }

  lemma NothingSkipped(s: State, tier: Tier)
    requires s.memo == map[]
    ensures CompactTier(s, tier).db == AlwaysTier(s.db, tier)
  {
  }

  /** After a restart nothing is skipped, whatever the memo was: the next call recomputes. */
  lemma ColdStartRecomputes(s: State, tier: Tier)
    ensures CompactTier(Step(s, Restart), tier).db == AlwaysTier(s.db, tier)
  {
    RestartForgets(s);
    NothingSkipped(s.(memo := map[]), tier);
  }

  lemma {:induction false} TiersRefine(s: State, n: nat)
    requires Valid(s.db) && MemoSound(s)
    ensures CompactTiers(s, n).db == AlwaysTiers(s.db, n)
    ensures Valid(CompactTiers(s, n).db) && MemoSound(CompactTiers(s, n))
  {
    if n == 0 {
    } else {
      TiersRefine(s, n - 1);
      TierRefines(CompactTiers(s, n - 1), TierAt(n - 1));
    }
  }

  // ---------------------------------------------------------------- the other steps keep it

  /** `after` has no new live check in the bucket, and every check it still has kept its row. */
  lemma CompleteKept(db: Db, after: Db, tier: Tier, start: int)
    requires Complete(db, tier, start)
    requires forall c :: c in after.raw && c.monitor in after.monitors && InBucket(c, Key(tier, c.monitor, start)) ==>
      c in db.raw && c.monitor in db.monitors
    requires forall c :: c in after.raw && InBucket(c, Key(tier, c.monitor, start)) ==>
      Key(tier, c.monitor, start) in db.rollups ==> Key(tier, c.monitor, start) in after.rollups
    ensures Complete(after, tier, start)
  {
  }

  /** A purge takes either all of a bucket that ended less than a bucket ago, or none of it. */
  lemma PurgeKeepsNewest(db: Db, ceiling: int, tier: Tier, start: int)
    requires Complete(db, tier, start) && start + Width(tier) <= db.now < start + 2 * Width(tier)
    ensures Complete(Purge(db, ceiling), tier, start)
  {
    var after := Purge(db, ceiling);
    forall c | c in after.raw && InBucket(c, Key(tier, c.monitor, start)) && Key(tier, c.monitor, start) in db.rollups
      ensures Key(tier, c.monitor, start) in after.rollups
    {
      // kept for a day or more, or not at all: `start` is never cut off alone
      assert !Expired(db, ceiling, c.monitor, c.at);
    }
    CompleteKept(db, after, tier, start);
  }

  lemma {:induction false} BackfillGrows(db: Db, tier: Tier, cursor: int, end: int)
    ensures db.rollups.Keys <= BackfillFrom(db, tier, cursor, end).rollups.Keys
    decreases end - cursor
  {
    if cursor >= end {
    } else {
      BackfillGrows(CompactWindow(db, tier, cursor), tier, cursor + Width(tier), end);
    }
  }

  lemma StepKeepsComplete(db: Db, ev: Event, tier: Tier, start: int)
    requires Valid(db) && Admissible(db, ev) && !ev.Compact?
    requires start + Width(tier) <= db.now < start + 2 * Width(tier)
    requires Complete(db, tier, start)
    ensures Complete(StepDb(db, ev), tier, start)
  {
    if IsAccountStep(ev) {
      AccountStepFrame(db, ev);
      CompleteKept(db, StepDb(db, ev), tier, start);
    } else if ev.RunPurge? {
      PurgeKeepsNewest(db, ev.ceiling, tier, start);
    } else if ev.Fill? {
      BackfillGrows(db, ev.tier, FloorToBucket(ev.start, ev.tier), FloorToBucket(ev.end, ev.tier));
      FillFrame(db, ev.tier, FloorToBucket(ev.start, ev.tier), FloorToBucket(ev.end, ev.tier));
    } else if !ev.Restart? {
      DeletionOrInsertKeepsComplete(db, ev, tier, start);
    }
  }

  lemma DeletionOrInsertKeepsComplete(db: Db, ev: Event, tier: Tier, start: int)
    requires start + Width(tier) <= db.now && Complete(db, tier, start)
    requires ev.RunArchive? || ev.RemoveMonitor? || ev.RemoveUser? || ev.Save?
    ensures Complete(StepDb(db, ev), tier, start)
  {
    match ev
    case RunArchive(days) => CompleteKept(db, Archive(db, days), tier, start);
    case RemoveMonitor(id) => CompleteKept(db, DropMonitors(db, {id}), tier, start);
    case RemoveUser(u) => CompleteKept(db, DeleteUser(db, u), tier, start);
    case Save(m, status, latency) => CompleteKept(db, SaveCheck(db, m, status, latency), tier, start);
  }

  lemma StepRefines(s: State, ev: Event)
    requires Valid(s.db) && MemoSound(s) && Admissible(s.db, ev)
    ensures Step(s, ev).db == AlwaysStep(s.db, ev)
    ensures Valid(Step(s, ev).db) && MemoSound(Step(s, ev))
  {
    StepValid(s, ev);
    if ev.Compact? {
      TiersRefine(s, 3);
    } else if !ev.Restart? {
      forall t | t in s.memo && s.db.now < s.memo[t] + 2 * Width(t)
        ensures Complete(StepDb(s.db, ev), t, s.memo[t])
      {
        StepKeepsComplete(s.db, ev, t, s.memo[t]);
      }
    }
  }

  /** Memo refinement over whole runs, from any state whose memo is sound (a fresh process). */
  lemma {:induction false} MemoRefinesRecomputing(s: State, evs: seq<Event>)
    requires Valid(s.db) && MemoSound(s) && AdmissibleRun(s, evs)
    ensures Run(s, evs).db == AlwaysRun(s.db, evs)
    ensures Valid(Run(s, evs).db) && MemoSound(Run(s, evs))
  {
    if evs == [] {
    } else {
      var before := evs[..|evs| - 1];
      MemoRefinesRecomputing(s, before);
      StepRefines(Run(s, before), evs[|evs| - 1]);
    }
  }

  lemma FreshProcessIsSound(db: Db)
    ensures MemoSound(State(db, map[]))
  {
  }
}
