/** In every reachable state each rollup row is the summary of exactly the raw rows that are in its
    bucket now, whatever order inserts, compactions, backfills, purges, archives and deletions come
    in. */
module Lockstep {
  import opened Tables
  import opened Buckets
  import opened Aggregate
  import opened History

  /** Every rollup row says what its bucket of raw rows says. */
  ghost predicate Fresh(db: Db) {
    forall k :: k in db.rollups ==> Summarize(Bucket(db.raw, k)) == Some(db.rollups[k])
  }

  ghost predicate OwnersExist(db: Db) {
    forall m :: m in db.monitors ==> db.monitors[m].owner in db.users
  }

  ghost predicate Valid(db: Db) {
    && (forall c :: c in db.raw ==> c.at <= db.now)
    && OwnersExist(db)
    && (forall k :: k in db.rollups ==>
          k.monitor in db.monitors && Aligned(k.start, k.tier) && k.start + Width(k.tier) <= db.now)
    && Fresh(db)
  }

  /** Deleting raw rows outside a bucket leaves the bucket as it was. */
  lemma BucketKept(raw: seq<Check>, keep: Check -> bool, k: Key)
    requires forall c :: c in raw && InBucket(c, k) ==> keep(c)
    ensures Bucket(Where(raw, keep), k) == Bucket(raw, k)
  {
    var p := (c: Check) => InBucket(c, k);
    WhereWhere(raw, keep, p);
    WhereAgree(raw, c => keep(c) && p(c), p);
  }

  lemma BucketNonEmptyIff(raw: seq<Check>, k: Key)
    ensures Bucket(raw, k) != [] <==> exists c :: c in raw && InBucket(c, k)
  {
    var b := Bucket(raw, k);
    if b != [] {
      assert b[0] in b;
    }
  }

  lemma InWindowIff(db: Db, tier: Tier, m: string, start: int)
    ensures m in MonitorsInWindow(db, tier, start)
      <==> m in db.monitors && Bucket(db.raw, Key(tier, m, start)) != []
  {
    BucketNonEmptyIff(db.raw, Key(tier, m, start));
    if m in db.monitors && Bucket(db.raw, Key(tier, m, start)) != [] {
      var c :| c in db.raw && InBucket(c, Key(tier, m, start));
      assert c.monitor == m;
    }
  }

  /** What one compaction leaves: one fresh row for each live monitor with checks in the bucket,
      and every other row as it was. */
  lemma CompactWindowRows(db: Db, tier: Tier, windowStart: int, k: Key)
    ensures var start := FloorToBucket(windowStart, tier);
            var after := CompactWindow(db, tier, windowStart);
            if k.tier == tier && k.start == start && k.monitor in db.monitors && Bucket(db.raw, k) != []
            then k in after.rollups && Some(after.rollups[k]) == Summarize(Bucket(db.raw, k))
            else (k in after.rollups <==> k in db.rollups) &&
                 (k in db.rollups ==> after.rollups[k] == db.rollups[k])
  {
    InWindowIff(db, tier, k.monitor, FloorToBucket(windowStart, tier));
  }

  lemma CompactWindowValid(db: Db, tier: Tier, windowStart: int)
    requires Valid(db) && FloorToBucket(windowStart, tier) + Width(tier) <= db.now
    ensures Valid(CompactWindow(db, tier, windowStart))
  {
    var after := CompactWindow(db, tier, windowStart);
    FloorAligned(windowStart, tier);
    forall k | k in after.rollups
      ensures k.monitor in db.monitors && Aligned(k.start, k.tier) && k.start + Width(k.tier) <= db.now
      ensures Summarize(Bucket(db.raw, k)) == Some(after.rollups[k])
    {
      CompactWindowRows(db, tier, windowStart, k);
    }
  }

  lemma CompactTierValid(s: State, tier: Tier)
    requires Valid(s.db)
    ensures Valid(CompactTier(s, tier).db) && CompactTier(s, tier).db.now == s.db.now
  {
    if !NotElapsed(s.db.now, tier) {
      LastWindowIsNewestElapsed(s.db.now, tier);
      FloorFixed(LastWindow(s.db.now, tier), tier);
      CompactWindowValid(s.db, tier, LastWindow(s.db.now, tier));
    }
  }

  lemma {:induction false} CompactTiersValid(s: State, n: nat)
    requires Valid(s.db)
    ensures Valid(CompactTiers(s, n).db) && CompactTiers(s, n).db.now == s.db.now
  {
    if n == 0 {
    } else {
      CompactTiersValid(s, n - 1);
      CompactTierValid(CompactTiers(s, n - 1), TierAt(n - 1));
    }
  }

  lemma NextEdge(cursor: int, end: int, tier: Tier)
    requires Aligned(cursor, tier) && Aligned(end, tier) && cursor < end
    ensures FloorToBucket(cursor, tier) == cursor
    ensures Aligned(cursor + Width(tier), tier) && cursor + Width(tier) <= end
  {
    FloorFixed(cursor, tier);
    AlignedStep(cursor, tier);
    AlignedGap(cursor + Width(tier), end, tier);
  }

  lemma {:induction false} BackfillValid(db: Db, tier: Tier, cursor: int, end: int)
    requires Valid(db) && Aligned(cursor, tier) && Aligned(end, tier) && end <= db.now
    ensures Valid(BackfillFrom(db, tier, cursor, end))
    decreases end - cursor
  {
    if cursor >= end {
    } else {
      NextEdge(cursor, end, tier);
      CompactWindowValid(db, tier, cursor);
      BackfillValid(CompactWindow(db, tier, cursor), tier, cursor + Width(tier), end);
    }
  }

  /** A deletion keeps the tables in step when no surviving rollup row loses a raw row. */
  lemma DeletionKeepsFresh(raw: seq<Check>, rollups: map<Key, Row>, keep: Check -> bool, left: map<Key, Row>)
    requires forall k :: k in rollups ==> Summarize(Bucket(raw, k)) == Some(rollups[k])
    requires forall k :: k in left ==> k in rollups && left[k] == rollups[k]
    requires forall k, c :: k in left && c in raw && InBucket(c, k) ==> keep(c)
    ensures forall k :: k in left ==> Summarize(Bucket(Where(raw, keep), k)) == Some(left[k])
  {
    forall k | k in left ensures Bucket(Where(raw, keep), k) == Bucket(raw, k) {
      BucketKept(raw, keep, k);
    }
  }

  lemma PurgeValid(db: Db, ceiling: int)
    requires Valid(db)
    ensures Valid(Purge(db, ceiling))
  {
    DeletionKeepsFresh(db.raw, db.rollups, (c: Check) => !Expired(db, ceiling, c.monitor, c.at),
                       Purge(db, ceiling).rollups);
  }

  lemma ArchiveValid(db: Db, days: int)
    requires Valid(db)
    ensures Valid(Archive(db, days))
  {
    DeletionKeepsFresh(db.raw, db.rollups, (c: Check) => !OwnedByAbandoned(db, days, c.monitor),
                       Archive(db, days).rollups);
  }

  lemma DropMonitorsValid(db: Db, gone: set<string>)
    requires Valid(db)
    ensures Valid(DropMonitors(db, gone)) && DropMonitors(db, gone).now == db.now
  {
    DeletionKeepsFresh(db.raw, db.rollups, (c: Check) => !(c.monitor in gone && c.monitor in db.monitors),
                       DropMonitors(db, gone).rollups);
  }

  /** A check stamped now falls in no bucket that has already ended. */
  lemma SaveValid(db: Db, m: string, status: Status, latency: Option<int>)
    requires Valid(db)
    ensures Valid(SaveCheck(db, m, status, latency))
  {
    var c := Check(m, status, latency, db.now);
    forall k | k in db.rollups ensures Bucket(db.raw + [c], k) == Bucket(db.raw, k) {
      WhereAppend(db.raw, c, x => InBucket(x, k));
    }
  }

  lemma FillValid(db: Db, tier: Tier, start: int, end: int)
    requires Valid(db) && end <= db.now
    ensures Valid(Backfill(db, tier, start, end)) && Backfill(db, tier, start, end).now == db.now
  {
    var cursor, stop := FloorToBucket(start, tier), FloorToBucket(end, tier);
    FloorAligned(start, tier);
    FloorAligned(end, tier);
    if end < 0 {
      NegativeFloor(end, tier);
    }
    BackfillValid(db, tier, cursor, stop);
    FillFrame(db, tier, cursor, stop);
  }

  /** Steps that leave the history alone and take no monitor or owner away. */
  lemma SameHistoryValid(db: Db, after: Db)
    requires Valid(db)
    requires after.raw == db.raw && after.rollups == db.rollups && after.now >= db.now
    requires db.monitors.Keys <= after.monitors.Keys
    requires OwnersExist(after)
    ensures Valid(after)
  {
  }

  lemma DeleteUserValid(db: Db, user: string)
    requires Valid(db)
    ensures Valid(DeleteUser(db, user)) && DeleteUser(db, user).now == db.now
  {
    var gone := set m | m in db.monitors && db.monitors[m].owner == user;
    var dropped := DropMonitors(db, gone);
    DropMonitorsValid(db, gone);
    assert forall m :: m in dropped.monitors ==> dropped.monitors[m].owner != user;
    SameHistoryValid(dropped, DeleteUser(db, user));
  }

  lemma HistoryStepValid(db: Db, ev: Event)
    requires Valid(db) && Admissible(db, ev)
    requires ev.Fill? || ev.RunPurge? || ev.RunArchive? || ev.RemoveMonitor? || ev.RemoveUser? || ev.Save?
    ensures Valid(StepDb(db, ev)) && StepDb(db, ev).now == db.now
  {
    match ev
    case Fill(tier, start, end) => FillValid(db, tier, start, end);
    case RunPurge(ceiling) => PurgeValid(db, ceiling);
    case RunArchive(days) => ArchiveValid(db, days);
    case RemoveMonitor(id) => DropMonitorsValid(db, {id});
    case RemoveUser(u) => DeleteUserValid(db, u);
    case Save(m, status, latency) => SaveValid(db, m, status, latency);
  }

  predicate IsAccountStep(ev: Event) {
    ev.Advance? || ev.SignUp? || ev.Visit? || ev.SetPlan? || ev.AddMonitor? || ev.EditInterval?
  }

  /** Signing up, logging in, changing plans and editing monitors leave the history alone. */
  lemma AccountStepFrame(db: Db, ev: Event)
    requires OwnersExist(db) && IsAccountStep(ev)
    ensures var after := StepDb(db, ev);
            && after.raw == db.raw && after.rollups == db.rollups && after.now >= db.now
            && db.monitors.Keys <= after.monitors.Keys && OwnersExist(after)
    ensures Admissible(db, ev) ==>
      forall c :: c in db.raw && c.monitor in StepDb(db, ev).monitors ==> c.monitor in db.monitors
  {
  }

  lemma AccountStepValid(db: Db, ev: Event)
    requires Valid(db) && IsAccountStep(ev)
    ensures Valid(StepDb(db, ev)) && StepDb(db, ev).now >= db.now
  {
    AccountStepFrame(db, ev);
    SameHistoryValid(db, StepDb(db, ev));
  }

  lemma StepValid(s: State, ev: Event)
    requires Valid(s.db) && Admissible(s.db, ev)
    ensures Valid(Step(s, ev).db) && Step(s, ev).db.now >= s.db.now
  {
    if ev.Compact? {
      CompactTiersValid(s, 3);
    } else if ev.Fill? || ev.RunPurge? || ev.RunArchive? || ev.RemoveMonitor? || ev.RemoveUser? || ev.Save? {
      HistoryStepValid(s.db, ev);
    } else if !ev.Restart? {
      AccountStepValid(s.db, ev);
    }
  }

  /** Over every run the rollups stay in step with the raw history. */
  lemma {:induction false} RunValid(s: State, evs: seq<Event>)
    requires Valid(s.db) && AdmissibleRun(s, evs)
    ensures Valid(Run(s, evs).db)
  {
    if evs == [] {
    } else {
      var before := evs[..|evs| - 1];
      RunValid(s, before);
      StepValid(Run(s, before), evs[|evs| - 1]);
    }
  }

  /** The exact condition behind that: a new check keeps the tables in step precisely when the
      bucket it falls in has no row yet, in any of the three tables. */
  lemma SaveStaysFreshIff(db: Db, m: string, status: Status, latency: Option<int>)
    requires Fresh(db) && m in db.monitors
    requires forall k :: k in db.rollups ==> Aligned(k.start, k.tier)
    ensures Fresh(SaveCheck(db, m, status, latency))
      <==> forall tier :: Key(tier, m, FloorToBucket(db.now, tier)) !in db.rollups
  {
    var c := Check(m, status, latency, db.now);
    var after := SaveCheck(db, m, status, latency);
    forall k | k in db.rollups
      ensures Bucket(after.raw, k) == Bucket(db.raw, k) <==> k != Key(k.tier, m, FloorToBucket(db.now, k.tier))
      ensures |Bucket(after.raw, k)| != |Bucket(db.raw, k)| <==> k == Key(k.tier, m, FloorToBucket(db.now, k.tier))
      ensures Summarize(Bucket(after.raw, k)) == Some(db.rollups[k])
        <==> k != Key(k.tier, m, FloorToBucket(db.now, k.tier))
    {
      WhereAppend(db.raw, c, x => InBucket(x, k));
      FloorUnique(db.now, k.tier, k.start);
    }
    if tier :| Key(tier, m, FloorToBucket(db.now, tier)) in db.rollups {
      assert !Fresh(after);
    }
  }
}
