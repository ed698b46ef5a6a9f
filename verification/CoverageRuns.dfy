/** Coverage over whole runs of the compactor: what the cadence of `compact_recent` must be for the
    rollup readers to agree with the raw history, and what is lost when it is not kept. */
module CoverageRuns {
  import opened Tables
  import opened Buckets
  import opened Aggregate
  import opened History
  import opened Lockstep
  import opened Memo
  import opened Readers
  import opened Coverage

  /** When the newest `compact_recent` call of the run was made; `last` if the run made none. */
  function LastCall(s: State, evs: seq<Event>, last: nat): nat {
    if evs == [] then last else
      var before := evs[..|evs| - 1];
      if evs[|evs| - 1].Compact? then Run(s, before).db.now else LastCall(s, before, last)
  }

  /** No call skips a bucket, and no purge cuts into monitor `m`'s history from `from` on. */
  predicate Punctual(s: State, evs: seq<Event>, tier: Tier, m: string, from: int, last: nat) {
    evs == [] ||
    var before, ev := evs[..|evs| - 1], evs[|evs| - 1];
    var db := Run(s, before).db;
    && Punctual(s, before, tier, m, from, last)
    && (ev.Compact? ==> FloorToBucket(db.now, tier) - FloorToBucket(LastCall(s, before, last), tier) <= Width(tier))
    && (ev.RunPurge? ==> !Expired(db, ev.ceiling, m, from))
  }

  ghost predicate CoveredLive(db: Db, tier: Tier, m: string, from: int, upto: int) {
    m in db.monitors ==> Covered(db, tier, {m}, from, upto)
  }

  // ---------------------------------------------------------------- compaction extends coverage

  lemma {:induction false} AlwaysTiersGrow(db: Db, n: nat)
    ensures AlwaysTiers(db, n).(rollups := db.rollups) == db
    ensures db.rollups.Keys <= AlwaysTiers(db, n).rollups.Keys
  {
    if n == 0 {
    } else {
      AlwaysTiersGrow(db, n - 1);
    }
  }

  /** The rows a compaction adds: one for each live monitor with checks in the newest ended bucket. */
  ghost predicate Newest(db: Db, k: Key) {
    && !NotElapsed(db.now, k.tier) && k.start == LastWindow(db.now, k.tier)
    && k.monitor in db.monitors && exists c :: c in db.raw && InBucket(c, k)
  }

  lemma AlwaysTierKeys(db: Db, tier: Tier, k: Key)
    ensures k in AlwaysTier(db, tier).rollups <==> k in db.rollups || (k.tier == tier && Newest(db, k))
  {
    if !NotElapsed(db.now, tier) {
      LastWindowIsNewestElapsed(db.now, tier);
      FloorFixed(LastWindow(db.now, tier), tier);
      BucketNonEmptyIff(db.raw, k);
      CompactWindowRows(db, tier, LastWindow(db.now, tier), k);
    }
  }

  lemma NewestFrame(db: Db, after: Db, k: Key)
    requires after.(rollups := db.rollups) == db
    ensures Newest(after, k) == Newest(db, k)
  {
  }

  lemma RankFrame(i: nat, tier: Tier)
    requires i < 3
    ensures TierRank(tier) < i + 1 <==> TierRank(tier) < i || tier == TierAt(i)
  {
  }

  lemma OneTierMore(db: Db, before: Db, i: nat, k: Key)
    requires i < 3 && before.(rollups := db.rollups) == db
    requires k in before.rollups <==> k in db.rollups || (TierRank(k.tier) < i && Newest(db, k))
    ensures k in AlwaysTier(before, TierAt(i)).rollups
       <==> k in db.rollups || (TierRank(k.tier) < i + 1 && Newest(db, k))
  {
    NewestFrame(db, before, k);
    AlwaysTierKeys(before, TierAt(i), k);
    RankFrame(i, k.tier);
  }

  lemma {:induction false} AlwaysTiersKeys(db: Db, n: nat, k: Key)
    requires n <= 3
    ensures k in AlwaysTiers(db, n).rollups <==> k in db.rollups || (TierRank(k.tier) < n && Newest(db, k))
  {
    if n == 0 {
    } else {
      AlwaysTiersKeys(db, n - 1, k);
      AlwaysTiersGrow(db, n - 1);
      OneTierMore(db, AlwaysTiers(db, n - 1), n - 1, k);
    }
  }

  /** A check between two bucket edges one bucket apart is in the newest ended bucket. */
  lemma InNewestBucket(t: nat, now: nat, upto: int, tier: Tier)
    requires Aligned(upto, tier) && upto <= t < FloorToBucket(now, tier) <= upto + Width(tier)
    ensures !NotElapsed(now, tier) && FloorToBucket(t, tier) == LastWindow(now, tier)
  {
    FloorAligned(now, tier);
    AlignedStep(upto, tier);
    AlignedGap(FloorToBucket(now, tier), upto, tier);
    assert FloorToBucket(now, tier) == upto + Width(tier);
    FloorUnique(t, tier, upto);
    FloorAligned(t, tier);
    GuardFiresIff(now, tier);
    LastWindowIsNewestElapsed(now, tier);
  }

  lemma CompactExtends(db: Db, tier: Tier, m: string, from: int, upto: int)
    requires CoveredLive(db, tier, m, from, upto)
    requires Aligned(upto, tier) && FloorToBucket(db.now, tier) - upto <= Width(tier)
    ensures CoveredLive(AlwaysTiers(db, 3), tier, m, from, FloorToBucket(db.now, tier))
  {
    var after := AlwaysTiers(db, 3);
    AlwaysTiersGrow(db, 3);
    if m in db.monitors {
      forall c | c in db.raw && c.monitor == m && from <= c.at < FloorToBucket(db.now, tier)
        ensures KeyOf(tier, c) in after.rollups
      {
        if c.at >= upto {
          InNewestBucket(c.at, db.now, upto, tier);
          FloorAligned(c.at, tier);
          InBucketIff(c, KeyOf(tier, c));
          AlwaysTiersKeys(db, 3, KeyOf(tier, c));
        }
      }
    }
  }

  // ---------------------------------------------------------------- other steps keep it

  lemma PurgeKeepsCovered(db: Db, ceiling: int, tier: Tier, m: string, from: int, upto: int)
    requires CoveredLive(db, tier, m, from, upto) && Aligned(from, tier) && !Expired(db, ceiling, m, from)
    ensures CoveredLive(Purge(db, ceiling), tier, m, from, upto)
  {
    var after := Purge(db, ceiling);
    if m in db.monitors {
      forall c | c in after.raw && c.monitor == m && from <= c.at < upto ensures KeyOf(tier, c) in after.rollups {
        FloorAligned(c.at, tier);
        AlignedGap(from, FloorToBucket(c.at, tier), tier);
      }
    }
  }

  /** No step but a purge takes a row away from under a check it leaves, and new checks are stamped
      at or after `upto`. */
  lemma CoveredKept(db: Db, after: Db, tier: Tier, m: string, from: int, upto: int)
    requires CoveredLive(db, tier, m, from, upto)
    requires forall c :: c in after.raw && c.monitor == m && m in after.monitors && c.at < upto ==>
      c in db.raw && m in db.monitors
    requires m in after.monitors && (exists c :: c in after.raw && c.monitor == m) ==>
      forall k :: k in db.rollups && k.monitor == m ==> k in after.rollups
    ensures CoveredLive(after, tier, m, from, upto)
  {
  }

  lemma StepKeepsCovered(db: Db, ev: Event, tier: Tier, m: string, from: int, upto: int)
    requires Valid(db) && Admissible(db, ev) && !ev.Compact?
    requires CoveredLive(db, tier, m, from, upto) && Aligned(from, tier) && upto <= db.now
    requires ev.RunPurge? ==> !Expired(db, ev.ceiling, m, from)
    ensures CoveredLive(StepDb(db, ev), tier, m, from, upto)
  {
    if IsAccountStep(ev) {
      AccountStepFrame(db, ev);
      CoveredKept(db, StepDb(db, ev), tier, m, from, upto);
    } else if ev.RunPurge? {
      PurgeKeepsCovered(db, ev.ceiling, tier, m, from, upto);
    } else if ev.Fill? {
      BackfillGrows(db, ev.tier, FloorToBucket(ev.start, ev.tier), FloorToBucket(ev.end, ev.tier));
      FillFrame(db, ev.tier, FloorToBucket(ev.start, ev.tier), FloorToBucket(ev.end, ev.tier));
      CoveredKept(db, StepDb(db, ev), tier, m, from, upto);
    } else if !ev.Restart? {
      DeletionOrInsertKeepsCovered(db, ev, tier, m, from, upto);
    }
  }

  lemma DeletionOrInsertKeepsCovered(db: Db, ev: Event, tier: Tier, m: string, from: int, upto: int)
    requires CoveredLive(db, tier, m, from, upto) && upto <= db.now
    requires ev.RunArchive? || ev.RemoveMonitor? || ev.RemoveUser? || ev.Save?
    ensures CoveredLive(StepDb(db, ev), tier, m, from, upto)
  {
    match ev
    case RunArchive(days) => CoveredKept(db, Archive(db, days), tier, m, from, upto);
    case RemoveMonitor(id) => CoveredKept(db, DropMonitors(db, {id}), tier, m, from, upto);
    case RemoveUser(u) => CoveredKept(db, DeleteUser(db, u), tier, m, from, upto);
    case Save(_, _, _) => CoveredKept(db, StepDb(db, ev), tier, m, from, upto);
  }

  /** Over any run whose compactions skip no bucket, every check of a live monitor from `from` up to
      the bucket of the newest call has its rollup row. */
  lemma {:induction false} CoverageOverRuns(s: State, evs: seq<Event>, tier: Tier, m: string, from: int, last: nat)
    requires Valid(s.db) && MemoSound(s) && AdmissibleRun(s, evs) && last <= s.db.now
    requires Aligned(from, tier) && CoveredLive(s.db, tier, m, from, FloorToBucket(last, tier))
    requires Punctual(s, evs, tier, m, from, last)
    ensures Valid(Run(s, evs).db) && MemoSound(Run(s, evs))
    ensures LastCall(s, evs, last) <= Run(s, evs).db.now
    ensures CoveredLive(Run(s, evs).db, tier, m, from, FloorToBucket(LastCall(s, evs, last), tier))
  {
    if evs == [] {
    } else {
      var before, ev := evs[..|evs| - 1], evs[|evs| - 1];
      CoverageOverRuns(s, before, tier, m, from, last);
      var mid, call := Run(s, before), LastCall(s, before, last);
      StepValid(mid, ev);
      StepRefines(mid, ev);
      FloorAligned(call, tier);
      if ev.Compact? {
        CompactExtends(mid.db, tier, m, from, FloorToBucket(call, tier));
      } else {
        StepKeepsCovered(mid.db, ev, tier, m, from, FloorToBucket(call, tier));
      }
    }
  }

  /** Then every read within that span whose newest bucket has been compacted equals the raw scan. */
  lemma ReadsAgreeOverRuns(s: State, evs: seq<Event>, tier: Tier, m: string, from: int, last: nat, cutoff: int,
                           col: Column)
    requires Valid(s.db) && MemoSound(s) && AdmissibleRun(s, evs) && last <= s.db.now
    requires Aligned(from, tier) && CoveredLive(s.db, tier, m, from, FloorToBucket(last, tier))
    requires Punctual(s, evs, tier, m, from, last)
    requires m in Run(s, evs).db.monitors && from <= EdgeAtOrAfter(cutoff, tier)
    requires FloorToBucket(LastCall(s, evs, last), tier) == FloorToBucket(Run(s, evs).db.now, tier)
    ensures var db := Run(s, evs).db;
            SumColumn(db, Selected(db, tier, {m}, cutoff), col) ==
            RawCount(db, {m}, EdgeAtOrAfter(cutoff, tier), FloorToBucket(db.now, tier), col)
  {
    CoverageOverRuns(s, evs, tier, m, from, last);
    ReadEqualsRaw(Run(s, evs).db, tier, {m}, cutoff, col);
  }

  // ---------------------------------------------------------------- what a late call loses

  /** Events that may come between two calls: no compaction, and no backfill of the tier. */
  predicate Between(ev: Event, tier: Tier) {
    !ev.Compact? && !(ev.Fill? && ev.tier == tier)
  }

  lemma {:induction false} OtherTierFilled(db: Db, tier: Tier, cursor: int, end: int, k: Key)
    requires k.tier != tier
    ensures k in BackfillFrom(db, tier, cursor, end).rollups <==> k in db.rollups
    decreases end - cursor
  {
    if cursor >= end {
    } else {
      CompactWindowRows(db, tier, cursor, k);
      OtherTierFilled(CompactWindow(db, tier, cursor), tier, cursor + Width(tier), end, k);
    }
  }

  lemma NoRowAppears(db: Db, ev: Event, k: Key)
    requires Between(ev, k.tier) && k !in db.rollups
    ensures k !in StepDb(db, ev).rollups
  {
    if ev.Fill? {
      OtherTierFilled(db, ev.tier, FloorToBucket(ev.start, ev.tier), FloorToBucket(ev.end, ev.tier), k);
    }
  }

  /** From a call at `s.db.now` on, the bucket of that instant has no row until it is compacted. */
  lemma {:induction false} BucketStaysOpen(s: State, evs: seq<Event>, k: Key)
    requires Valid(s.db) && MemoSound(s) && AdmissibleRun(s, evs)
    requires |evs| > 0 && evs[0] == Compact && (forall i :: 0 < i < |evs| ==> Between(evs[i], k.tier))
    requires k.start == FloorToBucket(s.db.now, k.tier)
    ensures Valid(Run(s, evs).db) && MemoSound(Run(s, evs)) && Run(s, evs).db.now >= s.db.now
    ensures k !in Run(s, evs).db.rollups
  {
    var before, ev := evs[..|evs| - 1], evs[|evs| - 1];
    if |evs| == 1 {
      assert before == [];
      StepValid(s, ev);
      StepRefines(s, ev);
      AlwaysTiersKeys(s.db, 3, k);
      FloorAligned(s.db.now, k.tier);
      if !NotElapsed(s.db.now, k.tier) {
        LastWindowIsNewestElapsed(s.db.now, k.tier);
      }
      NewestIsOver(s.db, k);
    } else {
      BucketStaysOpen(s, before, k);
      StepValid(Run(s, before), ev);
      StepRefines(Run(s, before), ev);
      NoRowAppears(Run(s, before).db, ev, k);
    }
  }

  /** The bucket of the clock has neither a row nor a right to one. */
  lemma NewestIsOver(db: Db, k: Key)
    requires Valid(db) && k.start == FloorToBucket(db.now, k.tier)
    ensures k !in db.rollups && !Newest(db, k)
  {
    FloorAligned(db.now, k.tier);
    if !NotElapsed(db.now, k.tier) {
      LastWindowIsNewestElapsed(db.now, k.tier);
    }
  }

  /** Two consecutive calls, at `a` and then at `b` in a later bucket, in any state and with any events
      between them but compactions and backfills of the tier: a check of the bucket of `a`, if it and its
      monitor are still there, is in the rollup table if and only if `b` is in the very next bucket. The
      scheduler's calls are at least 60 s apart, so every gap that is not exactly 60 s drops a minute at
      some phase. */
  lemma LateCallLosesBucketIff(s: State, tier: Tier, c: Check, evs: seq<Event>)
    requires Valid(s.db) && MemoSound(s) && AdmissibleRun(s, evs)
    requires |evs| >= 2 && evs[0] == Compact && evs[|evs| - 1] == Compact
    requires forall i :: 0 < i < |evs| - 1 ==> Between(evs[i], tier)
    requires var mid := Run(s, evs[..|evs| - 1]).db;
             c in mid.raw && c.monitor in mid.monitors &&
             FloorToBucket(c.at, tier) == FloorToBucket(s.db.now, tier) < FloorToBucket(mid.now, tier)
    ensures var b := Run(s, evs[..|evs| - 1]).db.now;
            KeyOf(tier, c) in Run(s, evs).db.rollups <==>
            FloorToBucket(b, tier) - FloorToBucket(s.db.now, tier) == Width(tier)
  {
    var before := evs[..|evs| - 1];
    var mid, k := Run(s, before), KeyOf(tier, c);
    BucketStaysOpen(s, before, k);
    StepRefines(mid, Compact);
    AlwaysTiersKeys(mid.db, 3, k);
    NextBucketOnly(c, s.db.now, mid.db.now, tier);
    assert Newest(mid.db, k) <==> k.start == LastWindow(mid.db.now, tier);
  }

  lemma NextBucketOnly(c: Check, a: nat, b: nat, tier: Tier)
    requires FloorToBucket(c.at, tier) == FloorToBucket(a, tier) < FloorToBucket(b, tier)
    ensures NotElapsed(a, tier) || FloorToBucket(c.at, tier) != LastWindow(a, tier)
    ensures !NotElapsed(b, tier) && LastWindow(b, tier) + Width(tier) == FloorToBucket(b, tier)
    ensures InBucket(c, KeyOf(tier, c))
  {
    FloorAligned(c.at, tier);
    FloorAligned(a, tier);
    FloorAligned(b, tier);
    InBucketIff(c, KeyOf(tier, c));
    if !NotElapsed(a, tier) {
      LastWindowIsNewestElapsed(a, tier);
    }
    GuardFiresIff(b, tier);
    if NotElapsed(b, tier) {
      FloorUnique(b, tier, 0);
    }
    LastWindowIsNewestElapsed(b, tier);
  }
}
