/** What a backfill leaves, without the loop that does it. */
module Backfills {
  import opened Tables
  import opened Buckets
  import opened Aggregate
  import opened History
  import opened Lockstep
  import opened Readers
  import opened Coverage

  /** Rows a backfill of [lo, hi) has to write: at a bucket edge, for a live monitor with a check in the bucket. */
  predicate Wanted(db: Db, tier: Tier, lo: int, hi: int, k: Key) {
    && k.tier == tier && Aligned(k.start, tier) && lo <= k.start < hi
    && k.monitor in db.monitors && Bucket(db.raw, k) != []
  }

  /** The tables after it: each of those rows is the summary of its bucket, every other row is as it was. */
  ghost predicate Filled(db: Db, after: Db, tier: Tier, lo: int, hi: int) {
    && after == db.(rollups := after.rollups)
    && forall k :: if Wanted(db, tier, lo, hi, k)
                   then k in after.rollups && Summarize(Bucket(db.raw, k)) == Some(after.rollups[k])
                   else SameRow(db, after, k)
  }

  predicate SameRow(db: Db, after: Db, k: Key) {
    (k in after.rollups <==> k in db.rollups) && (k in db.rollups ==> after.rollups[k] == db.rollups[k])
  }

  /** One bucket more, ahead of the rest. */
  lemma WantedSplits(db: Db, tier: Tier, lo: int, hi: int, k: Key)
    requires Aligned(lo, tier) && lo < hi
    ensures Wanted(db, tier, lo, hi, k) <==>
            Wanted(db, tier, lo + Width(tier), hi, k) || (k.start == lo && Wanted(db, tier, lo, hi, k))
  {
    if Aligned(k.start, tier) && lo < k.start {
      AlignedStep(lo, tier);
      AlignedGap(k.start, lo, tier);
      AlignedGap(lo + Width(tier), k.start, tier);
    }
  }

  lemma {:induction false} FillsFrom(db: Db, tier: Tier, lo: int, hi: int)
    requires Aligned(lo, tier) && Aligned(hi, tier)
    ensures Filled(db, BackfillFrom(db, tier, lo, hi), tier, lo, hi)
    decreases hi - lo
  {
    if lo >= hi {
    } else {
      var mid, after := CompactWindow(db, tier, lo), BackfillFrom(db, tier, lo, hi);
      NextEdge(lo, hi, tier);
      FillsFrom(mid, tier, lo + Width(tier), hi);
      forall k
        ensures if Wanted(db, tier, lo, hi, k)
                then k in after.rollups && Summarize(Bucket(db.raw, k)) == Some(after.rollups[k])
                else SameRow(db, after, k)
      {
        CompactWindowRows(db, tier, lo, k);
        WantedSplits(db, tier, lo, hi, k);
        assert Wanted(mid, tier, lo + Width(tier), hi, k) == Wanted(db, tier, lo + Width(tier), hi, k);
      }
    }
  }

  /** A backfill recomputes every bucket from the one of its start up to the one of its end. */
  lemma BackfillFills(db: Db, tier: Tier, start: int, end: int)
    ensures Filled(db, Backfill(db, tier, start, end), tier, FloorToBucket(start, tier), FloorToBucket(end, tier))
  {
    FloorAligned(start, tier);
    FloorAligned(end, tier);
    FillsFrom(db, tier, FloorToBucket(start, tier), FloorToBucket(end, tier));
  }

  /** So afterwards no check of a live monitor in that span is missing from the tier. */
  lemma BackfillCovers(db: Db, tier: Tier, start: int, end: int)
    ensures Covered(Backfill(db, tier, start, end), tier, db.monitors.Keys, FloorToBucket(start, tier),
                    FloorToBucket(end, tier))
  {
    var after := Backfill(db, tier, start, end);
    var lo, hi := FloorToBucket(start, tier), FloorToBucket(end, tier);
    BackfillFills(db, tier, start, end);
    forall c | c in after.raw && c.monitor in db.monitors && lo <= c.at < hi ensures KeyOf(tier, c) in after.rollups {
      var k := KeyOf(tier, c);
      FloorAligned(start, tier);
      FloorAligned(end, tier);
      FloorAligned(c.at, tier);
      AlignedGap(lo, k.start, tier);
      InBucketIff(c, k);
      BucketNonEmptyIff(db.raw, k);
      assert Wanted(db, tier, lo, hi, k);
    }
  }

  // ---------------------------------------------------------------- how many rows

  /** The rows that have to be written. */
  ghost function WantedKeys(db: Db, tier: Tier, lo: int, hi: int): (ks: set<Key>)
    ensures forall k :: k in ks <==> Wanted(db, tier, lo, hi, k)
  {
    var ks := set c | c in db.raw && Wanted(db, tier, lo, hi, KeyOf(tier, c)) :: KeyOf(tier, c);
    assert forall k :: k in ks <==> Wanted(db, tier, lo, hi, k) by {
      forall k | Wanted(db, tier, lo, hi, k) ensures k in ks {
        BucketNonEmptyIff(db.raw, k);
        var c :| c in db.raw && InBucket(c, k);
        InBucketIff(c, k);
      }
    }
    ks
  }

  /** What the loop of `backfill` adds up: per bucket, one for each live monitor with a check in it. */
  function RowsWritten(db: Db, tier: Tier, cursor: int, end: int): nat
    decreases end - cursor
  {
    if cursor >= end then 0
    else
      |MonitorsInWindow(db, tier, FloorToBucket(cursor, tier))| + RowsWritten(db, tier, cursor + Width(tier), end)
  }

  function KeysAt(tier: Tier, ms: set<string>, start: int): set<Key> {
    set m | m in ms :: Key(tier, m, start)
  }

  lemma {:induction false} KeysAtCount(tier: Tier, ms: set<string>, start: int)
    ensures |KeysAt(tier, ms, start)| == |ms|
    decreases ms
  {
    if ms == {} {
    } else {
      var m :| m in ms;
      KeysAtCount(tier, ms - {m}, start);
      assert KeysAt(tier, ms, start) == KeysAt(tier, ms - {m}, start) + {Key(tier, m, start)};
    }
  }

  lemma WantedInTurn(db: Db, tier: Tier, lo: int, hi: int)
    requires Aligned(lo, tier) && lo < hi
    ensures WantedKeys(db, tier, lo, hi)
         == KeysAt(tier, MonitorsInWindow(db, tier, lo), lo) + WantedKeys(db, tier, lo + Width(tier), hi)
    ensures KeysAt(tier, MonitorsInWindow(db, tier, lo), lo) !! WantedKeys(db, tier, lo + Width(tier), hi)
  {
    forall k
      ensures Wanted(db, tier, lo, hi, k) <==>
              k in KeysAt(tier, MonitorsInWindow(db, tier, lo), lo) || Wanted(db, tier, lo + Width(tier), hi, k)
    {
      WantedSplits(db, tier, lo, hi, k);
      InWindowIff(db, tier, k.monitor, lo);
    }
  }

  /** The total is the number of those rows. */
  lemma {:induction false} TotalIsWanted(db: Db, tier: Tier, lo: int, hi: int)
    requires Aligned(lo, tier) && Aligned(hi, tier)
    ensures RowsWritten(db, tier, lo, hi) == |WantedKeys(db, tier, lo, hi)|
    decreases hi - lo
  {
    if lo >= hi {
      assert WantedKeys(db, tier, lo, hi) == {};
    } else {
      NextEdge(lo, hi, tier);
      TotalIsWanted(db, tier, lo + Width(tier), hi);
      WantedInTurn(db, tier, lo, hi);
      KeysAtCount(tier, MonitorsInWindow(db, tier, lo), lo);
    }
  }

  /** Both together, for the method that runs the loop. */
  lemma BackfillDoes(db: Db, tier: Tier, start: int, end: int)
    ensures var lo, hi := FloorToBucket(start, tier), FloorToBucket(end, tier);
            && Filled(db, Backfill(db, tier, start, end), tier, lo, hi)
            && RowsWritten(db, tier, lo, hi) == |WantedKeys(db, tier, lo, hi)|
  {
    BackfillFills(db, tier, start, end);
    FloorAligned(start, tier);
    FloorAligned(end, tier);
    TotalIsWanted(db, tier, FloorToBucket(start, tier), FloorToBucket(end, tier));
  }
}
