/** How the rollup tiers relate to each other, and how many rows a read touches. */
module Telescope {
  import opened Tables
  import opened Buckets
  import opened Aggregate
  import opened History
  import opened Lockstep
  import opened Readers
  import opened Coverage

  // ---------------------------------------------------------------- tiers add up

  ghost function SpanRows(db: Db, tier: Tier, m: string, lo: int, hi: int): set<Key> {
    set k | k in db.rollups && k.tier == tier && k.monitor == m && lo <= k.start < hi
  }

  /** Over a covered span between two bucket edges, the rows of a tier add up to the raw checks. */
  lemma SpanIsRawCount(db: Db, tier: Tier, m: string, lo: int, hi: int, col: Column)
    requires Valid(db) && Aligned(lo, tier) && Aligned(hi, tier) && Covered(db, tier, {m}, lo, hi)
    ensures SumColumn(db, SpanRows(db, tier, m, lo, hi), col) == RawCount(db, {m}, lo, hi, col)
  {
    var ks := SpanRows(db, tier, m, lo, hi);
    SpanWeighs(db, tier, m, lo, hi, col);
    TierSeparates(db, tier, ks);
    SumIsRawCount(db, ks, c => KeyOf(tier, c), col, InSpan({m}, lo, hi, col));
  }

  lemma SpanWeighs(db: Db, tier: Tier, m: string, lo: int, hi: int, col: Column)
    requires Aligned(lo, tier) && Aligned(hi, tier) && Covered(db, tier, {m}, lo, hi)
    ensures var ks := SpanRows(db, tier, m, lo, hi);
            forall c :: c in db.raw ==>
              InSpan({m}, lo, hi, col)(c) == if KeyOf(tier, c) in ks then Counted(c, col) else 0
  {
    forall c | c in db.raw
      ensures KeyOf(tier, c) in SpanRows(db, tier, m, lo, hi) <==> c.monitor == m && lo <= c.at < hi
    {
      SpanMember(db, tier, m, lo, hi, c);
    }
  }

  lemma SpanMember(db: Db, tier: Tier, m: string, lo: int, hi: int, c: Check)
    requires Aligned(lo, tier) && Aligned(hi, tier) && Covered(db, tier, {m}, lo, hi) && c in db.raw
    ensures KeyOf(tier, c) in SpanRows(db, tier, m, lo, hi) <==> c.monitor == m && lo <= c.at < hi
  {
    var f := FloorToBucket(c.at, tier);
    FloorAligned(c.at, tier);
    AlignedGap(lo, f, tier);
    AlignedGap(hi, f, tier);
  }

  /** Tier telescoping: where both tiers are covered, a coarse row counts what its finer rows count
      together (a missing row counts zero), column by column. */
  lemma CoarseRowIsSumOfFineRows(db: Db, fine: Tier, coarse: Tier, m: string, start: int, col: Column)
    requires Valid(db) && Refines(fine, coarse) && Aligned(start, coarse)
    requires Covered(db, fine, {m}, start, start + Width(coarse))
    requires Covered(db, coarse, {m}, start, start + Width(coarse))
    ensures var k := Key(coarse, m, start);
            (if k in db.rollups then CountOf(db.rollups[k], col) else 0) ==
            SumColumn(db, SpanRows(db, fine, m, start, start + Width(coarse)), col)
  {
    var end := start + Width(coarse);
    var k := Key(coarse, m, start);
    AlignedStep(start, coarse);
    AlignedToFiner(start, fine, coarse);
    AlignedToFiner(end, fine, coarse);
    SpanIsRawCount(db, fine, m, start, end, col);
    SpanIsRawCount(db, coarse, m, start, end, col);
    OneBucketSpan(db, coarse, m, start, col);
  }

  lemma OneBucketSpan(db: Db, tier: Tier, m: string, start: int, col: Column)
    requires Valid(db) && Aligned(start, tier)
    ensures var k := Key(tier, m, start);
            SumColumn(db, SpanRows(db, tier, m, start, start + Width(tier)), col) ==
            if k in db.rollups then CountOf(db.rollups[k], col) else 0
  {
    var k := Key(tier, m, start);
    var ks := SpanRows(db, tier, m, start, start + Width(tier));
    forall j | j in ks ensures j == k {
      AlignedGap(j.start, start, tier);
    }
    if k in db.rollups {
      assert ks == {k};
      SumRemove(ks, ColumnOf(db, col), k);
      assert ks - {k} == {};
    } else {
      assert ks == {};
    }
  }

  // ---------------------------------------------------------------- rows touched by a read

  /** Rows of one monitor and tier, at bucket edges in [lo, hi), number at most one per bucket. */
  lemma {:induction false} RowsInSpan(ks: set<Key>, tier: Tier, m: string, lo: int, hi: int)
    requires forall k :: k in ks ==> k.tier == tier && k.monitor == m && lo <= k.start < hi && Aligned(k.start, tier)
    ensures ks != {} ==> (|ks| - 1) * Width(tier) < hi - lo
    decreases |ks|
  {
    if ks == {} {
    } else {
      var last := LatestKey(ks);
      var rest := ks - {last};
      forall k | k in rest ensures k.start < last.start - Width(tier) + 1 {
        AlignedStep(last.start, tier);
        AlignedGap(k.start, last.start - Width(tier), tier);
        DistinctStarts(k, last, tier);
      }
      RowsInSpan(rest, tier, m, lo, last.start - Width(tier) + 1);
      assert |rest| == |ks| - 1;
      if rest != {} {
        assert (|ks| - 1) * Width(tier) == (|rest| - 1) * Width(tier) + Width(tier);
      } else {
        assert |ks| == 1;
      }
    }
  }

  lemma DistinctStarts(k: Key, last: Key, tier: Tier)
    requires k.tier == last.tier == tier && k.monitor == last.monitor && k != last && k.start <= last.start
    requires Aligned(k.start, tier) && Aligned(last.start, tier)
    ensures k.start <= last.start - Width(tier)
  {
    AlignedGap(last.start, k.start, tier);
  }

  lemma {:induction false} LatestKey(ks: set<Key>) returns (last: Key)
    requires ks != {}
    ensures last in ks && forall k :: k in ks ==> k.start <= last.start
    decreases |ks|
  {
    var k :| k in ks;
    if ks == {k} {
      last := k;
    } else {
      var rest := ks - {k};
      assert |rest| == |ks| - 1;
      assert rest != {};
      var l := LatestKey(rest);
      last := if k.start > l.start then k else l;
      assert forall j :: j in ks ==> j == k || j in rest;
    }
  }

  /** A rollup read of one monitor touches at most one row for each whole bucket in its window. */
  lemma ReadTouchesFewRows(db: Db, tier: Tier, m: string, window: nat)
    requires Valid(db)
    ensures |Selected(db, tier, {m}, db.now - window)| * Width(tier) <= window
  {
    var ks := Selected(db, tier, {m}, db.now - window);
    SelectedInSpan(db, tier, m, db.now - window);
    RowsInSpan(ks, tier, m, db.now - window, db.now - Width(tier) + 1);
    if ks != {} {
      WholeBuckets(|ks|, Width(tier), window);
    }
  }

  lemma SelectedInSpan(db: Db, tier: Tier, m: string, cutoff: int)
    requires Valid(db)
    ensures forall k :: k in Selected(db, tier, {m}, cutoff) ==>
      k.tier == tier && k.monitor == m && cutoff <= k.start < db.now - Width(tier) + 1 && Aligned(k.start, tier)
  {
  }

  lemma WholeBuckets(n: nat, w: int, span: int)
    requires n > 0 && (n - 1) * w < span - w + 1
    ensures n * w <= span
  {
    assert (n - 1) * w == n * w - w;
  }

  /** With the tier that `pick_tier` chooses, a window of up to a year is answered from at most 8760
      rows of one monitor, and a window below a week from fewer than 2016. */
  lemma DashboardReadIsBounded(db: Db, m: string, window: nat)
    requires Valid(db) && window <= 365 * DAY && PickTier(window).Rollup?
    ensures var rows := |Selected(db, PickTier(window).tier, {m}, db.now - window)|;
            rows <= 8760 && (window < 7 * DAY ==> rows < 2016) && (window < DAY ==> rows < 1440)
  {
    ReadTouchesFewRows(db, PickTier(window).tier, m, window);
    BucketsInWindow(|Selected(db, PickTier(window).tier, {m}, db.now - window)|, window);
  }

  lemma BucketsInWindow(n: nat, window: nat)
    requires window <= 365 * DAY && PickTier(window).Rollup? && n * Width(PickTier(window).tier) <= window
    ensures n <= 8760 && (window < 7 * DAY ==> n < 2016) && (window < DAY ==> n < 1440)
  {
    match PickTier(window).tier
    case M1 => assert n * 60_000_000 <= window;
    case M5 => assert n * 300_000_000 <= window;
    case H1 => assert n * 3_600_000_000 <= window;
  }
}
