/** The two dashboard reads themselves, `get_monitor_window_stats` and `count_user_checks_in_window`, against
    the raw history. */
module WindowReads {
  import opened Tables
  import opened Buckets
  import opened Aggregate
  import opened History
  import opened Lockstep
  import opened Readers
  import opened Coverage
  import opened LatencyStats
  import opened NullLatencies
  import opened Percentiles

  function CountIn(st: Stats, col: Column): int {
    match col
    case Checks => st.checks
    case Oks => st.ok
    case Fails => st.fail
  }

  function SpanChecks(db: Db, m: string, lo: int, hi: int): seq<Check> {
    Where(db.raw, (c: Check) => c.monitor == m && lo <= c.at < hi)
  }

  // ---------------------------------------------------------------- counts

  lemma RawReadCounts(db: Db, ms: set<string>, cutoff: int, col: Column, p: Check -> bool)
    requires Valid(db)
    requires forall c :: c in db.raw ==> p(c) == (c.monitor in ms && c.at >= cutoff && Counted(c, col) == 1)
    ensures |Where(db.raw, p)| == RawCount(db, ms, cutoff, db.now + 1, col)
  {
    WeighCounts(db.raw, p, InSpan(ms, cutoff, db.now + 1, col));
  }

  lemma RawStatsAreRawCounts(db: Db, m: string, cutoff: int, col: Column)
    requires Valid(db)
    ensures CountIn(RawStats(db, m, cutoff), col) == RawCount(db, {m}, cutoff, db.now + 1, col)
  {
    var q := (c: Check) => c.monitor == m && c.at >= cutoff;
    match col
    case Checks => RawReadCounts(db, {m}, cutoff, col, q);
    case Oks =>
      FilterTwice(db.raw, q, IsUp, c => q(c) && IsUp(c));
      RawReadCounts(db, {m}, cutoff, col, c => q(c) && IsUp(c));
    case Fails =>
      FilterTwice(db.raw, q, IsNotUp, c => q(c) && IsNotUp(c));
      RawReadCounts(db, {m}, cutoff, col, c => q(c) && IsNotUp(c));
  }

  /** In every reachable state and for every window, no count exceeds what a raw scan of the window finds; the
      raw tier reports exactly that. */
  lemma WindowNeverExceedsRaw(db: Db, m: string, window: int, cutoff: int, col: Column, st: Stats)
    requires Valid(db) && cutoff == Cutoff(db, window) && st == WindowStats(db, m, window)
    ensures CountIn(st, col) <= RawCount(db, {m}, cutoff, db.now + 1, col)
    ensures PickTier(window) == Raw ==> CountIn(st, col) == RawCount(db, {m}, cutoff, db.now + 1, col)
  {
    match PickTier(window)
    case Raw => RawStatsAreRawCounts(db, m, cutoff, col);
    case Rollup(tier) => ReadNeverExceedsRaw(db, tier, {m}, cutoff, col);
  }

  /** In particular every window below an hour is answered exactly, whatever the rollups hold. */
  lemma ShortWindowIsExact(db: Db, m: string, window: int, cutoff: int, col: Column, st: Stats)
    requires Valid(db) && window < 3_600_000_000 && cutoff == Cutoff(db, window) && st == WindowStats(db, m, window)
    ensures st.source == Raw && CountIn(st, col) == RawCount(db, {m}, cutoff, db.now + 1, col)
    ensures var rows := SpanChecks(db, m, cutoff, db.now + 1);
            LatenciesAre(rows, st.avg, st.low, st.high)
  {
    TierIsFinestAffordable(window);
    RawStatsAreRawCounts(db, m, cutoff, col);
    WhereAgree(db.raw, (c: Check) => c.monitor == m && c.at >= cutoff,
               (c: Check) => c.monitor == m && cutoff <= c.at < db.now + 1);
    RawLatencies(db, m, cutoff);
  }

  /** The mean, the least and the greatest of the latencies that are there. */
  ghost predicate LatenciesAre(rows: seq<Check>, avg: Option<real>, low: Option<int>, high: Option<int>) {
    MeanIs(rows, avg) && ExtremesAre(rows, low, high)
  }

  ghost predicate MeanIs(rows: seq<Check>, avg: Option<real>) {
    avg == if Where(rows, Timed) == [] then None else Some(Mean(Weigh(rows, LatencyOf), |Where(rows, Timed)|))
  }

  ghost predicate ExtremesAre(rows: seq<Check>, low: Option<int>, high: Option<int>) {
    && (low == None <==> Where(rows, Timed) == []) && (high == None <==> Where(rows, Timed) == [])
    && (low.Some? ==> HasLatency(rows, low.value)) && (high.Some? ==> HasLatency(rows, high.value))
    && forall v :: HasLatency(rows, v) ==> low.Some? && high.Some? && low.value <= v <= high.value
  }

  lemma MeanOfRows(rows: seq<Check>)
    ensures var ls := Latencies(rows); MeanIs(rows, if ls == [] then None else Some(Mean(Sum(ls), |ls|)))
  {
    SumOfLatencies(rows, LatencyOf);
    assert Latencies(rows) == [] <==> Where(rows, Timed) == [];
  }

  lemma ExtremesOfRows(rows: seq<Check>)
    ensures var ls := set v | v in Latencies(rows); ExtremesAre(rows, Least(ls), Greatest(ls))
  {
    var ls := set v | v in Latencies(rows);
    forall v ensures v in ls <==> HasLatency(rows, v) {
      LatencyMembers(rows, v);
    }
    if Latencies(rows) != [] {
      assert Latencies(rows)[0] in ls;
    }
  }

  lemma RawLatencies(db: Db, m: string, cutoff: int)
    ensures var rows, st := Where(db.raw, (c: Check) => c.monitor == m && c.at >= cutoff), RawStats(db, m, cutoff);
            LatenciesAre(rows, st.avg, st.low, st.high)
  {
    var rows := Where(db.raw, (c: Check) => c.monitor == m && c.at >= cutoff);
    MeanOfRows(rows);
    ExtremesOfRows(rows);
  }

  /** The span a rollup read since `cutoff` answers for: the whole buckets from there to the clock. */
  predicate Span(db: Db, tier: Tier, cutoff: int, lo: int, hi: int) {
    lo == EdgeAtOrAfter(cutoff, tier) && hi == FloorToBucket(db.now, tier)
  }

  /** `st` is the read of a window answered from a tier. */
  ghost predicate TierWindow(db: Db, m: string, window: int, tier: Tier, cutoff: int, st: Stats) {
    PickTier(window) == Rollup(tier) && cutoff == Cutoff(db, window) && st == WindowStats(db, m, window)
  }

  /** The check count of a rollup window is the raw count of its whole buckets exactly when they are covered,
      and the other counts follow. */
  lemma WindowEqualsRawIff(db: Db, m: string, window: int, tier: Tier, cutoff: int, lo: int, hi: int, col: Column,
                           st: Stats)
    requires Valid(db) && TierWindow(db, m, window, tier, cutoff, st) && Span(db, tier, cutoff, lo, hi)
    ensures Covered(db, tier, {m}, lo, hi) <==> st.checks == RawCount(db, {m}, lo, hi, Checks)
    ensures Covered(db, tier, {m}, lo, hi) ==> CountIn(st, col) == RawCount(db, {m}, lo, hi, col)
  {
    if Covered(db, tier, {m}, lo, hi) {
      ReadEqualsRaw(db, tier, {m}, cutoff, Checks);
      ReadEqualsRaw(db, tier, {m}, cutoff, col);
    } else {
      ReadMissesRaw(db, tier, {m}, cutoff);
    }
  }

  /** The monitors of a user, paused or not. */
  ghost predicate AllOf(db: Db, user: string, ms: set<string>) {
    forall m :: m in ms <==> m in db.monitors && db.monitors[m].owner == user
  }

  /** The tile of a user: never more than the raw scan over all monitors of that user, and equal to it on the
      whole buckets of the window exactly when those are covered. */
  lemma UserChecksAgainstRaw(db: Db, user: string, ms: set<string>, window: int, cutoff: int)
    requires Valid(db) && AllOf(db, user, ms) && cutoff == Cutoff(db, window)
    ensures UserChecks(db, user, window) <= RawCount(db, ms, cutoff, db.now + 1, Checks)
    ensures match PickTier(window)
            case Raw => UserChecks(db, user, window) == RawCount(db, ms, cutoff, db.now + 1, Checks)
            case Rollup(tier) =>
              var lo, hi := EdgeAtOrAfter(cutoff, tier), FloorToBucket(db.now, tier);
              Covered(db, tier, ms, lo, hi) <==> UserChecks(db, user, window) == RawCount(db, ms, lo, hi, Checks)
  {
    assert ms == OwnedBy(db, user);
    match PickTier(window)
    case Raw =>
      var p := (c: Check) => c.monitor in ms && c.at >= cutoff;
      RawReadCounts(db, ms, cutoff, Checks, p);
      WhereAgree(db.raw, p, (c: Check) => c.monitor in OwnedBy(db, user) && c.at >= cutoff);
    case Rollup(tier) =>
      ReadNeverExceedsRaw(db, tier, ms, cutoff, Checks);
      ReadEqualsRawIff(db, tier, ms, cutoff);
  }

  lemma ShortTileIsExact(db: Db, user: string, ms: set<string>, window: int, cutoff: int)
    requires Valid(db) && window < 3_600_000_000 && AllOf(db, user, ms) && cutoff == Cutoff(db, window)
    ensures UserChecks(db, user, window) == RawCount(db, ms, cutoff, db.now + 1, Checks)
  {
    TierIsFinestAffordable(window);
    UserChecksAgainstRaw(db, user, ms, window, cutoff);
  }

  /** The whole buckets that a rollup read answers for leave out less than a thirtieth of its window. */
  lemma SpanIsMostOfWindow(db: Db, m: string, window: int, tier: Tier, cutoff: int, lo: int, hi: int, st: Stats)
    requires TierWindow(db, m, window, tier, cutoff, st) && Span(db, tier, cutoff, lo, hi)
    ensures st.source == Rollup(tier) && cutoff <= lo && hi <= db.now && 30 * (hi - lo) > 29 * window
  {
    TierIsFinestAffordable(window);
    FloorAligned(db.now, tier);
  }

  // ---------------------------------------------------------------- latencies

  lemma SelectedSpanIff(db: Db, m: string, cutoff: int, lo: int, hi: int, tier: Tier, c: Check)
    requires Valid(db) && Span(db, tier, cutoff, lo, hi)
    requires Covered(db, tier, {m}, lo, hi) && c in db.raw
    ensures KeyOf(tier, c) in Selected(db, tier, {m}, cutoff) <==> c.monitor == m && lo <= c.at < hi
  {
    SelectedIff(db, tier, {m}, cutoff, c);
    CoveredCheck(db, m, lo, hi, tier, c);
  }

  lemma CoveredCheck(db: Db, m: string, lo: int, hi: int, tier: Tier, c: Check)
    requires Covered(db, tier, {m}, lo, hi) && c in db.raw
    ensures c.monitor == m && lo <= c.at < hi ==> KeyOf(tier, c) in db.rollups
  {
  }

  lemma SelectedAreTierRows(db: Db, tier: Tier, ms: set<string>, cutoff: int)
    requires Valid(db)
    ensures TierRows(db, tier, Selected(db, tier, ms, cutoff))
  {
  }

  lemma RowsAreSpan(db: Db, m: string, lo: int, hi: int, tier: Tier, ks: set<Key>)
    requires forall c :: c in db.raw ==> (KeyOf(tier, c) in ks <==> c.monitor == m && lo <= c.at < hi)
    ensures Rows(db, tier, ks) == SpanChecks(db, m, lo, hi)
  {
    var p := (c: Check) => KeyOf(tier, c) in ks;
    RowsAreWhere(db, tier, ks, p);
    WhereAgree(db.raw, p, (c: Check) => c.monitor == m && lo <= c.at < hi);
  }

  /** The rows of a covered window summarise the raw checks of its whole buckets. */
  lemma RowsOfWindow(db: Db, m: string, cutoff: int, lo: int, hi: int, tier: Tier, ks: set<Key>)
    requires Valid(db) && Span(db, tier, cutoff, lo, hi)
    requires Covered(db, tier, {m}, lo, hi) && ks == Selected(db, tier, {m}, cutoff)
    ensures TierRows(db, tier, ks) && Rows(db, tier, ks) == SpanChecks(db, m, lo, hi)
  {
    SelectedAreTierRows(db, tier, {m}, cutoff);
    forall c | c in db.raw ensures KeyOf(tier, c) in ks <==> c.monitor == m && lo <= c.at < hi {
      SelectedSpanIff(db, m, cutoff, lo, hi, tier, c);
    }
    RowsAreSpan(db, m, lo, hi, tier, ks);
  }

  /** The average of a covered window is the mean of the raw latencies of its whole buckets whenever every row
      holds its share of the latencies. */
  lemma WindowAverageIsMean(db: Db, m: string, window: int, tier: Tier, cutoff: int, lo: int, hi: int,
                            st: Stats)
    requires Valid(db) && TierWindow(db, m, window, tier, cutoff, st) && Span(db, tier, cutoff, lo, hi)
    requires Covered(db, tier, {m}, lo, hi)
    requires Even(db, tier, Selected(db, tier, {m}, cutoff))
    ensures var ls := Latencies(SpanChecks(db, m, lo, hi));
            st.avg == if ls == [] then None else Some(Mean(Sum(ls), |ls|))
  {
    var ks := Selected(db, tier, {m}, cutoff);
    RowsOfWindow(db, m, cutoff, lo, hi, tier, ks);
    EvenRowsAverageRight(db, tier, ks);
  }

  lemma TimedRowsAreEven(db: Db, tier: Tier, ks: set<Key>)
    requires TierRows(db, tier, ks) && forall c :: c in Rows(db, tier, ks) ==> Timed(c)
    ensures Even(db, tier, ks)
  {
    AllTimed(Rows(db, tier, ks));
    forall k | k in ks ensures |LatenciesIn(db.raw, k)| == |Bucket(db.raw, k)| {
      forall c | c in Bucket(db.raw, k) ensures Timed(c) {
        InBucketIff(c, k);
        assert TierKey(tier)(c) == k;
        assert c in Rows(db, tier, ks);
      }
      AllTimed(Bucket(db.raw, k));
    }
  }

  /** In particular when no check of the span lacks its latency. */
  lemma TimedWindowAverage(db: Db, m: string, window: int, tier: Tier, cutoff: int, lo: int, hi: int,
                           st: Stats)
    requires Valid(db) && TierWindow(db, m, window, tier, cutoff, st) && Span(db, tier, cutoff, lo, hi)
    requires Covered(db, tier, {m}, lo, hi)
    requires forall c :: c in SpanChecks(db, m, lo, hi) ==> Timed(c)
    ensures var rows := SpanChecks(db, m, lo, hi);
            st.avg == if rows == [] then None else Some(Mean(Sum(Latencies(rows)), |rows|))
  {
    var ks := Selected(db, tier, {m}, cutoff);
    RowsOfWindow(db, m, cutoff, lo, hi, tier, ks);
    TimedRowsAreEven(db, tier, ks);
    AllTimed(Rows(db, tier, ks));
    WindowAverageIsMean(db, m, window, tier, cutoff, lo, hi, st);
  }

  /** The reported low and high of a covered window with a latency lie, in that order, inside the true extremes
      of its whole buckets. */
  lemma WindowExtremesAreInside(db: Db, m: string, window: int, tier: Tier, cutoff: int, lo: int, hi: int,
                                st: Stats)
    requires Valid(db) && TierWindow(db, m, window, tier, cutoff, st) && Span(db, tier, cutoff, lo, hi)
    requires Covered(db, tier, {m}, lo, hi)
    requires exists c :: c in SpanChecks(db, m, lo, hi) && Timed(c)
    ensures var ls := Latencies(SpanChecks(db, m, lo, hi));
            && st.low.Some? && st.high.Some? && st.low.value <= st.high.value
            && st.low.value in ls && st.high.value in ls
  {
    var ks := Selected(db, tier, {m}, cutoff);
    RowsOfWindow(db, m, cutoff, lo, hi, tier, ks);
    TierKeySeparates(db, tier, ks);
    ExtremesAreInside(db, TierKey(tier), ks);
  }

  /** Exactly: the low is the least median, and the high the greatest 99th percentile, of the raw checks in the
      buckets of the rows read. */
  lemma WindowExtremesAreRanks(db: Db, m: string, window: int, tier: Tier, cutoff: int, st: Stats)
    requires Valid(db) && TierWindow(db, m, window, tier, cutoff, st)
    ensures var ks := Selected(db, tier, {m}, cutoff);
            IsLeast(ks, RanksAt(db, 50), st.low) && IsGreatest(ks, RanksAt(db, 99), st.high)
  {
    var ks := Selected(db, tier, {m}, cutoff);
    LowIsRank(db, ks);
    HighIsRank(db, ks);
  }

  /** Which value is the rank of which bucket. */
  ghost function RanksAt(db: Db, pct: int): (Key, int) -> bool {
    (k, v) => RankIn(Bucket(db.raw, k), pct, v)
  }

  ghost predicate IsLeast(ks: set<Key>, rank: (Key, int) -> bool, low: Option<int>) {
    && (low.Some? ==> exists k :: k in ks && rank(k, low.value))
    && forall k, v :: k in ks && rank(k, v) ==> low.Some? && low.value <= v
  }

  ghost predicate IsGreatest(ks: set<Key>, rank: (Key, int) -> bool, high: Option<int>) {
    && (high.Some? ==> exists k :: k in ks && rank(k, high.value))
    && forall k, v :: k in ks && rank(k, v) ==> high.Some? && v <= high.value
  }

  /** A bucket has one rank at a percentage: the column of its row. */
  lemma RankIsColumn(rows: seq<Check>, pct: int, column: Option<int>, v: int)
    requires ColumnIs(rows, pct, column)
    ensures RankIn(rows, pct, v) <==> column == Some(v)
  {
    if RankIn(rows, pct, v) {
      var c :| c in rows && c.latency == Some(v);
      assert Timed(c);
    }
  }

  lemma MedianIs(db: Db, k: Key, v: int)
    requires Fresh(db) && k in db.rollups
    ensures RanksAt(db, 50)(k, v) <==> db.rollups[k].p50 == Some(v)
  {
    StoredPercentiles(db, k);
    RankIsColumn(Bucket(db.raw, k), 50, db.rollups[k].p50, v);
  }

  lemma TopIs(db: Db, k: Key, v: int)
    requires Fresh(db) && k in db.rollups
    ensures RanksAt(db, 99)(k, v) <==> db.rollups[k].p99 == Some(v)
  {
    StoredPercentiles(db, k);
    RankIsColumn(Bucket(db.raw, k), 99, db.rollups[k].p99, v);
  }

  lemma LeastOfColumn(rows: map<Key, Row>, ks: set<Key>, rank: (Key, int) -> bool)
    requires ks <= rows.Keys && forall k, v :: k in ks ==> (rank(k, v) <==> rows[k].p50 == Some(v))
    ensures IsLeast(ks, rank, Least(set k | k in ks && rows[k].p50.Some? :: rows[k].p50.value))
  {
    var s := set k | k in ks && rows[k].p50.Some? :: rows[k].p50.value;
    forall k, v | k in ks && rank(k, v) ensures v in s {
      assert rows[k].p50.value in s;
    }
  }

  lemma GreatestOfColumn(rows: map<Key, Row>, ks: set<Key>, rank: (Key, int) -> bool)
    requires ks <= rows.Keys && forall k, v :: k in ks ==> (rank(k, v) <==> rows[k].p99 == Some(v))
    ensures IsGreatest(ks, rank, Greatest(set k | k in ks && rows[k].p99.Some? :: rows[k].p99.value))
  {
    var s := set k | k in ks && rows[k].p99.Some? :: rows[k].p99.value;
    forall k, v | k in ks && rank(k, v) ensures v in s {
      assert rows[k].p99.value in s;
    }
  }

  lemma LowIsRank(db: Db, ks: set<Key>)
    requires Fresh(db) && ks <= db.rollups.Keys
    ensures IsLeast(ks, RanksAt(db, 50), LowLatency(db, ks))
  {
    forall k, v | k in ks ensures RanksAt(db, 50)(k, v) <==> db.rollups[k].p50 == Some(v) {
      MedianIs(db, k, v);
    }
    LeastOfColumn(db.rollups, ks, RanksAt(db, 50));
  }

  lemma HighIsRank(db: Db, ks: set<Key>)
    requires Fresh(db) && ks <= db.rollups.Keys
    ensures IsGreatest(ks, RanksAt(db, 99), HighLatency(db, ks))
  {
    forall k, v | k in ks ensures RanksAt(db, 99)(k, v) <==> db.rollups[k].p99 == Some(v) {
      TopIs(db, k, v);
    }
    GreatestOfColumn(db.rollups, ks, RanksAt(db, 99));
  }
}
