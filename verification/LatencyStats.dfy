/** What the average and the extremes of a rollup read say about the raw latencies. */
module LatencyStats {
  import opened Tables
  import opened Buckets
  import opened Aggregate
  import opened History
  import opened Lockstep
  import opened Readers

  /** The raw checks that the rows `ks` summarise. */
  ghost function ChecksOf(db: Db, key: Check -> Key, ks: set<Key>): seq<Check> {
    Where(db.raw, c => key(c) in ks)
  }

  function LatencyOf(c: Check): int {
    if c.latency.Some? then c.latency.value else 0
  }

  lemma {:induction false} SumOfLatencies(rows: seq<Check>, w: Check -> int)
    requires forall c :: c in rows ==> w(c) == LatencyOf(c)
    ensures Sum(Latencies(rows)) == Weigh(rows, w)
  {
    if rows == [] {
    } else {
      var front, last := rows[..|rows| - 1], rows[|rows| - 1];
      SumOfLatencies(front, w);
      if last.latency.Some? {
        SumAppend(Latencies(front), last.latency.value);
      }
    }
  }

  lemma {:induction false} AllTimed(rows: seq<Check>)
    requires forall c :: c in rows ==> Timed(c)
    ensures |Latencies(rows)| == |rows|
  {
    WhereAll(rows, Timed);
  }

  lemma TimedSummary(rows: seq<Check>)
    requires rows != [] && forall c :: c in rows ==> Timed(c)
    ensures var r := Summarize(rows).value;
            r.checks > 0 && r.avg == Some(Mean(Sum(Latencies(rows)), r.checks))
  {
    AllTimed(rows);
  }

  /** With no NULL latency in a bucket, avg * check_count is the sum of its latencies. */
  lemma RowTotalIsSum(db: Db, k: Key)
    requires Fresh(db) && k in db.rollups
    requires forall c :: c in db.raw && InBucket(c, k) ==> Timed(c)
    ensures var r := db.rollups[k];
            r.avg.Some? && RowTotal(r) == Sum(Latencies(Bucket(db.raw, k))) as real
  {
    var b := Bucket(db.raw, k);
    assert Summarize(b) == Some(db.rollups[k]);
    SummaryTotal(b, db.rollups[k]);
  }

  lemma SummaryTotal(rows: seq<Check>, r: Row)
    requires Summarize(rows) == Some(r) && forall c :: c in rows ==> Timed(c)
    ensures r.avg.Some? && RowTotal(r) == Sum(Latencies(rows)) as real
  {
    TimedSummary(rows);
    RowMean(r, Sum(Latencies(rows)));
  }

  lemma RowMean(r: Row, total: int)
    requires r.checks > 0 && r.avg == Some(Mean(total, r.checks))
    ensures RowTotal(r) == total as real
  {
  }

  /** The latencies of the rows add up, bucket by bucket, to those of the checks they summarise. */
  lemma TotalsAddUp(db: Db, key: Check -> Key, ks: set<Key>, f: Key -> int)
    requires Fresh(db) && ks <= db.rollups.Keys && Separates(db.raw, ks, key)
    requires forall k :: k in ks ==> f(k) == Sum(Latencies(Bucket(db.raw, k)))
    ensures SumOver(ks, f) == Sum(Latencies(ChecksOf(db, key, ks)))
  {
    var w := (c: Check) => LatencyOf(c);
    var fibre := (k: Key) => (c: Check) => if InBucket(c, k) then w(c) else 0;
    var u := c => if key(c) in ks then w(c) else 0;
    forall k | k in ks ensures f(k) == Weigh(db.raw, fibre(k)) {
      SumOfLatencies(Bucket(db.raw, k), w);
      WeighWhere(db.raw, c => InBucket(c, k), w, fibre(k));
    }
    SumOfFibres(db.raw, key, ks, w, fibre, f, u);
    SumOfLatencies(ChecksOf(db, key, ks), w);
    WeighWhere(db.raw, c => key(c) in ks, w, u);
  }

  lemma ChecksCounted(db: Db, key: Check -> Key, ks: set<Key>)
    requires Fresh(db) && ks <= db.rollups.Keys && Separates(db.raw, ks, key)
    ensures SumColumn(db, ks, Checks) == |ChecksOf(db, key, ks)|
  {
    var u := c => if key(c) in ks then 1 else 0;
    SumIsRawCount(db, ks, key, Checks, u);
    WeighCounts(db.raw, c => key(c) in ks, u);
  }

  lemma SomeCheck(db: Db, key: Check -> Key, ks: set<Key>, k: Key)
    requires Fresh(db) && k in ks && k in db.rollups && Separates(db.raw, ks, key)
    ensures ChecksOf(db, key, ks) != []
  {
    BucketNonEmptyIff(db.raw, k);
    var c :| c in db.raw && InBucket(c, k);
    assert c in ChecksOf(db, key, ks);
  }

  lemma WeightedTotal(db: Db, key: Check -> Key, ks: set<Key>)
    requires Fresh(db) && ks <= db.rollups.Keys && Separates(db.raw, ks, key)
    requires forall c :: c in db.raw && key(c) in ks ==> Timed(c)
    ensures forall k :: k in ks ==> db.rollups[k].avg.Some?
    ensures SumOverReal(ks, AverageTimesChecks(db)) == Sum(Latencies(ChecksOf(db, key, ks))) as real
  {
    var g := (k: Key) => Sum(Latencies(Bucket(db.raw, k)));
    forall k | k in ks
      ensures db.rollups[k].avg.Some? && AverageTimesChecks(db)(k) == g(k) as real
    {
      RowTotalIsSum(db, k);
    }
    TotalsAddUp(db, key, ks, g);
    SumIntegral(ks, AverageTimesChecks(db), g);
  }

  /** Average through rollups: with no NULL latency among the checks, the check_count-weighted mean
      of the row averages is the mean over the raw checks, in exact arithmetic. */
  lemma AverageIsRawMean(db: Db, key: Check -> Key, ks: set<Key>)
    requires Fresh(db) && ks != {} && ks <= db.rollups.Keys && Separates(db.raw, ks, key)
    requires forall c :: c in db.raw && key(c) in ks ==> Timed(c)
    ensures var rows := ChecksOf(db, key, ks);
            |rows| > 0 &&
            WeightedAverage(db, ks) == Some(Mean(Sum(Latencies(rows)), |rows|))
  {
    var k :| k in ks;
    SomeCheck(db, key, ks, k);
    ChecksCounted(db, key, ks);
    WeightedTotal(db, key, ks);
    AverageOfTimed(db, ks, Sum(Latencies(ChecksOf(db, key, ks))), |ChecksOf(db, key, ks)|);
  }

  lemma AverageOfTimed(db: Db, ks: set<Key>, total: int, count: int)
    requires ks != {} && ks <= db.rollups.Keys && (forall k :: k in ks ==> db.rollups[k].avg.Some?)
    requires SumOverReal(ks, AverageTimesChecks(db)) == total as real
    requires SumColumn(db, ks, Checks) == count > 0
    ensures WeightedAverage(db, ks) == Some(Mean(total, count))
  {
    assert TimedRows(db, ks) == ks;
    SameQuotient(SumOverReal(ks, AverageTimesChecks(db)), SumColumn(db, ks, Checks), total, count);
  }

  lemma SameQuotient(a: real, n: int, total: int, count: int)
    requires a == total as real && n == count && n > 0
    ensures a / n as real == Mean(total, count)
  {
  }

  /** Extremes through rollups: once a latency exists, the reported low and high lie, in that order,
      between the true extremes of the checks. */
  lemma ExtremesAreInside(db: Db, key: Check -> Key, ks: set<Key>)
    requires Fresh(db) && ks <= db.rollups.Keys && Separates(db.raw, ks, key)
    requires exists c :: c in ChecksOf(db, key, ks) && Timed(c)
    ensures var low, high := LowLatency(db, ks), HighLatency(db, ks);
            var ls := Latencies(ChecksOf(db, key, ks));
            && low.Some? && high.Some? && low.value <= high.value
            && low.value in ls && high.value in ls
  {
    var c :| c in ChecksOf(db, key, ks) && Timed(c);
    var k := key(c);
    RowPercentiles(db, key, ks, k);
    assert c in Bucket(db.raw, k);
    var kl := LowRow(db, ks, k);
    var kh := HighRow(db, ks, k);
    RowPercentiles(db, key, ks, kl);
    RowPercentiles(db, key, ks, kh);
  }

  lemma LowRow(db: Db, ks: set<Key>, k: Key) returns (low: Key)
    requires ks <= db.rollups.Keys && k in ks && db.rollups[k].p50.Some?
    ensures low in ks && db.rollups[low].p50.Some? && LowLatency(db, ks) == db.rollups[low].p50
    ensures db.rollups[low].p50.value <= db.rollups[k].p50.value
  {
    var values := set j | j in ks && db.rollups[j].p50.Some? :: db.rollups[j].p50.value;
    assert db.rollups[k].p50.value in values;
    low :| low in ks && db.rollups[low].p50.Some? && db.rollups[low].p50.value == Least(values).value;
  }

  lemma HighRow(db: Db, ks: set<Key>, k: Key) returns (high: Key)
    requires ks <= db.rollups.Keys && k in ks && db.rollups[k].p99.Some?
    ensures high in ks && db.rollups[high].p99.Some? && HighLatency(db, ks) == db.rollups[high].p99
    ensures db.rollups[high].p99.value >= db.rollups[k].p99.value
  {
    var values := set j | j in ks && db.rollups[j].p99.Some? :: db.rollups[j].p99.value;
    assert db.rollups[k].p99.value in values;
    high :| high in ks && db.rollups[high].p99.Some? && db.rollups[high].p99.value == Greatest(values).value;
  }

  lemma RowPercentiles(db: Db, key: Check -> Key, ks: set<Key>, k: Key)
    requires Fresh(db) && ks <= db.rollups.Keys && Separates(db.raw, ks, key) && k in ks
    ensures var r := db.rollups[k];
            && (r.p50.Some? <==> r.p99.Some?) && (r.p50.Some? <==> exists c :: c in Bucket(db.raw, k) && Timed(c))
            && (r.p50.Some? ==> r.p50.value <= r.p99.value)
            && (r.p50.Some? ==> r.p50.value in Latencies(ChecksOf(db, key, ks)))
            && (r.p99.Some? ==> r.p99.value in Latencies(ChecksOf(db, key, ks)))
  {
    var b := Bucket(db.raw, k);
    assert Summarize(b) == Some(db.rollups[k]);
    SummaryBounds(b);
    var r := db.rollups[k];
    if r.p50.Some? {
      LatencyOfRow(db, key, ks, k, r.p50.value);
      LatencyOfRow(db, key, ks, k, r.p99.value);
    }
  }

  lemma LatencyOfRow(db: Db, key: Check -> Key, ks: set<Key>, k: Key, v: int)
    requires Separates(db.raw, ks, key) && k in ks && HasLatency(Bucket(db.raw, k), v)
    ensures v in Latencies(ChecksOf(db, key, ks))
  {
    var c :| c in Bucket(db.raw, k) && c.latency == Some(v);
    assert c in ChecksOf(db, key, ks);
    LatencyMembers(ChecksOf(db, key, ks), v);
  }

  // ---------------------------------------------------------------- NULL latencies

  /** With a NULL latency the two averages part: a bucket whose checks all lack one still weighs in
      the divisor. One check of `x` ms in one bucket and one failed check in another read as half
      of `x`, so the read is the mean of the latencies only when `x` is zero. */
  lemma NullLatencyHalvesAverage(db: Db, k: Key, j: Key, a: Check, b: Check, x: int)
    requires Fresh(db) && {k, j} <= db.rollups.Keys && k != j
    requires Bucket(db.raw, k) == [a] && Bucket(db.raw, j) == [b]
    requires a.latency == Some(x) && b.latency == None
    ensures Latencies([a, b]) == [x]
    ensures WeightedAverage(db, {k, j}) == Some(Half(x))
    ensures Half(x) == x as real <==> x == 0
  {
    RowOfOneCheck(db, k, a);
    RowOfOneCheck(db, j, b);
    TwoRowAverage(db, k, j, x);
    OneTimedOfTwo(a, b, x);
    HalfIsWhole(x);
  }

  lemma RowOfOneCheck(db: Db, k: Key, c: Check)
    requires Fresh(db) && k in db.rollups && Bucket(db.raw, k) == [c]
    ensures var r := db.rollups[k];
            r.checks == 1 &&
            match c.latency
            case None => r.avg == None
            case Some(x) => r.avg.Some? && RowTotal(r) == x as real
  {
    OneCheckRow(c);
    assert Summarize(Bucket(db.raw, k)) == Some(db.rollups[k]);
  }

  lemma TwoRowAverage(db: Db, k: Key, j: Key, x: int)
    requires {k, j} <= db.rollups.Keys && k != j
    requires db.rollups[k].checks == 1 && db.rollups[k].avg.Some? && RowTotal(db.rollups[k]) == x as real
    requires db.rollups[j].checks == 1 && db.rollups[j].avg == None
    ensures WeightedAverage(db, {k, j}) == Some(Half(x))
  {
    var f := ColumnOf(db, Checks);
    SumRemove({k, j}, f, k);
    assert {k, j} - {k} == {j};
    SumRemove({j}, f, j);
    assert {j} - {j} == {};
    assert TimedRows(db, {k, j}) == {k};
    SumOverOne(k, AverageTimesChecks(db));
    assert SumColumn(db, {k, j}, Checks) == 2;
    HalfOf(SumOverReal({k}, AverageTimesChecks(db)), SumColumn(db, {k, j}, Checks), x);
  }

  function Half(x: int): real {
    x as real / 2.0
  }

  lemma HalfIsWhole(x: int)
    ensures Half(x) == x as real <==> x == 0
  {
  }

  lemma HalfOf(a: real, n: int, x: int)
    requires a == x as real && n == 2
    ensures a / n as real == Half(x)
  {
  }

  lemma OneTimedOfTwo(a: Check, b: Check, x: int)
    requires a.latency == Some(x) && b.latency == None
    ensures Latencies([a, b]) == [x]
  {
    assert [a, b][..1] == [a];
    assert [a][..0] == [];
    assert Latencies([a]) == [x];
  }

  lemma OneCheckRow(c: Check)
    ensures var r := Summarize([c]).value;
            r.checks == 1 &&
            match c.latency
            case None => r.avg == None
            case Some(x) => r.avg.Some? && RowTotal(r) == x as real && Latencies([c]) == [x]
  {
    assert [c][..0] == [];
    if c.latency.Some? {
      assert Latencies([c]) == [c.latency.value];
      assert Sum([c.latency.value]) == c.latency.value;
      RowMean(Summarize([c]).value, c.latency.value);
    }
  }
}
