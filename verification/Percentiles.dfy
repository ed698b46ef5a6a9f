/** What the latency columns say about the raw rows themselves: of a record, of a stored row, and of the low
    and the high that a rollup read reports. */
module Percentiles {
  import opened Tables
  import opened Buckets
  import opened Aggregate
  import opened History
  import opened Lockstep
  import opened Readers
  import opened LatencyStats

  /** The rows with a latency of at most `v`. */
  function NoSlower(rows: seq<Check>, v: int): seq<Check> {
    Where(rows, (c: Check) => c.latency.Some? && c.latency.value <= v)
  }

  /** At least `pct` percent of the rows with a latency were no slower than `v`. */
  predicate Reaches(rows: seq<Check>, pct: int, v: int) {
    |NoSlower(rows, v)| * 100 >= pct * |Where(rows, Timed)|
  }

  /** `v` is the least latency of the rows that does. */
  ghost predicate RankIn(rows: seq<Check>, pct: int, v: int) {
    && HasLatency(rows, v) && Reaches(rows, pct, v)
    && forall u :: HasLatency(rows, u) && Reaches(rows, pct, u) ==> v <= u
  }

  /** A percentile column: NULL exactly when no row has a latency. */
  ghost predicate ColumnIs(rows: seq<Check>, pct: int, column: Option<int>) {
    if exists c :: c in rows && Timed(c) then column.Some? && RankIn(rows, pct, column.value) else column == None
  }

  lemma SortCount(s: seq<int>, v: int)
    ensures AtMost(Sort(s), v) == AtMost(s, v)
  {
    SortMultiset(s);
    WherePermutation(Sort(s), s, x => x <= v);
  }

  lemma {:induction false} LatencyCount(rows: seq<Check>, v: int)
    ensures AtMost(Latencies(rows), v) == |NoSlower(rows, v)|
  {
    if rows == [] {
    } else {
      var front, last := rows[..|rows| - 1], rows[|rows| - 1];
      LatencyCount(front, v);
      if last.latency.Some? {
        WhereAppend(Latencies(front), last.latency.value, x => x <= v);
      }
    }
  }

  lemma SortedLatency(rows: seq<Check>, v: int)
    ensures v in Sort(Latencies(rows)) <==> HasLatency(rows, v)
    ensures AtMost(Sort(Latencies(rows)), v) == |NoSlower(rows, v)|
  {
    LatencyMembers(rows, v);
    SortCount(Latencies(rows), v);
    LatencyCount(rows, v);
  }

  lemma RankCarries(rows: seq<Check>, sorted: seq<int>, pct: int, v: int)
    requires sorted == Sort(Latencies(rows)) && |sorted| == |Where(rows, Timed)| && NearestRank(sorted, pct, v)
    ensures RankIn(rows, pct, v)
  {
    SortedLatency(rows, v);
    forall u | HasLatency(rows, u) && Reaches(rows, pct, u) ensures v <= u {
      SortedLatency(rows, u);
    }
  }

  lemma RankOfRows(rows: seq<Check>, pct: int)
    requires 1 <= pct <= 100
    ensures ColumnIs(rows, pct, Percentile(Sort(Latencies(rows)), pct))
  {
    var ls := Latencies(rows);
    var sorted := Sort(ls);
    SortMultiset(ls);
    if exists c :: c in rows && Timed(c) {
      var c :| c in rows && Timed(c);
      assert c.latency.value in ls;
      PercentileIsNearestRank(sorted, pct);
      RankCarries(rows, sorted, pct, Percentile(sorted, pct).value);
    } else {
      WhereNone(rows, Timed);
    }
  }

  /** Each percentile column of a record is the nearest rank of the rows at its own percentage. */
  lemma SummaryPercentiles(rows: seq<Check>)
    requires rows != []
    ensures var r := Summarize(rows).value;
            ColumnIs(rows, 50, r.p50) && ColumnIs(rows, 95, r.p95) && ColumnIs(rows, 99, r.p99)
  {
    RankOfRows(rows, 50);
    RankOfRows(rows, 95);
    RankOfRows(rows, 99);
  }

  /** The average is that of the rows that have a latency. */
  lemma SummaryAverage(rows: seq<Check>, total: int, count: nat)
    requires total == Weigh(rows, LatencyOf) && count == |Where(rows, Timed)| > 0
    ensures Summarize(rows).value.avg == Some(Mean(total, count))
  {
    SumOfLatencies(rows, LatencyOf);
  }

  /** So it is in every stored row, for the raw rows that are in its bucket now. */
  lemma StoredPercentiles(db: Db, k: Key)
    requires Fresh(db) && k in db.rollups
    ensures var rows, r := Bucket(db.raw, k), db.rollups[k];
            ColumnIs(rows, 50, r.p50) && ColumnIs(rows, 95, r.p95) && ColumnIs(rows, 99, r.p99)
  {
    assert Summarize(Bucket(db.raw, k)) == Some(db.rollups[k]);
    SummaryPercentiles(Bucket(db.raw, k));
  }
}
