/** The fold from raw checks to one rollup record (`_aggregate_rows`) and its nearest-rank
    percentiles. */
module Aggregate {
  import opened Tables

  datatype Status = Up | Down | Error

  /** One row of check_results; `at` is `checked_at`. */
  datatype Check = Check(monitor: string, status: Status, latency: Option<int>, at: nat)

  /** One row of a rollup table, without its key. */
  datatype Row = Row(checks: nat, ok: nat, fail: nat, avg: Option<real>,
                     p50: Option<int>, p95: Option<int>, p99: Option<int>)

  predicate IsUp(c: Check) { c.status == Up }

  predicate IsNotUp(c: Check) { c.status != Up }

  predicate Timed(c: Check) { c.latency.Some? }

  // ---------------------------------------------------------------- sorting

  ghost predicate Sorted(s: seq<int>) {
    forall i, j :: 0 <= i < j < |s| ==> s[i] <= s[j]
  }

  function Insert(x: int, s: seq<int>): (r: seq<int>)
    requires Sorted(s)
    ensures forall y :: y in r <==> y == x || y in s
    ensures Sorted(r)
  {
    if s == [] then [x]
    else if x <= s[0] then [x] + s
    else
      var rest := Insert(x, s[1..]);
      assert forall y :: y in rest ==> s[0] <= y;
      ConsSorted(s[0], rest);
      assert s == [s[0]] + s[1..];
      [s[0]] + rest
  }

  lemma ConsSorted(x: int, s: seq<int>)
    requires Sorted(s) && forall y :: y in s ==> x <= y
    ensures Sorted([x] + s)
    ensures forall y :: y in [x] + s <==> y == x || y in s
  {
    forall i, j | 0 <= i < j < |[x] + s| ensures ([x] + s)[i] <= ([x] + s)[j] {
      assert ([x] + s)[j] == s[j - 1] && s[j - 1] in s;
      assert i > 0 ==> ([x] + s)[i] == s[i - 1];
    }
  }

  /** `list.sort()` on numbers. */
  function Sort(s: seq<int>): (r: seq<int>)
    ensures Sorted(r) && (forall y :: y in r <==> y in s)
  {
    if s == [] then [] else Insert(s[|s| - 1], Sort(s[..|s| - 1]))
  }

  lemma {:induction false} InsertMultiset(x: int, s: seq<int>)
    requires Sorted(s)
    ensures multiset(Insert(x, s)) == multiset(s) + multiset{x}
  {
    if s == [] || x <= s[0] {
    } else {
      InsertMultiset(x, s[1..]);
      assert s == [s[0]] + s[1..];
    }
  }

  /** Sorting keeps every value as often as it occurs. */
  lemma {:induction false} SortMultiset(s: seq<int>)
    ensures multiset(Sort(s)) == multiset(s) && |Sort(s)| == |s|
  {
    if s == [] {
    } else {
      var front, last := s[..|s| - 1], s[|s| - 1];
      SortMultiset(front);
      InsertMultiset(last, Sort(front));
      assert s == front + [last];
    }
    assert |multiset(Sort(s))| == |Sort(s)| && |multiset(s)| == |s|;
  }

  lemma HeadIsLeast(a: seq<int>, y: int)
    requires Sorted(a) && y in multiset(a)
    ensures a[0] <= y
  {
    assert y in a;
  }

  lemma SameTails(a: seq<int>, b: seq<int>)
    requires a != [] && b != [] && a[0] == b[0] && multiset(a) == multiset(b)
    ensures multiset(a[1..]) == multiset(b[1..])
  {
    assert a == [a[0]] + a[1..] && b == [b[0]] + b[1..];
    assert multiset(a[1..]) == multiset(a) - multiset{a[0]};
    assert multiset(b[1..]) == multiset(b) - multiset{b[0]};
  }

  lemma SameHeads(a: seq<int>, b: seq<int>)
    requires Sorted(a) && Sorted(b) && multiset(a) == multiset(b) && a != []
    ensures b != [] && a[0] == b[0]
  {
    assert a[0] in multiset(b);
    assert a[0] in b;
    assert b[0] in multiset(a);
    HeadIsLeast(a, b[0]);
    HeadIsLeast(b, a[0]);
  }

  /** A sorted list is determined by its multiset of values. */
  lemma {:induction false} SortedIsUnique(a: seq<int>, b: seq<int>)
    requires Sorted(a) && Sorted(b) && multiset(a) == multiset(b)
    ensures a == b
  {
    if a == [] {
      assert |multiset(b)| == |b|;
    } else {
      SameHeads(a, b);
      SameTails(a, b);
      SortedIsUnique(a[1..], b[1..]);
      assert a == [a[0]] + a[1..] && b == [b[0]] + b[1..];
    }
  }

  // ---------------------------------------------------------------- percentiles

  /** `_percentile` on an already sorted list, for a whole percentage. */
  function Percentile(sorted: seq<int>, pct: int): Option<int> {
    if sorted == [] then None
    else if |sorted| == 1 then Some(sorted[0])
    else
      var rank := -((-pct * |sorted|) / 100) - 1;
      var clamped := if rank < 0 then 0 else if rank > |sorted| - 1 then |sorted| - 1 else rank;
      Some(sorted[clamped])
  }

  /** How many elements are at most `v`. */
  function AtMost(s: seq<int>, v: int): nat {
    |Where(s, x => x <= v)|
  }

  lemma {:induction false} AtMostSorted(s: seq<int>, v: int, r: nat)
    requires Sorted(s) && r <= |s|
    ensures (forall i :: 0 <= i < r ==> s[i] <= v) ==> AtMost(s, v) >= r
    ensures (forall i :: r <= i < |s| ==> s[i] > v) ==> AtMost(s, v) <= r
  {
    if s == [] {
    } else {
      var front := s[..|s| - 1];
      if r == |s| {
        AtMostSorted(front, v, r - 1);
      } else {
        AtMostSorted(front, v, r);
        assert forall i :: r <= i < |front| ==> front[i] == s[i];
        assert forall i :: 0 <= i < r ==> front[i] == s[i];
      }
    }
  }

  ghost predicate NearestRank(sorted: seq<int>, pct: int, v: int) {
    && v in sorted
    && AtMost(sorted, v) * 100 >= pct * |sorted|
    && forall u :: u in sorted && AtMost(sorted, u) * 100 >= pct * |sorted| ==> v <= u
  }

  /** For a percentage in 1..100 the clamps never change the rank, and the result is the least
      element with at least that share of the list at or below it. */
  lemma PercentileIsNearestRank(sorted: seq<int>, pct: int)
    requires Sorted(sorted) && sorted != [] && 1 <= pct <= 100
    ensures Percentile(sorted, pct).Some? && NearestRank(sorted, pct, Percentile(sorted, pct).value)
    ensures var rank := -((-pct * |sorted|) / 100) - 1;
            0 <= rank < |sorted| && Percentile(sorted, pct) == Some(sorted[rank])
  {
    var n := |sorted|;
    var rank := RankInRange(n, pct);
    var v := sorted[rank];
    AtMostSorted(sorted, v, rank + 1);
    forall u | u in sorted && AtMost(sorted, u) * 100 >= pct * n ensures v <= u {
      if u < v {
        AtMostSorted(sorted, u, rank);
      }
    }
  }

  lemma RankInRange(n: nat, pct: int) returns (rank: nat)
    requires n >= 1 && 1 <= pct <= 100
    ensures rank == -((-pct * n) / 100) - 1 < n
    ensures rank * 100 < pct * n <= (rank + 1) * 100
  {
    var x := pct * n;
    assert 1 <= x <= 100 * n;
    assert -pct * n == -x;
    rank := -((-x) / 100) - 1;
  }

  lemma PercentilesOrdered(sorted: seq<int>, p: int, q: int)
    requires Sorted(sorted) && sorted != [] && 1 <= p <= q <= 100
    ensures Percentile(sorted, p).Some? && Percentile(sorted, q).Some?
    ensures sorted[0] <= Percentile(sorted, p).value <= Percentile(sorted, q).value <= sorted[|sorted| - 1]
  {
    var n := |sorted|;
    var i := RankInRange(n, p);
    var j := RankInRange(n, q);
    assert p * n <= q * n;
    assert 0 <= i <= j < n;
  }

  // ---------------------------------------------------------------- the fold

  /** The non-NULL latencies of `rows`, in table order. */
  function Latencies(rows: seq<Check>): (r: seq<int>)
    ensures |r| == |Where(rows, Timed)|
    ensures forall c :: c in rows && c.latency.Some? ==> c.latency.value in r
    ensures forall v :: v in r ==> exists c :: c in rows && c.latency == Some(v)
  {
    if rows == [] then [] else
      var front, last := rows[..|rows| - 1], rows[|rows| - 1];
      assert rows == front + [last];
      if last.latency.Some? then Latencies(front) + [last.latency.value] else Latencies(front)
  }

  function Sum(s: seq<int>): int {
    if s == [] then 0 else Sum(s[..|s| - 1]) + s[|s| - 1]
  }

  function Mean(total: int, count: int): (m: real)
    requires count > 0
    ensures m * count as real == total as real
  {
    total as real / count as real
  }

  /** The record built from the four running totals and the collected latencies. */
  function Record(checks: nat, ok: nat, fail: nat, latencies: seq<int>, total: int): Row {
    var sorted := Sort(latencies);
    Row(checks, ok, fail,
        if latencies == [] then None else Some(Mean(total, |latencies|)),
        Percentile(sorted, 50), Percentile(sorted, 95), Percentile(sorted, 99))
  }

  /** What one rollup row must say about a set of raw rows: None when there are no rows. */
  function Summarize(rows: seq<Check>): Option<Row> {
    if rows == [] then None
    else Some(Record(|rows|, |Where(rows, IsUp)|, |Where(rows, IsNotUp)|, Latencies(rows), Sum(Latencies(rows))))
  }

  lemma SumAppend(s: seq<int>, x: int)
    ensures Sum(s + [x]) == Sum(s) + x
  {
    assert (s + [x])[..|s|] == s;
  }

  lemma FoldStep(rows: seq<Check>, i: nat)
    requires i < |rows|
    ensures |Where(rows[..i + 1], IsUp)| == |Where(rows[..i], IsUp)| + (if IsUp(rows[i]) then 1 else 0)
    ensures |Where(rows[..i + 1], IsNotUp)| == |Where(rows[..i], IsNotUp)| + (if IsUp(rows[i]) then 0 else 1)
    ensures Latencies(rows[..i + 1])
         == Latencies(rows[..i]) + (if rows[i].latency.Some? then [rows[i].latency.value] else [])
  {
    assert rows[..i + 1] == rows[..i] + [rows[i]];
    assert rows[..i + 1][..i] == rows[..i];
    WhereAppend(rows[..i], rows[i], IsUp);
    WhereAppend(rows[..i], rows[i], IsNotUp);
  }

  /** `_aggregate_rows`: one pass with running counters. */
  method AggregateRows(rows: seq<Check>) returns (r: Option<Row>)
    ensures r == Summarize(rows)
  {
    var checkCount, okCount, failCount, latencySum := 0, 0, 0, 0;
    var latencies: seq<int> := [];
    for i := 0 to |rows|
      invariant checkCount == i
      invariant okCount == |Where(rows[..i], IsUp)|
      invariant failCount == |Where(rows[..i], IsNotUp)|
      invariant latencies == Latencies(rows[..i])
      invariant latencySum == Sum(latencies)
    {
      var c := rows[i];
      FoldStep(rows, i);
      checkCount := checkCount + 1;
      if c.status == Up {
        okCount := okCount + 1;
      } else {
        failCount := failCount + 1;
      }
      if c.latency.Some? {
        SumAppend(latencies, c.latency.value);
        latencies := latencies + [c.latency.value];
        latencySum := latencySum + c.latency.value;
      }
    }
    assert rows[..|rows|] == rows;
    if checkCount == 0 {
      return None;
    }
    r := Some(Record(checkCount, okCount, failCount, latencies, latencySum));
  }

  lemma SummaryCounts(rows: seq<Check>)
    requires rows != []
    ensures var r := Summarize(rows).value; r.checks == r.ok + r.fail == |rows|
    ensures Summarize(rows).value.ok == |UpIndices(rows)|
  {
    WhereSplit(rows, IsUp, IsNotUp, c => true);
    WhereAll(rows, c => true);
    UpsCounted(rows);
  }

  function UpIndices(rows: seq<Check>): set<int> {
    set i | 0 <= i < |rows| && rows[i].status == Up
  }

  lemma UpIndicesMore(front: seq<Check>, last: Check)
    ensures UpIndices(front + [last]) == UpIndices(front) + if IsUp(last) then {|front|} else {}
    ensures |front| !in UpIndices(front)
  {
  }

  lemma {:induction false} UpsCounted(rows: seq<Check>)
    ensures |Where(rows, IsUp)| == |UpIndices(rows)|
  {
    if rows == [] {
      assert UpIndices(rows) == {};
    } else {
      var front, last := rows[..|rows| - 1], rows[|rows| - 1];
      UpsCounted(front);
      UpIndicesMore(front, last);
      WhereAppend(front, last, IsUp);
      assert rows == front + [last];
    }
  }

  ghost predicate HasLatency(rows: seq<Check>, v: int) {
    exists c :: c in rows && c.latency == Some(v)
  }

  lemma LatencyMembers(rows: seq<Check>, v: int)
    ensures v in Latencies(rows) <==> HasLatency(rows, v)
    ensures v in Sort(Latencies(rows)) <==> HasLatency(rows, v)
  {
  }

  /** The percentiles of a record are NULL together, and otherwise are latencies of its rows, in
      order, with the median at or below p95 and p95 at or below p99. */
  lemma SummaryBounds(rows: seq<Check>)
    requires rows != []
    ensures var r := Summarize(rows).value;
            && (r.avg == None <==> forall c :: c in rows ==> c.latency == None)
            && (r.avg == None <==> r.p50 == None) && (r.avg == None <==> r.p95 == None)
            && (r.avg == None <==> r.p99 == None)
    ensures var r := Summarize(rows).value;
            r.avg.Some? ==>
              && r.p50.value <= r.p95.value <= r.p99.value
              && HasLatency(rows, r.p50.value) && HasLatency(rows, r.p95.value) && HasLatency(rows, r.p99.value)
  {
    var ls := Latencies(rows);
    var sorted := Sort(ls);
    if ls == [] {
    } else {
      LatencyMembers(rows, ls[0]);
      PercentilesOrdered(sorted, 50, 95);
      PercentilesOrdered(sorted, 95, 99);
      PercentileMember(sorted, 50);
      PercentileMember(sorted, 95);
      PercentileMember(sorted, 99);
      LatencyMembers(rows, Percentile(sorted, 50).value);
      LatencyMembers(rows, Percentile(sorted, 95).value);
      LatencyMembers(rows, Percentile(sorted, 99).value);
    }
  }

  lemma PercentileMember(sorted: seq<int>, pct: int)
    requires sorted != []
    ensures Percentile(sorted, pct).Some? && Percentile(sorted, pct).value in sorted
  {
  }

  // ---------------------------------------------------------------- order does not matter

  lemma {:induction false} SumRemoveAt(s: seq<int>, i: nat)
    requires i < |s|
    ensures Sum(s) == Sum(s[..i] + s[i + 1..]) + s[i]
  {
    if i == |s| - 1 {
      assert s[..i] + s[i + 1..] == s[..|s| - 1];
    } else {
      var front := s[..|s| - 1];
      SumRemoveAt(front, i);
      assert (s[..i] + s[i + 1..])[..|s| - 2] == front[..i] + front[i + 1..];
    }
  }

  lemma RemovedMultiset(front: seq<int>, last: int, b: seq<int>, i: nat)
    requires i < |b| && b[i] == last && multiset(front + [last]) == multiset(b)
    ensures multiset(front) == multiset(b[..i] + b[i + 1..])
  {
    assert b == b[..i] + [last] + b[i + 1..];
    assert multiset(b) == multiset(b[..i] + b[i + 1..]) + multiset{last};
    assert multiset(front) == multiset(front + [last]) - multiset{last};
  }

  lemma {:induction false} SumPermutation(a: seq<int>, b: seq<int>)
    requires multiset(a) == multiset(b)
    ensures Sum(a) == Sum(b)
    decreases |a|
  {
    assert |a| == |multiset(a)| == |multiset(b)| == |b|;
    if a == [] {
    } else {
      var front, last := a[..|a| - 1], a[|a| - 1];
      assert a == front + [last];
      assert last in multiset(b);
      var i :| 0 <= i < |b| && b[i] == last;
      assert b == b[..i] + [last] + b[i + 1..];
      SumRemoveAt(b, i);
      RemovedMultiset(front, last, b, i);
      SumPermutation(front, b[..i] + b[i + 1..]);
    }
  }

  lemma {:induction false} WhereMultiset<T>(a: seq<T>, p: T -> bool)
    ensures forall x :: multiset(Where(a, p))[x] == if p(x) then multiset(a)[x] else 0
  {
    if a == [] {
    } else {
      WhereMultiset(a[..|a| - 1], p);
      assert a == a[..|a| - 1] + [a[|a| - 1]];
    }
  }

  lemma SameLength<T>(a: seq<T>, b: seq<T>)
    requires forall x :: multiset(a)[x] == multiset(b)[x]
    ensures |a| == |b|
  {
    assert multiset(a) == multiset(b);
    assert |multiset(a)| == |a| && |multiset(b)| == |b|;
  }

  lemma WherePermutation<T>(a: seq<T>, b: seq<T>, p: T -> bool)
    requires multiset(a) == multiset(b)
    ensures |Where(a, p)| == |Where(b, p)|
  {
    WhereMultiset(a, p);
    WhereMultiset(b, p);
    SameLength(Where(a, p), Where(b, p));
  }

  lemma {:induction false} LatenciesMultiset(a: seq<Check>)
    ensures forall v :: multiset(Latencies(a))[v] == |Where(a, (c: Check) => c.latency == Some(v))|
  {
    if a == [] {
    } else {
      LatenciesMultiset(a[..|a| - 1]);
    }
  }

  /** The record does not depend on the order in which SQLite hands over the rows. */
  lemma SummaryPermutation(a: seq<Check>, b: seq<Check>)
    requires multiset(a) == multiset(b)
    ensures Summarize(a) == Summarize(b)
  {
    assert |a| == |multiset(a)| == |multiset(b)| == |b|;
    WherePermutation(a, b, IsUp);
    WherePermutation(a, b, IsNotUp);
    LatenciesMultiset(a);
    LatenciesMultiset(b);
    forall v ensures multiset(Latencies(a))[v] == multiset(Latencies(b))[v] {
      WherePermutation(a, b, (c: Check) => c.latency == Some(v));
    }
    assert multiset(Latencies(a)) == multiset(Latencies(b));
    assert |multiset(Latencies(a))| == |Latencies(a)|;
    SumPermutation(Latencies(a), Latencies(b));
    SortMultiset(Latencies(a));
    SortMultiset(Latencies(b));
    SortedIsUnique(Sort(Latencies(a)), Sort(Latencies(b)));
  }
}
