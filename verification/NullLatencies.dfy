/** Checks without a latency: exactly when the average of a rollup read is the mean of the raw latencies. */
module NullLatencies {
  import opened Tables
  import opened Buckets
  import opened Aggregate
  import opened History
  import opened Lockstep
  import opened Readers
  import opened LatencyStats

  // ---------------------------------------------------------------- sums over a REAL column

  lemma {:induction false} SumRemoveReal<K>(ks: set<K>, f: K -> real, k: K)
    requires k in ks
    ensures SumOverReal(ks, f) == f(k) + SumOverReal(ks - {k}, f)
    decreases ks
  {
    var j :| j in ks && SumOverReal(ks, f) == f(j) + SumOverReal(ks - {j}, f);
    if j != k {
      SumRemoveReal(ks - {j}, f, k);
      SumRemoveReal(ks - {k}, f, j);
      assert ks - {j} - {k} == ks - {k} - {j};
    }
  }

  lemma {:induction false} SumAgreeReal<K>(ks: set<K>, f: K -> real, g: K -> real)
    requires forall k :: k in ks ==> f(k) == g(k)
    ensures SumOverReal(ks, f) == SumOverReal(ks, g)
    decreases ks
  {
    if ks == {} {
    } else {
      var k :| k in ks;
      SumRemoveReal(ks, f, k);
      SumRemoveReal(ks, g, k);
      SumAgreeReal(ks - {k}, f, g);
    }
  }

  /** A REAL column proportional to an integer one. */
  lemma {:induction false} SumScaled<K>(ks: set<K>, f: K -> real, g: K -> int, q: real)
    requires forall k :: k in ks ==> f(k) == Times(g(k), q)
    ensures SumOverReal(ks, f) == Times(SumOver(ks, g), q)
    decreases ks
  {
    if ks == {} {
    } else {
      var k :| k in ks;
      SumRemoveReal(ks, f, k);
      SumRemove(ks, g, k);
      SumScaled(ks - {k}, f, g, q);
      TimesAdds(g(k), SumOver(ks - {k}, g), q);
    }
  }

  function Times(n: int, q: real): real {
    n as real * q
  }

  /** `m` of each of `n`. */
  function Of(m: real, n: int): real {
    m * n as real
  }

  lemma TimesAdds(m: int, n: int, q: real)
    ensures Times(m + n, q) == Times(m, q) + Times(n, q)
  {
  }

  lemma {:induction false} SumDropZeros<K>(ks: set<K>, part: set<K>, g: K -> int)
    requires part <= ks && forall k :: k in ks && k !in part ==> g(k) == 0
    ensures SumOver(ks, g) == SumOver(part, g)
    decreases ks
  {
    if k :| k in ks && k !in part {
      SumRemove(ks, g, k);
      SumDropZeros(ks - {k}, part, g);
    } else {
      assert ks == part;
    }
  }

  // ---------------------------------------------------------------- rows and their share

  function LatenciesIn(raw: seq<Check>, k: Key): seq<int> {
    Latencies(Bucket(raw, k))
  }

  /** The two columns of a row that an average reads. */
  ghost predicate RowSays(db: Db, k: Key)
    requires k in db.rollups
  {
    var r, ls := db.rollups[k], LatenciesIn(db.raw, k);
    r.checks == |Bucket(db.raw, k)| > 0 && r.avg == if ls == [] then None else Some(Mean(Sum(ls), |ls|))
  }

  lemma RowFacts(db: Db, k: Key)
    requires Fresh(db) && k in db.rollups
    ensures RowSays(db, k)
  {
    assert Summarize(Bucket(db.raw, k)) == Some(db.rollups[k]);
  }

  /** The key of every check in a tier. */
  function TierKey(tier: Tier): Check -> Key {
    (c: Check) => KeyOf(tier, c)
  }

  ghost predicate TierRows(db: Db, tier: Tier, ks: set<Key>) {
    ks <= db.rollups.Keys && forall k :: k in ks ==> k.tier == tier && Aligned(k.start, tier)
  }

  lemma TierKeySeparates(db: Db, tier: Tier, ks: set<Key>)
    requires TierRows(db, tier, ks)
    ensures Separates(db.raw, ks, TierKey(tier))
  {
    forall c, k | c in db.raw && k in ks ensures InBucket(c, k) <==> TierKey(tier)(c) == k {
      InBucketIff(c, k);
    }
  }

  ghost function Rows(db: Db, tier: Tier, ks: set<Key>): seq<Check> {
    ChecksOf(db, TierKey(tier), ks)
  }

  ghost function LatenciesOf(db: Db, tier: Tier, ks: set<Key>): seq<int> {
    Latencies(Rows(db, tier, ks))
  }

  /** The read reports the mean of the raw latencies of its rows, or nothing when there are none. */
  ghost predicate AverageIsMean(db: Db, tier: Tier, ks: set<Key>)
    requires ks <= db.rollups.Keys
  {
    var ls := LatenciesOf(db, tier, ks);
    WeightedAverage(db, ks) == if ls == [] then None else Some(Mean(Sum(ls), |ls|))
  }

  /** A row holds the same share of the timed checks as of all checks. */
  predicate SameShare(checks: int, timed: int, allChecks: int, allTimed: int) {
    checks * allTimed == timed * allChecks
  }

  /** Every row with a latency does. */
  ghost predicate Even(db: Db, tier: Tier, ks: set<Key>) {
    forall k :: k in ks && LatenciesIn(db.raw, k) != [] ==>
      SameShare(|Bucket(db.raw, k)|, |LatenciesIn(db.raw, k)|, |Rows(db, tier, ks)|, |LatenciesOf(db, tier, ks)|)
  }

  lemma LatencyHasBucket(db: Db, tier: Tier, ks: set<Key>, x: int)
    requires TierRows(db, tier, ks) && x in LatenciesOf(db, tier, ks)
    ensures exists k :: k in ks && x in LatenciesIn(db.raw, k)
  {
    LatencyMembers(Rows(db, tier, ks), x);
    var c :| c in Rows(db, tier, ks) && c.latency == Some(x);
    var k := KeyOf(tier, c);
    assert TierKey(tier)(c) == k && k in ks;
    InBucketIff(c, k);
    LatencyMembers(Bucket(db.raw, k), x);
    assert c in Bucket(db.raw, k);
    assert x in LatenciesIn(db.raw, k);
  }

  lemma LatencyInRow(db: Db, tier: Tier, ks: set<Key>)
    requires TierRows(db, tier, ks)
    ensures LatenciesOf(db, tier, ks) == [] <==> forall k :: k in ks ==> LatenciesIn(db.raw, k) == []
  {
    TierKeySeparates(db, tier, ks);
    var ls := LatenciesOf(db, tier, ks);
    if ls != [] {
      LatencyHasBucket(db, tier, ks, ls[0]);
    }
    forall k | k in ks && LatenciesIn(db.raw, k) != [] ensures ls != [] {
      LatencyMembers(Bucket(db.raw, k), LatenciesIn(db.raw, k)[0]);
      LatencyOfRow(db, TierKey(tier), ks, k, LatenciesIn(db.raw, k)[0]);
    }
  }

  lemma TimedRowsAre(db: Db, ks: set<Key>)
    requires Fresh(db) && ks <= db.rollups.Keys
    ensures TimedRows(db, ks) == set k | k in ks && LatenciesIn(db.raw, k) != []
  {
    forall k | k in ks ensures db.rollups[k].avg.Some? <==> LatenciesIn(db.raw, k) != [] {
      RowFacts(db, k);
    }
  }

  // ---------------------------------------------------------------- even rows are enough

  function Ratio(n: int, d: int): real
    requires d > 0
  {
    n as real / d as real
  }

  lemma EvenTotal(total: int, timed: int, checks: int, allTimed: int, allChecks: int)
    requires timed > 0 && allTimed > 0 && SameShare(checks, timed, allChecks, allTimed)
    ensures Of(Mean(total, timed), checks) == Times(total, Ratio(allChecks, allTimed))
  {
    var m, q := Mean(total, timed), Ratio(allChecks, allTimed);
    var n, t := timed as real, allTimed as real;
    assert checks as real * t == n * allChecks as real;
    assert q * t == allChecks as real;
    assert checks as real * t == n * (q * t) == (n * q) * t;
    assert checks as real == n * q;
    assert m * (n * q) == (m * n) * q;
  }

  lemma EvenMean(total: int, allTimed: int, allChecks: int)
    requires allTimed > 0 && allChecks > 0
    ensures Times(total, Ratio(allChecks, allTimed)) / allChecks as real == Mean(total, allTimed)
  {
    var q := Ratio(allChecks, allTimed);
    var m := Mean(total, allTimed);
    assert total as real == m * allTimed as real;
    assert Times(total, q) == m * (allTimed as real * q);
    assert allTimed as real * q == allChecks as real;
  }

  function WeightOf(r: Row): real {
    if r.avg.Some? then RowTotal(r) else 0.0
  }

  lemma WeightAt(db: Db, k: Key)
    requires k in db.rollups
    ensures AverageTimesChecks(db)(k) == WeightOf(db.rollups[k])
  {
  }

  lemma WeightIs(r: Row, m: real, n: int)
    requires r.avg == Some(m) && r.checks == n
    ensures WeightOf(r) == Of(m, n)
  {
  }

  lemma SameWeightOf(r: Row, q: Row)
    requires r.avg == q.avg && r.checks == q.checks
    ensures WeightOf(r) == WeightOf(q)
  {
  }

  lemma RowProduct(db: Db, k: Key)
    requires k in db.rollups && RowSays(db, k) && LatenciesIn(db.raw, k) != []
    ensures AverageTimesChecks(db)(k)
         == Of(Mean(Sum(LatenciesIn(db.raw, k)), |LatenciesIn(db.raw, k)|), |Bucket(db.raw, k)|)
  {
    WeightAt(db, k);
    WeightIs(db.rollups[k], Mean(Sum(LatenciesIn(db.raw, k)), |LatenciesIn(db.raw, k)|), |Bucket(db.raw, k)|);
  }

  /** Rows that summarise as many checks, as many latencies and the same sum weigh the same. */
  lemma SameWeight(db: Db, other: Db, k: Key)
    requires k in db.rollups && RowSays(db, k) && k in other.rollups && RowSays(other, k)
    requires |Bucket(db.raw, k)| == |Bucket(other.raw, k)|
    requires |LatenciesIn(db.raw, k)| == |LatenciesIn(other.raw, k)|
    requires Sum(LatenciesIn(db.raw, k)) == Sum(LatenciesIn(other.raw, k))
    ensures AverageTimesChecks(db)(k) == AverageTimesChecks(other)(k)
  {
    WeightAt(db, k);
    WeightAt(other, k);
    SameWeightOf(db.rollups[k], other.rollups[k]);
  }

  lemma EvenRow(db: Db, tier: Tier, ks: set<Key>, k: Key)
    requires Fresh(db) && TierRows(db, tier, ks) && Even(db, tier, ks)
    requires k in ks && LatenciesIn(db.raw, k) != [] && LatenciesOf(db, tier, ks) != []
    ensures AverageTimesChecks(db)(k)
         == Times(Sum(LatenciesIn(db.raw, k)), Ratio(|Rows(db, tier, ks)|, |LatenciesOf(db, tier, ks)|))
  {
    RowFacts(db, k);
    RowProduct(db, k);
    EvenTotal(Sum(LatenciesIn(db.raw, k)), |LatenciesIn(db.raw, k)|, |Bucket(db.raw, k)|,
              |LatenciesOf(db, tier, ks)|, |Rows(db, tier, ks)|);
  }

  lemma EvenAverage(db: Db, tier: Tier, ks: set<Key>)
    requires Fresh(db) && TierRows(db, tier, ks) && Even(db, tier, ks) && LatenciesOf(db, tier, ks) != []
    ensures SumOverReal(TimedRows(db, ks), AverageTimesChecks(db)) ==
            Times(Sum(LatenciesOf(db, tier, ks)), Ratio(|Rows(db, tier, ks)|, |LatenciesOf(db, tier, ks)|))
  {
    var g := (k: Key) => Sum(LatenciesIn(db.raw, k));
    var q := Ratio(|Rows(db, tier, ks)|, |LatenciesOf(db, tier, ks)|);
    var timed := TimedRows(db, ks);
    TimedRowsAre(db, ks);
    forall k | k in timed ensures AverageTimesChecks(db)(k) == Times(g(k), q) {
      EvenRow(db, tier, ks, k);
    }
    SumScaled(timed, AverageTimesChecks(db), g, q);
    TierKeySeparates(db, tier, ks);
    TotalsAddUp(db, TierKey(tier), ks, g);
    SumDropZeros(ks, timed, g);
  }

  lemma ChecksOfRows(db: Db, tier: Tier, ks: set<Key>)
    requires Fresh(db) && TierRows(db, tier, ks)
    ensures SumColumn(db, ks, Checks) == |Rows(db, tier, ks)|
    ensures LatenciesOf(db, tier, ks) != [] ==> |Rows(db, tier, ks)| > 0 && TimedRows(db, ks) != {}
    ensures LatenciesOf(db, tier, ks) == [] ==> TimedRows(db, ks) == {}
  {
    TierKeySeparates(db, tier, ks);
    ChecksCounted(db, TierKey(tier), ks);
    LatencyInRow(db, tier, ks);
    TimedRowsAre(db, ks);
    if LatenciesOf(db, tier, ks) != [] {
      var k :| k in ks && LatenciesIn(db.raw, k) != [];
      assert k in TimedRows(db, ks);
    }
  }

  /** When every row with a latency holds the same share of the timed checks as of all checks, the read
      reports their mean; no NULL at all is a special case. */
  lemma EvenRowsAverageRight(db: Db, tier: Tier, ks: set<Key>)
    requires Fresh(db) && TierRows(db, tier, ks) && Even(db, tier, ks)
    ensures AverageIsMean(db, tier, ks)
  {
    ChecksOfRows(db, tier, ks);
    var ls := LatenciesOf(db, tier, ks);
    if ls != [] {
      EvenAverage(db, tier, ks);
      EvenMean(Sum(ls), |ls|, |Rows(db, tier, ks)|);
    }
  }

  // ---------------------------------------------------------------- one latency told otherwise

  function WithLatency(c: Check, y: int): Check {
    c.(latency := Some(y))
  }

  function Told(raw: seq<Check>, i: nat, y: int): seq<Check>
    requires i < |raw|
  {
    raw[i := WithLatency(raw[i], y)]
  }

  /** The history in which the i-th check took `y` ms, compacted. */
  function Retold(db: Db, i: nat, y: int): Db
    requires i < |db.raw|
  {
    db.(raw := Told(db.raw, i, y), rollups := map k | k in db.rollups :: RowOf(Told(db.raw, i, y), k, db.rollups[k]))
  }

  function RowOf(raw: seq<Check>, k: Key, default: Row): Row {
    Summarize(Bucket(raw, k)).GetOr(default)
  }

  /** A condition that does not look at latencies. */
  ghost predicate Blind(p: Check -> bool) {
    forall c, y :: p(WithLatency(c, y)) == p(c)
  }

  lemma OneMoreLatency(rows: seq<Check>, c: Check)
    ensures |Latencies(rows + [c])| == |Latencies(rows)| + if c.latency.Some? then 1 else 0
    ensures Sum(Latencies(rows + [c])) == Sum(Latencies(rows)) + LatencyOf(c)
  {
    assert (rows + [c])[..|rows|] == rows;
    if c.latency.Some? {
      SumAppend(Latencies(rows), c.latency.value);
    }
  }

  lemma OneMoreWhere(rows: seq<Check>, c: Check, p: Check -> bool)
    ensures |Where(rows + [c], p)| == |Where(rows, p)| + if p(c) then 1 else 0
    ensures |Latencies(Where(rows + [c], p))|
         == |Latencies(Where(rows, p))| + if p(c) && c.latency.Some? then 1 else 0
    ensures Sum(Latencies(Where(rows + [c], p))) == Sum(Latencies(Where(rows, p))) + if p(c) then LatencyOf(c) else 0
  {
    WhereAppend(rows, c, p);
    OneMoreLatency(Where(rows, p), c);
  }

  lemma {:induction false} ToldWhere(raw: seq<Check>, i: nat, y: int, p: Check -> bool)
    requires i < |raw| && raw[i].latency.Some? && Blind(p)
    ensures |Where(Told(raw, i, y), p)| == |Where(raw, p)|
    ensures |Latencies(Where(Told(raw, i, y), p))| == |Latencies(Where(raw, p))|
    ensures Sum(Latencies(Where(Told(raw, i, y), p)))
         == Sum(Latencies(Where(raw, p))) + if p(raw[i]) then y - raw[i].latency.value else 0
  {
    var front, last := raw[..|raw| - 1], raw[|raw| - 1];
    var told := Told(raw, i, y);
    assert raw == front + [last];
    if i == |raw| - 1 {
      assert told == front + [WithLatency(last, y)];
      OneMoreWhere(front, WithLatency(last, y), p);
      OneMoreWhere(front, last, p);
    } else {
      assert told == Told(front, i, y) + [last];
      ToldWhere(front, i, y, p);
      OneMoreWhere(Told(front, i, y), last, p);
      OneMoreWhere(front, last, p);
    }
  }

  lemma RetoldBucket(db: Db, i: nat, y: int, k: Key)
    requires i < |db.raw| && db.raw[i].latency.Some?
    ensures |Bucket(Told(db.raw, i, y), k)| == |Bucket(db.raw, k)|
    ensures |LatenciesIn(Told(db.raw, i, y), k)| == |LatenciesIn(db.raw, k)|
    ensures Sum(LatenciesIn(Told(db.raw, i, y), k))
         == Sum(LatenciesIn(db.raw, k)) + if InBucket(db.raw[i], k) then y - db.raw[i].latency.value else 0
  {
    ToldWhere(db.raw, i, y, c => InBucket(c, k));
  }

  lemma TierBlind(tier: Tier, ks: set<Key>) returns (p: Check -> bool)
    ensures Blind(p) && forall c :: p(c) == (KeyOf(tier, c) in ks)
  {
    p := (c: Check) => KeyOf(tier, c) in ks;
    assert forall c: Check, x :: KeyOf(tier, WithLatency(c, x)) == KeyOf(tier, c);
  }

  lemma RowsAreWhere(db: Db, tier: Tier, ks: set<Key>, p: Check -> bool)
    requires forall c :: p(c) == (KeyOf(tier, c) in ks)
    ensures Rows(db, tier, ks) == Where(db.raw, p)
  {
    var q := (c: Check) => TierKey(tier)(c) in ks;
    forall c | c in db.raw ensures p(c) == q(c) {
      assert TierKey(tier)(c) == KeyOf(tier, c);
    }
    WhereAgree(db.raw, p, q);
    WhereAgree(db.raw, q, c => TierKey(tier)(c) in ks);
  }

  lemma RetoldRows(db: Db, i: nat, y: int, tier: Tier, ks: set<Key>)
    requires i < |db.raw| && db.raw[i].latency.Some?
    ensures |Rows(Retold(db, i, y), tier, ks)| == |Rows(db, tier, ks)|
    ensures |LatenciesOf(Retold(db, i, y), tier, ks)| == |LatenciesOf(db, tier, ks)|
    ensures KeyOf(tier, db.raw[i]) in ks ==>
      Sum(LatenciesOf(Retold(db, i, y), tier, ks)) == Sum(LatenciesOf(db, tier, ks)) + y - db.raw[i].latency.value
  {
    var p := TierBlind(tier, ks);
    ToldWhere(db.raw, i, y, p);
    RowsAreWhere(db, tier, ks, p);
    RowsAreWhere(Retold(db, i, y), tier, ks, p);
  }

  lemma RetoldFresh(db: Db, i: nat, y: int)
    requires Fresh(db) && i < |db.raw| && db.raw[i].latency.Some?
    ensures Fresh(Retold(db, i, y)) && Retold(db, i, y).rollups.Keys == db.rollups.Keys
  {
    var told := Retold(db, i, y);
    forall k | k in told.rollups ensures Summarize(Bucket(told.raw, k)) == Some(told.rollups[k]) {
      RowFacts(db, k);
      RetoldBucket(db, i, y, k);
    }
  }

  lemma RetoldEven(db: Db, i: nat, y: int, tier: Tier, ks: set<Key>)
    requires Fresh(db) && i < |db.raw| && db.raw[i].latency.Some? && TierRows(db, tier, ks) && Even(db, tier, ks)
    ensures TierRows(Retold(db, i, y), tier, ks) && Even(Retold(db, i, y), tier, ks)
  {
    RetoldFresh(db, i, y);
    RetoldRows(db, i, y, tier, ks);
    forall k | k in ks ensures |LatenciesIn(Told(db.raw, i, y), k)| == |LatenciesIn(db.raw, k)|
      ensures |Bucket(Told(db.raw, i, y), k)| == |Bucket(db.raw, k)|
    {
      RetoldBucket(db, i, y, k);
    }
  }

  lemma Regroup(p: real, q: real, r: real, s: real)
    ensures (p * q) * (r * s) == (p * r) * (q * s)
  {
  }

  lemma CancelReal(d: real, a: real, b: real)
    requires d != 0.0 && d * a == d * b
    ensures a == b
  {
    assert d * (a - b) == 0.0;
  }

  /** The read moves by the share of the row, the mean by the share of the check. */
  lemma MovesAlike(x: real, z: real, d: real, n: real, t: real, c: real, m: real)
    requires x * t == d && z * m == d && x * n == z * c && d != 0.0
    ensures c * t == m * n
  {
    Regroup(x, t, n, m);
    Regroup(x, n, t, m);
    Regroup(z, c, m, t);
    Regroup(z, m, c, t);
    assert d * (n * m) == (x * n) * (t * m);
    assert (z * c) * (t * m) == d * (c * t);
    CancelReal(d, n * m, c * t);
  }

  lemma OfMoves(a: real, a2: real, n: int)
    ensures Of(a2, n) - Of(a, n) == (a2 - a) * n as real
  {
  }

  lemma SharesApart(a: real, a2: real, m: real, m2: real, n: int, t: int, checks: int, timed: int, delta: int)
    requires delta != 0
    requires Of(a2, t) - Of(a, t) == delta as real && Of(m2, timed) - Of(m, timed) == delta as real
    requires Of(a2, n) - Of(a, n) == Of(m2, checks) - Of(m, checks)
    ensures SameShare(checks, timed, n, t)
  {
    OfMoves(a, a2, t);
    OfMoves(a, a2, n);
    OfMoves(m, m2, timed);
    OfMoves(m, m2, checks);
    MovesAlike(a2 - a, m2 - m, delta as real, n as real, t as real, checks as real, timed as real);
    assert (checks * t) as real == checks as real * t as real;
    assert (timed * n) as real == timed as real * n as real;
  }

  ghost function Total(db: Db, ks: set<Key>): real
    requires ks <= db.rollups.Keys
  {
    SumOverReal(TimedRows(db, ks), AverageTimesChecks(db))
  }

  lemma RightRead(db: Db, tier: Tier, ks: set<Key>) returns (a: real)
    requires Fresh(db) && TierRows(db, tier, ks) && AverageIsMean(db, tier, ks) && LatenciesOf(db, tier, ks) != []
    ensures Of(a, |Rows(db, tier, ks)|) == Total(db, ks)
    ensures Of(a, |LatenciesOf(db, tier, ks)|) == Sum(LatenciesOf(db, tier, ks)) as real
  {
    ChecksOfRows(db, tier, ks);
    a := WeightedAverage(db, ks).value;
    Quotient(Total(db, ks), |Rows(db, tier, ks)|);
  }

  lemma Quotient(x: real, n: int)
    requires n > 0
    ensures Of(x / n as real, n) == x
  {
  }

  lemma MeanOf(total: int, n: int)
    requires n > 0
    ensures Of(Mean(total, n), n) == total as real
  {
  }

  lemma RowRead(db: Db, k: Key) returns (m: real)
    requires k in db.rollups && RowSays(db, k) && LatenciesIn(db.raw, k) != []
    ensures Of(m, |LatenciesIn(db.raw, k)|) == Sum(LatenciesIn(db.raw, k)) as real
    ensures AverageTimesChecks(db)(k) == Of(m, |Bucket(db.raw, k)|)
  {
    RowProduct(db, k);
    m := Mean(Sum(LatenciesIn(db.raw, k)), |LatenciesIn(db.raw, k)|);
    MeanOf(Sum(LatenciesIn(db.raw, k)), |LatenciesIn(db.raw, k)|);
  }

  lemma OtherRowKept(db: Db, i: nat, y: int, j: Key)
    requires i < |db.raw| && db.raw[i].latency.Some? && j in db.rollups && Aligned(j.start, j.tier)
    requires RowSays(db, j) && RowSays(Retold(db, i, y), j) && j != KeyOf(j.tier, db.raw[i])
    ensures AverageTimesChecks(Retold(db, i, y))(j) == AverageTimesChecks(db)(j)
  {
    RetoldBucket(db, i, y, j);
    InBucketIff(db.raw[i], j);
    SameWeight(Retold(db, i, y), db, j);
  }

  lemma RowOfTimed(db: Db, i: nat, k: Key)
    requires i < |db.raw| && db.raw[i].latency.Some? && k == KeyOf(k.tier, db.raw[i]) && Aligned(k.start, k.tier)
    ensures LatenciesIn(db.raw, k) != [] && InBucket(db.raw[i], k)
  {
    InBucketIff(db.raw[i], k);
    assert db.raw[i] in Bucket(db.raw, k);
    assert db.raw[i].latency.value in LatenciesIn(db.raw, k);
  }

  lemma RetoldLatencies(db: Db, i: nat, y: int, k: Key)
    requires i < |db.raw| && db.raw[i].latency.Some?
    ensures LatenciesIn(Retold(db, i, y).raw, k) != [] <==> LatenciesIn(db.raw, k) != []
  {
    RetoldBucket(db, i, y, k);
  }

  lemma RetoldTimed(db: Db, i: nat, y: int, tier: Tier, ks: set<Key>)
    requires Fresh(db) && i < |db.raw| && db.raw[i].latency.Some? && TierRows(db, tier, ks)
    ensures TierRows(Retold(db, i, y), tier, ks) && TimedRows(Retold(db, i, y), ks) == TimedRows(db, ks)
  {
    RetoldFresh(db, i, y);
    TimedRowsAre(db, ks);
    TimedRowsAre(Retold(db, i, y), ks);
    forall j | j in ks ensures LatenciesIn(Retold(db, i, y).raw, j) != [] <==> LatenciesIn(db.raw, j) != [] {
      RetoldLatencies(db, i, y, j);
    }
  }

  lemma RetoldTotal(db: Db, i: nat, y: int, tier: Tier, ks: set<Key>)
    requires Fresh(db) && i < |db.raw| && db.raw[i].latency.Some? && TierRows(db, tier, ks)
    requires KeyOf(tier, db.raw[i]) in ks && ks <= Retold(db, i, y).rollups.Keys
    ensures var k, told := KeyOf(tier, db.raw[i]), Retold(db, i, y);
            Total(told, ks) - Total(db, ks) == AverageTimesChecks(told)(k) - AverageTimesChecks(db)(k)
  {
    var k, told := KeyOf(tier, db.raw[i]), Retold(db, i, y);
    RetoldFresh(db, i, y);
    RetoldTimed(db, i, y, tier, ks);
    RowOfTimed(db, i, k);
    TimedRowsAre(db, ks);
    var timed := TimedRows(db, ks);
    forall j | j in timed - {k} ensures AverageTimesChecks(told)(j) == AverageTimesChecks(db)(j) {
      RowFacts(db, j);
      RowFacts(told, j);
      OtherRowKept(db, i, y, j);
    }
    SumRemoveReal(timed, AverageTimesChecks(db), k);
    SumRemoveReal(timed, AverageTimesChecks(told), k);
    SumAgreeReal(timed - {k}, AverageTimesChecks(told), AverageTimesChecks(db));
  }

  /** Two histories that differ in one latency cannot both be averaged right, unless the row of that check
      holds its share. */
  lemma OneLatencyTells(db: Db, i: nat, y: int, tier: Tier, ks: set<Key>)
    requires Fresh(db) && TierRows(db, tier, ks) && i < |db.raw| && KeyOf(tier, db.raw[i]) in ks
    requires db.raw[i].latency.Some? && y != db.raw[i].latency.value
    requires AverageIsMean(db, tier, ks)
    requires ks <= Retold(db, i, y).rollups.Keys && AverageIsMean(Retold(db, i, y), tier, ks)
    ensures var k := KeyOf(tier, db.raw[i]);
            SameShare(|Bucket(db.raw, k)|, |LatenciesIn(db.raw, k)|, |Rows(db, tier, ks)|, |LatenciesOf(db, tier, ks)|)
  {
    var k, told := KeyOf(tier, db.raw[i]), Retold(db, i, y);
    RetoldFresh(db, i, y);
    RetoldTimed(db, i, y, tier, ks);
    RetoldTotal(db, i, y, tier, ks);
    RetoldRows(db, i, y, tier, ks);
    RetoldBucket(db, i, y, k);
    RowOfTimed(db, i, k);
    LatencyInRow(db, tier, ks);
    var a := RightRead(db, tier, ks);
    var a2 := RightRead(told, tier, ks);
    RowFacts(db, k);
    RowFacts(told, k);
    var m := RowRead(db, k);
    var m2 := RowRead(told, k);
    SharesApart(a, a2, m, m2, |Rows(db, tier, ks)|, |LatenciesOf(db, tier, ks)|, |Bucket(db.raw, k)|,
                |LatenciesIn(db.raw, k)|, y - db.raw[i].latency.value);
  }

  // ---------------------------------------------------------------- the exact condition

  /** The read is right for this history, and stays right when any one of its latencies is told otherwise. */
  ghost predicate AlwaysRight(db: Db, tier: Tier, ks: set<Key>)
    requires ks <= db.rollups.Keys
  {
    && AverageIsMean(db, tier, ks)
    && forall i: nat, y: int :: i < |db.raw| && db.raw[i].latency.Some? ==> RightWhen(db, tier, ks, i, y)
  }

  ghost predicate RightWhen(db: Db, tier: Tier, ks: set<Key>, i: nat, y: int)
    requires ks <= db.rollups.Keys && i < |db.raw|
  {
    assert Retold(db, i, y).rollups.Keys == db.rollups.Keys;
    AverageIsMean(Retold(db, i, y), tier, ks)
  }

  /** The average through the rollups is the mean of the raw latencies, whatever the latencies are, if and
      only if every row with a latency holds the same share of the timed checks as of all checks. */
  lemma AverageAlwaysRightIff(db: Db, tier: Tier, ks: set<Key>)
    requires Fresh(db) && TierRows(db, tier, ks)
    ensures AlwaysRight(db, tier, ks) <==> Even(db, tier, ks)
  {
    if Even(db, tier, ks) {
      EvenRowsAverageRight(db, tier, ks);
      forall i: nat, y: int | i < |db.raw| && db.raw[i].latency.Some? ensures RightWhen(db, tier, ks, i, y) {
        RetoldFresh(db, i, y);
        RetoldEven(db, i, y, tier, ks);
        EvenRowsAverageRight(Retold(db, i, y), tier, ks);
      }
    }
    if AlwaysRight(db, tier, ks) {
      forall k | k in ks && LatenciesIn(db.raw, k) != []
        ensures SameShare(|Bucket(db.raw, k)|, |LatenciesIn(db.raw, k)|, |Rows(db, tier, ks)|,
                          |LatenciesOf(db, tier, ks)|)
      {
        var i := SomeTimedCheck(db, tier, ks, k);
        var y := db.raw[i].latency.value + 1;
        RetoldFresh(db, i, y);
        assert RightWhen(db, tier, ks, i, y);
        OneLatencyTells(db, i, y, tier, ks);
      }
    }
  }

  lemma SomeTimedCheck(db: Db, tier: Tier, ks: set<Key>, k: Key) returns (i: nat)
    requires TierRows(db, tier, ks) && k in ks && LatenciesIn(db.raw, k) != []
    ensures i < |db.raw| && db.raw[i].latency.Some? && KeyOf(tier, db.raw[i]) == k
  {
    LatencyMembers(Bucket(db.raw, k), LatenciesIn(db.raw, k)[0]);
    var c :| c in Bucket(db.raw, k) && c.latency == Some(LatenciesIn(db.raw, k)[0]);
    i :| 0 <= i < |db.raw| && db.raw[i] == c;
    InBucketIff(c, k);
  }
}
