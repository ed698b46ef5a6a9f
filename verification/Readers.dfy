/** `get_monitor_window_stats` and `count_user_checks_in_window`: what a read from a rollup table
    says about the raw history. */
module Readers {
  import opened Tables
  import opened Buckets
  import opened Aggregate
  import opened History
  import opened Lockstep
  import opened Memo

  // ---------------------------------------------------------------- the two readers

  datatype Stats = Stats(source: Source, checks: int, ok: int, fail: int,
                         avg: Option<real>, low: Option<int>, high: Option<int>)

  /** Rollup rows with `monitor_id` among `ms` and `window_start >= cutoff`. */
  ghost function Selected(db: Db, tier: Tier, ms: set<string>, cutoff: int): set<Key> {
    set k | k in db.rollups && k.tier == tier && k.monitor in ms && k.start >= cutoff
  }

  /** The three count columns. */
  datatype Column = Checks | Oks | Fails

  function Counted(c: Check, col: Column): int {
    match col
    case Checks => 1
    case Oks => if IsUp(c) then 1 else 0
    case Fails => if IsUp(c) then 0 else 1
  }

  function CountOf(r: Row, col: Column): int {
    match col
    case Checks => r.checks
    case Oks => r.ok
    case Fails => r.fail
  }

  function ColumnOf(db: Db, col: Column): Key -> int {
    k => if k in db.rollups then CountOf(db.rollups[k], col) else 0
  }

  ghost function SumColumn(db: Db, ks: set<Key>, col: Column): int
    requires ks <= db.rollups.Keys
  {
    SumOver(ks, ColumnOf(db, col))
  }

  ghost function TimedRows(db: Db, ks: set<Key>): set<Key>
    requires ks <= db.rollups.Keys
  {
    set k | k in ks && db.rollups[k].avg.Some?
  }

  /** SUM(avg_latency_ms * check_count) / SUM(check_count); SUM skips NULLs and is NULL when nothing
      is left. */
  ghost function WeightedAverage(db: Db, ks: set<Key>): Option<real>
    requires ks <= db.rollups.Keys
  {
    var timed := TimedRows(db, ks);
    var checks := SumColumn(db, ks, Checks);
    if checks <= 0 || timed == {} then None else
      Some(SumOverReal(timed, AverageTimesChecks(db)) / checks as real)
  }

  function AverageTimesChecks(db: Db): Key -> real {
    k => if k in db.rollups && db.rollups[k].avg.Some? then RowTotal(db.rollups[k]) else 0.0
  }

  function RowTotal(r: Row): real
    requires r.avg.Some?
  {
    r.avg.value * r.checks as real
  }

  /** MIN(p50_latency_ms): the rollups carry no true minimum. */
  ghost function LowLatency(db: Db, ks: set<Key>): Option<int>
    requires ks <= db.rollups.Keys
  {
    Least(set k | k in ks && db.rollups[k].p50.Some? :: db.rollups[k].p50.value)
  }

  /** MAX(p99_latency_ms) */
  ghost function HighLatency(db: Db, ks: set<Key>): Option<int>
    requires ks <= db.rollups.Keys
  {
    Greatest(set k | k in ks && db.rollups[k].p99.Some? :: db.rollups[k].p99.value)
  }

  ghost function RawStats(db: Db, m: string, cutoff: int): Stats {
    var rows := Where(db.raw, (c: Check) => c.monitor == m && c.at >= cutoff);
    var ls := Latencies(rows);
    Stats(Raw, |rows|, |Where(rows, IsUp)|, |Where(rows, IsNotUp)|,
          if ls == [] then None else Some(Mean(Sum(ls), |ls|)),
          Least(set v | v in ls), Greatest(set v | v in ls))
  }

  ghost function TierStats(db: Db, tier: Tier, m: string, cutoff: int): Stats {
    var ks := Selected(db, tier, {m}, cutoff);
    Stats(Rollup(tier), SumColumn(db, ks, Checks), SumColumn(db, ks, Oks), SumColumn(db, ks, Fails),
          WeightedAverage(db, ks), LowLatency(db, ks), HighLatency(db, ks))
  }

  /** A window ends at the clock. */
  function Cutoff(db: Db, window: int): (cutoff: int)
    ensures cutoff + window == db.now
  {
    db.now - window
  }

  /** `get_monitor_window_stats` */
  ghost function WindowStats(db: Db, m: string, window: int): Stats {
    var cutoff := Cutoff(db, window);
    match PickTier(window)
    case Raw => RawStats(db, m, cutoff)
    case Rollup(tier) => TierStats(db, tier, m, cutoff)
  }

  ghost function OwnedBy(db: Db, user: string): set<string> {
    set m | m in db.monitors && db.monitors[m].owner == user
  }

  /** `count_user_checks_in_window` */
  ghost function UserChecks(db: Db, user: string, window: int): int {
    var cutoff := Cutoff(db, window);
    match PickTier(window)
    case Raw => |Where(db.raw, (c: Check) => c.monitor in OwnedBy(db, user) && c.at >= cutoff)|
    case Rollup(tier) => SumColumn(db, Selected(db, tier, OwnedBy(db, user), cutoff), Checks)
  }

  // ---------------------------------------------------------------- rows against raw checks

  /** The one rollup key of a tier that a check belongs to. */
  function KeyOf(tier: Tier, c: Check): Key {
    Key(tier, c.monitor, FloorToBucket(c.at, tier))
  }

  lemma InBucketIff(c: Check, k: Key)
    requires Aligned(k.start, k.tier)
    ensures InBucket(c, k) <==> KeyOf(k.tier, c) == k
  {
    FloorUnique(c.at, k.tier, k.start);
  }

  lemma ColumnWeight(rows: seq<Check>, col: Column, w: Check -> int)
    requires rows != [] && forall c :: c in rows ==> w(c) == Counted(c, col)
    ensures CountOf(Summarize(rows).value, col) == Weigh(rows, w)
  {
    match col
    case Checks =>
      WeighCounts(rows, c => true, w);
      WhereAll(rows, c => true);
    case Oks => WeighCounts(rows, IsUp, w);
    case Fails => WeighCounts(rows, IsNotUp, w);
  }

  /** `key` tells the buckets of `ks` apart. */
  ghost predicate Separates(raw: seq<Check>, ks: set<Key>, key: Check -> Key) {
    forall c, k :: c in raw && k in ks ==> (InBucket(c, k) <==> key(c) == k)
  }

  /** A count column of one row counts exactly the raw checks of its bucket. */
  lemma RowIsRawCount(db: Db, k: Key, col: Column, u: Check -> int)
    requires Fresh(db) && k in db.rollups
    requires forall c :: c in db.raw ==> u(c) == if InBucket(c, k) then Counted(c, col) else 0
    ensures CountOf(db.rollups[k], col) == Weigh(db.raw, u)
  {
    var b := Bucket(db.raw, k);
    var w := (c: Check) => Counted(c, col);
    assert Summarize(b) == Some(db.rollups[k]);
    ColumnWeight(b, col, w);
    WeighWhere(db.raw, c => InBucket(c, k), w, u);
  }

  /** A count column summed over any rows counts exactly the raw checks of their buckets. */
  lemma SumIsRawCount(db: Db, ks: set<Key>, key: Check -> Key, col: Column, u: Check -> int)
    requires Fresh(db) && ks <= db.rollups.Keys && Separates(db.raw, ks, key)
    requires forall c :: c in db.raw ==> u(c) == if key(c) in ks then Counted(c, col) else 0
    ensures SumColumn(db, ks, col) == Weigh(db.raw, u)
  {
    var w := (c: Check) => Counted(c, col);
    var fibre := (k: Key) => (c: Check) => if InBucket(c, k) then Counted(c, col) else 0;
    var f := ColumnOf(db, col);
    forall k | k in ks ensures f(k) == Weigh(db.raw, fibre(k)) {
      RowIsRawCount(db, k, col, fibre(k));
    }
    SumOfFibres(db.raw, key, ks, w, fibre, f, u);
  }

  lemma TierSeparates(db: Db, tier: Tier, ks: set<Key>)
    requires forall k :: k in ks ==> k.tier == tier && Aligned(k.start, tier)
    ensures Separates(db.raw, ks, c => KeyOf(tier, c))
  {
    forall c, k | c in db.raw && k in ks ensures InBucket(c, k) <==> KeyOf(tier, c) == k {
      InBucketIff(c, k);
    }
  }
}
