/** When do the rollup readers answer what a scan of the raw history would? */
module Coverage {
  import opened Tables
  import opened Buckets
  import opened Aggregate
  import opened History
  import opened Lockstep
  import opened Memo
  import opened Readers

  /** What a check adds to a count column of the raw scan over `lo <= checked_at < hi`. */
  function InSpan(ms: set<string>, lo: int, hi: int, col: Column): Check -> int {
    (c: Check) => if c.monitor in ms && lo <= c.at < hi then Counted(c, col) else 0
  }

  function RawCount(db: Db, ms: set<string>, lo: int, hi: int, col: Column): int {
    Weigh(db.raw, InSpan(ms, lo, hi, col))
  }

  /** What a check adds to a count column of a read of the rows `ks`. */
  ghost function InRows(tier: Tier, ks: set<Key>, col: Column): Check -> int {
    c => if KeyOf(tier, c) in ks then Counted(c, col) else 0
  }

  /** Every check of the monitors in that span has a row for its bucket. */
  ghost predicate Covered(db: Db, tier: Tier, ms: set<string>, from: int, upto: int) {
    forall c :: c in db.raw && c.monitor in ms && from <= c.at < upto ==> KeyOf(tier, c) in db.rollups
  }

  lemma {:induction false} WeighAtMost<T>(s: seq<T>, p: T -> int, q: T -> int)
    requires forall x :: x in s ==> p(x) <= q(x)
    ensures Weigh(s, p) <= Weigh(s, q)
  {
    if s == [] {
    } else {
      WeighAtMost(s[..|s| - 1], p, q);
    }
  }

  lemma {:induction false} WeighLess<T>(s: seq<T>, p: T -> int, q: T -> int, y: T)
    requires (forall x :: x in s ==> p(x) <= q(x)) && y in s && p(y) < q(y)
    ensures Weigh(s, p) < Weigh(s, q)
  {
    if s[|s| - 1] == y {
      WeighAtMost(s[..|s| - 1], p, q);
    } else {
      WeighLess(s[..|s| - 1], p, q, y);
    }
  }

  lemma SelectedIff(db: Db, tier: Tier, ms: set<string>, cutoff: int, c: Check)
    requires Valid(db) && c in db.raw
    ensures KeyOf(tier, c) in Selected(db, tier, ms, cutoff)
      <==> KeyOf(tier, c) in db.rollups && c.monitor in ms && EdgeAtOrAfter(cutoff, tier) <= c.at
    ensures KeyOf(tier, c) in db.rollups ==> c.at < FloorToBucket(db.now, tier)
    ensures KeyOf(tier, c) in Selected(db, tier, ms, cutoff) ==> cutoff <= c.at
  {
    FloorVersusCutoff(c.at, cutoff, tier);
    if KeyOf(tier, c) in db.rollups {
      EndedBefore(c.at, db.now, tier);
    }
  }

  lemma ReadIsRawCount(db: Db, tier: Tier, ms: set<string>, cutoff: int, col: Column)
    requires Valid(db)
    ensures var ks := Selected(db, tier, ms, cutoff);
            SumColumn(db, ks, col) == Weigh(db.raw, InRows(tier, ks, col))
  {
    var ks := Selected(db, tier, ms, cutoff);
    TierSeparates(db, tier, ks);
    SumIsRawCount(db, ks, c => KeyOf(tier, c), col, InRows(tier, ks, col));
  }

  /** In every reachable state a rollup read reports at most the checks a raw scan of the window
      would find. */
  lemma ReadNeverExceedsRaw(db: Db, tier: Tier, ms: set<string>, cutoff: int, col: Column)
    requires Valid(db)
    ensures SumColumn(db, Selected(db, tier, ms, cutoff), col) <= RawCount(db, ms, cutoff, db.now + 1, col)
  {
    var u, v := InRows(tier, Selected(db, tier, ms, cutoff), col), InSpan(ms, cutoff, db.now + 1, col);
    ReadIsRawCount(db, tier, ms, cutoff, col);
    forall c | c in db.raw ensures u(c) <= v(c) {
      SelectedIff(db, tier, ms, cutoff, c);
    }
    WeighAtMost(db.raw, u, v);
  }

  /** Where the span up to `upto` is covered, it reports at least the checks from the first bucket
      edge in the window up to there. */
  lemma ReadReachesRaw(db: Db, tier: Tier, ms: set<string>, cutoff: int, upto: int, col: Column)
    requires Valid(db) && Covered(db, tier, ms, EdgeAtOrAfter(cutoff, tier), upto)
    ensures SumColumn(db, Selected(db, tier, ms, cutoff), col)
         >= RawCount(db, ms, EdgeAtOrAfter(cutoff, tier), upto, col)
  {
    var u := InRows(tier, Selected(db, tier, ms, cutoff), col);
    var v := InSpan(ms, EdgeAtOrAfter(cutoff, tier), upto, col);
    ReadIsRawCount(db, tier, ms, cutoff, col);
    forall c | c in db.raw ensures v(c) <= u(c) {
      SelectedIff(db, tier, ms, cutoff, c);
    }
    WeighAtMost(db.raw, v, u);
  }

  /** Full coverage is exactly what makes the read of all checks equal the raw scan of the whole
      buckets of the window; the up and down counts then agree as well. */
  lemma ReadEqualsRawIff(db: Db, tier: Tier, ms: set<string>, cutoff: int)
    requires Valid(db)
    ensures var edge, top := EdgeAtOrAfter(cutoff, tier), FloorToBucket(db.now, tier);
      Covered(db, tier, ms, edge, top) <==>
      SumColumn(db, Selected(db, tier, ms, cutoff), Checks) == RawCount(db, ms, edge, top, Checks)
    ensures var edge, top := EdgeAtOrAfter(cutoff, tier), FloorToBucket(db.now, tier);
      Covered(db, tier, ms, edge, top) ==>
        && SumColumn(db, Selected(db, tier, ms, cutoff), Oks) == RawCount(db, ms, edge, top, Oks)
        && SumColumn(db, Selected(db, tier, ms, cutoff), Fails) == RawCount(db, ms, edge, top, Fails)
  {
    if Covered(db, tier, ms, EdgeAtOrAfter(cutoff, tier), FloorToBucket(db.now, tier)) {
      ReadEqualsRaw(db, tier, ms, cutoff, Checks);
      ReadEqualsRaw(db, tier, ms, cutoff, Oks);
      ReadEqualsRaw(db, tier, ms, cutoff, Fails);
    } else {
      ReadMissesRaw(db, tier, ms, cutoff);
    }
  }

  lemma ReadEqualsRaw(db: Db, tier: Tier, ms: set<string>, cutoff: int, col: Column)
    requires Valid(db) && Covered(db, tier, ms, EdgeAtOrAfter(cutoff, tier), FloorToBucket(db.now, tier))
    ensures SumColumn(db, Selected(db, tier, ms, cutoff), col)
         == RawCount(db, ms, EdgeAtOrAfter(cutoff, tier), FloorToBucket(db.now, tier), col)
  {
    var u := InRows(tier, Selected(db, tier, ms, cutoff), col);
    var v := InSpan(ms, EdgeAtOrAfter(cutoff, tier), FloorToBucket(db.now, tier), col);
    ReadIsRawCount(db, tier, ms, cutoff, col);
    forall c | c in db.raw ensures u(c) == v(c) {
      SelectedIff(db, tier, ms, cutoff, c);
    }
    WeighAgree(db.raw, u, v);
  }

  lemma ReadMissesRaw(db: Db, tier: Tier, ms: set<string>, cutoff: int)
    requires Valid(db) && !Covered(db, tier, ms, EdgeAtOrAfter(cutoff, tier), FloorToBucket(db.now, tier))
    ensures SumColumn(db, Selected(db, tier, ms, cutoff), Checks)
          < RawCount(db, ms, EdgeAtOrAfter(cutoff, tier), FloorToBucket(db.now, tier), Checks)
  {
    var edge, top := EdgeAtOrAfter(cutoff, tier), FloorToBucket(db.now, tier);
    var u, v := InRows(tier, Selected(db, tier, ms, cutoff), Checks), InSpan(ms, edge, top, Checks);
    ReadIsRawCount(db, tier, ms, cutoff, Checks);
    forall c | c in db.raw ensures u(c) <= v(c) {
      SelectedIff(db, tier, ms, cutoff, c);
    }
    var y :| y in db.raw && y.monitor in ms && edge <= y.at < top && KeyOf(tier, y) !in db.rollups;
    WeighLess(db.raw, u, v, y);
  }
}
