/** Bucket arithmetic of pingback/db/rollups.py. Instants are whole microseconds since the Unix
    epoch, the resolution of a Python datetime. */
module Buckets {
  import opened BucketArithmetic

  const SECOND := 1_000_000
  const DAY := 86_400_000_000

  /** The three rollup tables. */
  datatype Tier = M1 | M5 | H1

  /** Where a read is answered from. */
  datatype Source = Raw | Rollup(tier: Tier)

  /** Length of one bucket in microseconds. */
  function Width(t: Tier): (w: int)
    ensures 60_000_000 <= w <= 3_600_000_000
  {
    match t
    case M1 => 60_000_000
    case M5 => 300_000_000
    case H1 => 3_600_000_000
  }

  /** `floor_to_bucket` */
  function FloorToBucket(t: int, tier: Tier): int {
    match tier
    case M1 => FloorTo1m(t)
    case M5 => FloorTo5m(t)
    case H1 => FloorTo1h(t)
  }

  /** Is `start` a whole number of buckets from the epoch? */
  predicate Aligned(start: int, tier: Tier) {
    match tier
    case M1 => Multiple1m(start)
    case M5 => Multiple5m(start)
    case H1 => Multiple1h(start)
  }

  /** `pick_tier`, on a window in microseconds. */
  function PickTier(window: int): Source {
    if window < 3_600_000_000 then Raw
    else if window < DAY then Rollup(M1)
    else if window < 7 * DAY then Rollup(M5)
    else Rollup(H1)
  }

  /** How the tier is chosen, counted in buckets: raw exactly below 60 whole minutes, minutes exactly from
      there to a day of them, five minutes exactly from there to a week of them, and hours from there on. So a
      tier is as fine as its budget of buckets allows, and a rollup window holds at least 60 buckets: the two
      partial ones at its ends are at most a thirtieth of it. */
  lemma TierIsFinestAffordable(window: int)
    ensures PickTier(window) == Raw <==> window < 60 * Width(M1)
    ensures PickTier(window) == Rollup(M1) <==> 60 * Width(M1) <= window < 1440 * Width(M1)
    ensures PickTier(window) == Rollup(M5) <==> 1440 * Width(M1) <= window < 2016 * Width(M5)
    ensures PickTier(window) == Rollup(H1) <==> 2016 * Width(M5) <= window
    ensures PickTier(window).Rollup? ==> 60 * Width(PickTier(window).tier) <= window
  {
    match PickTier(window)
    case Raw =>
    case Rollup(tier) => assert tier == M1 || tier == M5 || tier == H1;
  }

  /** The first bucket edge at or after `t`. */
  function EdgeAtOrAfter(t: int, tier: Tier): (e: int)
    ensures Aligned(e, tier) && t <= e < t + Width(tier)
  {
    match tier
    case M1 => CeilTo1m(t)
    case M5 => CeilTo5m(t)
    case H1 => CeilTo1h(t)
  }

  // ---------------------------------------------------------------- rounding down

  lemma AlignedGap(x: int, y: int, tier: Tier)
    requires Aligned(x, tier) && Aligned(y, tier)
    ensures x < y + Width(tier) ==> x <= y
  {
    match tier
    case M1 => Gap1m(x, y);
    case M5 => Gap5m(x, y);
    case H1 => Gap1h(x, y);
  }

  lemma AlignedStep(x: int, tier: Tier)
    requires Aligned(x, tier)
    ensures Aligned(x + Width(tier), tier) && Aligned(x - Width(tier), tier)
  {
    match tier
    case M1 => Step1m(x);
    case M5 => Step5m(x);
    case H1 => Step1h(x);
  }

  lemma FloorAligned(t: int, tier: Tier)
    ensures Aligned(FloorToBucket(t, tier), tier)
    ensures t >= 0 ==> 0 <= FloorToBucket(t, tier) <= t < FloorToBucket(t, tier) + Width(tier)
  {
    match tier
    case M1 => Aligned1m(t); if t >= 0 { Bounds1m(t); }
    case M5 => Aligned5m(t); if t >= 0 { Bounds5m(t); }
    case H1 => Aligned1h(t); if t >= 0 { Bounds1h(t); }
  }

  /** From the epoch on, the bucket of an instant is the one aligned interval that holds it. */
  lemma FloorUnique(t: nat, tier: Tier, start: int)
    requires Aligned(start, tier)
    ensures start <= t < start + Width(tier) <==> start == FloorToBucket(t, tier)
  {
    match tier
    case M1 => Unique1m(t, start);
    case M5 => Unique5m(t, start);
    case H1 => Unique1h(t, start);
  }

  /** Flooring again changes nothing. */
  lemma FloorFixed(start: int, tier: Tier)
    requires Aligned(start, tier)
    ensures FloorToBucket(start, tier) == start
  {
    if start >= 0 {
      FloorUnique(start, tier, start);
    } else {
      match tier
      case M1 => Fixed1m(start);
      case M5 => Fixed5m(start);
      case H1 => Fixed1h(start);
    }
  }

  /** The next whole second at or after `t`. */
  function SecondAtOrAfter(t: int): int {
    if t % 1_000_000 == 0 then t else t - t % 1_000_000 + 1_000_000
  }

  /** Rounding down is exact for every instant, except in the last fraction of a second before a
      bucket edge at or before the epoch: there `int()` truncates a negative timestamp up to the
      edge. */
  lemma FloorsDownIff(t: int, tier: Tier)
    ensures FloorToBucket(t, tier) <= t < FloorToBucket(t, tier) + Width(tier)
      <==> !(t < 0 && t != SecondAtOrAfter(t) && Aligned(SecondAtOrAfter(t), tier))
  {
    if t >= 0 {
      FloorAligned(t, tier);
    } else {
      NegativeFloor(t, tier);
    }
  }

  lemma NegativeFloor(t: int, tier: Tier)
    requires t < 0
    ensures FloorToBucket(t, tier) <= 0
    ensures FloorToBucket(t, tier) <= t < FloorToBucket(t, tier) + Width(tier)
      <==> t == SecondAtOrAfter(t) || !Aligned(SecondAtOrAfter(t), tier)
    ensures FloorToBucket(t, tier) <= SecondAtOrAfter(t)
  {
    match tier
    case M1 => BeforeEpoch1m(t);
    case M5 => BeforeEpoch5m(t);
    case H1 => BeforeEpoch1h(t);
  }

  lemma FloorMonotone(a: nat, b: nat, tier: Tier)
    requires a <= b
    ensures FloorToBucket(a, tier) <= FloorToBucket(b, tier)
  {
    FloorAligned(a, tier);
    FloorAligned(b, tier);
    AlignedGap(FloorToBucket(a, tier), FloorToBucket(b, tier), tier);
  }

  /** Does every bucket of tier `coarse` consist of whole buckets of tier `fine`? */
  predicate Refines(fine: Tier, coarse: Tier) {
    fine == coarse || fine == M1 || coarse == H1
  }

  lemma AlignedToFiner(x: int, fine: Tier, coarse: Tier)
    requires Refines(fine, coarse) && Aligned(x, coarse)
    ensures Aligned(x, fine)
  {
    match (fine, coarse)
    case (M1, M1) =>
    case (M1, M5) =>
    case (M1, H1) =>
    case (M5, M5) =>
    case (M5, H1) =>
    case (H1, H1) =>
  }

  /** Buckets nest: going through a finer tier first does not change the coarse bucket. */
  lemma FloorsNest(t: nat, fine: Tier, coarse: Tier)
    requires Refines(fine, coarse)
    ensures FloorToBucket(FloorToBucket(t, fine), coarse) == FloorToBucket(t, coarse)
  {
    var f, g := FloorToBucket(t, fine), FloorToBucket(t, coarse);
    FloorAligned(t, fine);
    FloorAligned(t, coarse);
    AlignedToFiner(g, fine, coarse);
    AlignedGap(g, f, fine);
    FloorUnique(f, coarse, g);
  }

  lemma FloorVersusCutoff(t: nat, cutoff: int, tier: Tier)
    ensures FloorToBucket(t, tier) >= cutoff <==> t >= EdgeAtOrAfter(cutoff, tier)
    ensures FloorToBucket(t, tier) >= cutoff ==> t >= cutoff
  {
    FloorAligned(t, tier);
    AlignedGap(EdgeAtOrAfter(cutoff, tier), FloorToBucket(t, tier), tier);
  }

  /** An instant whose bucket has ended lies before the bucket of `now`. */
  lemma EndedBefore(t: nat, now: nat, tier: Tier)
    ensures FloorToBucket(t, tier) + Width(tier) <= now <==> t < FloorToBucket(now, tier)
  {
    var f, g := FloorToBucket(t, tier), FloorToBucket(now, tier);
    FloorAligned(t, tier);
    FloorAligned(now, tier);
    AlignedStep(f, tier);
    AlignedGap(f + Width(tier), g, tier);
    AlignedGap(g, f, tier);
  }

  // ---------------------------------------------------------------- the newest ended bucket

  /** The bucket that `compact_recent` looks at. */
  function LastWindow(now: nat, tier: Tier): int {
    FloorToBucket(now - Width(tier), tier)
  }

  predicate NotElapsed(now: nat, tier: Tier) {
    LastWindow(now, tier) + Width(tier) > FloorToBucket(now, M1)
  }

  /** The "not fully elapsed" guard never fires once the clock is a bucket past the epoch; before
      that it fires only where the truncation of a negative timestamp rounds up. */
  lemma GuardFiresIff(now: nat, tier: Tier)
    ensures NotElapsed(now, tier) <==> Width(tier) - SECOND < now < Width(tier)
    ensures !NotElapsed(now, tier) ==> LastWindow(now, tier) + Width(tier) == FloorToBucket(now, tier)
    ensures NotElapsed(now, tier) ==> FloorToBucket(now, tier) == 0
  {
    var w := Width(tier);
    var last := LastWindow(now, tier);
    FloorAligned(now, M1);
    FloorAligned(now - w, tier);
    if now >= w {
      AlignedStep(last, tier);
      FloorUnique(now, tier, last + w);
      AlignedToFiner(last + w, M1, tier);
      AlignedGap(last + w, FloorToBucket(now, M1), M1);
    } else {
      ZeroAligned(tier);
      FloorUnique(now, tier, 0);
      FirstBucketGuard(now, tier);
    }
  }

  lemma ZeroAligned(tier: Tier)
    ensures Aligned(0, tier)
  {
  }

  lemma FirstBucketGuard(now: nat, tier: Tier)
    requires now < Width(tier)
    ensures LastWindow(now, tier) == if now > Width(tier) - SECOND then 0 else -Width(tier)
    ensures FloorToBucket(now, M1) < Width(tier)
  {
    var w := Width(tier);
    var t := now - w;
    ZeroAligned(tier);
    AlignedStep(0, tier);
    FloorAligned(now, M1);
    FloorAligned(t, tier);
    NegativeFloor(t, tier);
    var f, up := FloorToBucket(t, tier), SecondAtOrAfter(t);
    if now > w - SECOND {
      assert up == 0;
      AlignedGap(0, f, tier);
    } else {
      assert -w <= up < 0;
      if Aligned(up, tier) {
        AlignedGap(up, -w, tier);
      }
      AlignedGap(f, -w, tier);
      AlignedGap(-w, f, tier);
    }
  }

  /** What the guard lets through is exactly the newest bucket that has ended. */
  lemma LastWindowIsNewestElapsed(now: nat, tier: Tier)
    requires !NotElapsed(now, tier)
    ensures Aligned(LastWindow(now, tier), tier)
    ensures LastWindow(now, tier) + Width(tier) == FloorToBucket(now, tier)
    ensures LastWindow(now, tier) + Width(tier) <= now < LastWindow(now, tier) + 2 * Width(tier)
  {
    FloorAligned(now, tier);
    FloorAligned(now - Width(tier), tier);
    GuardFiresIff(now, tier);
  }

  /** Two consecutive compactions, at `a` and then at `b`, leave no bucket between them uncompacted
      exactly when `b` falls in the bucket of `a` or in the one after it. */
  lemma NoBucketSkippedIff(a: nat, b: nat, tier: Tier)
    requires a <= b && !NotElapsed(b, tier)
    ensures (forall start :: Aligned(start, tier) && a < start + Width(tier) <= b ==> start == LastWindow(b, tier))
      <==> FloorToBucket(b, tier) - FloorToBucket(a, tier) <= Width(tier)
  {
    var w := Width(tier);
    var fa, fb := FloorToBucket(a, tier), FloorToBucket(b, tier);
    LastWindowIsNewestElapsed(b, tier);
    FloorAligned(a, tier);
    FloorAligned(b, tier);
    if fb - fa <= w {
      forall start | Aligned(start, tier) && a < start + w <= b ensures start == fb - w {
        AlignedStep(start, tier);
        AlignedGap(fa, start, tier);
        AlignedGap(start + w, fb, tier);
      }
    } else {
      // the bucket of `a` itself has ended by `b` and is not the newest one
      assert Aligned(fa, tier) && a < fa + w <= b && fa != LastWindow(b, tier);
    }
  }

  /** Calls at most one bucket apart skip nothing; any longer gap skips a bucket at some phase. */
  lemma NoBucketSkippedAtEveryPhaseIff(gap: nat, tier: Tier)
    ensures (forall a: nat :: FloorToBucket(a + gap, tier) - FloorToBucket(a, tier) <= Width(tier))
      <==> gap <= Width(tier)
  {
    var w := Width(tier);
    if gap > w {
      var a := w - 1;
      assert Aligned(0, tier);
      AlignedStep(0, tier);
      AlignedStep(w, tier);
      FloorUnique(a, tier, 0);
      FloorFixed(2 * w, tier);
      FloorMonotone(2 * w, a + gap, tier);
      assert FloorToBucket(a + gap, tier) - FloorToBucket(a, tier) > w;
    } else {
      forall a: nat ensures FloorToBucket(a + gap, tier) - FloorToBucket(a, tier) <= w {
        FloorAligned(a, tier);
        FloorAligned(a + gap, tier);
        AlignedStep(FloorToBucket(a, tier), tier);
        AlignedGap(FloorToBucket(a + gap, tier), FloorToBucket(a, tier) + w, tier);
      }
    }
  }
}
