/** Integer arithmetic of one-minute, five-minute and one-hour buckets. Each length has its own small
    lemmas, over its own constants; Buckets puts them together. */
module BucketArithmetic {

  /** `int(dt.timestamp())` of a microsecond count: truncates toward zero. */
  function WholeSeconds(t: int): int {
    if t >= 0 then t / 1_000_000 else -((-t) / 1_000_000)
  }

  lemma WholeSecondsBeforeEpoch(t: int)
    requires t < 0
    ensures WholeSeconds(t) * 1_000_000 == if t % 1_000_000 == 0 then t else t - t % 1_000_000 + 1_000_000
  {
  }

  // ---------------------------------------------------------------- one-minute buckets

  function FloorTo1m(t: int): int { WholeSeconds(t) / 60 * 60_000_000 }

  predicate Multiple1m(t: int) { t % 60_000_000 == 0 }

  function CeilTo1m(t: int): (r: int)
    ensures Multiple1m(r) && t <= r < t + 60_000_000
  {
    -((-t) / 60_000_000) * 60_000_000
  }

  lemma Gap1m(x: int, y: int)
    requires Multiple1m(x) && Multiple1m(y)
    ensures x < y + 60_000_000 ==> x <= y
  {
  }

  lemma Step1m(x: int)
    requires Multiple1m(x)
    ensures Multiple1m(x + 60_000_000) && Multiple1m(x - 60_000_000)
  {
  }

  lemma Aligned1m(t: int)
    ensures Multiple1m(FloorTo1m(t))
  {
  }

  lemma Bounds1m(t: nat)
    ensures 0 <= FloorTo1m(t) <= t < FloorTo1m(t) + 60_000_000
  {
  }

  lemma Unique1m(t: nat, start: int)
    requires Multiple1m(start)
    ensures start <= t < start + 60_000_000 <==> start == FloorTo1m(t)
  {
  }

  lemma BeforeEpoch1m(t: int)
    requires t < 0
    ensures FloorTo1m(t) <= 0
    ensures var up := if t % 1_000_000 == 0 then t else t - t % 1_000_000 + 1_000_000;
            (FloorTo1m(t) <= t < FloorTo1m(t) + 60_000_000 <==> t == up || !Multiple1m(up)) && FloorTo1m(t) <= up
  {
    WholeSecondsBeforeEpoch(t);
  }

  lemma Fixed1m(start: int)
    requires start < 0 && Multiple1m(start)
    ensures FloorTo1m(start) == start
  {
    var seconds := start / 1_000_000;
    assert seconds * 1_000_000 == start;
    assert WholeSeconds(start) == seconds;
    assert seconds % 60 == 0;
  }

  // ---------------------------------------------------------------- five-minute buckets

  function FloorTo5m(t: int): int { WholeSeconds(t) / 300 * 300_000_000 }

  predicate Multiple5m(t: int) { t % 300_000_000 == 0 }

  function CeilTo5m(t: int): (r: int)
    ensures Multiple5m(r) && t <= r < t + 300_000_000
  {
    -((-t) / 300_000_000) * 300_000_000
  }

  lemma Gap5m(x: int, y: int)
    requires Multiple5m(x) && Multiple5m(y)
    ensures x < y + 300_000_000 ==> x <= y
  {
  }

  lemma Step5m(x: int)
    requires Multiple5m(x)
    ensures Multiple5m(x + 300_000_000) && Multiple5m(x - 300_000_000)
  {
  }

  lemma Aligned5m(t: int)
    ensures Multiple5m(FloorTo5m(t))
  {
  }

  lemma Bounds5m(t: nat)
    ensures 0 <= FloorTo5m(t) <= t < FloorTo5m(t) + 300_000_000
  {
  }

  lemma Unique5m(t: nat, start: int)
    requires Multiple5m(start)
    ensures start <= t < start + 300_000_000 <==> start == FloorTo5m(t)
  {
  }

  lemma BeforeEpoch5m(t: int)
    requires t < 0
    ensures FloorTo5m(t) <= 0
    ensures var up := if t % 1_000_000 == 0 then t else t - t % 1_000_000 + 1_000_000;
            (FloorTo5m(t) <= t < FloorTo5m(t) + 300_000_000 <==> t == up || !Multiple5m(up)) && FloorTo5m(t) <= up
  {
    WholeSecondsBeforeEpoch(t);
  }

  lemma Fixed5m(start: int)
    requires start < 0 && Multiple5m(start)
    ensures FloorTo5m(start) == start
  {
    var seconds := start / 1_000_000;
    assert seconds * 1_000_000 == start;
    assert WholeSeconds(start) == seconds;
    assert seconds % 300 == 0;
  }

  // ---------------------------------------------------------------- one-hour buckets

  function FloorTo1h(t: int): int { WholeSeconds(t) / 3600 * 3_600_000_000 }

  predicate Multiple1h(t: int) { t % 3_600_000_000 == 0 }

  function CeilTo1h(t: int): (r: int)
    ensures Multiple1h(r) && t <= r < t + 3_600_000_000
  {
    -((-t) / 3_600_000_000) * 3_600_000_000
  }

  lemma Gap1h(x: int, y: int)
    requires Multiple1h(x) && Multiple1h(y)
    ensures x < y + 3_600_000_000 ==> x <= y
  {
  }

  lemma Step1h(x: int)
    requires Multiple1h(x)
    ensures Multiple1h(x + 3_600_000_000) && Multiple1h(x - 3_600_000_000)
  {
  }

  lemma Aligned1h(t: int)
    ensures Multiple1h(FloorTo1h(t))
  {
  }

  lemma Bounds1h(t: nat)
    ensures 0 <= FloorTo1h(t) <= t < FloorTo1h(t) + 3_600_000_000
  {
  }

  lemma Unique1h(t: nat, start: int)
    requires Multiple1h(start)
    ensures start <= t < start + 3_600_000_000 <==> start == FloorTo1h(t)
  {
  }

  lemma BeforeEpoch1h(t: int)
    requires t < 0
    ensures FloorTo1h(t) <= 0
    ensures var up := if t % 1_000_000 == 0 then t else t - t % 1_000_000 + 1_000_000;
            (FloorTo1h(t) <= t < FloorTo1h(t) + 3_600_000_000 <==> t == up || !Multiple1h(up)) && FloorTo1h(t) <= up
  {
    WholeSecondsBeforeEpoch(t);
  }

  lemma Fixed1h(start: int)
    requires start < 0 && Multiple1h(start)
    ensures FloorTo1h(start) == start
  {
    var seconds := start / 1_000_000;
    assert seconds * 1_000_000 == start;
    assert WholeSeconds(start) == seconds;
    assert seconds % 3600 == 0;
  }
}
