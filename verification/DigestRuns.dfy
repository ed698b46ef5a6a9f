/** Daily digests over whole runs: exactly when a lost mark makes a digest go out twice, and exactly when
    the passes of the scheduler step over a user's window. */
module DigestRuns {
  import opened Tables
  import opened Digest

  /** The last instant of the window of the local day of `t`. */
  function WindowEnd(t: int, offset: int): int {
    DayStart(t, offset) + SEND_HOUR + 7 * MINUTE
  }

  predicate IsPass(e: Event) {
    e.Tick? || e.Crash?
  }

  // ---------------------------------------------------------------- at most once, exactly

  /** A crash in its user's window, a later restart, and a pass after that. */
  predicate Torn(es: seq<Event>, offset: int, i: nat, j: nat, k: nat) {
    i < j < k < |es| && es[i].Crash? && InWindow(es[i].now, offset) && es[j].Restart? && IsPass(es[k])
  }

  /** Every pass after the restart that follows a crash in the window comes when that window is over. */
  ghost predicate Cleared(es: seq<Event>, offset: int) {
    forall i: nat, j: nat, k: nat :: Torn(es, offset, i, j, k) ==> es[k].now > WindowEnd(es[i].now, offset)
  }

  lemma ClearedPrefix(es: seq<Event>, offset: int)
    requires es != [] && Cleared(es, offset)
    ensures Cleared(es[..|es| - 1], offset)
  {
    var before := es[..|es| - 1];
    forall i: nat, j: nat, k: nat | Torn(before, offset, i, j, k)
      ensures before[k].now > WindowEnd(before[i].now, offset)
    {
      assert Torn(es, offset, i, j, k);
    }
  }

  ghost predicate Crashed(es: seq<Event>, x: int) {
    exists i :: 0 <= i < |es| && es[i] == Crash(x)
  }

  /** The process that sent at `x` died before the mark, and has been replaced. */
  ghost predicate Lost(es: seq<Event>, x: int) {
    exists i, j :: 0 <= i < j < |es| && es[i] == Crash(x) && es[j] == Restart
  }

  ghost predicate MarkedBy(p: Pref, x: int) {
    p.lastSent.Some? && x <= p.lastSent.value
  }

  /** A digest sent at `x` is guarded by its mark; or it was torn from it, and is guarded by the throttle
      until a restart. */
  ghost predicate Accounted(u: User, es: seq<Event>, x: int) {
    InWindow(x, u.pref.offset) &&
    (MarkedBy(u.pref, x) || (Crashed(es, x) && (x <= u.lastTick || Lost(es, x))))
  }

  ghost predicate Accounts(u: User, es: seq<Event>) {
    DailyAtMost(u.sent, u.pref.offset) && forall x :: x in u.sent ==> Accounted(u, es, x)
  }

  lemma CrashedMore(es: seq<Event>, x: int)
    requires es != []
    ensures Crashed(es[..|es| - 1], x) ==> Crashed(es, x)
    ensures Lost(es[..|es| - 1], x) ==> Lost(es, x)
    ensures es[|es| - 1] == Crash(x) ==> Crashed(es, x)
    ensures es[|es| - 1] == Restart && Crashed(es[..|es| - 1], x) ==> Lost(es, x)
  {
    var before := es[..|es| - 1];
    if Crashed(before, x) {
      var i :| 0 <= i < |before| && before[i] == Crash(x);
      assert es[i] == Crash(x);
      if es[|es| - 1] == Restart {
        assert es[i] == Crash(x) && es[|es| - 1] == Restart;
      }
    }
    if Lost(before, x) {
      var i, j :| 0 <= i < j < |before| && before[i] == Crash(x) && before[j] == Restart;
      assert es[i] == Crash(x) && es[j] == Restart;
    }
  }

  /** Why a digest already sent cannot be followed by another on its day. */
  lemma EarlierDay(u: User, es: seq<Event>, e: Event, x: int)
    requires IsPass(e) && Accounted(u, es, x) && Cleared(es + [e], u.pref.offset)
    requires e.now - u.lastTick >= TICK && Eligible(u.pref, e.now)
    requires x <= e.now
    ensures DayStart(x, u.pref.offset) < DayStart(e.now, u.pref.offset)
  {
    var offset := u.pref.offset;
    DaysApart(x, e.now, offset);
    if MarkedBy(u.pref, x) {
      DayStartBounds(x, offset);
    } else if x <= u.lastTick {
      WindowShorterThanTick(x, e.now, offset);
    } else {
      var i, j :| 0 <= i < j < |es| && es[i] == Crash(x) && es[j] == Restart;
      assert Torn(es + [e], offset, i, j, |es|);
    }
  }

  lemma SendAccounts(u: User, es: seq<Event>, e: Event)
    requires IsPass(e) && Accounts(u, es) && Cleared(es + [e], u.pref.offset)
    requires e.now - u.lastTick >= TICK && Eligible(u.pref, e.now)
    requires forall x :: x in u.sent ==> x <= e.now
    ensures DailyAtMost(u.sent + [e.now], u.pref.offset)
  {
    forall i | 0 <= i < |u.sent|
      ensures InWindow(u.sent[i], u.pref.offset)
      ensures DayStart(u.sent[i], u.pref.offset) < DayStart(e.now, u.pref.offset)
    {
      var x := u.sent[i];
      assert x in u.sent && Accounted(u, es, x);
      EarlierDay(u, es, e, x);
    }
    SendKeepsDaily(u.sent, u.pref.offset, e.now);
  }

  lemma StepAccounts(u: User, es: seq<Event>, e: Event, from: int)
    requires Accounts(u, es) && Cleared(es + [e], u.pref.offset) && NotBefore(e, from)
    requires forall x :: x in u.sent ==> x <= from
    ensures Accounts(Step(u, e), es + [e]) && Step(u, e).pref.offset == u.pref.offset
    ensures forall x :: x in Step(u, e).sent ==> x <= EndOf(e, from)
    ensures EndOf(e, from) >= from
  {
    var after := Step(u, e);
    assert (es + [e])[..|es|] == es;
    if IsPass(e) && e.now - u.lastTick >= TICK && Eligible(u.pref, e.now) {
      SendAccounts(u, es, e);
    }
    forall x | x in after.sent ensures Accounted(after, es + [e], x) {
      CrashedMore(es + [e], x);
      if x in u.sent {
        assert Accounted(u, es, x);
      }
    }
  }

  /** At most once: whatever crashes and restarts happen, a user gets at most one digest per local day
      as long as no process comes back within the window in which the mark of a sent digest was lost. */
  lemma {:induction false} AtMostOneDigestPerDay(u: User, es: seq<Event>, start: int)
    requires Guarded(u) && Forward(es, start) && Cleared(es, u.pref.offset)
    requires forall x :: x in u.sent ==> x <= start
    ensures Run(u, es).pref.offset == u.pref.offset
    ensures Accounts(Run(u, es), es)
    ensures DailyAtMost(Run(u, es).sent, u.pref.offset)
    ensures forall x :: x in Run(u, es).sent ==> x <= Ended(es, start)
    ensures Ended(es, start) >= start
  {
    if es == [] {
      forall x | x in u.sent ensures Accounted(u, es, x) {
        var i :| 0 <= i < |u.sent| && u.sent[i] == x;
      }
    } else {
      var before, e := es[..|es| - 1], es[|es| - 1];
      ClearedPrefix(es, u.pref.offset);
      AtMostOneDigestPerDay(u, before, start);
      assert before + [e] == es;
      StepAccounts(Run(u, before), before, e, Ended(before, start));
    }
  }

  /** And the bound is exact: after a send at `t` whose mark is lost, a restarted process whose next pass
      comes at `t2` sends a second digest that day if and only if the window is still open. */
  lemma LostMarkSendsTwiceIff(u: User, t: int, t2: int, delay: nat, es: seq<Event>)
    requires Guarded(u) && (forall x :: x in u.sent ==> x <= t) && Eligible(u.pref, t) && t - u.lastTick >= TICK
    requires t <= t2 && t2 >= TICK
    requires |es| == 3 && es[0] == Crash(t) && es[1] == Restart && es[2] == Tick(t2, delay, false)
    ensures !DailyAtMost(Run(u, es).sent, u.pref.offset) <==> t2 <= WindowEnd(t, u.pref.offset)
    ensures t2 <= WindowEnd(t, u.pref.offset) ==> Run(u, es).sent == u.sent + [t] + [t2]
  {
    if t2 <= WindowEnd(t, u.pref.offset) {
      ThreeSteps(u, es);
      OpenWindowSends(u, t, t2, delay);
      TwiceOnADay(u.sent, t, t2, u.pref.offset);
    } else {
      assert Cleared(es, u.pref.offset);
      ThreeForward(es, t);
      AtMostOneDigestPerDay(u, es, t);
    }
  }

  lemma OpenWindowSends(u: User, t: int, t2: int, delay: nat)
    requires Eligible(u.pref, t) && t - u.lastTick >= TICK && t <= t2 <= WindowEnd(t, u.pref.offset) && t2 >= TICK
    ensures Step(Step(Step(u, Crash(t)), Restart), Tick(t2, delay, false)).sent == u.sent + [t] + [t2]
    ensures DayStart(t2, u.pref.offset) == DayStart(t, u.pref.offset)
  {
    DayStartBounds(t, u.pref.offset);
    SameDay(t, t2, u.pref.offset);
  }

  lemma TwiceOnADay(sent: seq<int>, t: int, t2: int, offset: int)
    requires DayStart(t2, offset) == DayStart(t, offset)
    ensures !DailyAtMost(sent + [t] + [t2], offset)
  {
    var all := sent + [t] + [t2];
    assert all[|sent|] == t && all[|sent| + 1] == t2;
  }

  lemma ThreeSteps(u: User, es: seq<Event>)
    requires |es| == 3
    ensures Run(u, es) == Step(Step(Step(u, es[0]), es[1]), es[2])
  {
    assert es[..2][..1] == es[..1] && es[..1][..0] == [];
    assert Run(u, es[..1]) == Step(u, es[0]);
    assert Run(u, es[..2]) == Step(Step(u, es[0]), es[1]);
  }

  lemma ThreeForward(es: seq<Event>, start: int)
    requires |es| == 3 && es[0].Crash? && es[1] == Restart && es[2].Tick? && start <= es[0].now <= es[2].now
    ensures Forward(es, start)
  {
    assert es[..2][..1] == es[..1] && es[..1][..0] == [];
    assert Forward(es[..1], start) && Ended(es[..1], start) == es[0].now;
    assert Forward(es[..2], start) && Ended(es[..2], start) == es[0].now;
  }

  // ---------------------------------------------------------------- not at least once

  predicate Subscribed(p: Pref) {
    p.enabled && p.consented && p.hasActiveMonitor
  }

  predicate InWindowOf(day: int, t: int, offset: int) {
    DayStart(t, offset) == day && InWindow(t, offset)
  }

  /** The digests of one local day. */
  ghost predicate SendsOn(day: int, u: User, es: seq<Event>) {
    exists x :: x in Run(u, es).sent && DayStart(x, u.pref.offset) == day
  }

  /** Two consecutive effective passes of one process, for a subscriber who has had no digest on `day`:
      the digest of `day` goes out if and only if one of the passes falls in the window of that day. */
  lemma TwoPassesSendIff(u: User, a: int, b: int, delay: nat, delay2: nat, day: int, es: seq<Event>)
    requires Subscribed(u.pref) && |es| == 2
    requires es[0] == Tick(a, delay, false) && es[1] == Tick(b, delay2, false)
    requires a - u.lastTick >= TICK && b - a >= TICK
    requires u.pref.lastSent.Some? ==> u.pref.lastSent.value < DayStart(a, u.pref.offset)
    requires a + delay < DayStart(a, u.pref.offset) + DAY
    requires forall x :: x in u.sent ==> DayStart(x, u.pref.offset) != day
    ensures SendsOn(day, u, es) <==> InWindowOf(day, a, u.pref.offset) || InWindowOf(day, b, u.pref.offset)
  {
    var offset := u.pref.offset;
    var mid := Step(u, es[0]);
    assert es[..1][..0] == [];
    assert Run(u, es[..1]) == mid;
    assert Run(u, es) == Step(mid, es[1]);
    DaysApart(a, b, offset);
    var sent := Run(u, es).sent;
    if InWindow(a, offset) {
      assert mid.sent == u.sent + [a] && a in sent;
      if InWindow(b, offset) {
        WindowShorterThanTick(a, b, offset);
        assert Eligible(mid.pref, b);
        assert sent == u.sent + [a] + [b] && b in sent;
      } else {
        assert sent == u.sent + [a];
      }
    } else if InWindow(b, offset) {
      assert sent == u.sent + [b] && b in sent;
    } else {
      assert sent == u.sent;
    }
  }

  /** The window of the local day of `a` lies strictly between the passes `a` and `a + gap`. */
  predicate Skipped(a: int, gap: nat, offset: int) {
    a < DayStart(a, offset) + SEND_HOUR - 7 * MINUTE && WindowEnd(a, offset) < a + gap
  }

  /** Consecutive passes can step over a window exactly when they are further apart than its 14 minutes
      (on the microsecond grid, by two); the throttle keeps them at least 15 minutes apart. */
  lemma WindowMissedIff(gap: nat, offset: int)
    ensures (exists a :: Skipped(a, gap, offset)) <==> gap >= 14 * MINUTE + 2
  {
    if gap >= 14 * MINUTE + 2 {
      var a := SEND_HOUR - 7 * MINUTE - 1 - offset;
      assert DayStart(a, offset) == -offset;
      assert Skipped(a, gap, offset);
    }
  }

  /** Passes exactly one throttle interval apart, at a phase given by `a`. */
  predicate OnGrid(t: int, a: int) {
    (t - a) % 900_000_000 == 0
  }

  /** Where `a` falls in its quarter of an hour of local time. */
  function Phase(a: int, offset: int): int {
    (a + offset) % 900_000_000
  }

  /** The minute of each quarter of an hour that no window reaches. */
  predicate InGap(phase: int) {
    7 * MINUTE < phase < 8 * MINUTE
  }

  /** A quarter-hour grid misses the window of every day, or of none: a day has 96 quarters, and the window
      leaves out the minute between :07 and :08 past each. */
  lemma GridMissesIff(a: int, offset: int)
    ensures (forall t :: OnGrid(t, a) ==> !InWindow(t, offset)) <==> InGap(Phase(a, offset))
  {
    if InGap(Phase(a, offset)) {
      forall t | OnGrid(t, a) ensures !InWindow(t, offset) {
        GridPhase(t, a, offset);
        WindowPhase(t, offset);
      }
    } else {
      var t := GridInWindow(a, offset);
      assert OnGrid(t, a) && InWindow(t, offset);
    }
  }

  lemma GridPhase(t: int, a: int, offset: int)
    requires OnGrid(t, a)
    ensures Phase(t, offset) == Phase(a, offset)
  {
    var n := (t - a) / 900_000_000;
    assert t + offset == (a + offset) + 900_000_000 * n;
  }

  lemma QuartersOfDay(x: int) returns (q: int)
    ensures x % 86_400_000_000 == 900_000_000 * q + x % 900_000_000
  {
    var d, r := x / 86_400_000_000, x % 86_400_000_000;
    q := r / 900_000_000;
    SameRemainder(x, d, r);
  }

  lemma SameRemainder(x: int, d: int, r: int)
    requires x == 86_400_000_000 * d + r
    ensures x % 900_000_000 == r % 900_000_000
  {
    var k := r / 900_000_000;
    assert x == 900_000_000 * (96 * d + k) + r % 900_000_000;
    RemainderIs(x, 96 * d + k, r % 900_000_000);
  }

  lemma RemainderIs(x: int, k: int, r: int)
    requires x == 900_000_000 * k + r && 0 <= r < 900_000_000
    ensures x % 900_000_000 == r
  {
  }

  lemma SinceMidnight(t: int, offset: int)
    ensures t - DayStart(t, offset) == (t + offset) % 86_400_000_000
  {
  }

  lemma WindowPhase(t: int, offset: int)
    ensures InWindow(t, offset) ==> !InGap(Phase(t, offset))
  {
    SinceMidnight(t, offset);
    var q := QuartersOfDay(t + offset);
    var r := Phase(t, offset);
    if InWindow(t, offset) {
      assert SEND_HOUR - 7 * MINUTE <= 900_000_000 * q + r <= SEND_HOUR + 7 * MINUTE;
      assert q == 31 || q == 32;
    }
  }

  lemma GridInWindow(a: int, offset: int) returns (t: int)
    requires !InGap(Phase(a, offset))
    ensures OnGrid(t, a) && InWindow(t, offset)
  {
    var r := Phase(a, offset);
    var q := if r <= 7 * MINUTE then 32 else 31;
    var k := (a + offset) / 900_000_000;
    t := 900_000_000 * q + r - offset;
    assert t - a == 900_000_000 * (q - k);
    RemainderIs(t - a, q - k, 0);
    assert 0 <= t + offset < 86_400_000_000;
    assert DayStart(t, offset) == -offset;
  }

  predicate TicksOnGrid(es: seq<Event>, a: int) {
    forall i :: 0 <= i < |es| ==> IsPass(es[i]) ==> OnGrid(es[i].now, a)
  }

  /** The two throttled passes around the window are exactly one interval apart and both outside it. A
      process whose passes keep to such a grid never sends that user anything, on any day. */
  lemma {:induction false} GridInGapNeverSends(u: User, es: seq<Event>, a: int)
    requires InGap(Phase(a, u.pref.offset)) && TicksOnGrid(es, a)
    ensures Run(u, es).sent == u.sent && Run(u, es).pref.offset == u.pref.offset
  {
    if es == [] {
    } else {
      GridInGapNeverSends(u, es[..|es| - 1], a);
      GridMissesIff(a, u.pref.offset);
    }
  }

  /** One such run: a subscriber, and the two passes around the window of a day. */
  lemma ThrottledPassesMissDay(u: User, day: int, a: int, es: seq<Event>)
    requires day == DayStart(day, u.pref.offset) && a == day + SEND_HOUR - 7 * MINUTE - 1
    requires |es| == 2 && es[0] == Tick(a, 0, false) && es[1] == Tick(a + TICK, 0, false)
    ensures a < day + SEND_HOUR - 7 * MINUTE && WindowEnd(day, u.pref.offset) < a + TICK
    ensures Run(u, es).sent == u.sent
  {
    var offset := u.pref.offset;
    GapPhase(day, a, offset);
    assert OnGrid(a, a) && OnGrid(a + TICK, a);
    GridInGapNeverSends(u, es, a);
  }

  lemma GapPhase(day: int, a: int, offset: int)
    requires day == DayStart(day, offset) && a == day + SEND_HOUR - 7 * MINUTE - 1
    ensures InGap(Phase(a, offset))
  {
    var k := (day + offset) / 86_400_000_000;
    assert a + offset == 900_000_000 * (96 * k + 31) + (8 * MINUTE - 1);
    RemainderIs(a + offset, 96 * k + 31, 8 * MINUTE - 1);
  }
}
