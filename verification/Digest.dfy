/** Daily-digest delivery: the eligibility filter of pingback/db/digest.py, the sender of
    pingback/services/email.py and the 15-minute throttle of the scheduler, for users in zones of a
    fixed offset from UTC. Instants are microseconds since the epoch. */
module Digest {
  import opened Tables

  const DAY := 86_400_000_000
  const MINUTE := 60_000_000
  const SEND_HOUR := 28_800_000_000   // 08:00
  const TICK := 900_000_000           // 15 minutes

  // ---------------------------------------------------------------- local days

  /** The start of the local day of `t`, as a UTC instant, in the zone `offset` ahead of UTC. */
  function DayStart(t: int, offset: int): int {
    (t + offset) / 86_400_000_000 * 86_400_000_000 - offset
  }

  lemma DayStartBounds(t: int, offset: int)
    ensures DayStart(t, offset) <= t < DayStart(t, offset) + DAY
  {
  }

  lemma DaysApart(t: int, u: int, offset: int)
    ensures DayStart(t, offset) < DayStart(u, offset) ==> DayStart(t, offset) + DAY <= DayStart(u, offset)
    ensures t <= u ==> DayStart(t, offset) <= DayStart(u, offset)
  {
  }

  lemma SameDay(t: int, u: int, offset: int)
    requires DayStart(t, offset) <= u < DayStart(t, offset) + DAY
    ensures DayStart(u, offset) == DayStart(t, offset)
  {
  }

  /** Within seven minutes of 08:00 local time, both ends included. */
  predicate InWindow(t: int, offset: int) {
    var target := DayStart(t, offset) + SEND_HOUR;
    target - 7 * MINUTE <= t <= target + 7 * MINUTE
  }

  // ---------------------------------------------------------------- one tick

  datatype Pref = Pref(enabled: bool, consented: bool, hasActiveMonitor: bool, offset: int, lastSent: Option<int>)

  /** In the local day of `now`, has nothing been marked as sent? */
  predicate NotSentToday(lastSent: Option<int>, now: int, offset: int) {
    lastSent.Some? ==> lastSent.value < DayStart(now, offset)
  }

  predicate Eligible(p: Pref, now: int) {
    && p.enabled && p.consented && p.hasActiveMonitor
    && InWindow(now, p.offset) && NotSentToday(p.lastSent, now, p.offset)
  }

  /** The rows of digest_preferences, as the query of `get_users_due_for_digest` returns them. */
  class Preferences {
    var rows: map<string, Pref>

    constructor (initial: map<string, Pref>)
      ensures rows == initial
    {
      rows := initial;
    }

    /** `get_users_due_for_digest`: skips outside the window and when already sent today. */
    method UsersDue(now: int) returns (due: seq<string>)
      ensures forall u :: u in due <==> u in rows && Eligible(rows[u], now)
      ensures forall i, j :: 0 <= i < j < |due| ==> due[i] != due[j]
    {
      var candidates := set u | u in rows && rows[u].enabled && rows[u].consented && rows[u].hasActiveMonitor;
      var todo := candidates;
      due := [];
      while todo != {}
        invariant todo <= candidates
        invariant forall u :: u in due <==> u in candidates - todo && Eligible(rows[u], now)
        invariant forall i, j :: 0 <= i < j < |due| ==> due[i] != due[j]
      {
        var u :| u in todo;
        todo := todo - {u};
        if !InWindow(now, rows[u].offset) {
          continue;
        }
        if rows[u].lastSent.Some? && rows[u].lastSent.value >= DayStart(now, rows[u].offset) {
          continue;
        }
        due := due + [u];
      }
    }

    /** `mark_digest_sent` */
    method MarkSent(user: string, at: int)
      modifies this`rows
      ensures rows == Marked(old(rows), user, at)
      ensures user in rows ==> forall now :: DayStart(now, rows[user].offset) <= at ==> !Eligible(rows[user], now)
      ensures forall u, now :: u in rows && u != user ==> Eligible(rows[u], now) == old(Eligible(rows[u], now))
    {
      if user in rows {
        rows := rows[user := rows[user].(lastSent := Some(at))];
      }
    }
  }

  function Marked(rows: map<string, Pref>, user: string, at: int): map<string, Pref> {
    if user in rows then rows[user := rows[user].(lastSent := Some(at))] else rows
  }

  // ---------------------------------------------------------------- runs, one user at a time

  /** The state that decides about one user: when the scheduler last evaluated digests, when the
      user's row was last marked, and every digest sent so far with the instant of its tick. */
  datatype User = User(pref: Pref, lastTick: int, sent: seq<int>)

  /** `Tick`: a scheduler pass at `now`, whose mark (if any) is stamped `delay` later; `empty` when no
      check was found for the last day, which marks without sending. `Failed`: the mail service
      raises, so nothing is sent or marked. `Crash`: the same pass with the
      process dying, or the mark failing, after the send. `Restart` forgets the throttle. `Change`
      edits the preferences but not the zone or the mark. */
  datatype Event =
    | Tick(now: int, delay: nat, empty: bool)
    | Failed(now: int)
    | Crash(now: int)
    | Restart
    | Change(enabled: bool, consented: bool, hasActiveMonitor: bool)

  function Step(u: User, e: Event): User {
    match e
    case Tick(now, delay, empty) =>
      if now - u.lastTick < TICK then u
      else if !Eligible(u.pref, now) then u.(lastTick := now)
      else User(u.pref.(lastSent := Some(now + delay)), now, if empty then u.sent else u.sent + [now])
    case Failed(now) => if now - u.lastTick < TICK then u else u.(lastTick := now)
    case Crash(now) =>
      if now - u.lastTick < TICK then u
      else if !Eligible(u.pref, now) then u.(lastTick := now)
      else User(u.pref, now, u.sent + [now])
    case Restart => u.(lastTick := 0)
    case Change(enabled, consented, active) =>
      u.(pref := u.pref.(enabled := enabled, consented := consented, hasActiveMonitor := active))
  }

  function Run(u: User, es: seq<Event>): User {
    if es == [] then u else Step(Run(u, es[..|es| - 1]), es[|es| - 1])
  }

  /** When the pass of an event ends; other events take no time. */
  function EndOf(e: Event, from: int): int {
    match e
    case Tick(now, delay, _) => now + delay
    case Failed(now) => now
    case Crash(now) => now
    case _ => from
  }

  predicate NotBefore(e: Event, from: int) {
    (e.Tick? || e.Failed? || e.Crash?) ==> from <= e.now
  }

  /** When the last pass of the run ended; ticks do not overlap, so the next one starts no earlier. */
  function Ended(es: seq<Event>, start: int): int {
    if es == [] then start else EndOf(es[|es| - 1], Ended(es[..|es| - 1], start))
  }

  /** The clock does not go back. */
  predicate Forward(es: seq<Event>, start: int) {
    es == [] || (Forward(es[..|es| - 1], start) && NotBefore(es[|es| - 1], Ended(es[..|es| - 1], start)))
  }

  /** No two digests in one local day, and sends at least 24 hours minus 14 minutes apart. */
  ghost predicate DailyAtMost(sent: seq<int>, offset: int) {
    forall i, j :: 0 <= i < j < |sent| ==>
      DayStart(sent[i], offset) < DayStart(sent[j], offset) && sent[j] - sent[i] >= DAY - 14 * MINUTE
  }

  /** Every digest sent so far was sent in its window, and the mark is at least as late as each. */
  ghost predicate Guarded(u: User) {
    && DailyAtMost(u.sent, u.pref.offset)
    && forall i :: 0 <= i < |u.sent| ==>
         InWindow(u.sent[i], u.pref.offset) && u.pref.lastSent.Some? && u.sent[i] <= u.pref.lastSent.value
  }

  lemma SendKeepsDaily(sent: seq<int>, offset: int, now: int)
    requires DailyAtMost(sent, offset) && InWindow(now, offset)
    requires forall i :: 0 <= i < |sent| ==>
      InWindow(sent[i], offset) && DayStart(sent[i], offset) < DayStart(now, offset)
    ensures DailyAtMost(sent + [now], offset)
  {
    forall i | 0 <= i < |sent| ensures now - sent[i] >= DAY - 14 * MINUTE {
      DaysApart(sent[i], now, offset);
    }
  }

  lemma TickKeepsGuard(u: User, now: int, delay: nat, empty: bool)
    requires Guarded(u)
    requires u.pref.lastSent.Some? ==> u.pref.lastSent.value <= now
    ensures Guarded(Step(u, Tick(now, delay, empty)))
  {
    var after := Step(u, Tick(now, delay, empty));
    if after.sent != u.sent {
      forall i | 0 <= i < |u.sent| ensures DayStart(u.sent[i], u.pref.offset) < DayStart(now, u.pref.offset) {
        DayStartBounds(u.sent[i], u.pref.offset);
      }
      SendKeepsDaily(u.sent, u.pref.offset, now);
    }
  }

  predicate NoCrash(es: seq<Event>) {
    forall i :: 0 <= i < |es| ==> !es[i].Crash?
  }

  /** Over any run in which no send is torn from its mark, every digest stays guarded by its mark. */
  lemma {:induction false} UntornRunsStayGuarded(u: User, es: seq<Event>, start: int)
    requires Guarded(u) && NoCrash(es) && Forward(es, start)
    requires u.pref.lastSent.Some? ==> u.pref.lastSent.value <= start
    ensures Guarded(Run(u, es))
    ensures Run(u, es).pref.lastSent.Some? ==> Run(u, es).pref.lastSent.value <= Ended(es, start)
    ensures Run(u, es).pref.offset == u.pref.offset && Ended(es, start) >= start
  {
    if es == [] {
    } else {
      var before, e := es[..|es| - 1], es[|es| - 1];
      UntornRunsStayGuarded(u, before, start);
      StepKeepsGuard(Run(u, before), e, Ended(before, start));
    }
  }

  lemma StepKeepsGuard(u: User, e: Event, from: int)
    requires Guarded(u) && !e.Crash? && NotBefore(e, from)
    requires u.pref.lastSent.Some? ==> u.pref.lastSent.value <= from
    ensures var after := Step(u, e).pref;
            Guarded(Step(u, e)) && after.offset == u.pref.offset && EndOf(e, from) >= from &&
            (after.lastSent.Some? ==> after.lastSent.value <= EndOf(e, from))
  {
    if e.Tick? {
      TickKeepsGuard(u, e.now, e.delay, e.empty);
    }
  }

  // ---------------------------------------------------------------- the throttle as second guard

  /** Two passes a quarter of an hour apart are never both within the window of one local day. */
  lemma WindowShorterThanTick(a: int, b: int, offset: int)
    requires InWindow(a, offset) && InWindow(b, offset) && b - a >= TICK
    ensures DayStart(a, offset) < DayStart(b, offset)
  {
    DaysApart(a, b, offset);
  }

  ghost predicate Throttled(u: User) {
    && DailyAtMost(u.sent, u.pref.offset)
    && forall i :: 0 <= i < |u.sent| ==> InWindow(u.sent[i], u.pref.offset) && u.sent[i] <= u.lastTick
  }

  predicate NoRestart(es: seq<Event>) {
    forall i :: 0 <= i < |es| ==> !es[i].Restart?
  }

  lemma ThrottledSend(sent: seq<int>, offset: int, lastTick: int, now: int)
    requires DailyAtMost(sent, offset) && InWindow(now, offset) && now - lastTick >= TICK
    requires forall i :: 0 <= i < |sent| ==> InWindow(sent[i], offset) && sent[i] <= lastTick
    ensures DailyAtMost(sent + [now], offset)
  {
    forall i | 0 <= i < |sent| ensures DayStart(sent[i], offset) < DayStart(now, offset) {
      WindowShorterThanTick(sent[i], now, offset);
    }
    SendKeepsDaily(sent, offset, now);
  }

  lemma StepKeepsThrottled(u: User, e: Event)
    requires Throttled(u) && !e.Restart?
    ensures Throttled(Step(u, e)) && Step(u, e).pref.offset == u.pref.offset
  {
    if (e.Tick? || e.Crash?) && e.now - u.lastTick >= TICK && Eligible(u.pref, e.now) {
      ThrottledSend(u.sent, u.pref.offset, u.lastTick, e.now);
    }
  }

  /** Without restarts the throttle alone gives the same guarantee, even when marks are lost. */
  lemma {:induction false} ThrottleAloneSuffices(u: User, es: seq<Event>)
    requires Throttled(u) && NoRestart(es)
    ensures Throttled(Run(u, es)) && Run(u, es).pref.offset == u.pref.offset
  {
    if es == [] {
    } else {
      ThrottleAloneSuffices(u, es[..|es| - 1]);
      StepKeepsThrottled(Run(u, es[..|es| - 1]), es[|es| - 1]);
    }
  }
}
