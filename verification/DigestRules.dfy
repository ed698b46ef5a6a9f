/** Who gets a digest and when, in the terms of the user: local time of day, the switches, the local date. */
module DigestRules {
  import opened Tables
  import opened Digest

  /** Microseconds since local midnight. */
  function TimeOfDay(t: int, offset: int): int {
    (t + offset) % 86_400_000_000
  }

  function LocalDate(t: int, offset: int): int {
    (t + offset) / 86_400_000_000
  }

  lemma MidnightOf(t: int, offset: int)
    ensures DayStart(t, offset) + TimeOfDay(t, offset) == t
    ensures DayStart(t, offset) == LocalDate(t, offset) * 86_400_000_000 - offset
  {
  }

  /** The window is from 07:53:00 to 08:07:00 local time, both included. */
  lemma WindowIsEarlyMorning(t: int, offset: int)
    ensures InWindow(t, offset) <==> 28_380_000_000 <= TimeOfDay(t, offset) <= 29_220_000_000
  {
    MidnightOf(t, offset);
  }

  lemma DateOrder(t: int, u: int, offset: int)
    ensures t < DayStart(u, offset) <==> LocalDate(t, offset) < LocalDate(u, offset)
  {
    MidnightOf(u, offset);
    Quotient(t + offset, LocalDate(u, offset));
  }

  lemma Quotient(x: int, d: int)
    ensures x < d * 86_400_000_000 <==> x / 86_400_000_000 < d
  {
  }

  /** Is a digest due: everything is switched on, it is early morning, and nothing has been marked as sent on this
      local date or later? */
  predicate Wants(p: Pref, now: int) {
    && p.enabled && p.consented && p.hasActiveMonitor
    && 28_380_000_000 <= TimeOfDay(now, p.offset) <= 29_220_000_000
    && (p.lastSent.Some? ==> LocalDate(p.lastSent.value, p.offset) < LocalDate(now, p.offset))
  }

  lemma EligibleIff(p: Pref, now: int)
    ensures Eligible(p, now) <==> Wants(p, now)
  {
    WindowIsEarlyMorning(now, p.offset);
    if p.lastSent.Some? {
      DateOrder(p.lastSent.value, now, p.offset);
    }
  }

  /** A pass at least a quarter of an hour after the one before serves whoever wants a digest and nobody else: it
      sends, unless there is nothing to report, and marks. */
  lemma PassServesIff(u: User, now: int, delay: nat, empty: bool)
    ensures var after := Step(u, Tick(now, delay, empty));
            && after.sent == (if now - u.lastTick >= 900_000_000 && Wants(u.pref, now) && !empty
                              then u.sent + [now] else u.sent)
            && after.pref == (if now - u.lastTick >= 900_000_000 && Wants(u.pref, now)
                              then u.pref.(lastSent := Some(now + delay)) else u.pref)
            && after.lastTick == if now - u.lastTick >= 900_000_000 then now else u.lastTick
  {
    EligibleIff(u.pref, now);
  }

  predicate Off(p: Pref) {
    !p.enabled || !p.consented || !p.hasActiveMonitor
  }

  /** No change of the run switches everything on. */
  predicate StaysOff(es: seq<Event>) {
    forall i :: 0 <= i < |es| && es[i].Change? ==> !es[i].enabled || !es[i].consented || !es[i].hasActiveMonitor
  }

  /** Who has switched the digest off, withdrawn consent or has no active monitor gets none, over every run, until
      that changes. */
  lemma {:induction false} SwitchedOffGetsNone(u: User, es: seq<Event>)
    requires Off(u.pref) && StaysOff(es)
    ensures Off(Run(u, es).pref) && Run(u, es).sent == u.sent && Run(u, es).pref.lastSent == u.pref.lastSent
  {
    if es == [] {
    } else {
      var before, e := es[..|es| - 1], es[|es| - 1];
      SwitchedOffGetsNone(u, before);
      StaysOffStep(Run(u, before), e);
    }
  }

  lemma StaysOffStep(u: User, e: Event)
    requires Off(u.pref) && (e.Change? ==> !e.enabled || !e.consented || !e.hasActiveMonitor)
    ensures Off(Step(u, e).pref) && Step(u, e).sent == u.sent && Step(u, e).pref.lastSent == u.pref.lastSent
  {
  }
}
