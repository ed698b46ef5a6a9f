/** `purge_expired_check_results` visits the plans one by one, in whatever order the database lists
    them; the result is one deletion that looks at each row's own owner. */
module Retention {
  import opened Tables
  import opened Buckets
  import opened Aggregate
  import opened Plans
  import opened History

  /** Is the row past retention, and is its owner's plan among those visited? */
  predicate ExpiredIn(db: Db, ceiling: int, plans: set<string>, m: string, t: int) {
    Expired(db, ceiling, m, t) && OwnerPlan(db, m) in plans
  }

  /** The tables after the plans in `plans` have been visited. */
  function PurgedFor(db: Db, ceiling: int, plans: set<string>): Db {
    db.(raw := Where(db.raw, (c: Check) => !ExpiredIn(db, ceiling, plans, c.monitor, c.at)),
        rollups := map k | k in db.rollups && !ExpiredIn(db, ceiling, plans, k.monitor, k.start) :: db.rollups[k])
  }

  function PlansInUse(db: Db): set<string> {
    set u | u in db.users :: db.users[u].plan
  }

  lemma VisitNothing(db: Db, ceiling: int)
    ensures PurgedFor(db, ceiling, {}) == db
  {
    WhereAll(db.raw, (c: Check) => !ExpiredIn(db, ceiling, {}, c.monitor, c.at));
    assert PurgedFor(db, ceiling, {}).rollups == db.rollups;
  }

  /** Visiting one more plan extends the deletion by that plan's rows, whatever came before. */
  lemma VisitOneMore(db: Db, ceiling: int, visited: set<string>, plan: string)
    ensures PurgedFor(PurgedFor(db, ceiling, visited), ceiling, {plan}) == PurgedFor(db, ceiling, visited + {plan})
  {
    var mid := PurgedFor(db, ceiling, visited);
    forall m, t ensures
      !ExpiredIn(db, ceiling, visited + {plan}, m, t) <==>
      !ExpiredIn(db, ceiling, visited, m, t) && !ExpiredIn(mid, ceiling, {plan}, m, t)
    {
      assert OwnersUnchanged(db, mid);
    }
    FilterTwice(db.raw, (c: Check) => !ExpiredIn(db, ceiling, visited, c.monitor, c.at),
                (c: Check) => !ExpiredIn(mid, ceiling, {plan}, c.monitor, c.at),
                (c: Check) => !ExpiredIn(db, ceiling, visited + {plan}, c.monitor, c.at));
    assert PurgedFor(mid, ceiling, {plan}).rollups == PurgedFor(db, ceiling, visited + {plan}).rollups;
  }

  predicate OwnersUnchanged(db: Db, after: Db) {
    after.monitors == db.monitors && after.users == db.users && after.now == db.now
  }

  /** Once every plan in use has been visited, the purge is complete. */
  lemma VisitEveryPlan(db: Db, ceiling: int, plans: set<string>)
    requires PlansInUse(db) <= plans
    ensures PurgedFor(db, ceiling, plans) == Purge(db, ceiling)
  {
    forall m, t | Expired(db, ceiling, m, t) ensures OwnerPlan(db, m) in plans {
      assert db.users[db.monitors[m].owner].plan in PlansInUse(db);
    }
    WhereAgree(db.raw, (c: Check) => !ExpiredIn(db, ceiling, plans, c.monitor, c.at),
               (c: Check) => !Expired(db, ceiling, c.monitor, c.at));
    assert PurgedFor(db, ceiling, plans).rollups == Purge(db, ceiling).rollups;
  }

  /** The rows of one monitor, in table order. */
  function ChecksBy(raw: seq<Check>, m: string): seq<Check> {
    Where(raw, (c: Check) => c.monitor == m)
  }

  lemma KeepsWholeHistory(raw: seq<Check>, keep: Check -> bool, m: string)
    requires forall c :: c in raw && c.monitor == m ==> keep(c)
    ensures ChecksBy(Where(raw, keep), m) == ChecksBy(raw, m)
  {
    var own := (c: Check) => c.monitor == m;
    FilterTwice(raw, keep, own, own);
  }

  /** How long a row of a plan is kept. */
  function DaysKept(plan: string): int {
    if plan == "pro" then 90 else if plan == "business" then 365 else 7
  }

  /** A row of a monitor whose owner is known is kept exactly when it is no older than the plan's retention and no
      older than the operator's ceiling; rows of unknown monitors stay. */
  predicate Kept(db: Db, ceiling: int, m: string, t: int) {
    m in db.monitors && db.monitors[m].owner in db.users ==>
      && t >= db.now - DaysKept(db.users[db.monitors[m].owner].plan) * DAY
      && t >= db.now - ceiling * DAY
  }

  lemma KeptIff(db: Db, ceiling: int, m: string, t: int)
    ensures Kept(db, ceiling, m, t) <==> !Expired(db, ceiling, m, t)
  {
  }

  lemma PurgeSurvivors(db: Db, ceiling: int)
    ensures var after := Purge(db, ceiling);
            && after == db.(raw := after.raw, rollups := after.rollups)
            && after.raw == Where(db.raw, (c: Check) => Kept(db, ceiling, c.monitor, c.at))
            && (forall k :: k in after.rollups <==> k in db.rollups && Kept(db, ceiling, k.monitor, k.start))
            && (forall k :: k in after.rollups ==> after.rollups[k] == db.rollups[k])
  {
    forall m, t ensures Kept(db, ceiling, m, t) <==> !Expired(db, ceiling, m, t) {
      KeptIff(db, ceiling, m, t);
    }
    WhereAgree(db.raw, (c: Check) => !Expired(db, ceiling, c.monitor, c.at),
               (c: Check) => Kept(db, ceiling, c.monitor, c.at));
  }

  /** With owners and plans unchanged, purging now and again later is purging later. */
  lemma PurgeTwiceIsPurgeLater(db: Db, ceiling: int, later: nat)
    requires db.now <= later
    ensures Purge(Purge(db, ceiling).(now := later), ceiling) == Purge(db.(now := later), ceiling)
  {
    var mid := Purge(db, ceiling).(now := later);
    var end := db.(now := later);
    forall m, t ensures Expired(end, ceiling, m, t) <==> Expired(mid, ceiling, m, t) || Expired(db, ceiling, m, t) {
    }
    FilterTwice(db.raw, (c: Check) => !Expired(db, ceiling, c.monitor, c.at),
                (c: Check) => !Expired(mid, ceiling, c.monitor, c.at),
                (c: Check) => !Expired(end, ceiling, c.monitor, c.at));
    assert Purge(mid, ceiling).rollups == Purge(end, ceiling).rollups;
  }

  // ---------------------------------------------------------------- archiving, user by user

  predicate OwnedByAny(db: Db, users: set<string>, m: string) {
    m in db.monitors && db.monitors[m].owner in users
  }

  /** The tables after the history of `users` has been deleted and their monitors paused. */
  function ArchivedFor(db: Db, users: set<string>): Db {
    db.(raw := Where(db.raw, (c: Check) => !OwnedByAny(db, users, c.monitor)),
        rollups := map k | k in db.rollups && !OwnedByAny(db, users, k.monitor) :: db.rollups[k],
        monitors := map m | m in db.monitors ::
          if OwnedByAny(db, users, m) then db.monitors[m].(active := false) else db.monitors[m])
  }

  function AbandonedUsers(db: Db, days: int): set<string> {
    set u | u in db.users && Abandoned(db, days, u)
  }

  lemma ArchiveNobody(db: Db)
    ensures ArchivedFor(db, {}) == db
  {
    WhereAll(db.raw, (c: Check) => !OwnedByAny(db, {}, c.monitor));
    assert ArchivedFor(db, {}).rollups == db.rollups;
    assert ArchivedFor(db, {}).monitors == db.monitors;
  }

  /** Archiving one more user extends the deletion by that user's rows. */
  lemma ArchiveOneMore(db: Db, users: set<string>, u: string)
    ensures ArchivedFor(ArchivedFor(db, users), {u}) == ArchivedFor(db, users + {u})
  {
    var mid, end := ArchivedFor(db, users), ArchivedFor(db, users + {u});
    FilterTwice(db.raw, (c: Check) => !OwnedByAny(db, users, c.monitor),
                (c: Check) => !OwnedByAny(mid, {u}, c.monitor),
                (c: Check) => !OwnedByAny(db, users + {u}, c.monitor));
    assert ArchivedFor(mid, {u}).rollups == end.rollups;
    assert ArchivedFor(mid, {u}).monitors == end.monitors;
  }

  /** Taking every abandoned user in turn is the one-shot archive. */
  lemma ArchiveEveryone(db: Db, days: int)
    ensures ArchivedFor(db, AbandonedUsers(db, days)) == Archive(db, days)
  {
    var users := AbandonedUsers(db, days);
    WhereAgree(db.raw, (c: Check) => !OwnedByAny(db, users, c.monitor),
               (c: Check) => !OwnedByAbandoned(db, days, c.monitor));
    assert ArchivedFor(db, users).rollups == Archive(db, days).rollups;
    assert ArchivedFor(db, users).monitors == Archive(db, days).monitors;
  }

  /** The owner of the monitor is on the free plan and was last seen more than `days` days ago. */
  predicate Idle(db: Db, days: int, m: string) {
    && m in db.monitors && db.monitors[m].owner in db.users
    && db.users[db.monitors[m].owner].plan == "free" && db.users[db.monitors[m].owner].lastSeen < db.now - days * DAY
  }

  /** An archive deletes the whole history of those monitors, raw and rollups, and pauses them; nobody on another
      plan, or seen since, loses a row or a monitor, and nothing else changes. */
  lemma ArchiveSurvivors(db: Db, days: int)
    ensures var after := Archive(db, days);
            && after == db.(raw := after.raw, rollups := after.rollups, monitors := after.monitors)
            && (forall m :: ChecksBy(after.raw, m) == if Idle(db, days, m) then [] else ChecksBy(db.raw, m))
            && (forall k :: k in after.rollups <==> k in db.rollups && !Idle(db, days, k.monitor))
            && (forall k :: k in after.rollups ==> after.rollups[k] == db.rollups[k])
            && after.monitors.Keys == db.monitors.Keys
            && forall m :: m in db.monitors ==>
                 after.monitors[m] == if Idle(db, days, m) then db.monitors[m].(active := false) else db.monitors[m]
  {
    var after := Archive(db, days);
    assert forall m :: Idle(db, days, m) <==> OwnedByAbandoned(db, days, m);
    forall m ensures ChecksBy(after.raw, m) == if Idle(db, days, m) then [] else ChecksBy(db.raw, m) {
      if Idle(db, days, m) {
        WhereNone(after.raw, (c: Check) => c.monitor == m);
      } else {
        KeepsWholeHistory(db.raw, (c: Check) => !OwnedByAbandoned(db, days, c.monitor), m);
      }
    }
  }
}
