/** What the requests about users and monitors do to the tables, and what they mean for later deletions. */
module Lifecycle {
  import opened Tables
  import opened Buckets
  import opened Aggregate
  import opened Plans
  import opened History
  import opened Retention
  import opened Cadence

  // ---------------------------------------------------------------- users

  /** A sign-up makes a free user seen now, unless the id is there already. */
  lemma SignUpAddsFree(db: Db, user: string)
    ensures var after := StepDb(db, SignUp(user));
            && after == db.(users := after.users) && after.users.Keys == db.users.Keys + {user}
            && (forall u :: u in db.users ==> after.users[u] == db.users[u])
            && (user !in db.users ==> after.users[user].plan == "free" && after.users[user].lastSeen == db.now)
  {
  }

  /** An authenticated request stamps its user and nothing else, a change of plan writes the plan and nothing else. */
  lemma UserUpdates(db: Db, user: string, plan: string)
    ensures var seen, moved := StepDb(db, Visit(user)), StepDb(db, SetPlan(user, plan));
            && seen == db.(users := seen.users) && moved == db.(users := moved.users)
            && seen.users.Keys == db.users.Keys == moved.users.Keys
            && forall u :: u in db.users ==>
                 && seen.users[u].plan == db.users[u].plan && moved.users[u].lastSeen == db.users[u].lastSeen
                 && seen.users[u].lastSeen == (if u == user then db.now else db.users[u].lastSeen)
                 && moved.users[u].plan == if u == user then plan else db.users[u].plan
  {
  }

  /** After a request of its user an account is safe from the archive for the days of inactivity that it allows,
      whatever it holds by then. */
  lemma VisitKeepsHistory(db: Db, user: string, later: Db, days: nat, m: string)
    requires user in db.users && later.users == StepDb(db, Visit(user)).users && later.now <= db.now + days * DAY
    requires m in later.monitors && later.monitors[m].owner == user
    ensures var after := Archive(later, days);
            && m in after.monitors && after.monitors[m] == later.monitors[m]
            && ChecksBy(after.raw, m) == ChecksBy(later.raw, m)
            && forall k :: k in later.rollups && k.monitor == m ==> k in after.rollups
  {
    ArchiveSurvivors(later, days);
  }

  /** Deleting an account takes the user, the user's monitors and all that belongs to them, and nothing else. */
  lemma DeleteUserLeavesOthers(db: Db, user: string)
    ensures var after := StepDb(db, RemoveUser(user));
            && after.now == db.now && after.users == db.users - {user}
            && (forall m :: m in after.monitors <==> m in db.monitors && db.monitors[m].owner != user)
            && (forall m :: m in after.monitors ==> after.monitors[m] == db.monitors[m])
            && (forall m :: ChecksBy(after.raw, m) == if Owns(db, user, m) then [] else ChecksBy(db.raw, m))
            && (forall k :: k in after.rollups <==> k in db.rollups && !Owns(db, user, k.monitor))
            && forall k :: k in after.rollups ==> after.rollups[k] == db.rollups[k]
  {
    var after := StepDb(db, RemoveUser(user));
    var gone := set m | m in db.monitors && db.monitors[m].owner == user;
    var keep := (c: Check) => !(c.monitor in gone && c.monitor in db.monitors);
    forall m ensures ChecksBy(after.raw, m) == if Owns(db, user, m) then [] else ChecksBy(db.raw, m) {
      if Owns(db, user, m) {
        WhereNone(after.raw, (c: Check) => c.monitor == m);
      } else {
        KeepsWholeHistory(db.raw, keep, m);
      }
    }
  }

  predicate Owns(db: Db, user: string, m: string) {
    m in db.monitors && db.monitors[m].owner == user
  }

  // ---------------------------------------------------------------- monitors

  /** The fastest a plan may check, in seconds. */
  function Floor(plan: string): int {
    if plan == "business" then 30 else if plan == "pro" then 60 else 300
  }

  /** A monitor is created exactly for an existing owner whose plan allows the interval, under a new id; it
      starts active. */
  lemma CreatedIff(db: Db, id: string, owner: string, interval: int)
    ensures var after := StepDb(db, AddMonitor(id, owner, interval));
            && after == db.(monitors := after.monitors)
            && (after.monitors ==
                if id !in db.monitors && owner in db.users && interval >= Floor(db.users[owner].plan)
                then db.monitors[id := Monitor(owner, interval, true)] else db.monitors)
  {
  }

  /** An interval is edited exactly when the owner's plan allows it; nothing else of the monitor changes. */
  lemma EditedIff(db: Db, id: string, interval: int)
    requires forall m :: m in db.monitors ==> db.monitors[m].owner in db.users
    ensures var after := StepDb(db, EditInterval(id, interval));
            && after == db.(monitors := after.monitors)
            && (after.monitors ==
                if id in db.monitors && interval >= Floor(db.users[db.monitors[id].owner].plan)
                then db.monitors[id := db.monitors[id].(interval := interval)] else db.monitors)
  {
  }

  /** A paused monitor is not checked, so an archived account makes no more history. */
  lemma PausedIsSilent(db: Db, sha: string -> nat, m: string)
    requires m in db.monitors && !db.monitors[m].active
    ensures m !in DueMonitors(db, sha)
  {
  }

  lemma ArchivedIsSilent(db: Db, days: int, sha: string -> nat, m: string)
    requires Idle(db, days, m)
    ensures m !in DueMonitors(Archive(db, days), sha) && ChecksBy(Archive(db, days).raw, m) == []
  {
    ArchiveSurvivors(db, days);
    PausedIsSilent(Archive(db, days), sha, m);
  }
}
