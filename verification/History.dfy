/** The check-history tables and every step that writes to them, as functions on table values.
    A step reads the clock once, as the source does at the start of each operation. */
module History {
  import opened Tables
  import opened Buckets
  import opened Aggregate
  import opened Plans

  datatype User = User(plan: string, lastSeen: nat)

  datatype Monitor = Monitor(owner: string, interval: int, active: bool)

  /** Primary key of a rollup row; `tier` selects one of the three tables. */
  datatype Key = Key(tier: Tier, monitor: string, start: int)

  datatype Db = Db(now: nat, users: map<string, User>, monitors: map<string, Monitor>,
                   raw: seq<Check>, rollups: map<Key, Row>)

  /** The database together with the compactor's in-process memo (`_LAST_COMPACTED`). */
  datatype State = State(db: Db, memo: map<Tier, int>)

  // ---------------------------------------------------------------- buckets of raw rows

  predicate InBucket(c: Check, k: Key) {
    c.monitor == k.monitor && k.start <= c.at < k.start + Width(k.tier)
  }

  function Bucket(raw: seq<Check>, k: Key): seq<Check> {
    Where(raw, c => InBucket(c, k))
  }

  /** Monitors that still exist and have a check in the bucket: the INNER JOIN skips orphans. */
  function MonitorsInWindow(db: Db, tier: Tier, start: int): set<string> {
    set c | c in db.raw && c.monitor in db.monitors && InBucket(c, Key(tier, c.monitor, start)) :: c.monitor
  }

  // ---------------------------------------------------------------- compaction

  function WindowRows(db: Db, tier: Tier, start: int): map<Key, Row> {
    map m | m in MonitorsInWindow(db, tier, start)
      :: Key(tier, m, start) := Summarize(Bucket(db.raw, Key(tier, m, start))).GetOr(Record(0, 0, 0, [], 0))
  }

  function CompactWindow(db: Db, tier: Tier, windowStart: int): Db {
    db.(rollups := db.rollups + WindowRows(db, tier, FloorToBucket(windowStart, tier)))
  }

  function CompactTier(s: State, tier: Tier): State {
    var last := LastWindow(s.db.now, tier);
    if NotElapsed(s.db.now, tier) then s
    else if tier in s.memo && s.memo[tier] == last then s
    else State(CompactWindow(s.db, tier, last), s.memo[tier := last])
  }

  /** The order in which `compact_recent` visits the tiers. */
  function TierAt(i: nat): Tier {
    if i == 0 then M1 else if i == 1 then M5 else H1
  }

  function TierRank(tier: Tier): (i: nat)
    ensures i < 3 && TierAt(i) == tier
  {
    match tier
    case M1 => 0
    case M5 => 1
    case H1 => 2
  }

  /** The first `n` tiers of a `compact_recent` call. */
  function CompactTiers(s: State, n: nat): State {
    if n == 0 then s else CompactTier(CompactTiers(s, n - 1), TierAt(n - 1))
  }

  function CompactRecent(s: State): State {
    CompactTiers(s, 3)
  }

  function BackfillFrom(db: Db, tier: Tier, cursor: int, end: int): Db
    decreases end - cursor
  {
    if cursor >= end then db
    else BackfillFrom(CompactWindow(db, tier, cursor), tier, cursor + Width(tier), end)
  }

  function Backfill(db: Db, tier: Tier, start: int, end: int): Db {
    BackfillFrom(db, tier, FloorToBucket(start, tier), FloorToBucket(end, tier))
  }

  // ---------------------------------------------------------------- writers and retention

  /** A backfill writes the rollup tables only. */
  lemma {:induction false} FillFrame(db: Db, tier: Tier, cursor: int, end: int)
    ensures BackfillFrom(db, tier, cursor, end).(rollups := db.rollups) == db
    decreases end - cursor
  {
    if cursor >= end {
    } else {
      FillFrame(CompactWindow(db, tier, cursor), tier, cursor + Width(tier), end);
    }
  }

  /** The insert fails on the foreign key when the monitor is gone. */
  function SaveCheck(db: Db, m: string, status: Status, latency: Option<int>): Db {
    if m in db.monitors then db.(raw := db.raw + [Check(m, status, latency, db.now)]) else db
  }

  function OwnerPlan(db: Db, m: string): string
    requires m in db.monitors
  {
    if db.monitors[m].owner in db.users then db.users[db.monitors[m].owner].plan else "free"
  }

  function RetentionDays(plan: string, ceiling: int): int {
    if HistoryDays(plan) < ceiling then HistoryDays(plan) else ceiling
  }

  /** Is a row of monitor `m` stamped `t` past its owner's retention? */
  predicate Expired(db: Db, ceiling: int, m: string, t: int) {
    && m in db.monitors && db.monitors[m].owner in db.users
    && t < db.now - RetentionDays(OwnerPlan(db, m), ceiling) * DAY
  }

  function Purge(db: Db, ceiling: int): Db {
    db.(raw := Where(db.raw, (c: Check) => !Expired(db, ceiling, c.monitor, c.at)),
        rollups := map k | k in db.rollups && !Expired(db, ceiling, k.monitor, k.start) :: db.rollups[k])
  }

  predicate Abandoned(db: Db, days: int, user: string) {
    && user in db.users && db.users[user].plan == "free"
    && db.users[user].lastSeen < db.now - days * DAY
  }

  predicate OwnedByAbandoned(db: Db, days: int, m: string) {
    m in db.monitors && Abandoned(db, days, db.monitors[m].owner)
  }

  function Archive(db: Db, days: int): Db {
    db.(raw := Where(db.raw, (c: Check) => !OwnedByAbandoned(db, days, c.monitor)),
        rollups := map k | k in db.rollups && !OwnedByAbandoned(db, days, k.monitor) :: db.rollups[k],
        monitors := map m | m in db.monitors ::
          if OwnedByAbandoned(db, days, m) then db.monitors[m].(active := false) else db.monitors[m])
  }

  /** Deleting monitor rows cascades to raw checks and to all three rollup tables. */
  function DropMonitors(db: Db, gone: set<string>): Db {
    db.(monitors := db.monitors - gone,
        raw := Where(db.raw, (c: Check) => !(c.monitor in gone && c.monitor in db.monitors)),
        rollups := map k | k in db.rollups && !(k.monitor in gone && k.monitor in db.monitors) :: db.rollups[k])
  }

  function DeleteUser(db: Db, user: string): Db {
    var gone := set m | m in db.monitors && db.monitors[m].owner == user;
    DropMonitors(db, gone).(users := db.users - {user})
  }

  // ---------------------------------------------------------------- users and monitors

  function AddUser(db: Db, user: string): Db {
    if user in db.users then db else db.(users := db.users[user := User("free", db.now)])
  }

  function TouchUser(db: Db, user: string): Db {
    if user in db.users then db.(users := db.users[user := db.users[user].(lastSeen := db.now)]) else db
  }

  function ChangePlan(db: Db, user: string, plan: string): Db {
    if user in db.users then db.(users := db.users[user := db.users[user].(plan := plan)]) else db
  }

  /** Creation and editing are refused below the interval floor of the owner's plan. */
  function CreateMonitor(db: Db, id: string, owner: string, interval: int): Db {
    if id !in db.monitors && owner in db.users && IntervalAllowed(db.users[owner].plan, interval)
    then db.(monitors := db.monitors[id := Monitor(owner, interval, true)]) else db
  }

  function ChangeInterval(db: Db, id: string, interval: int): Db {
    if id in db.monitors && IntervalAllowed(OwnerPlan(db, id), interval)
    then db.(monitors := db.monitors[id := db.monitors[id].(interval := interval)]) else db
  }

  // ---------------------------------------------------------------- runs

  datatype Event =
    | Advance(dt: nat)
    | SignUp(user: string)
    | Visit(user: string)
    | SetPlan(user: string, plan: string)
    | RemoveUser(user: string)
    | AddMonitor(id: string, owner: string, interval: int)
    | EditInterval(id: string, interval: int)
    | RemoveMonitor(id: string)
    | Save(monitor: string, status: Status, latency: Option<int>)
    | Compact
    | Fill(tier: Tier, start: int, end: int)
    | RunPurge(ceiling: int)
    | RunArchive(days: int)
    | Restart

  function StepDb(db: Db, ev: Event): Db {
    match ev
    case Advance(dt) => db.(now := db.now + dt)
    case SignUp(u) => AddUser(db, u)
    case Visit(u) => TouchUser(db, u)
    case SetPlan(u, plan) => ChangePlan(db, u, plan)
    case RemoveUser(u) => DeleteUser(db, u)
    case AddMonitor(id, owner, interval) => CreateMonitor(db, id, owner, interval)
    case EditInterval(id, interval) => ChangeInterval(db, id, interval)
    case RemoveMonitor(id) => DropMonitors(db, {id})
    case Save(m, status, latency) => SaveCheck(db, m, status, latency)
    case Compact => db
    case Fill(tier, start, end) => Backfill(db, tier, start, end)
    case RunPurge(ceiling) => Purge(db, ceiling)
    case RunArchive(days) => Archive(db, days)
    case Restart => db
  }

  function Step(s: State, ev: Event): State {
    match ev
    case Compact => CompactRecent(s)
    case Restart => s.(memo := map[])
    case _ => s.(db := StepDb(s.db, ev))
  }

  /** What callers owe: a new monitor's id has never been used, and a backfill stops at the clock. */
  predicate Admissible(db: Db, ev: Event) {
    && (ev.AddMonitor? ==> forall c :: c in db.raw ==> c.monitor != ev.id)
    && (ev.Fill? ==> ev.end <= db.now)
  }

  function Run(s: State, evs: seq<Event>): State {
    if evs == [] then s else Step(Run(s, evs[..|evs| - 1]), evs[|evs| - 1])
  }

  predicate AdmissibleRun(s: State, evs: seq<Event>) {
    evs == [] ||
    var before := evs[..|evs| - 1];
    AdmissibleRun(s, before) && Admissible(Run(s, before).db, evs[|evs| - 1])
  }
}
