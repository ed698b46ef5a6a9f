/** The database and the compactor's module state as the source keeps them: tables and a memo that
    the operations overwrite step by step. Every operation is proved against its function in
    History; what holds over runs of them is proved there and in Lockstep, Memo and CoverageRuns. */
module Store {
  import opened Tables
  import opened Buckets
  import opened Aggregate
  import opened Plans
  import History
  import opened Retention
  import Cadence
  import Lockstep
  import Backfills

  class Store {
    var now: nat
    var users: map<string, History.User>
    var monitors: map<string, History.Monitor>
    var raw: seq<Check>
    var rollups: map<History.Key, Row>
    var memo: map<Tier, int>

    function Contents(): History.Db
      reads this
    {
      History.Db(now, users, monitors, raw, rollups)
    }

    function Process(): History.State
      reads this
    {
      History.State(Contents(), memo)
    }

    /** An empty database and a fresh process. */
    constructor (clock: nat)
      ensures Process() == History.State(History.Db(clock, map[], map[], [], map[]), map[])
      ensures Lockstep.Valid(Contents())
    {
      now, users, monitors, raw, rollups, memo := clock, map[], map[], [], map[], map[];
    }

    /** One turn of the loop of `compact_window`: INSERT OR REPLACE of the summary of one bucket. The
        ghost parameters say which rows were written before. */
    method Upsert(tier: Tier, start: int, m: string, ghost ids: set<string>, ghost seen: set<string>,
                  ghost table: map<History.Key, Row>, ghost rows: map<History.Key, Row>)
      returns (written: bool)
      requires RowsAre(raw, tier, start, ids, rows) && m in ids
      requires rollups == table + RowsSeen(rows, seen)
      modifies this`rollups
      ensures written && rollups == table + RowsSeen(rows, seen + {m})
    {
      var k := History.Key(tier, m, start);
      OneMoreRow(raw, tier, start, ids, seen, m, table, rows);
      var row := AggregateRows(History.Bucket(raw, k));
      written := row.Some?;
      if written {
        rollups := rollups[k := row.value];
      }
    }

    /** The loop of `compact_window` over the monitors it found. */
    method UpsertAll(tier: Tier, start: int, ids: set<string>, ghost rows: map<History.Key, Row>)
      returns (written: nat)
      requires RowsAre(raw, tier, start, ids, rows)
      modifies this`rollups
      ensures rollups == old(rollups) + rows
      ensures written == |ids|
    {
      ghost var table, seen := rollups, {};
      var todo := ids;
      written := 0;
      NothingSeen(table, rows);
      while todo != {}
        invariant RowsAre(raw, tier, start, ids, rows)
        invariant Split(ids, todo, seen)
        invariant written == |seen|
        invariant rollups == table + RowsSeen(rows, seen)
      {
        var m :| m in todo;
        MoveOne(ids, todo, seen, m);
        var done := Upsert(tier, start, m, ids, seen, table, rows);
        if done {
          written := written + 1;
        }
        todo, seen := todo - {m}, seen + {m};
      }
      SplitDone(ids, seen);
      AllSeen(raw, tier, start, ids, rows);
    }

    /** `compact_window` */
    method CompactWindow(tier: Tier, windowStart: int) returns (written: nat)
      modifies this`rollups
      ensures Contents() == History.CompactWindow(old(Contents()), tier, windowStart)
      ensures written == |History.MonitorsInWindow(old(Contents()), tier, FloorToBucket(windowStart, tier))|
    {
      var start := FloorToBucket(windowStart, tier);
      var ids := History.MonitorsInWindow(Contents(), tier, start);
      if ids == {} {
        MergeNothing(rollups, History.WindowRows(Contents(), tier, start));
        return 0;
      }
      RowsOfMonitors(Contents(), tier, start);
      written := UpsertAll(tier, start, ids, History.WindowRows(Contents(), tier, start));
    }

    /** `compact_recent`: visits the tiers in order, skipping those the memo says are done. */
    method CompactRecent() returns (summary: map<Tier, nat>)
      modifies this`rollups, this`memo
      ensures Process() == History.CompactRecent(old(Process()))
      ensures forall t :: t in summary <==> Fires(old(Process()), t)
      ensures forall t :: t in summary ==>
        summary[t] == |History.MonitorsInWindow(old(Contents()), t, LastWindow(old(now), t))|
    {
      summary := map[];
      for i := 0 to 3
        invariant Process() == History.CompactTiers(old(Process()), i)
        invariant now == old(now) && users == old(users) && monitors == old(monitors) && raw == old(raw)
        invariant forall t :: History.TierRank(t) >= i ==>
          t !in summary && (Fires(Process(), t) <==> Fires(old(Process()), t))
        invariant forall t :: History.TierRank(t) < i ==> (t in summary <==> Fires(old(Process()), t))
        invariant forall t :: t in summary ==>
          summary[t] == |History.MonitorsInWindow(old(Contents()), t, LastWindow(old(now), t))|
      {
        var tier := History.TierAt(i);
        var last := LastWindow(now, tier);
        if NotElapsed(now, tier) {
          continue;
        }
        if tier in memo && memo[tier] == last {
          continue;
        }
        LastWindowIsNewestElapsed(now, tier);
        FloorFixed(last, tier);
        SameMonitors(Contents(), old(Contents()), tier, last);
        var n := CompactWindow(tier, last);
        summary := summary[tier := n];
        memo := memo[tier := last];
      }
    }

    /** A backfill of `db` up to `end` that has come to `cursor` and written `total` of its `all` rows. */
    ghost predicate Underway(db: History.Db, tier: Tier, cursor: int, end: int, goal: History.Db, total: int, all: int)
      reads this
    {
      && raw == db.raw && monitors == db.monitors
      && total + Backfills.RowsWritten(db, tier, cursor, end) == all
      && History.BackfillFrom(Contents(), tier, cursor, end) == goal
    }

    /** One turn of the loop of `backfill`. */
    method BackfillBucket(tier: Tier, cursor: int, total: nat, ghost db: History.Db, ghost end: int,
                          ghost goal: History.Db, ghost all: int) returns (more: nat)
      requires cursor < end && Underway(db, tier, cursor, end, goal, total, all)
      modifies this`rollups
      ensures Underway(db, tier, cursor + Width(tier), end, goal, more, all)
    {
      BackfillStep(Contents(), tier, cursor, end);
      OneBucketWritten(db, Contents(), tier, cursor, end);
      var n := CompactWindow(tier, cursor);
      more := total + n;
    }

    /** `backfill` */
    method Backfill(tier: Tier, start: int, end: int) returns (total: nat)
      modifies this`rollups
      ensures Contents() == History.Backfill(old(Contents()), tier, start, end)
      ensures Backfills.Filled(old(Contents()), Contents(), tier, FloorToBucket(start, tier), FloorToBucket(end, tier))
      ensures total ==
        |Backfills.WantedKeys(old(Contents()), tier, FloorToBucket(start, tier), FloorToBucket(end, tier))|
    {
      var cursor := FloorToBucket(start, tier);
      var endFloored := FloorToBucket(end, tier);
      ghost var db := Contents();
      ghost var goal := History.Backfill(db, tier, start, end);
      ghost var all := Backfills.RowsWritten(db, tier, cursor, endFloored);
      total := 0;
      while cursor < endFloored
        invariant Underway(db, tier, cursor, endFloored, goal, total, all)
        decreases endFloored - cursor
      {
        total := BackfillBucket(tier, cursor, total, db, endFloored, goal, all);
        cursor := cursor + Width(tier);
      }
      Backfills.BackfillDoes(db, tier, start, end);
    }

    /** `save_check_result`: false when the foreign key rejects the row. */
    method SaveCheckResult(m: string, status: Status, latency: Option<int>) returns (saved: bool)
      modifies this`raw
      ensures Contents() == History.SaveCheck(old(Contents()), m, status, latency)
      ensures saved == (m in monitors)
      ensures raw == if saved then old(raw) + [Check(m, status, latency, now)] else old(raw)
    {
      saved := m in monitors;
      if saved {
        raw := raw + [Check(m, status, latency, now)];
      }
    }

    /** `delete_monitor`, with the cascades of the foreign keys: nothing of the monitor is left, nothing of any
        other is touched, and an unknown id changes nothing. */
    method DeleteMonitor(id: string) returns (found: bool)
      modifies this`monitors, this`raw, this`rollups
      ensures found == (id in old(monitors)) && monitors == old(monitors) - {id}
      ensures !found ==> Contents() == old(Contents())
      ensures found ==> forall k: History.Key :: k.monitor == id ==> k !in rollups
      ensures forall m :: ChecksBy(raw, m) == if found && m == id then [] else ChecksBy(old(raw), m)
      ensures forall k :: k in old(rollups) && k.monitor != id ==> k in rollups && rollups[k] == old(rollups)[k]
      ensures Lockstep.Valid(old(Contents())) ==> Lockstep.Valid(Contents())
    {
      found := id in monitors;
      DropLaws(Contents(), id);
      var after := History.DropMonitors(Contents(), {id});
      monitors, raw, rollups := after.monitors, after.raw, after.rollups;
    }

    /** One DELETE of the purge, for the owners of one plan. */
    method PurgePlan(ceiling: int, plan: string) returns (deleted: nat)
      modifies this`raw, this`rollups
      ensures Contents() == PurgedFor(old(Contents()), ceiling, {plan})
      ensures deleted == |old(raw)| - |raw|
    {
      var after := PurgedFor(Contents(), ceiling, {plan});
      deleted := |raw| - |after.raw|;
      raw, rollups := after.raw, after.rollups;
    }

    /** `purge_expired_check_results`: one pass per plan, in whatever order the plans come. */
    method PurgeExpired(ceiling: int) returns (deleted: nat)
      modifies this`raw, this`rollups
      ensures Contents() == History.Purge(old(Contents()), ceiling)
      ensures deleted == |old(raw)| - |raw|
    {
      var db := Contents();
      var plans := PlansInUse(db);
      if plans == {} {
        plans := {"free"};
      }
      deleted := 0;
      var todo := plans;
      ghost var visited := {};
      VisitNothing(db, ceiling);
      while todo != {}
        invariant Split(plans, todo, visited)
        invariant Contents() == PurgedFor(db, ceiling, visited)
        invariant deleted == |db.raw| - |raw|
      {
        var plan :| plan in todo;
        MoveOne(plans, todo, visited, plan);
        VisitOneMore(db, ceiling, visited, plan);
        var n := PurgePlan(ceiling, plan);
        deleted := deleted + n;
        todo, visited := todo - {plan}, visited + {plan};
      }
      SplitDone(plans, visited);
      VisitEveryPlan(db, ceiling, plans);
    }

    /** The statements of the archive for one user: history deleted, monitors paused. */
    method ArchiveUser(user: string)
      modifies this`raw, this`rollups, this`monitors
      ensures Contents() == ArchivedFor(old(Contents()), {user})
    {
      var after := ArchivedFor(Contents(), {user});
      raw, rollups, monitors := after.raw, after.rollups, after.monitors;
    }

    /** `archive_abandoned_free_accounts`: user by user. */
    method ArchiveAbandoned(days: int) returns (affected: nat)
      modifies this`raw, this`rollups, this`monitors
      ensures Contents() == History.Archive(old(Contents()), days)
      ensures affected == |AbandonedUsers(old(Contents()), days)|
    {
      var db := Contents();
      var ids := AbandonedUsers(db, days);
      var todo := ids;
      ghost var visited := {};
      ArchiveNobody(db);
      while todo != {}
        invariant Split(ids, todo, visited)
        invariant Contents() == ArchivedFor(db, visited)
      {
        var u :| u in todo;
        MoveOne(ids, todo, visited, u);
        ArchiveOneMore(db, visited, u);
        ArchiveUser(u);
        todo, visited := todo - {u}, visited + {u};
      }
      SplitDone(ids, visited);
      ArchiveEveryone(db, days);
      affected := |ids|;
    }

    /** The first half of `_tick`: the active monitors whose interval and offset have elapsed. */
    method CollectDue(sha: string -> nat) returns (due: seq<string>)
      ensures forall m :: m in due <==> m in Cadence.DueMonitors(Contents(), sha)
      ensures forall i, j :: 0 <= i < j < |due| ==> due[i] != due[j]
    {
      due := [];
      var active := set m | m in monitors && monitors[m].active;
      var todo := active;
      while todo != {}
        invariant todo <= active
        invariant forall m :: m in due <==> m in active - todo && Cadence.Due(Contents(), sha, m)
        invariant forall i, j :: 0 <= i < j < |due| ==> due[i] != due[j]
      {
        var m :| m in todo;
        if Cadence.Due(Contents(), sha, m) {
          due := due + [m];
        }
        todo := todo - {m};
      }
    }
  }

  /** The rows of the monitors visited so far. */
  ghost function RowsSeen(rows: map<History.Key, Row>, seen: set<string>): map<History.Key, Row> {
    map k | k in rows && k.monitor in seen :: rows[k]
  }

  /** `rows` holds the summary of the bucket for each of the monitors, and nothing else. */
  ghost predicate RowsAre(raw: seq<Check>, tier: Tier, start: int, ids: set<string>, rows: map<History.Key, Row>) {
    && (forall m :: m in ids ==> SummaryIs(raw, rows, History.Key(tier, m, start)))
    && (forall k :: k in rows ==> k.monitor in ids)
    && Keyed(rows, tier, start)
  }

  ghost predicate Keyed(rows: map<History.Key, Row>, tier: Tier, start: int) {
    forall k :: k in rows ==> k == History.Key(tier, k.monitor, start)
  }

  ghost predicate SummaryIs(raw: seq<Check>, rows: map<History.Key, Row>, k: History.Key) {
    k in rows && Summarize(History.Bucket(raw, k)) == Some(rows[k])
  }

  /** Writing one more row. */
  lemma WriteOne<K, V>(table: map<K, V>, part: map<K, V>, k: K, v: V)
    ensures (table + part)[k := v] == table + part[k := v]
  {
  }

  lemma SeeOneMore(tier: Tier, start: int, seen: set<string>, m: string, rows: map<History.Key, Row>)
    requires Keyed(rows, tier, start) && History.Key(tier, m, start) in rows
    ensures var k := History.Key(tier, m, start);
            RowsSeen(rows, seen + {m}) == RowsSeen(rows, seen)[k := rows[k]]
  {
  }

  lemma OneMoreRow(raw: seq<Check>, tier: Tier, start: int, ids: set<string>, seen: set<string>, m: string,
                   table: map<History.Key, Row>, rows: map<History.Key, Row>)
    requires RowsAre(raw, tier, start, ids, rows) && m in ids
    ensures var k := History.Key(tier, m, start);
            SummaryIs(raw, rows, k) &&
            (table + RowsSeen(rows, seen))[k := rows[k]] == table + RowsSeen(rows, seen + {m})
  {
    var k := History.Key(tier, m, start);
    assert SummaryIs(raw, rows, k);
    SeeOneMore(tier, start, seen, m, rows);
    WriteOne(table, RowsSeen(rows, seen), k, rows[k]);
  }

  ghost predicate Split<T(!new)>(all: set<T>, todo: set<T>, done: set<T>) {
    todo !! done && todo + done == all
  }

  lemma SplitDone<T(!new)>(all: set<T>, done: set<T>)
    requires Split(all, {}, done)
    ensures done == all
  {
  }

  lemma MoveOne<T(!new)>(all: set<T>, todo: set<T>, done: set<T>, x: T)
    requires Split(all, todo, done) && x in todo
    ensures Split(all, todo - {x}, done + {x}) && |done + {x}| == |done| + 1 && x in all
    ensures todo - {x} < todo
  {
  }

  /** One turn of the loop of `backfill`. */
  lemma BackfillStep(db: History.Db, tier: Tier, cursor: int, end: int)
    requires cursor < end
    ensures History.BackfillFrom(db, tier, cursor, end) ==
            History.BackfillFrom(History.CompactWindow(db, tier, cursor), tier, cursor + Width(tier), end)
  {
  }

  lemma SameMonitors(a: History.Db, b: History.Db, tier: Tier, start: int)
    requires a.raw == b.raw && a.monitors == b.monitors
    ensures History.MonitorsInWindow(a, tier, start) == History.MonitorsInWindow(b, tier, start)
  {
  }

  lemma OneBucketWritten(db: History.Db, now: History.Db, tier: Tier, cursor: int, end: int)
    requires now.raw == db.raw && now.monitors == db.monitors && cursor < end
    ensures Backfills.RowsWritten(db, tier, cursor, end) ==
            |History.MonitorsInWindow(now, tier, FloorToBucket(cursor, tier))|
            + Backfills.RowsWritten(db, tier, cursor + Width(tier), end)
  {
    SameMonitors(now, db, tier, FloorToBucket(cursor, tier));
  }

  /** Does `compact_recent` visit the tier: is its newest bucket elapsed and not the one in the memo? */
  predicate Fires(s: History.State, tier: Tier) {
    !NotElapsed(s.db.now, tier) && !(tier in s.memo && s.memo[tier] == LastWindow(s.db.now, tier))
  }

  lemma DropLaws(db: History.Db, id: string)
    ensures var left := History.DropMonitors(db, {id});
            && (id !in db.monitors ==> left == db)
            && (Lockstep.Valid(db) ==> Lockstep.Valid(left))
            && (forall m :: ChecksBy(left.raw, m) == if id in db.monitors && m == id then [] else ChecksBy(db.raw, m))
  {
    var left := History.DropMonitors(db, {id});
    if Lockstep.Valid(db) {
      Lockstep.DropMonitorsValid(db, {id});
    }
    forall m ensures ChecksBy(left.raw, m) == if id in db.monitors && m == id then [] else ChecksBy(db.raw, m) {
      DropHistory(db, id, m);
    }
    if id !in db.monitors {
      DropNothing(db, id);
    }
  }

  lemma DropNothing(db: History.Db, id: string)
    requires id !in db.monitors
    ensures History.DropMonitors(db, {id}) == db
  {
    var gone := {id};
    var left := History.DropMonitors(db, gone);
    WhereAll(db.raw, (c: Check) => !(c.monitor in gone && c.monitor in db.monitors));
    assert left.monitors == db.monitors;
    assert left.rollups == db.rollups;
  }

  lemma DropHistory(db: History.Db, id: string, m: string)
    ensures ChecksBy(History.DropMonitors(db, {id}).raw, m)
         == if id in db.monitors && m == id then [] else ChecksBy(db.raw, m)
  {
    var gone := {id};
    FilterHistory(db.raw, (c: Check) => !(c.monitor in gone && c.monitor in db.monitors), id, id in db.monitors, m);
  }

  lemma FilterHistory(raw: seq<Check>, keep: Check -> bool, id: string, found: bool, m: string)
    requires forall c :: c in raw ==> keep(c) == !(found && c.monitor == id)
    ensures ChecksBy(Where(raw, keep), m) == if found && m == id then [] else ChecksBy(raw, m)
  {
    if found && m == id {
      WhereNone(Where(raw, keep), (c: Check) => c.monitor == m);
    } else {
      FilterTwice(raw, keep, (c: Check) => c.monitor == m, (c: Check) => c.monitor == m);
    }
  }

  lemma NothingSeen(table: map<History.Key, Row>, rows: map<History.Key, Row>)
    ensures table + RowsSeen(rows, {}) == table
  {
  }

  lemma AllSeen(raw: seq<Check>, tier: Tier, start: int, ids: set<string>, rows: map<History.Key, Row>)
    requires RowsAre(raw, tier, start, ids, rows)
    ensures RowsSeen(rows, ids) == rows
  {
  }

  lemma RowsOfMonitors(db: History.Db, tier: Tier, start: int)
    ensures RowsAre(db.raw, tier, start, History.MonitorsInWindow(db, tier, start), History.WindowRows(db, tier, start))
  {
    var rows := History.WindowRows(db, tier, start);
    forall m | m in History.MonitorsInWindow(db, tier, start)
      ensures SummaryIs(db.raw, rows, History.Key(tier, m, start))
    {
      Lockstep.InWindowIff(db, tier, m, start);
    }
  }
}
