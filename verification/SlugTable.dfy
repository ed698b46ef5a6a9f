/** The `status_page_slug` column over time: pingback/services/status_slug.py:104-166, the settings form of
    pingback/routes/dashboard.py:1065-1085 and the UNIQUE index of pingback/db/schema.py:216-217. */
module SlugTable {
  import opened Tables
  import opened Slugs
  import opened SlugAllocation

  /** `email` is the decrypted address, None when there is none or it does not decrypt. */
  datatype User = User(name: Option<string>, email: Option<string>, slug: Option<string>)

  type Table = map<string, User>

  function Taken(t: Table): set<string> {
    set id | id in t && t[id].slug.Some? :: t[id].slug.value
  }

  /** The UNIQUE index; NULL slugs do not collide. */
  predicate Distinct(t: Table) {
    forall a, b :: a in t && b in t && a != b && t[a].slug.Some? ==> t[a].slug != t[b].slug
  }

  predicate Unassigned(t: Table, id: string) {
    id in t && t[id].slug.None?
  }

  function WithSlug(t: Table, id: string, slug: string): Table
    requires id in t
  {
    t[id := t[id].(slug := Some(slug))]
  }

  function SlugOf(t: Table, id: string): string
    requires id in t
  {
    Generated(t[id].name, t[id].email, id, Taken(t))
  }

  /** `UPDATE ... WHERE id = ? AND status_page_slug IS NULL`; None when the index rejects it. */
  function SetIfNull(t: Table, id: string, slug: string): Option<Table> {
    if !Unassigned(t, id) then Some(t)
    else if slug in Taken(t) then None
    else Some(WithSlug(t, id, slug))
  }

  lemma SettingKeepsDistinct(t: Table, id: string, slug: string)
    requires Unassigned(t, id)
    ensures Taken(WithSlug(t, id, slug)) == Taken(t) + {slug}
    ensures Distinct(t) && slug !in Taken(t) ==> Distinct(WithSlug(t, id, slug))
  {
    var u := WithSlug(t, id, slug);
    forall s | s in Taken(t) + {slug} ensures s in Taken(u) {
      if s in Taken(t) {
        var a :| a in t && t[a].slug == Some(s);
        assert u[a].slug == Some(s);
      } else {
        assert u[id].slug == Some(slug);
      }
    }
    assert forall a :: a in t && t[a].slug.Some? ==> t[a].slug.value in Taken(t);
  }

  // ---------------------------------------------------------------- assign_slug_if_missing

  /** The new table and the slug returned; None when the UNIQUE index raised. */
  function Assigned(t: Table, id: string, name: Option<string>, email: Option<string>)
    : (Table, Option<string>)
  {
    if id in t && t[id].slug.Some? && t[id].slug.value != "" then (t, t[id].slug)
    else
      var slug := Generated(name, email, id, Taken(t));
      match SetIfNull(t, id, slug)
      case Some(u) => (u, Some(slug))
      case None => (t, None)
  }

  // ---------------------------------------------------------------- backfill_status_slugs

  /** The result of the SELECT: each user without a slug, once. */
  ghost predicate Lists(t: Table, rows: seq<string>) {
    && (forall i, j :: 0 <= i < j < |rows| ==> rows[i] != rows[j])
    && (forall id :: id in rows <==> Unassigned(t, id))
  }

  /** The loop over the rows: the table reached, and whether no UPDATE was rejected. */
  function Backfilled(t: Table, rows: seq<string>): (Table, bool)
    requires forall id :: id in rows ==> id in t
  {
    if rows == [] then (t, true)
    else
      match SetIfNull(t, rows[0], SlugOf(t, rows[0]))
      case Some(u) => Backfilled(u, rows[1..])
      case None => (t, false)
  }

  /** The columns other than the slug, and every slug already there. */
  predicate Extends(t: Table, u: Table) {
    && u.Keys == t.Keys
    && (forall id :: id in t ==> u[id].name == t[id].name && u[id].email == t[id].email)
    && (forall id :: id in t && t[id].slug.Some? ==> u[id].slug == t[id].slug)
  }

  /** Slugs given to users with a UUID are proper. */
  predicate AllProper(t: Table) {
    forall id :: id in t && IsUuid(id) && t[id].slug.Some? ==> Proper(t[id].slug.value)
  }

  lemma WritingKeeps(t: Table, id: string, slug: string)
    requires Distinct(t) && Unassigned(t, id) && slug !in Taken(t) && (IsUuid(id) ==> Proper(slug))
    ensures var u := WithSlug(t, id, slug); Extends(t, u) && Distinct(u) && (AllProper(t) ==> AllProper(u))
  {
    SettingKeepsDistinct(t, id, slug);
  }

  lemma SetIfNullKeeps(t: Table, id: string)
    requires Distinct(t) && id in t && SetIfNull(t, id, SlugOf(t, id)).Some?
    ensures var u := SetIfNull(t, id, SlugOf(t, id)).value;
            Extends(t, u) && Distinct(u) && (AllProper(t) ==> AllProper(u)) && u[id].slug.Some? &&
            (forall a :: a in t && a != id ==> u[a] == t[a])
  {
    if Unassigned(t, id) {
      GeneratedProper(t[id].name, t[id].email, id, Taken(t));
      WritingKeeps(t, id, SlugOf(t, id));
    }
  }

  lemma GeneratedProper(name: Option<string>, email: Option<string>, id: string, taken: set<string>)
    ensures IsUuid(id) ==> Proper(Generated(name, email, id, taken))
  {
    if IsUuid(id) {
      GeneratedIsProper(name, email, id, taken);
    }
  }

  lemma {:induction false} BackfillKeeps(t: Table, rows: seq<string>)
    requires forall id :: id in rows ==> id in t
    requires Distinct(t)
    ensures var (u, ok) := Backfilled(t, rows);
            Extends(t, u) && Distinct(u) && (AllProper(t) ==> AllProper(u)) &&
            (ok ==> forall id :: id in rows ==> u[id].slug.Some?) &&
            (forall id :: id in t && id !in rows ==> u[id] == t[id])
    decreases |rows|
  {
    if rows == [] {
    } else {
      var id := rows[0];
      match SetIfNull(t, id, SlugOf(t, id))
      case None =>
      case Some(u) =>
        SetIfNullKeeps(t, id);
        BackfillKeeps(u, rows[1..]);
        assert forall a :: a in rows ==> a == id || a in rows[1..];
    }
  }

  lemma HeadIsMember(rows: seq<string>)
    ensures rows == [] || rows[0] in rows
  {
  }

  /** A backfill that goes through gives every user a slug, all distinct, proper for every UUID, and
      touches no slug that was there; running it again finds nothing to do. */
  lemma BackfillIsComplete(t: Table, rows: seq<string>, again: seq<string>)
    requires Lists(t, rows) && Distinct(t) && Backfilled(t, rows).1
    requires Lists(Backfilled(t, rows).0, again)
    ensures var u := Backfilled(t, rows).0;
            Extends(t, u) && Distinct(u) && (AllProper(t) ==> AllProper(u)) &&
            (forall id :: id in u ==> u[id].slug.Some?)
    ensures again == [] && Backfilled(Backfilled(t, rows).0, again) == (Backfilled(t, rows).0, true)
  {
    BackfillKeeps(t, rows);
    var u := Backfilled(t, rows).0;
    assert forall id :: id in u ==> Unassigned(t, id) || t[id].slug.Some?;
    assert forall id :: id !in again by {
      assert forall id :: id in u ==> !Unassigned(u, id);
    }
    HeadIsMember(again);
  }

  /** Nobody holds the last resort of a user still to be served, and no candidate of one such user is the
      last resort of another. */
  predicate LastResortsFree(t: Table, rows: seq<string>)
    requires forall id :: id in rows ==> id in t
  {
    && (forall id :: id in rows ==> LastResort(id) !in Taken(t))
    && (forall a, b :: a in rows && b in rows && a != b ==> Apart(t[a], a, b))
  }

  predicate Apart(u: User, a: string, b: string) {
    && LastResort(a) != LastResort(b)
    && forall k :: 0 <= k <= 4 ==> Candidate(Seed(u.name, u.email, a), a, k) != LastResort(b)
  }

  /** Then the UNIQUE index never rejects the backfill. */
  lemma {:induction false} BackfillSucceeds(t: Table, rows: seq<string>)
    requires forall i, j :: 0 <= i < j < |rows| ==> rows[i] != rows[j]
    requires forall id :: id in rows ==> id in t && t[id].slug.None?
    requires LastResortsFree(t, rows)
    ensures Backfilled(t, rows).1
    decreases |rows|
  {
    if rows == [] {
    } else {
      var id := rows[0];
      var seed := Seed(t[id].name, t[id].email, id);
      var slug := SlugOf(t, id);
      FirstUsableOrigin(seed, id, Taken(t), 0);
      assert id in rows;
      assert slug !in Taken(t);
      SettingKeepsDistinct(t, id, slug);
      var u := WithSlug(t, id, slug);
      forall b | b in rows[1..]
        ensures LastResort(b) !in Taken(u) && b in rows && b != id
      {
        assert b in rows && Apart(t[id], id, b);
      }
      assert LastResortsFree(u, rows[1..]);
      BackfillSucceeds(u, rows[1..]);
    }
  }

  predicate Pending(t: Table, rows: seq<string>) {
    && (forall i, j :: 0 <= i < j < |rows| ==> rows[i] != rows[j])
    && (forall id :: id in rows ==> id in t && t[id].slug.None? && IsUuid(id))
  }

  /** The rows before the k-th go through, and leave the k-th user neither a candidate nor a last resort. */
  predicate StuckAt(t: Table, rows: seq<string>, k: nat)
    requires k < |rows| && forall id :: id in rows ==> id in t
  {
    var (u, ok) := Backfilled(t, rows[..k]);
    ok && LastResort(rows[k]) in Taken(u) &&
    Exhausted(Seed(t[rows[k]].name, t[rows[k]].email, rows[k]), rows[k], Taken(u))
  }

  lemma StuckAtFirstIff(t: Table, rows: seq<string>)
    requires rows != [] && Pending(t, rows)
    ensures StuckAt(t, rows, 0) <==> SlugOf(t, rows[0]) in Taken(t)
  {
    var id := rows[0];
    var seed := Seed(t[id].name, t[id].email, id);
    SeedHasShape(t[id].name, t[id].email, id);
    FirstUsableOrigin(seed, id, Taken(t), 0);
    assert rows[..0] == [];
    if SlugOf(t, id) in Taken(t) {
      TakenMeansExhausted(seed, id, Taken(t));
    } else if StuckAt(t, rows, 0) {
      ExhaustedMeansLastResort(seed, id, Taken(t), 0);
    }
  }

  lemma StuckLater(t: Table, rows: seq<string>, k: nat)
    requires Pending(t, rows) && k + 1 < |rows| && SlugOf(t, rows[0]) !in Taken(t)
    ensures var u := WithSlug(t, rows[0], SlugOf(t, rows[0]));
            Pending(u, rows[1..]) && (StuckAt(u, rows[1..], k) <==> StuckAt(t, rows, k + 1))
  {
    assert rows[..k + 1][1..] == rows[1..][..k] && rows[..k + 1][0] == rows[0];
    assert rows[1..][k] == rows[k + 1];
  }

  /** A rejected backfill stops at a user whose every proper candidate, and last resort too, is held. */
  lemma {:induction false} BackfillFailsIff(t: Table, rows: seq<string>)
    requires Pending(t, rows)
    ensures !Backfilled(t, rows).1 <==> exists k :: 0 <= k < |rows| && StuckAt(t, rows, k)
    decreases |rows|
  {
    if rows == [] {
    } else {
      StuckAtFirstIff(t, rows);
      var slug := SlugOf(t, rows[0]);
      if slug !in Taken(t) {
        var u := WithSlug(t, rows[0], slug);
        var rest := rows[1..];
        assert Pending(u, rest);
        BackfillFailsIff(u, rest);
        forall k | 0 <= k < |rest| ensures StuckAt(u, rest, k) <==> StuckAt(t, rows, k + 1) {
          StuckLater(t, rows, k);
        }
        assert Backfilled(t, rows) == Backfilled(u, rest);
        if k :| 0 <= k < |rows| && StuckAt(t, rows, k) {
          assert StuckAt(u, rest, k - 1);
        }
      }
    }
  }

  // ---------------------------------------------------------------- a backfill that is rejected

  /** The slugs that the generator could give to a user with neither a name nor an email: five candidates and
      the last resort. */
  function Reachable(id: string, k: nat): string
    requires k <= 5
  {
    if k == 5 then LastResort(id) else Candidate(Seed(None, None, id), id, k)
  }

  function ReachableLength(k: nat): nat
    requires k <= 5
  {
    if k == 0 then 13 else if k == 1 then 20 else if k == 2 then 22
    else if k == 3 then 26 else if k == 4 then 32 else 29
  }

  lemma EmptySeed(id: string)
    requires IsUuid(id)
    ensures Seed(None, None, id) == "page-" + IdPrefix(id, 8)
  {
    assert LowerAll("") == "";
    assert Slugify("") == "";
    PageSlugIsFree(id, 8);
  }

  lemma ReachableIsProper(id: string, k: nat)
    requires IsUuid(id) && k <= 5
    ensures Proper(Reachable(id, k)) && |Reachable(id, k)| == ReachableLength(k)
  {
    if k == 5 {
      LastResortIsProper(id);
      PageSlug(id, 24);
    } else {
      var seed := Seed(None, None, id);
      EmptySeed(id);
      SeedHasShape(None, None, id);
      PageSlug(id, 8);
      if k == 0 {
        SeedIsProper(seed, id);
        StripNothing(seed);
      } else {
        SuffixIsProperIff(seed, id, k);
        TailOfUuid(id, 8);
        TailOfUuid(id, SuffixLength(k));
        assert seed[6] == IdPrefix(id, 8)[1];
      }
    }
  }

  /** A user named like a free slug gets that slug. */
  lemma NamesakeGetsIt(name: string, id: string, taken: set<string>)
    requires Proper(name) && IsUuid(id) && name !in taken
    ensures Generated(Some(name), None, id, taken) == name
  {
    SlugifyIsIdentityOnSlugs(name);
    StripNothing(name);
    GeneratedIsProper(Some(name), None, id, taken);
  }

  /** Nobody has a slug yet. The last user has neither a name nor an email; the k-th of the others is named
      like the k-th slug reachable for the last one. */
  function Namesakes(id: string, others: seq<string>): Table
    requires |others| <= 6
  {
    if others == [] then map[id := User(None, None, None)]
    else
      var k := |others| - 1;
      Namesakes(id, others[..k])[others[k] := User(Some(Reachable(id, k)), None, None)]
  }

  predicate DifferentUuids(ids: seq<string>) {
    && (forall i, j :: 0 <= i < j < |ids| ==> ids[i] != ids[j])
    && (forall i :: 0 <= i < |ids| ==> IsUuid(ids[i]))
  }

  /** That table when the first `k` of the others have been served. */
  ghost predicate ServedTo(t: Table, id: string, others: seq<string>, k: nat)
    requires |others| <= 6
  {
    && (forall u :: u in t <==> u == id || u in others) && id in t && t[id] == User(None, None, None)
    && forall i :: 0 <= i < |others| ==>
         others[i] in t &&
         t[others[i]] == User(Some(Reachable(id, i)), None, if i < k then Some(Reachable(id, i)) else None)
  }

  lemma {:induction false} NamesakesAre(id: string, others: seq<string>)
    requires |others| <= 6 && id !in others && forall i, j :: 0 <= i < j < |others| ==> others[i] != others[j]
    ensures ServedTo(Namesakes(id, others), id, others, 0)
  {
    if others == [] {
    } else {
      var k := |others| - 1;
      var before := others[..k];
      NamesakesAre(id, before);
      assert forall i :: 0 <= i < k ==> before[i] == others[i];
      assert forall u :: u in others <==> u in before || u == others[k];
    }
  }

  lemma ReachableDiffer(id: string, i: nat, k: nat)
    requires IsUuid(id) && i <= 5 && k <= 5 && i != k
    ensures Reachable(id, i) != Reachable(id, k)
  {
    ReachableIsProper(id, i);
    ReachableIsProper(id, k);
  }

  /** The slugs held by then, all different from the next one. */
  lemma NextIsFree(t: Table, id: string, others: seq<string>, k: nat)
    requires |others| <= 6 && ServedTo(t, id, others, k) && k < |others| && IsUuid(id)
    ensures Reachable(id, k) !in Taken(t)
  {
    forall u | u in t && t[u].slug.Some? ensures t[u].slug.value != Reachable(id, k) {
      assert u != id && u in others;
      var i :| 0 <= i < |others| && others[i] == u;
      ReachableDiffer(id, i, k);
    }
  }

  lemma ServeOne(t: Table, id: string, others: seq<string>, k: nat) returns (u: Table)
    requires |others| <= 6 && DifferentUuids(others) && IsUuid(id) && ServedTo(t, id, others, k) && k < |others|
    ensures SetIfNull(t, others[k], SlugOf(t, others[k])) == Some(u) && ServedTo(u, id, others, k + 1)
  {
    NextGetsIt(t, id, others, k);
    NextIsFree(t, id, others, k);
    u := WithSlug(t, others[k], Reachable(id, k));
    NextServed(t, id, others, k);
  }

  lemma NextGetsIt(t: Table, id: string, others: seq<string>, k: nat)
    requires |others| <= 6 && DifferentUuids(others) && IsUuid(id) && ServedTo(t, id, others, k) && k < |others|
    ensures SlugOf(t, others[k]) == Reachable(id, k)
  {
    NextIsFree(t, id, others, k);
    ReachableIsProper(id, k);
    NamesakeGetsIt(Reachable(id, k), others[k], Taken(t));
  }

  lemma NextServed(t: Table, id: string, others: seq<string>, k: nat)
    requires |others| <= 6 && DifferentUuids(others) && ServedTo(t, id, others, k) && k < |others|
    ensures ServedTo(WithSlug(t, others[k], Reachable(id, k)), id, others, k + 1)
  {
  }

  lemma BackfillOn(t: Table, rows: seq<string>, u: Table)
    requires rows != [] && (forall id :: id in rows ==> id in t) && SetIfNull(t, rows[0], SlugOf(t, rows[0])) == Some(u)
    ensures Backfilled(t, rows) == Backfilled(u, rows[1..])
  {
  }

  /** Once they are all served, nothing is left for the last user. */
  lemma NothingLeft(t: Table, id: string, others: seq<string>)
    requires |others| == 6 && IsUuid(id) && ServedTo(t, id, others, 6)
    ensures Backfilled(t, [id]) == (t, false)
  {
    var seed := Seed(None, None, id);
    FirstUsableOrigin(seed, id, Taken(t), 0);
    forall k: nat | k <= 5 ensures Reachable(id, k) in Taken(t) {
      assert t[others[k]].slug == Some(Reachable(id, k));
    }
    assert Reachable(id, 5) == LastResort(id);
    assert forall k: nat :: k <= 4 ==> Reachable(id, k) == Candidate(seed, id, k);
    assert [id][0] == id;
  }

  lemma {:induction false} ServeFrom(t: Table, id: string, others: seq<string>, k: nat)
    requires |others| == 6 && DifferentUuids(others) && IsUuid(id) && k <= 6 && ServedTo(t, id, others, k)
    ensures !Backfilled(t, others[k..] + [id]).1
    decreases 6 - k
  {
    var rows := others[k..] + [id];
    if k == 6 {
      assert rows == [id];
      NothingLeft(t, id, others);
    } else {
      assert rows[0] == others[k] && rows[1..] == others[k + 1..] + [id];
      var u := ServeOne(t, id, others, k);
      BackfillOn(t, rows, u);
      ServeFrom(u, id, others, k + 1);
    }
  }

  lemma AllToServe(t: Table, id: string, others: seq<string>)
    requires |others| <= 6 && ServedTo(t, id, others, 0) && id !in others
    requires forall i, j :: 0 <= i < j < |others| ==> others[i] != others[j]
    ensures (forall u :: u in t ==> t[u].slug == None) && Lists(t, others + [id])
  {
    forall u | u in t ensures t[u].slug == None {
      if u != id {
        var i :| 0 <= i < |others| && others[i] == u;
      }
    }
  }

  /** So a backfill can really be rejected, at the first startup already: whatever six other UUIDs there are,
      when nobody has a slug and the names of six users are the slugs that the generator would try for the
      seventh. */
  lemma CrowdedBackfillFails(id: string, others: seq<string>)
    requires |others| == 6 && DifferentUuids(others) && IsUuid(id) && id !in others
    ensures var t, rows := Namesakes(id, others), others + [id];
            (forall u :: u in t ==> t[u].slug == None) && Lists(t, rows) && !Backfilled(t, rows).1
  {
    var t := Namesakes(id, others);
    NamesakesAre(id, others);
    AllToServe(t, id, others);
    assert others[0..] == others;
    ServeFrom(t, id, others, 0);
  }

  // ---------------------------------------------------------------- the user's own choice

  predicate Blank(c: char) {
    '\t' <= c <= '\r' || (28 as char) <= c <= ' '
  }

  /** `str.strip` on ASCII. */
  function StripBlanks(s: string): string {
    if s != "" && Blank(s[0]) then StripBlanks(s[1..])
    else if s != "" && Blank(s[|s| - 1]) then StripBlanks(s[..|s| - 1])
    else s
  }

  function Chosen(text: string): string {
    LowerAll(StripBlanks(text))
  }

  lemma {:induction false} StripBlanksEnds(s: string)
    ensures StripBlanks(s) != "" ==> !Blank(StripBlanks(s)[|StripBlanks(s)| - 1])
  {
    if s == "" {
    } else if Blank(s[0]) {
      StripBlanksEnds(s[1..]);
    } else if Blank(s[|s| - 1]) {
      StripBlanksEnds(s[..|s| - 1]);
    }
  }

  /** The newline that `$` tolerates never gets through the settings form, which strips first. */
  lemma ChosenIsProperIff(text: string)
    ensures Validate(Chosen(text)) == Acceptable <==> Proper(Chosen(text))
  {
    StripBlanksEnds(text);
    ValidateAccepts(Chosen(text));
  }

  /** Is the slug held by somebody else? */
  predicate HeldByOther(t: Table, id: string, slug: string) {
    exists a :: a in t && a != id && t[a].slug == Some(slug)
  }

  /** `update_status_page_slug`. */
  function Pick(t: Table, id: string, text: string): Table {
    if id in t && Validate(Chosen(text)) == Acceptable && !HeldByOther(t, id, Chosen(text))
    then WithSlug(t, id, Chosen(text))
    else t
  }

  // ---------------------------------------------------------------- runs

  datatype Event =
    | Register(id: string, name: Option<string>, email: Option<string>)
    | Assign(id: string, name: Option<string>, email: Option<string>)
    | Choose(id: string, text: string)
    | Startup(rows: seq<string>)
    | Remove(id: string)

  /** `signup_submit` generates the slug before it inserts the row; the INSERT fails on a key or a slug
      that exists. */
  function Registered(t: Table, id: string, name: Option<string>, email: Option<string>): Table {
    var slug := Generated(name, email, id, Taken(t));
    if id in t || slug in Taken(t) then t else t[id := User(name, email, Some(slug))]
  }

  /** A failed backfill leaves the UPDATEs made before it stopped. */
  function Step(t: Table, e: Event): Table
    requires e.Startup? ==> forall id :: id in e.rows ==> id in t
  {
    match e
    case Register(id, name, email) => Registered(t, id, name, email)
    case Assign(id, name, email) => Assigned(t, id, name, email).0
    case Choose(id, text) => Pick(t, id, text)
    case Startup(rows) => Backfilled(t, rows).0
    case Remove(id) => t - {id}
  }

  ghost predicate Runs(t: Table, es: seq<Event>)
    decreases |es|
  {
    es == [] || ((es[0].Startup? ==> Lists(t, es[0].rows)) && Runs(Step(t, es[0]), es[1..]))
  }

  ghost function After(t: Table, es: seq<Event>): Table
    requires Runs(t, es)
    decreases |es|
  {
    if es == [] then t else After(Step(t, es[0]), es[1..])
  }

  lemma RegisterKeeps(t: Table, id: string, name: Option<string>, email: Option<string>)
    requires Distinct(t) && AllProper(t)
    ensures Distinct(Registered(t, id, name, email)) && AllProper(Registered(t, id, name, email))
  {
    GeneratedProper(name, email, id, Taken(t));
    assert forall a :: a in t && t[a].slug.Some? ==> t[a].slug.value in Taken(t);
  }

  lemma AssignKeeps(t: Table, id: string, name: Option<string>, email: Option<string>)
    requires Distinct(t) && AllProper(t)
    ensures var u := Assigned(t, id, name, email).0;
            Distinct(u) && AllProper(u) && Extends(t, u)
  {
    var slug := Generated(name, email, id, Taken(t));
    if Unassigned(t, id) && slug !in Taken(t) {
      GeneratedProper(name, email, id, Taken(t));
      WritingKeeps(t, id, slug);
    }
  }

  lemma PickKeeps(t: Table, id: string, text: string)
    requires Distinct(t) && AllProper(t)
    ensures Distinct(Pick(t, id, text)) && AllProper(Pick(t, id, text))
    ensures forall a :: a in t && a != id ==> a in Pick(t, id, text) && Pick(t, id, text)[a] == t[a]
  {
    ChosenIsProperIff(text);
  }

  lemma StartupKeeps(t: Table, rows: seq<string>)
    requires Distinct(t) && AllProper(t) && Lists(t, rows)
    ensures Distinct(Backfilled(t, rows).0) && AllProper(Backfilled(t, rows).0)
  {
    BackfillKeeps(t, rows);
  }

  lemma StepKeeps(t: Table, e: Event)
    requires Distinct(t) && AllProper(t) && (e.Startup? ==> Lists(t, e.rows))
    ensures Distinct(Step(t, e)) && AllProper(Step(t, e))
  {
    match e
    case Register(id, name, email) => RegisterKeeps(t, id, name, email);
    case Assign(id, name, email) => AssignKeeps(t, id, name, email);
    case Choose(id, text) => PickKeeps(t, id, text);
    case Startup(rows) => StartupKeeps(t, rows);
    case Remove(id) => RemoveKeeps(t, id);
  }

  lemma RemoveKeeps(t: Table, id: string)
    requires Distinct(t) && AllProper(t)
    ensures Distinct(t - {id}) && AllProper(t - {id})
  {
  }

  /** Over every run, slugs stay distinct and every slug of a UUID user is proper. */
  lemma {:induction false} SlugsOverRuns(t: Table, es: seq<Event>)
    requires Distinct(t) && AllProper(t) && Runs(t, es)
    ensures Distinct(After(t, es)) && AllProper(After(t, es))
    decreases |es|
  {
    if es == [] {
    } else {
      StepKeeps(t, es[0]);
      SlugsOverRuns(Step(t, es[0]), es[1..]);
    }
  }

  predicate ByOwner(e: Event, id: string) {
    (e.Choose? || e.Remove?) && e.id == id
  }

  lemma StepKeepsAddress(t: Table, e: Event, id: string)
    requires Distinct(t) && AllProper(t) && (e.Startup? ==> Lists(t, e.rows))
    requires id in t && t[id].slug.Some? && !ByOwner(e, id)
    ensures id in Step(t, e) && Step(t, e)[id].slug == t[id].slug
  {
    match e
    case Register(_, _, _) =>
    case Assign(a, name, email) => AssignKeeps(t, a, name, email);
    case Choose(a, text) => PickKeeps(t, a, text);
    case Startup(rows) => BackfillKeeps(t, rows);
    case Remove(_) =>
  }

  /** A page address, once given, changes by its owner's choice or with its owner's removal only. */
  lemma {:induction false} AddressIsStable(t: Table, es: seq<Event>, id: string)
    requires Distinct(t) && AllProper(t) && Runs(t, es)
    requires id in t && t[id].slug.Some?
    requires forall i :: 0 <= i < |es| ==> !ByOwner(es[i], id)
    ensures id in After(t, es) && After(t, es)[id].slug == t[id].slug
    decreases |es|
  {
    if es == [] {
    } else {
      StepKeeps(t, es[0]);
      StepKeepsAddress(t, es[0], id);
      AddressIsStable(Step(t, es[0]), es[1..], id);
    }
  }

  // ---------------------------------------------------------------- the column, updated in place

  lemma BackfilledUnrolls(t: Table, rows: seq<string>, k: nat)
    requires k < |rows| && forall id :: id in rows ==> id in t
    ensures match SetIfNull(t, rows[k], SlugOf(t, rows[k]))
            case Some(u) =>
              (forall id :: id in rows ==> id in u) && Backfilled(t, rows[k..]) == Backfilled(u, rows[k + 1..])
            case None => Backfilled(t, rows[k..]) == (t, false)
  {
    assert rows[k..][0] == rows[k] && rows[k..][1..] == rows[k + 1..];
  }

  class Column {
    var users: Table

    /** `assign_slug_if_missing`; None when the UNIQUE index raised. */
    method AssignIfMissing(id: string, name: Option<string>, email: Option<string>)
      returns (slug: Option<string>)
      modifies this
      ensures (users, slug) == Assigned(old(users), id, name, email)
    {
      if id in users && users[id].slug.Some? && users[id].slug.value != "" {
        return users[id].slug;
      }
      var generated := GenerateUniqueSlug(name, email, id, Taken(users));
      var updated := SetIfNull(users, id, generated);
      if updated.None? {
        return None;
      }
      users := updated.value;
      return Some(generated);
    }

    /** `update_status_page_slug` for the signed-in user. */
    method UpdateStatusPageSlug(id: string, text: string) returns (updated: bool)
      requires id in users
      modifies this
      ensures users == Pick(old(users), id, text)
      ensures updated <==> Proper(Chosen(text)) && !HeldByOther(old(users), id, Chosen(text))
    {
      ChosenIsProperIff(text);
      var candidate := Chosen(text);
      if Validate(candidate) != Acceptable {
        return false;
      }
      if exists a :: a in users && a != id && users[a].slug == Some(candidate) {
        return false;
      }
      users := WithSlug(users, id, candidate);
      updated := true;
    }

    /** `backfill_status_slugs` over the rows of its SELECT: how many were updated, or None when the
        UNIQUE index raised. */
    method Backfill(rows: seq<string>) returns (updated: Option<nat>)
      requires Lists(users, rows)
      modifies this
      ensures (users, updated.Some?) == Backfilled(old(users), rows)
      ensures updated.Some? ==> updated.value == |rows|
    {
      var count := 0;
      while count < |rows|
        invariant 0 <= count <= |rows|
        invariant forall id :: id in rows ==> id in users
        invariant Backfilled(users, rows[count..]) == Backfilled(old(users), rows)
      {
        var id := rows[count];
        BackfilledUnrolls(users, rows, count);
        var slug := GenerateUniqueSlug(users[id].name, users[id].email, id, Taken(users));
        var row := SetIfNull(users, id, slug);
        if row.None? {
          return None;
        }
        users := row.value;
        count := count + 1;
      }
      return Some(count);
    }
  }
}
