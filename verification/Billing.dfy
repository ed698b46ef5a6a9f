/** The Paddle webhook of pingback/routes/billing.py as a state machine over the users table, the
    processed-events table and the welcome emails sent. One delivery is one step. */
module Billing {
  import opened Tables

  /** The billing columns of a row of users. Only `updated` changes on every write. */
  datatype User = User(id: string, plan: string, customer: Option<string>, subscription: Option<string>,
                       status: Option<string>, renewsAt: Option<string>, cancelAt: Option<string>,
                       welcomedAt: Option<string>, updated: string)

  /** The fields of a subscription payload that the handlers read; `effectiveAt` is that of a
      scheduled change whose action is "cancel". */
  datatype Data = Data(customer: Option<string>, userId: Option<string>, subscription: Option<string>,
                       status: Option<string>, effectiveAt: Option<string>, renewsAt: Option<string>)

  /** `users` in row order, the ids in paddle_events, and the ids of users welcomed, in order. */
  datatype State = State(users: seq<User>, processed: set<string>, welcomed: seq<string>)

  /** Python truth of an optional string. */
  predicate Truthy(s: Option<string>) {
    s.Some? && s.value != ""
  }

  /** `_normalize_iso` on text: an empty value becomes NULL. */
  function NormalizeIso(s: Option<string>): Option<string> {
    if Truthy(s) then s else None
  }

  predicate IsProStatus(s: Option<string>) {
    s == Some("active") || s == Some("trialing") || s == Some("past_due") || s == Some("paused")
  }

  /** Does the payload leave the subscriber on Pro: a live status, or a cancellation with a date? */
  predicate KeepsPro(d: Data) {
    IsProStatus(d.status) || (d.status == Some("canceled") && Truthy(d.effectiveAt))
  }

  // ---------------------------------------------------------------- the UPDATE statements

  predicate HasCustomer(u: User, d: Data) {
    u.customer.Some? && u.customer == d.customer
  }

  function SyncUser(u: User, d: Data, now: string): User {
    if !Truthy(d.customer) || !HasCustomer(u, d) then u
    else if KeepsPro(d) then
      u.(plan := "pro", subscription := d.subscription, status := d.status,
         renewsAt := NormalizeIso(d.renewsAt), cancelAt := NormalizeIso(d.effectiveAt), updated := now)
    else
      u.(plan := "free", subscription := None, status := None, renewsAt := None, cancelAt := None, updated := now)
  }

  function ClaimUser(u: User, d: Data, now: string): User {
    if Truthy(d.customer) && Truthy(d.userId) && u.id == d.userId.value &&
       (u.customer == None || u.customer == d.customer)
    then u.(customer := d.customer, updated := now) else u
  }

  /** The row the welcome query fetches: the first user of the customer. */
  function FirstOf(users: seq<User>, d: Data): (i: nat)
    ensures i <= |users|
    ensures i < |users| ==> HasCustomer(users[i], d)
    ensures forall j :: 0 <= j < i ==> !HasCustomer(users[j], d)
  {
    if users == [] || HasCustomer(users[0], d) then 0
    else
      var rest := users[1..];
      var i := FirstOf(rest, d);
      assert forall j :: 0 < j < i + 1 ==> users[j] == rest[j - 1];
      i + 1
  }

  function UpdateAll(users: seq<User>, f: User -> User): (r: seq<User>)
    ensures |r| == |users| && forall i :: 0 <= i < |users| ==> r[i] == f(users[i])
  {
    seq(|users|, i requires 0 <= i < |users| => f(users[i]))
  }

  // ---------------------------------------------------------------- handlers

  function Claim(s: State, d: Data, now: string): State {
    s.(users := UpdateAll(s.users, u => ClaimUser(u, d, now)))
  }

  function Sync(s: State, d: Data, now: string): State {
    s.(users := UpdateAll(s.users, u => SyncUser(u, d, now)))
  }

  /** `_send_pro_welcome_if_needed`: stamps first, then sends; a failed send is only logged. */
  function Welcome(s: State, d: Data, now: string): State {
    var i := FirstOf(s.users, d);
    if !Truthy(d.customer) || !IsProStatus(d.status) || i == |s.users| || Truthy(s.users[i].welcomedAt) then s
    else State(s.users[i := s.users[i].(welcomedAt := Some(now), updated := now)], s.processed,
               s.welcomed + [s.users[i].id])
  }

  datatype Kind = Created | Updated | Canceled | Ignored

  function Handle(s: State, kind: Kind, d: Data, now: string): State {
    match kind
    case Created => Welcome(Sync(Claim(s, d, now), d, now), d, now)
    case Updated => Sync(s, d, now)
    case Canceled => Sync(s, d, now)
    case Ignored => s
  }

  /** The webhook as the source runs it, one write after the other. */
  class Webhook {
    var users: seq<User>
    var processed: set<string>
    var welcomed: seq<string>

    function Contents(): State
      reads this
    {
      State(users, processed, welcomed)
    }

    constructor ()
      ensures Contents() == State([], {}, [])
    {
      users, processed, welcomed := [], {}, [];
    }

    /** UPDATE users: overwrites the rows one by one. */
    method Update(f: User -> User)
      modifies this`users
      ensures users == UpdateAll(old(users), f)
    {
      for i := 0 to |users|
        invariant |users| == |old(users)|
        invariant forall j :: 0 <= j < i ==> users[j] == f(old(users)[j])
        invariant forall j :: i <= j < |users| ==> users[j] == old(users)[j]
      {
        users := users[i := f(users[i])];
      }
    }

    method SendWelcomeIfNeeded(d: Data, now: string)
      modifies this`users, this`welcomed
      ensures Contents() == Welcome(old(Contents()), d, now)
    {
      if !Truthy(d.customer) || !IsProStatus(d.status) {
        return;
      }
      var i := FirstOf(users, d);
      if i == |users| {
        return;
      }
      if Truthy(users[i].welcomedAt) {
        return;
      }
      var id := users[i].id;
      users := users[i := users[i].(welcomedAt := Some(now), updated := now)];
      welcomed := welcomed + [id];
    }

    /** `paddle_webhook` after the signature check: true when the event was a duplicate. */
    method Receive(eventId: string, kind: Kind, d: Data, now: string) returns (duplicate: bool)
      modifies this
      ensures Contents() == Deliver(old(Contents()), Delivery(eventId, kind, d, now))
      ensures duplicate == (eventId in old(processed))
    {
      duplicate := eventId in processed;
      if duplicate {
        return;
      }
      match kind {
        case Created =>
          Update(u => ClaimUser(u, d, now));
          Update(u => SyncUser(u, d, now));
          SendWelcomeIfNeeded(d, now);
        case Updated =>
          Update(u => SyncUser(u, d, now));
        case Canceled =>
          Update(u => SyncUser(u, d, now));
        case Ignored =>
      }
      processed := processed + {eventId};
    }
  }

  // ---------------------------------------------------------------- runs

  datatype Delivery = Delivery(eventId: string, kind: Kind, data: Data, now: string)

  function Deliver(s: State, e: Delivery): State {
    if e.eventId in s.processed then s
    else Handle(s, e.kind, e.data, e.now).(processed := s.processed + {e.eventId})
  }

  function Run(s: State, es: seq<Delivery>): State {
    if es == [] then s else Deliver(Run(s, es[..|es| - 1]), es[|es| - 1])
  }

  /** The deliveries whose event id did not occur before. */
  function FirstDeliveries(seen: set<string>, es: seq<Delivery>): seq<Delivery> {
    if es == [] then [] else
      var before, e := es[..|es| - 1], es[|es| - 1];
      var rest := FirstDeliveries(seen, before);
      if e.eventId in seen || Occurs(before, e.eventId) then rest else rest + [e]
  }

  predicate Occurs(es: seq<Delivery>, id: string) {
    exists e :: e in es && e.eventId == id
  }

  lemma {:induction false} RunProcessed(s: State, es: seq<Delivery>)
    ensures forall id :: id in Run(s, es).processed <==> id in s.processed || Occurs(es, id)
  {
    if es == [] {
    } else {
      var before, e := es[..|es| - 1], es[|es| - 1];
      RunProcessed(s, before);
      assert es == before + [e];
      forall id ensures Occurs(es, id) <==> Occurs(before, id) || e.eventId == id {
        assert e in es;
      }
    }
  }

  /** Any run of deliveries ends as the run without the repeated event ids. */
  lemma {:induction false} RepeatsAreIgnored(s: State, es: seq<Delivery>)
    ensures Run(s, es) == Run(s, FirstDeliveries(s.processed, es))
  {
    if es == [] {
    } else {
      var before, e := es[..|es| - 1], es[|es| - 1];
      RepeatsAreIgnored(s, before);
      RunProcessed(s, before);
      var rest := FirstDeliveries(s.processed, before);
      assert (rest + [e])[..|rest|] == rest;
    }
  }

  // ---------------------------------------------------------------- retries

  /** Equal but for `updated_at`. */
  predicate SameUser(a: User, b: User) {
    a == b.(updated := a.updated)
  }

  predicate SameRows(a: seq<User>, b: seq<User>) {
    |a| == |b| && forall i :: 0 <= i < |a| ==> SameUser(a[i], b[i])
  }

  predicate SameBut(a: State, b: State) {
    a.processed == b.processed && a.welcomed == b.welcomed && SameRows(a.users, b.users)
  }

  /** A delivery whose process dies after the handler and before the event is recorded comes again.
      Handling it a second time at once changes nothing but `updated_at` and sends no second email. */
  lemma RetryIsHarmless(s: State, kind: Kind, d: Data, now: string, later: string)
    requires now != ""
    ensures SameBut(Handle(Handle(s, kind, d, now), kind, d, later), Handle(s, kind, d, now))
  {
    if kind == Created {
      CreatedTwice(s, d, now, later);
    } else if kind != Ignored {
      SyncTwice(s, d, now, later);
    }
  }

  lemma SyncTwice(s: State, d: Data, now: string, later: string)
    ensures SameBut(Sync(Sync(s, d, now), d, later), Sync(s, d, now))
  {
  }

  /** After a created event has been handled: claiming and syncing again rewrite the same values, and
      the first user of the customer, if any, is welcomed or was not to be. */
  lemma CreatedTwice(s: State, d: Data, now: string, later: string)
    requires now != ""
    ensures SameBut(Handle(Handle(s, Created, d, now), Created, d, later), Handle(s, Created, d, now))
  {
    var once := Handle(s, Created, d, now);
    var again := Sync(Claim(once, d, later), d, later);
    SettledAfter(s, d, now);
    RewritesTheSame(once, d, later);
    WelcomedAlready(Sync(Claim(s, d, now), d, now), again, d, now, later);
  }

  lemma RewritesTheSame(s: State, d: Data, later: string)
    requires forall i :: 0 <= i < |s.users| ==> Settled(s.users[i], d)
    ensures SameBut(Sync(Claim(s, d, later), d, later), s)
  {
  }

  lemma WelcomedAlready(s: State, t: State, d: Data, now: string, later: string)
    requires now != "" && SameRows(t.users, Welcome(s, d, now).users)
    ensures Welcome(t, d, later) == t
  {
    var once := Welcome(s, d, now);
    FirstOfSame(t.users, once.users, d);
    FirstOfSame(once.users, s.users, d);
  }

  // ---------------------------------------------------------------- a crash inside the handler

  /** The stamp of the welcome is committed before the email is sent. */
  function Stamp(s: State, d: Data, now: string): State {
    Welcome(s, d, now).(welcomed := s.welcomed)
  }

  /** What a handler of a created event leaves when it dies after its n-th commit; four is all of it. */
  function Partial(s: State, d: Data, now: string, n: nat): State
    requires n <= 4
  {
    if n == 0 then s
    else if n == 1 then Claim(s, d, now)
    else if n == 2 then Sync(Claim(s, d, now), d, now)
    else if n == 3 then Stamp(Sync(Claim(s, d, now), d, now), d, now)
    else Handle(s, Created, d, now)
  }

  /** Equal but for `updated_at` and the instant of the stamp. */
  predicate SameButTimes(a: User, b: User) {
    a == b.(updated := a.updated, welcomedAt := a.welcomedAt) && (Truthy(a.welcomedAt) <==> Truthy(b.welcomedAt))
  }

  predicate SameRowsButTimes(a: seq<User>, b: seq<User>) {
    |a| == |b| && forall i :: 0 <= i < |a| ==> SameButTimes(a[i], b[i])
  }

  lemma ResyncAfterPart(s: State, d: Data, now: string, later: string, n: nat)
    requires n <= 2
    ensures SameRows(Sync(Claim(Partial(s, d, now, n), d, later), d, later).users, Sync(Claim(s, d, now), d, now).users)
  {
    if n == 0 {
    } else if n == 1 {
    } else {
    }
  }

  lemma WelcomeAlike(s: State, t: State, d: Data, now: string, later: string)
    requires SameRows(t.users, s.users) && t.welcomed == s.welcomed && now != "" && later != ""
    ensures SameRowsButTimes(Welcome(t, d, later).users, Welcome(s, d, now).users)
    ensures Welcome(t, d, later).welcomed == Welcome(s, d, now).welcomed
  {
    FirstOfSame(t.users, s.users, d);
  }

  /** The event comes again after a crash at any commit of its handler: the table ends as if it had been
      handled once, but for times, and the welcome email is sent at most once in all. It is lost in one case:
      when the process died between the stamp and the send. */
  lemma RetryAfterAnyCommit(s: State, d: Data, now: string, later: string, n: nat)
    requires n <= 4 && now != "" && later != ""
    ensures var again, once := Handle(Partial(s, d, now, n), Created, d, later), Handle(s, Created, d, now);
            && SameRowsButTimes(again.users, once.users) && again.processed == once.processed
            && again.welcomed == if n == 3 then s.welcomed else once.welcomed
  {
    var synced := Sync(Claim(s, d, now), d, now);
    if n <= 2 {
      ResyncAfterPart(s, d, now, later, n);
      WelcomeAlike(synced, Sync(Claim(Partial(s, d, now, n), d, later), d, later), d, now, later);
    } else {
      var part := Partial(s, d, now, n);
      SettledAfter(s, d, now);
      RewritesTheSame(part, d, later);
      WelcomedAlready(synced, Sync(Claim(part, d, later), d, later), d, now, later);
    }
  }

  /** What a handled row looks like to the same event: claiming and syncing it change nothing. */
  predicate Settled(u: User, d: Data) {
    && SameUser(ClaimUser(u, d, ""), u) && SameUser(SyncUser(ClaimUser(u, d, ""), d, ""), u)
  }

  lemma SettledRow(u: User, d: Data, now: string)
    ensures Settled(SyncUser(ClaimUser(u, d, now), d, now), d)
  {
  }

  lemma SettledAfter(s: State, d: Data, now: string)
    ensures forall i :: 0 <= i < |s.users| ==> Settled(Handle(s, Created, d, now).users[i], d)
    ensures |Handle(s, Created, d, now).users| == |s.users|
  {
    var synced := Sync(Claim(s, d, now), d, now);
    forall i | 0 <= i < |s.users| ensures Settled(synced.users[i], d) {
      SettledRow(s.users[i], d, now);
    }
  }

  lemma {:induction false} FirstOfSame(a: seq<User>, b: seq<User>, d: Data)
    requires |a| == |b| && forall i :: 0 <= i < |a| ==> a[i].customer == b[i].customer
    ensures FirstOf(a, d) == FirstOf(b, d)
  {
    if a == [] || HasCustomer(a[0], d) {
    } else {
      FirstOfSame(a[1..], b[1..], d);
    }
  }

  // ---------------------------------------------------------------- invariants

  /** The billing invariant of one row: free means no subscription is on file; pro means a live
      status, or a cancellation whose date is on file. Nothing is asked of any other plan, which only
      an operator gives. */
  predicate Consistent(u: User) {
    && (u.plan == "free" ==> u.subscription == None && u.status == None && u.renewsAt == None && u.cancelAt == None)
    && (u.plan == "pro" ==> IsProStatus(u.status) || (u.status == Some("canceled") && Truthy(u.cancelAt)))
    && (u.welcomedAt.Some? ==> Truthy(u.welcomedAt))
  }

  predicate DistinctIds(users: seq<User>) {
    forall i, j :: 0 <= i < j < |users| ==> users[i].id != users[j].id
  }

  /** Row by row, consistent; exactly the users stamped as welcomed were sent the email; and nobody was sent
      it twice. `ids` are all the ids that a user ever had. */
  ghost predicate Good(s: State, ids: set<string>) {
    && (forall i :: 0 <= i < |s.users| ==> Consistent(s.users[i]) && s.users[i].id in ids)
    && DistinctIds(s.users)
    && (forall i, j :: 0 <= i < j < |s.welcomed| ==> s.welcomed[i] != s.welcomed[j])
    && (forall i :: 0 <= i < |s.users| ==> (s.users[i].id in s.welcomed <==> s.users[i].welcomedAt.Some?))
    && (forall id :: id in s.welcomed ==> id in ids)
  }

  /** A customer id, once on file, is never replaced, and rows keep their place. */
  predicate CustomersKept(a: State, b: State) {
    && |a.users| == |b.users|
    && forall i :: 0 <= i < |a.users| ==> SameCustomer(a.users[i], b.users[i])
  }

  predicate SameCustomer(a: User, b: User) {
    a.id == b.id && (a.customer.Some? ==> b.customer == a.customer)
  }

  lemma ClaimGood(s: State, ids: set<string>, d: Data, now: string)
    requires Good(s, ids)
    ensures Good(Claim(s, d, now), ids) && CustomersKept(s, Claim(s, d, now))
  {
    SameIdsGood(s, Claim(s, d, now), ids);
  }

  lemma SyncGood(s: State, ids: set<string>, d: Data, now: string)
    requires Good(s, ids)
    ensures Good(Sync(s, d, now), ids) && CustomersKept(s, Sync(s, d, now))
  {
    SameIdsGood(s, Sync(s, d, now), ids);
  }

  lemma SameIdsGood(s: State, after: State, ids: set<string>)
    requires Good(s, ids) && |after.users| == |s.users| && after.welcomed == s.welcomed
    requires forall i :: 0 <= i < |s.users| ==> Consistent(after.users[i])
    requires forall i :: 0 <= i < |s.users| ==>
      after.users[i].id == s.users[i].id && after.users[i].welcomedAt == s.users[i].welcomedAt
    ensures Good(after, ids)
  {
  }

  lemma WelcomeGood(s: State, ids: set<string>, d: Data, now: string)
    requires Good(s, ids) && now != ""
    ensures Good(Welcome(s, d, now), ids) && CustomersKept(s, Welcome(s, d, now))
  {
    var i := FirstOf(s.users, d);
    var after := Welcome(s, d, now);
    if after != s {
      assert s.users[i].id !in s.welcomed;
      forall j | 0 <= j < |after.users|
        ensures after.users[j].id in after.welcomed <==> after.users[j].welcomedAt.Some?
      {
        assert after.users[j].id == s.users[j].id;
      }
    }
  }

  lemma HandleGood(s: State, ids: set<string>, kind: Kind, d: Data, now: string)
    requires Good(s, ids) && now != ""
    ensures Good(Handle(s, kind, d, now), ids) && CustomersKept(s, Handle(s, kind, d, now))
  {
    match kind
    case Created =>
      ClaimGood(s, ids, d, now);
      SyncGood(Claim(s, d, now), ids, d, now);
      WelcomeGood(Sync(Claim(s, d, now), d, now), ids, d, now);
    case Updated => SyncGood(s, ids, d, now);
    case Canceled => SyncGood(s, ids, d, now);
    case Ignored =>
  }

  // ---------------------------------------------------------------- runs with sign-ups and deletions

  datatype Event =
    | Delivered(delivery: Delivery)
    | SignedUp(id: string, updated: string)
    | Removed(id: string)

  function NewUser(id: string, updated: string): User {
    User(id, "free", None, None, None, None, None, None, updated)
  }

  function Happen(s: State, e: Event): State {
    match e
    case Delivered(delivery) => Deliver(s, delivery)
    case SignedUp(id, updated) => s.(users := s.users + [NewUser(id, updated)])
    case Removed(id) => s.(users := Where(s.users, (u: User) => u.id != id))
  }

  function WithId(ids: set<string>, e: Event): set<string> {
    if e.SignedUp? then ids + {e.id} else ids
  }

  /** Ids of new users do not repeat, not even those of users who are gone. */
  predicate Possible(ids: set<string>, e: Event) {
    && (e.SignedUp? ==> e.id !in ids)
    && (e.Delivered? ==> e.delivery.now != "")
  }

  function Happened(s: State, es: seq<Event>): State {
    if es == [] then s else Happen(Happened(s, es[..|es| - 1]), es[|es| - 1])
  }

  function IdsAfter(ids: set<string>, es: seq<Event>): set<string> {
    if es == [] then ids else WithId(IdsAfter(ids, es[..|es| - 1]), es[|es| - 1])
  }

  predicate PossibleRun(ids: set<string>, es: seq<Event>) {
    es == [] ||
    (PossibleRun(ids, es[..|es| - 1]) && Possible(IdsAfter(ids, es[..|es| - 1]), es[|es| - 1]))
  }

  /** Every user of `b` whose id is an old one was there in `a`, and kept the customer id on file. */
  ghost predicate Follows(a: State, b: State, ids: set<string>) {
    forall j :: 0 <= j < |b.users| && b.users[j].id in ids ==>
      exists i :: 0 <= i < |a.users| && SameCustomer(a.users[i], b.users[j])
  }

  lemma FollowsOn(a: State, b: State, c: State, ids: set<string>, later: set<string>)
    requires Follows(a, b, ids) && Follows(b, c, later) && ids <= later
    ensures Follows(a, c, ids)
  {
    forall j | 0 <= j < |c.users| && c.users[j].id in ids
      ensures exists h :: 0 <= h < |a.users| && SameCustomer(a.users[h], c.users[j])
    {
      var i :| 0 <= i < |b.users| && SameCustomer(b.users[i], c.users[j]);
      var h :| 0 <= h < |a.users| && SameCustomer(a.users[h], b.users[i]);
      assert SameCustomer(a.users[h], c.users[j]);
    }
  }

  lemma KeptFollows(a: State, b: State, ids: set<string>)
    requires CustomersKept(a, b)
    ensures Follows(a, b, ids)
  {
    forall j | 0 <= j < |b.users| ensures exists i :: 0 <= i < |a.users| && SameCustomer(a.users[i], b.users[j]) {
      assert SameCustomer(a.users[j], b.users[j]);
    }
  }

  lemma {:induction false} WhereDistinct(users: seq<User>, keep: User -> bool)
    requires DistinctIds(users)
    ensures DistinctIds(Where(users, keep))
  {
    if users == [] {
    } else {
      var front, last := users[..|users| - 1], users[|users| - 1];
      WhereDistinct(front, keep);
      forall i | 0 <= i < |Where(front, keep)| ensures Where(front, keep)[i].id != last.id {
        assert Where(front, keep)[i] in front;
      }
    }
  }

  /** Signing up adds a free row with nothing on file. */
  lemma SignUpGood(s: State, ids: set<string>, id: string, updated: string)
    requires Good(s, ids) && id !in ids
    ensures var after := s.(users := s.users + [NewUser(id, updated)]);
            Good(after, ids + {id}) && Follows(s, after, ids)
  {
    var after := s.(users := s.users + [NewUser(id, updated)]);
    forall j | 0 <= j < |after.users| && after.users[j].id in ids
      ensures exists i :: 0 <= i < |s.users| && SameCustomer(s.users[i], after.users[j])
    {
      assert SameCustomer(s.users[j], after.users[j]);
    }
  }

  lemma RemoveGood(s: State, ids: set<string>, keep: User -> bool)
    requires Good(s, ids)
    ensures var after := s.(users := Where(s.users, keep)); Good(after, ids) && Follows(s, after, ids)
  {
    var after := s.(users := Where(s.users, keep));
    WhereDistinct(s.users, keep);
    forall j | 0 <= j < |after.users|
      ensures exists i :: 0 <= i < |s.users| && s.users[i] == after.users[j]
      ensures exists i :: 0 <= i < |s.users| && SameCustomer(s.users[i], after.users[j])
    {
      assert after.users[j] in s.users;
      var i :| 0 <= i < |s.users| && s.users[i] == after.users[j];
      assert SameCustomer(s.users[i], after.users[j]);
    }
  }

  lemma DeliverGood(s: State, ids: set<string>, e: Delivery)
    requires Good(s, ids) && e.now != ""
    ensures Good(Deliver(s, e), ids) && Follows(s, Deliver(s, e), ids)
  {
    HandleGood(s, ids, e.kind, e.data, e.now);
    KeptFollows(s, Deliver(s, e), ids);
  }

  lemma HappenGood(s: State, ids: set<string>, e: Event)
    requires Good(s, ids) && Possible(ids, e)
    ensures Good(Happen(s, e), WithId(ids, e)) && Follows(s, Happen(s, e), ids)
  {
    match e
    case Delivered(delivery) => DeliverGood(s, ids, delivery);
    case SignedUp(id, updated) => SignUpGood(s, ids, id, updated);
    case Removed(id) => RemoveGood(s, ids, (u: User) => u.id != id);
  }

  /** Over every run of deliveries, sign-ups and deletions: the row invariant, at most one welcome email per
      user, and customer ids that never change once set, as long as the user is there. */
  lemma {:induction false} BillingInvariant(s: State, ids: set<string>, es: seq<Event>)
    requires Good(s, ids) && PossibleRun(ids, es)
    ensures Good(Happened(s, es), IdsAfter(ids, es)) && Follows(s, Happened(s, es), ids)
    ensures ids <= IdsAfter(ids, es)
  {
    if es == [] {
      KeptFollows(s, s, ids);
    } else {
      var before, e := es[..|es| - 1], es[|es| - 1];
      BillingInvariant(s, ids, before);
      HappenGood(Happened(s, before), IdsAfter(ids, before), e);
      FollowsOn(s, Happened(s, before), Happened(s, es), ids, IdsAfter(ids, before));
    }
  }
}
