/** What one delivery of a subscription event means for every user, read off the payload. */
module Subscriptions {
  import opened Tables
  import opened Billing

  predicate Filled(s: Option<string>) {
    s.Some? && s.value != ""
  }

  /** The subscriber keeps Pro: a status that is paid or owed, or a cancellation with a date. */
  predicate PaysFor(d: Data) {
    d.status in {Some("active"), Some("trialing"), Some("past_due"), Some("paused")} ||
    (d.status == Some("canceled") && Filled(d.effectiveAt))
  }

  /** A created event names the user who checked out; it binds the customer unless the user has another. */
  predicate Binds(u: User, e: Delivery) {
    && e.kind == Created && Filled(e.data.customer) && Filled(e.data.userId)
    && u.id == e.data.userId.value && (u.customer.None? || u.customer == e.data.customer)
  }

  /** The event is about the subscription of this user. */
  predicate Concerns(u: User, e: Delivery) {
    && (e.kind == Created || e.kind == Updated || e.kind == Canceled)
    && Filled(e.data.customer) && (u.customer == e.data.customer || Binds(u, e))
  }

  /** A date as it is stored. */
  function Date(s: Option<string>): Option<string> {
    if s == Some("") then None else s
  }

  /** Pro, with the subscription on file as the payload has it. */
  predicate IsPro(v: User, d: Data) {
    && v.plan == "pro" && v.subscription == d.subscription && v.status == d.status
    && v.renewsAt == Date(d.renewsAt) && v.cancelAt == Date(d.effectiveAt)
  }

  predicate IsFree(v: User) {
    v.plan == "free" && v.subscription == None && v.status == None && v.renewsAt == None && v.cancelAt == None
  }

  /** A user before and after. */
  predicate Outcome(u: User, v: User, e: Delivery) {
    && v.id == u.id
    && if Concerns(u, e) then
         && v.customer == e.data.customer && v.updated == e.now
         && if PaysFor(e.data) then IsPro(v, e.data) else IsFree(v)
       else v == u
  }

  lemma SyncedOutcome(u: User, e: Delivery)
    ensures e.kind == Created ==> Outcome(u, SyncUser(ClaimUser(u, e.data, e.now), e.data, e.now), e)
    ensures e.kind == Updated || e.kind == Canceled ==> Outcome(u, SyncUser(u, e.data, e.now), e)
  {
  }

  lemma WelcomeKeepsOutcome(s: State, e: Delivery, i: nat, u: User)
    requires e.kind == Created && i < |s.users| && Outcome(u, s.users[i], e)
    ensures |Welcome(s, e.data, e.now).users| == |s.users| && Outcome(u, Welcome(s, e.data, e.now).users[i], e)
  {
    var k := FirstOf(s.users, e.data);
    if k == i && k < |s.users| {
      assert HasCustomer(s.users[i], e.data);
    }
  }

  /** One delivery of a new event, for every user: a paid subscription makes Pro with what the payload says, any
      other makes free with nothing on file, and whoever the event does not concern is left as is. */
  lemma DeliveryDecides(s: State, e: Delivery)
    requires e.eventId !in s.processed
    ensures var t := Deliver(s, e);
            |t.users| == |s.users| && forall i :: 0 <= i < |s.users| ==> Outcome(s.users[i], t.users[i], e)
    ensures Deliver(s, e).processed == s.processed + {e.eventId}
  {
    forall i | 0 <= i < |s.users| ensures Outcome(s.users[i], Deliver(s, e).users[i], e) {
      SyncedOutcome(s.users[i], e);
      if e.kind == Created {
        var synced := Sync(Claim(s, e.data, e.now), e.data, e.now);
        WelcomeKeepsOutcome(synced, e, i, s.users[i]);
      }
    }
  }

  // ---------------------------------------------------------------- the welcome email

  /** The first user it concerns, or the end of the table. */
  predicate IsFirst(users: seq<User>, e: Delivery, i: nat) {
    && i <= |users| && (i < |users| ==> Concerns(users[i], e))
    && forall j :: 0 <= j < i ==> !Concerns(users[j], e)
  }

  /** A created event with a paid status is what the first user concerned is welcomed for, once. */
  predicate IsWelcome(users: seq<User>, e: Delivery, i: nat) {
    && e.kind == Created && e.data.status in {Some("active"), Some("trialing"), Some("past_due"), Some("paused")}
    && i < |users| && !Filled(users[i].welcomedAt)
  }

  lemma FirstOfIsFirst(s: State, e: Delivery, i: nat)
    requires e.kind == Created && Filled(e.data.customer) && IsFirst(s.users, e, i)
    ensures FirstOf(Sync(Claim(s, e.data, e.now), e.data, e.now).users, e.data) == i
  {
    var synced := Sync(Claim(s, e.data, e.now), e.data, e.now);
    forall j | 0 <= j < |s.users|
      ensures HasCustomer(synced.users[j], e.data) <==> Concerns(s.users[j], e)
    {
      SyncedOutcome(s.users[j], e);
    }
  }

  /** The email goes to exactly that user, who is stamped; nobody else is stamped or written to. */
  lemma WelcomesFirst(s: State, e: Delivery, i: nat)
    requires e.eventId !in s.processed && IsFirst(s.users, e, i)
    ensures var t, due := Deliver(s, e), IsWelcome(s.users, e, i);
            && t.welcomed == s.welcomed + (if due then [s.users[i].id] else [])
            && |t.users| == |s.users|
            && forall j :: 0 <= j < |s.users| ==>
                 t.users[j].welcomedAt == if due && j == i then Some(e.now) else s.users[j].welcomedAt
  {
    if e.kind == Created {
      if Filled(e.data.customer) {
        FirstOfIsFirst(s, e, i);
      }
    }
  }
}
