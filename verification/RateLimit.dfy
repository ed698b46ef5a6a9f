/** pingback/rate_limit.py: a sliding-window limiter that prunes its lists decides exactly like one
    that keeps every accepted request. */
module RateLimit {
  import opened Tables

  // ---------------------------------------------------------------- one bucket

  /** The hits still inside the window that ends at `now`. */
  function Recent(hits: seq<int>, window: int, now: int): seq<int> {
    Where(hits, t => t > now - window)
  }

  /** `_record` on the list of one key: the new list and whether the request is let through. */
  function Pruned(hits: seq<int>, max: int, window: int, now: int): (seq<int>, bool) {
    var kept := Recent(hits, window, now);
    if |kept| >= max then (kept, false) else (kept + [now], true)
  }

  /** The same decision taken on the full list of accepted requests. */
  function Full(accepted: seq<int>, max: int, window: int, now: int): (seq<int>, bool) {
    if |Recent(accepted, window, now)| >= max then (accepted, false) else (accepted + [now], true)
  }

  /** The limiter object: a dict of lists, pruned and appended to in place. */
  class RateLimiter {
    const max: int
    const window: int
    var hits: map<string, seq<int>>

    constructor (maxRequests: int, windowSeconds: int)
      ensures max == maxRequests && window == windowSeconds && hits == map[]
    {
      max, window, hits := maxRequests, windowSeconds, map[];
    }

    /** The list of a key; a `defaultdict(list)` starts every key empty. */
    function HitsOf(key: string): seq<int>
      reads this
    {
      if key in hits then hits[key] else []
    }

    /** `_record`: false stands for the 429 response. The pruned list is kept either way. */
    method Record(key: string, now: int) returns (allowed: bool)
      modifies this`hits
      ensures (HitsOf(key), allowed) == Pruned(old(HitsOf(key)), max, window, now)
      ensures forall k :: k != key ==> HitsOf(k) == old(HitsOf(k))
    {
      hits := hits[key := Recent(HitsOf(key), window, now)];
      if |hits[key]| >= max {
        return false;
      }
      hits := hits[key := hits[key] + [now]];
      return true;
    }
  }

  // ---------------------------------------------------------------- runs of one limiter

  datatype Call = Call(key: string, now: int)

  /** The lists of a limiter and its decisions so far, oldest first. */
  datatype Limiter = Limiter(hits: map<string, seq<int>>, allowed: seq<bool>)

  function HitsAt(l: Limiter, key: string): seq<int> {
    if key in l.hits then l.hits[key] else []
  }

  function RecordPruned(l: Limiter, max: int, window: int, c: Call): Limiter {
    var (list, ok) := Pruned(HitsAt(l, c.key), max, window, c.now);
    Limiter(l.hits[c.key := list], l.allowed + [ok])
  }

  function RecordFull(l: Limiter, max: int, window: int, c: Call): Limiter {
    var (list, ok) := Full(HitsAt(l, c.key), max, window, c.now);
    Limiter(l.hits[c.key := list], l.allowed + [ok])
  }

  const NEW := Limiter(map[], [])

  function RunPruned(max: int, window: int, calls: seq<Call>): Limiter {
    if calls == [] then NEW
    else RecordPruned(RunPruned(max, window, calls[..|calls| - 1]), max, window, calls[|calls| - 1])
  }

  function RunFull(max: int, window: int, calls: seq<Call>): Limiter {
    if calls == [] then NEW
    else RecordFull(RunFull(max, window, calls[..|calls| - 1]), max, window, calls[|calls| - 1])
  }

  /** A monotonic clock. */
  predicate Ordered(calls: seq<Call>) {
    calls == [] ||
    var before := calls[..|calls| - 1];
    Ordered(before) && (before != [] ==> before[|before| - 1].now <= calls[|calls| - 1].now)
  }

  // ---------------------------------------------------------------- refinement

  /** From `now` on, every window shows the same hits in both lists. */
  ghost predicate Agree(pruned: seq<int>, full: seq<int>, window: int, now: int) {
    forall later :: later >= now ==> Recent(pruned, window, later) == Recent(full, window, later)
  }

  lemma AgreeAppend(pruned: seq<int>, full: seq<int>, window: int, now: int)
    requires Agree(pruned, full, window, now)
    ensures Agree(Recent(pruned, window, now), full, window, now)
    ensures Agree(Recent(pruned, window, now) + [now], full + [now], window, now)
  {
    forall later | later >= now
      ensures Recent(Recent(pruned, window, now), window, later) == Recent(full, window, later)
      ensures Recent(Recent(pruned, window, now) + [now], window, later) == Recent(full + [now], window, later)
    {
      FilterTwice(pruned, t => t > now - window, t => t > later - window, t => t > later - window);
      WhereAppend(Recent(pruned, window, now), now, t => t > later - window);
      WhereAppend(full, now, t => t > later - window);
    }
  }

  /** One request on one key, taken by both forms. */
  lemma SameDecision(pruned: seq<int>, full: seq<int>, max: int, window: int, now: int)
    requires Agree(pruned, full, window, now)
    ensures Pruned(pruned, max, window, now).1 == Full(full, max, window, now).1
    ensures Agree(Pruned(pruned, max, window, now).0, Full(full, max, window, now).0, window, now)
  {
    assert Recent(pruned, window, now) == Recent(full, window, now);
    AgreeAppend(pruned, full, window, now);
  }

  /** The limiters agree on every key from `now` on. */
  ghost predicate AgreeOnKeys(p: Limiter, f: Limiter, window: int, now: int) {
    forall k :: Agree(HitsAt(p, k), HitsAt(f, k), window, now)
  }

  lemma StepAgrees(p: Limiter, f: Limiter, max: int, window: int, c: Call)
    requires AgreeOnKeys(p, f, window, c.now) && p.allowed == f.allowed
    ensures AgreeOnKeys(RecordPruned(p, max, window, c), RecordFull(f, max, window, c), window, c.now)
    ensures RecordPruned(p, max, window, c).allowed == RecordFull(f, max, window, c).allowed
  {
    SameDecision(HitsAt(p, c.key), HitsAt(f, c.key), max, window, c.now);
    forall k | k != c.key
      ensures Agree(HitsAt(RecordPruned(p, max, window, c), k), HitsAt(RecordFull(f, max, window, c), k), window, c.now)
    {
      assert Agree(HitsAt(p, k), HitsAt(f, k), window, c.now);
    }
  }

  /** Forgetting old hits never changes a decision: over any run, the pruned lists let through exactly
      the requests that the full histories would. */
  lemma {:induction false} PruningRefines(max: int, window: int, calls: seq<Call>)
    requires Ordered(calls)
    ensures RunPruned(max, window, calls).allowed == RunFull(max, window, calls).allowed
    ensures calls != [] ==>
      AgreeOnKeys(RunPruned(max, window, calls), RunFull(max, window, calls), window, calls[|calls| - 1].now)
  {
    if calls == [] {
    } else {
      var before, c := calls[..|calls| - 1], calls[|calls| - 1];
      PruningRefines(max, window, before);
      AgreeLater(RunPruned(max, window, before), RunFull(max, window, before), window, before, c.now);
      StepAgrees(RunPruned(max, window, before), RunFull(max, window, before), max, window, c);
    }
  }

  lemma AgreeLater(p: Limiter, f: Limiter, window: int, before: seq<Call>, now: int)
    requires before == [] ==> p == f == NEW
    requires before != [] ==> AgreeOnKeys(p, f, window, before[|before| - 1].now) && before[|before| - 1].now <= now
    ensures AgreeOnKeys(p, f, window, now)
  {
    forall k ensures Agree(HitsAt(p, k), HitsAt(f, k), window, now) {
      if before != [] {
        assert Agree(HitsAt(p, k), HitsAt(f, k), window, before[|before| - 1].now);
      }
    }
  }

  // ---------------------------------------------------------------- safety

  /** Every request was let through while fewer than `max` were in its window. */
  predicate Admitted(accepted: seq<int>, max: int, window: int) {
    accepted == [] ||
    var before, t := accepted[..|accepted| - 1], accepted[|accepted| - 1];
    && Admitted(before, max, window)
    && |Recent(before, window, t)| < max
    && forall u :: u in before ==> u <= t
  }

  ghost predicate Sound(f: Limiter, max: int, window: int, now: int) {
    forall k :: SoundList(HitsAt(f, k), max, window, now)
  }

  ghost predicate SoundList(list: seq<int>, max: int, window: int, now: int) {
    Admitted(list, max, window) && forall t :: t in list ==> t <= now
  }

  lemma StepSound(f: Limiter, max: int, window: int, c: Call)
    requires Sound(f, max, window, c.now)
    ensures Sound(RecordFull(f, max, window, c), max, window, c.now)
  {
    var after := RecordFull(f, max, window, c);
    forall k ensures SoundList(HitsAt(after, k), max, window, c.now) {
      assert SoundList(HitsAt(f, k), max, window, c.now);
      OneMoreAdmitted(HitsAt(f, k), max, window, c.now);
    }
  }

  lemma OneMoreAdmitted(list: seq<int>, max: int, window: int, now: int)
    requires SoundList(list, max, window, now)
    ensures SoundList(Full(list, max, window, now).0, max, window, now)
  {
    assert (list + [now])[..|list|] == list;
  }

  lemma {:induction false} HistoriesAdmitted(max: int, window: int, calls: seq<Call>, now: int)
    requires Ordered(calls) && (calls != [] ==> calls[|calls| - 1].now <= now)
    ensures Sound(RunFull(max, window, calls), max, window, now)
  {
    if calls == [] {
    } else {
      var before, c := calls[..|calls| - 1], calls[|calls| - 1];
      HistoriesAdmitted(max, window, before, c.now);
      StepSound(RunFull(max, window, before), max, window, c);
    }
  }

  lemma {:induction false} AdmittedBound(accepted: seq<int>, max: int, window: int, start: int)
    requires Admitted(accepted, max, window)
    ensures |Where(accepted, t => start <= t < start + window)| <= if max > 0 then max else 0
  {
    if accepted == [] {
    } else {
      var before, t := accepted[..|accepted| - 1], accepted[|accepted| - 1];
      AdmittedBound(before, max, window, start);
      if start <= t < start + window {
        WhereSubset(before, u => start <= u < start + window, u => u > t - window);
      }
    }
  }

  function Cap(max: int): int {
    if max > 0 then max else 0
  }

  lemma HistoryHoldsAtMostMax(max: int, window: int, calls: seq<Call>, key: string, start: int)
    requires Ordered(calls)
    ensures |Where(HitsAt(RunFull(max, window, calls), key), t => start <= t < start + window)| <= Cap(max)
  {
    var now := if calls == [] then 0 else calls[|calls| - 1].now;
    HistoriesAdmitted(max, window, calls, now);
    assert SoundList(HitsAt(RunFull(max, window, calls), key), max, window, now);
    AdmittedBound(HitsAt(RunFull(max, window, calls), key), max, window, start);
  }

  /** When the calls with `key` that were let through were made. */
  function AcceptedAt(calls: seq<Call>, allowed: seq<bool>, key: string): seq<int>
    requires |calls| == |allowed|
  {
    if calls == [] then [] else
      var n := |calls| - 1;
      var rest := AcceptedAt(calls[..n], allowed[..n], key);
      if allowed[n] && calls[n].key == key then rest + [calls[n].now] else rest
  }

  lemma AcceptedMore(calls: seq<Call>, allowed: seq<bool>, c: Call, ok: bool, key: string)
    requires |calls| == |allowed|
    ensures AcceptedAt(calls + [c], allowed + [ok], key)
         == AcceptedAt(calls, allowed, key) + if ok && c.key == key then [c.now] else []
  {
    assert (calls + [c])[..|calls|] == calls && (allowed + [ok])[..|allowed|] == allowed;
  }

  lemma RecordedHits(f: Limiter, max: int, window: int, c: Call, key: string)
    ensures var ok, after := Full(HitsAt(f, c.key), max, window, c.now).1, RecordFull(f, max, window, c);
            && after.allowed == f.allowed + [ok]
            && HitsAt(after, key) == HitsAt(f, key) + if ok && c.key == key then [c.now] else []
  {
  }

  /** The full history of a key is the list of its accepted calls. */
  lemma {:induction false} HistoryIsAccepted(max: int, window: int, calls: seq<Call>, key: string)
    ensures |RunFull(max, window, calls).allowed| == |calls|
    ensures HitsAt(RunFull(max, window, calls), key) == AcceptedAt(calls, RunFull(max, window, calls).allowed, key)
  {
    if calls == [] {
    } else {
      var before, c := calls[..|calls| - 1], calls[|calls| - 1];
      HistoryIsAccepted(max, window, before, key);
      var f := RunFull(max, window, before);
      AcceptedMore(before, f.allowed, c, Full(HitsAt(f, c.key), max, window, c.now).1, key);
      RecordedHits(f, max, window, c, key);
      assert before + [c] == calls && RunFull(max, window, calls) == RecordFull(f, max, window, c);
    }
  }

  /** Safety: for every key, any half-open window of `window` seconds holds at most `max` of the calls that the
      limiter let through. */
  lemma WindowHoldsAtMostMax(max: int, window: int, calls: seq<Call>, key: string, start: int)
    requires Ordered(calls)
    ensures |RunPruned(max, window, calls).allowed| == |calls|
    ensures |Where(AcceptedAt(calls, RunPruned(max, window, calls).allowed, key), t => start <= t < start + window)|
            <= Cap(max)
  {
    PruningRefines(max, window, calls);
    HistoryIsAccepted(max, window, calls, key);
    HistoryHoldsAtMostMax(max, window, calls, key, start);
  }

  lemma RecentAre(hits: seq<int>, window: int, now: int, since: int)
    requires since + window == now
    ensures Recent(hits, window, now) == Where(hits, t => since < t)
  {
    WhereAgree(hits, t => t > now - window, t => since < t);
  }

  lemma RunsOn(max: int, window: int, calls: seq<Call>, c: Call)
    ensures RunFull(max, window, calls + [c]) == RecordFull(RunFull(max, window, calls), max, window, c)
  {
    assert (calls + [c])[..|calls|] == calls;
  }

  lemma OrderedFront(calls: seq<Call>, c: Call)
    requires Ordered(calls + [c])
    ensures Ordered(calls)
  {
    assert (calls + [c])[..|calls|] == calls;
  }

  /** The rule a caller sees: a request is let through exactly when fewer than `max` of those before it with its
      key were let through in the window that ends now. */
  lemma AllowedIff(max: int, window: int, calls: seq<Call>, c: Call, since: int)
    requires Ordered(calls + [c]) && since + window == c.now
    ensures |RunPruned(max, window, calls).allowed| == |calls|
    ensures var allowed := RunPruned(max, window, calls).allowed;
            RunPruned(max, window, calls + [c]).allowed ==
            allowed + [|Where(AcceptedAt(calls, allowed, c.key), t => since < t)| < max]
  {
    OrderedFront(calls, c);
    PruningRefines(max, window, calls);
    PruningRefines(max, window, calls + [c]);
    RunsOn(max, window, calls, c);
    HistoryIsAccepted(max, window, calls, c.key);
    var f := RunFull(max, window, calls);
    RecordedHits(f, max, window, c, c.key);
    RecentAre(HitsAt(f, c.key), window, c.now, since);
  }

  // ---------------------------------------------------------------- liveness and independence

  lemma {:induction false} ListsStayShort(max: int, window: int, calls: seq<Call>, key: string)
    requires max >= 0
    ensures |HitsAt(RunPruned(max, window, calls), key)| <= max
  {
    if calls == [] {
    } else {
      ListsStayShort(max, window, calls[..|calls| - 1], key);
    }
  }

  lemma WhereDropsOne<T>(s: seq<T>, p: T -> bool)
    requires s != [] && !p(s[0])
    ensures |Where(s, p)| < |s|
  {
    if |s| == 1 {
    } else {
      assert s[..|s| - 1][0] == s[0];
      WhereDropsOne(s[..|s| - 1], p);
    }
  }

  /** Liveness: once `window` has passed since the oldest retained hit, the next request is let
      through. A limiter with a cap of zero lets nothing through. */
  lemma OldestHitFreesASlot(max: int, window: int, calls: seq<Call>, c: Call)
    requires max >= 0
    requires var hits := HitsAt(RunPruned(max, window, calls), c.key);
             hits != [] && c.now >= hits[0] + window
    ensures max > 0 && Pruned(HitsAt(RunPruned(max, window, calls), c.key), max, window, c.now).1
  {
    ListsStayShort(max, window, calls, c.key);
    ShortListAccepts(HitsAt(RunPruned(max, window, calls), c.key), max, window, c.now);
  }

  lemma ShortListAccepts(hits: seq<int>, max: int, window: int, now: int)
    requires |hits| <= max && hits != [] && now >= hits[0] + window
    ensures Pruned(hits, max, window, now).1
  {
    WhereDropsOne(hits, t => t > now - window);
  }

  function CallsOf(calls: seq<Call>, key: string): seq<Call> {
    Where(calls, (c: Call) => c.key == key)
  }

  /** Keys do not share anything: the list of a key, hence every decision on it, depends on the calls
      made with that key only. */
  lemma {:induction false} KeysAreIndependent(max: int, window: int, calls: seq<Call>, key: string)
    ensures HitsAt(RunPruned(max, window, calls), key)
         == HitsAt(RunPruned(max, window, CallsOf(calls, key)), key)
  {
    if calls == [] {
    } else {
      var before, c := calls[..|calls| - 1], calls[|calls| - 1];
      KeysAreIndependent(max, window, before, key);
      if c.key == key {
        var own := CallsOf(before, key);
        assert (own + [c])[..|own|] == own;
      }
    }
  }

  // ---------------------------------------------------------------- two buckets in a row

  /** A forgot-password or reset-password request: the IP bucket is charged first. */
  datatype Request = Request(ip: string, key: string, now: int)

  datatype Verdict = Allowed | IpLimited | KeyLimited

  datatype Guard = Guard(ip: Limiter, key: Limiter, verdicts: seq<Verdict>)

  /** `require_forgot_rate_limit` and `require_reset_rate_limit`. */
  function Check(g: Guard, ipMax: int, keyMax: int, window: int, r: Request): Guard {
    var ip := RecordPruned(g.ip, ipMax, window, Call(r.ip, r.now));
    if !Admits(g.ip, ipMax, window, r.ip, r.now) then g.(ip := ip, verdicts := g.verdicts + [IpLimited])
    else
      var verdict := if Admits(g.key, keyMax, window, r.key, r.now) then Allowed else KeyLimited;
      Guard(ip, RecordPruned(g.key, keyMax, window, Call(r.key, r.now)), g.verdicts + [verdict])
  }

  predicate Admits(l: Limiter, max: int, window: int, key: string, now: int) {
    Pruned(HitsAt(l, key), max, window, now).1
  }

  function RunGuard(ipMax: int, keyMax: int, window: int, rs: seq<Request>): Guard {
    if rs == [] then Guard(NEW, NEW, [])
    else Check(RunGuard(ipMax, keyMax, window, rs[..|rs| - 1]), ipMax, keyMax, window, rs[|rs| - 1])
  }

  function IpCalls(rs: seq<Request>): seq<Call> {
    if rs == [] then [] else IpCalls(rs[..|rs| - 1]) + [Call(rs[|rs| - 1].ip, rs[|rs| - 1].now)]
  }

  /** The requests that the IP bucket let through, as charged to the second bucket. */
  function KeyCalls(ipMax: int, keyMax: int, window: int, rs: seq<Request>): seq<Call> {
    if rs == [] then [] else
      var before, r := rs[..|rs| - 1], rs[|rs| - 1];
      var rest := KeyCalls(ipMax, keyMax, window, before);
      if Admits(RunGuard(ipMax, keyMax, window, before).ip, ipMax, window, r.ip, r.now)
      then rest + [Call(r.key, r.now)] else rest
  }

  /** Both buckets behave as limiters of their own: the first is charged for every request, also one
      the second rejects; the second only for those the first lets through. */
  lemma {:induction false} GuardIsTwoLimiters(ipMax: int, keyMax: int, window: int, rs: seq<Request>)
    ensures var g := RunGuard(ipMax, keyMax, window, rs);
            g.ip == RunPruned(ipMax, window, IpCalls(rs)) &&
            g.key == RunPruned(keyMax, window, KeyCalls(ipMax, keyMax, window, rs))
  {
    if rs == [] {
    } else {
      var before, r := rs[..|rs| - 1], rs[|rs| - 1];
      GuardIsTwoLimiters(ipMax, keyMax, window, before);
      var ips, keys := IpCalls(before), KeyCalls(ipMax, keyMax, window, before);
      assert (ips + [Call(r.ip, r.now)])[..|ips|] == ips;
      assert (keys + [Call(r.key, r.now)])[..|keys|] == keys;
    }
  }

  predicate RequestsOrdered(rs: seq<Request>) {
    rs == [] ||
    var before := rs[..|rs| - 1];
    RequestsOrdered(before) && forall r :: r in before ==> r.now <= rs[|rs| - 1].now
  }

  /** No call is later than `now`. */
  predicate Until(calls: seq<Call>, now: int) {
    forall c :: c in calls ==> c.now <= now
  }

  lemma OneMoreOrdered(calls: seq<Call>, c: Call)
    requires Ordered(calls) && Until(calls, c.now)
    ensures Ordered(calls + [c]) && Until(calls + [c], c.now)
  {
    assert (calls + [c])[..|calls|] == calls;
  }

  lemma {:induction false} KeyCallsOrdered(ipMax: int, keyMax: int, window: int, rs: seq<Request>)
    requires RequestsOrdered(rs)
    ensures Ordered(KeyCalls(ipMax, keyMax, window, rs))
    ensures rs != [] ==> Until(KeyCalls(ipMax, keyMax, window, rs), rs[|rs| - 1].now)
  {
    if rs == [] {
    } else {
      var before, r := rs[..|rs| - 1], rs[|rs| - 1];
      KeyCallsOrdered(ipMax, keyMax, window, before);
      if before != [] {
        assert before[|before| - 1] in before;
      }
      OneMoreOrdered(KeyCalls(ipMax, keyMax, window, before), Call(r.key, r.now));
    }
  }

  /** When the requests with `key` that got through both buckets were made. */
  function ServedAt(rs: seq<Request>, verdicts: seq<Verdict>, key: string): seq<int>
    requires |rs| == |verdicts|
  {
    if rs == [] then [] else
      var n := |rs| - 1;
      var rest := ServedAt(rs[..n], verdicts[..n], key);
      if verdicts[n].Allowed? && rs[n].key == key then rest + [rs[n].now] else rest
  }

  lemma ServedMore(rs: seq<Request>, verdicts: seq<Verdict>, r: Request, v: Verdict, key: string)
    requires |rs| == |verdicts|
    ensures ServedAt(rs + [r], verdicts + [v], key)
         == ServedAt(rs, verdicts, key) + if v.Allowed? && r.key == key then [r.now] else []
  {
    assert (rs + [r])[..|rs|] == rs && (verdicts + [v])[..|verdicts|] == verdicts;
  }

  /** One request: what the guard says, and what it charges to the second bucket. */
  lemma GuardMore(g: Guard, ipMax: int, keyMax: int, window: int, r: Request)
    ensures var ok, after := Admits(g.key, keyMax, window, r.key, r.now), Check(g, ipMax, keyMax, window, r);
            if Admits(g.ip, ipMax, window, r.ip, r.now)
            then after.verdicts == g.verdicts + [if ok then Allowed else KeyLimited] &&
                 after.key.allowed == g.key.allowed + [ok]
            else after.verdicts == g.verdicts + [IpLimited] && after.key == g.key
  {
  }

  /** The requests served are those the second bucket let through. */
  predicate ServedLike(g: Guard, rs: seq<Request>, calls: seq<Call>, key: string) {
    && |g.verdicts| == |rs| && |g.key.allowed| == |calls|
    && ServedAt(rs, g.verdicts, key) == AcceptedAt(calls, g.key.allowed, key)
  }

  function Charged(g: Guard, ipMax: int, window: int, r: Request, calls: seq<Call>): seq<Call> {
    if Admits(g.ip, ipMax, window, r.ip, r.now) then calls + [Call(r.key, r.now)] else calls
  }

  lemma ServedOnce(g: Guard, ipMax: int, keyMax: int, window: int, rs: seq<Request>, r: Request, calls: seq<Call>,
                   key: string)
    requires ServedLike(g, rs, calls, key)
    ensures ServedLike(Check(g, ipMax, keyMax, window, r), rs + [r], Charged(g, ipMax, window, r, calls), key)
  {
    GuardMore(g, ipMax, keyMax, window, r);
    if Admits(g.ip, ipMax, window, r.ip, r.now) {
      var ok := Admits(g.key, keyMax, window, r.key, r.now);
      ServedMore(rs, g.verdicts, r, if ok then Allowed else KeyLimited, key);
      AcceptedMore(calls, g.key.allowed, Call(r.key, r.now), ok, key);
    } else {
      ServedMore(rs, g.verdicts, r, IpLimited, key);
    }
  }

  lemma OneMoreCharge(ipMax: int, keyMax: int, window: int, rs: seq<Request>)
    requires rs != []
    ensures var before, r := rs[..|rs| - 1], rs[|rs| - 1];
            var g := RunGuard(ipMax, keyMax, window, before);
            && RunGuard(ipMax, keyMax, window, rs) == Check(g, ipMax, keyMax, window, r)
            && KeyCalls(ipMax, keyMax, window, rs)
            == Charged(g, ipMax, window, r, KeyCalls(ipMax, keyMax, window, before))
  {
  }

  lemma {:induction false} ServedAreAccepted(ipMax: int, keyMax: int, window: int, rs: seq<Request>, key: string)
    ensures ServedLike(RunGuard(ipMax, keyMax, window, rs), rs, KeyCalls(ipMax, keyMax, window, rs), key)
  {
    if rs == [] {
    } else {
      var before, r := rs[..|rs| - 1], rs[|rs| - 1];
      ServedAreAccepted(ipMax, keyMax, window, before, key);
      var g, calls := RunGuard(ipMax, keyMax, window, before), KeyCalls(ipMax, keyMax, window, before);
      assert before + [r] == rs;
      ServedOnce(g, ipMax, keyMax, window, before, r, calls, key);
      OneMoreCharge(ipMax, keyMax, window, rs);
    }
  }

  /** Whatever addresses the requests come from, no email address and no token is served more than `keyMax`
      times in any window. */
  lemma KeyServedAtMostMax(ipMax: int, keyMax: int, window: int, rs: seq<Request>, key: string, start: int)
    requires RequestsOrdered(rs)
    ensures |RunGuard(ipMax, keyMax, window, rs).verdicts| == |rs|
    ensures |Where(ServedAt(rs, RunGuard(ipMax, keyMax, window, rs).verdicts, key), t => start <= t < start + window)|
            <= Cap(keyMax)
  {
    ServedAreAccepted(ipMax, keyMax, window, rs, key);
    GuardIsTwoLimiters(ipMax, keyMax, window, rs);
    KeyCallsOrdered(ipMax, keyMax, window, rs);
    WindowHoldsAtMostMax(keyMax, window, KeyCalls(ipMax, keyMax, window, rs), key, start);
  }
}
