/** Signed session cookies, the `sessions` table and the account transitions around it: pingback/session.py
    and the handlers of pingback/routes/dashboard.py. Clocks count microseconds. */
module Sessions {
  import opened Tables

  /** The keyed digest is any function to 16 hexadecimal digits; of that, only the missing dot matters. */
  datatype Config = Config(mac: string -> string, lifetime: int)

  ghost predicate Dotless(c: Config) {
    forall s :: '.' !in c.mac(s)
  }

  // ---------------------------------------------------------------- the cookie

  function Sign(c: Config, id: string): string {
    id + "." + c.mac(id)
  }

  /** The position of the last dot, or -1. */
  function LastDot(s: string): (k: int)
    ensures -1 <= k < |s|
    ensures k >= 0 ==> s[k] == '.'
    ensures forall i :: k < i < |s| ==> s[i] != '.'
  {
    if s == "" then -1
    else if s[|s| - 1] == '.' then |s| - 1
    else LastDot(s[..|s| - 1])
  }

  /** `_verify_signed_session_id` */
  function Unsign(c: Config, token: string): Option<string> {
    var k := LastDot(token);
    if k < 0 then None
    else if token[k + 1..] == c.mac(token[..k]) then Some(token[..k])
    else None
  }

  /** The accepted cookies are the signed ids and nothing else, whatever characters the id holds. */
  lemma UnsignIff(c: Config, token: string, id: string)
    requires Dotless(c)
    ensures Unsign(c, token) == Some(id) <==> token == Sign(c, id)
  {
    var k := LastDot(token);
    assert k >= 0 ==> token == token[..k] + "." + token[k + 1..];
    if token == Sign(c, id) {
      assert token[|id|] == '.';
      assert forall i :: |id| < i < |token| ==> token[i] == c.mac(id)[i - |id| - 1];
      assert k == |id|;
      assert token[..k] == id && token[k + 1..] == c.mac(id);
    }
  }

  // ---------------------------------------------------------------- state

  datatype Session = Session(user: string, expires: int)
  datatype Token = Token(value: string, expires: int)
  datatype User = User(verified: bool, hasPassword: bool, verification: Option<Token>, reset: Option<Token>)

  /** `minted` collects every random id and token handed out so far. */
  datatype State = State(users: map<string, User>, sessions: map<string, Session>, minted: set<string>)

  const HOUR := 3_600_000_000
  const VERIFICATION_TTL := 24 * HOUR
  const RESET_TTL := 2 * HOUR

  predicate Live(token: Option<Token>, now: int) {
    token.Some? && now <= token.value.expires
  }

  function WithoutUser(rows: map<string, Session>, user: string): map<string, Session> {
    map id | id in rows && rows[id].user != user :: rows[id]
  }

  /** `_start_session` */
  function Start(c: Config, s: State, user: string, id: string, now: int): (t: State)
    ensures t.minted == s.minted
  {
    s.(sessions := s.sessions[id := Session(user, now + c.lifetime)])
  }

  /** `_rotate_session` */
  function Rotate(c: Config, s: State, user: string, id: string, now: int): (t: State)
    ensures t.minted == s.minted
  {
    Start(c, s.(sessions := WithoutUser(s.sessions, user)), user, id, now)
  }

  /** `lookup_session_user_id`: the rows left and the user found. `evicts` tells whether the best-effort
      DELETE of a stale row goes through. */
  function Lookup(rows: map<string, Session>, id: string, now: int, evicts: bool)
    : (map<string, Session>, Option<string>)
  {
    if id !in rows then (rows, None)
    else if rows[id].expires < now then (if evicts then rows - {id} else rows, None)
    else (rows, Some(rows[id].user))
  }

  /** `_get_ui_user`: the state left by the lookup, and who the request is from. */
  function Resolve(c: Config, s: State, cookie: string, now: int, evicts: bool): (t: (State, Option<string>))
    ensures t.0.minted == s.minted
  {
    var id := Unsign(c, cookie);
    if id.None? || id.value == "" then (s, None)
    else
      var (rows, user) := Lookup(s.sessions, id.value, now, evicts);
      (s.(sessions := rows), if user.Some? && user.value in s.users then user else None)
  }

  /** `_end_session` */
  function End(c: Config, s: State, cookie: string): (t: State)
    ensures t.minted == s.minted
  {
    var id := Unsign(c, cookie);
    if id.None? || id.value == "" then s else s.(sessions := s.sessions - {id.value})
  }

  /** DELETE FROM users; the foreign key cascades to the sessions. */
  function Erase(s: State, user: string): (t: State)
    ensures t.minted == s.minted
  {
    s.(users := s.users - {user}, sessions := WithoutUser(s.sessions, user))
  }

  function WithUser(s: State, user: string, row: User): (t: State)
    ensures t.minted == s.minted
  {
    s.(users := s.users[user := row])
  }

  // ---------------------------------------------------------------- requests

  /** What a request asks for. `correct` is the outcome of the password check together with the length
      check; `row` is the row its token selects. */
  datatype Action =
    | SignUp(user: string)
    | Login(user: string, correct: bool)
    | Resend(user: string)
    | Confirm(token: string, row: Option<string>)
    | Forgot(user: string)
    | ResetPassword(token: string, row: Option<string>)
    | ChangePassword(cookie: string, correct: bool)
    | Logout(cookie: string)
    | View(cookie: string)
    | RotateKey(cookie: string)
    | DeleteAccount(cookie: string)
    | DeleteUser(user: string)

  predicate ByCookie(a: Action) {
    a.ChangePassword? || a.Logout? || a.View? || a.RotateKey? || a.DeleteAccount?
  }

  datatype Request = Request(now: int, freshId: string, evicts: bool, action: Action)

  function IssueVerification(s: State, r: Request, user: string): (t: State)
    requires user in s.users
    ensures t.minted == s.minted
  {
    WithUser(s, user, s.users[user].(verification := Some(Token(r.freshId, r.now + VERIFICATION_TTL))))
  }

  function IssueReset(s: State, r: Request, user: string): (t: State)
    requires user in s.users
    ensures t.minted == s.minted
  {
    WithUser(s, user, s.users[user].(reset := Some(Token(r.freshId, r.now + RESET_TTL))))
  }

  function LogIn(c: Config, s: State, r: Request, user: string, correct: bool): (t: State)
    ensures t.minted == s.minted
  {
    if user !in s.users then s
    else if !s.users[user].hasPassword then IssueReset(s, r, user)
    else if !correct then s
    else if !s.users[user].verified then IssueVerification(s, r, user)
    else Rotate(c, s, user, r.freshId, r.now)
  }

  /** `verify_email` on the row its token selected. */
  function ConfirmRow(c: Config, s: State, r: Request, user: string): (t: State)
    ensures t.minted == s.minted
  {
    if user !in s.users || !Live(s.users[user].verification, r.now) then s
    else
      var row := s.users[user].(verified := true, verification := None);
      Start(c, WithUser(s, user, row), user, r.freshId, r.now)
  }

  /** `reset_password_submit` on the row its token selected. */
  function ResetRow(c: Config, s: State, r: Request, user: string): (t: State)
    ensures t.minted == s.minted
  {
    if user !in s.users || !Live(s.users[user].reset, r.now) then s
    else
      Rotate(c, WithUser(s, user, User(true, true, None, None)), user, r.freshId, r.now)
  }

  /** `change_password` */
  function ChangeBy(c: Config, s: State, r: Request, cookie: string, correct: bool): (t: State)
    ensures t.minted == s.minted
  {
    var (left, user) := Resolve(c, s, cookie, r.now, r.evicts);
    if user.Some? && left.users[user.value].hasPassword && correct
    then Rotate(c, left, user.value, r.freshId, r.now)
    else left
  }

  /** `rotate_key`; the new API key itself is not modelled. */
  function RotateKeyBy(c: Config, s: State, r: Request, cookie: string): (t: State)
    ensures t.minted == s.minted
  {
    var (left, user) := Resolve(c, s, cookie, r.now, r.evicts);
    if user.Some? then End(c, left, cookie) else left
  }

  /** `delete_account` */
  function DeleteBy(c: Config, s: State, r: Request, cookie: string): (t: State)
    ensures t.minted == s.minted
  {
    var (left, user) := Resolve(c, s, cookie, r.now, r.evicts);
    if user.Some? then End(c, Erase(left, user.value), cookie) else left
  }

  function Act(c: Config, s: State, r: Request): (t: State)
    ensures t.minted == s.minted
  {
    match r.action
    case SignUp(user) =>
      if user in s.users then s
      else WithUser(s, user, User(false, true, Some(Token(r.freshId, r.now + VERIFICATION_TTL)), None))
    case Login(user, correct) => LogIn(c, s, r, user, correct)
    case Resend(user) =>
      if user in s.users && !s.users[user].verified then IssueVerification(s, r, user) else s
    case Confirm(_, row) => if row.None? then s else ConfirmRow(c, s, r, row.value)
    case Forgot(user) => if user in s.users then IssueReset(s, r, user) else s
    case ResetPassword(_, row) => if row.None? then s else ResetRow(c, s, r, row.value)
    case ChangePassword(cookie, correct) => ChangeBy(c, s, r, cookie, correct)
    case Logout(cookie) => End(c, s, cookie)
    case View(cookie) => Resolve(c, s, cookie, r.now, r.evicts).0
    case RotateKey(cookie) => RotateKeyBy(c, s, r, cookie)
    case DeleteAccount(cookie) => DeleteBy(c, s, r, cookie)
    case DeleteUser(user) => Erase(s, user)
  }

  function Step(c: Config, s: State, r: Request): State {
    var t := Act(c, s, r);
    t.(minted := t.minted + {r.freshId})
  }

  /** Who the handler takes the request to be from. */
  function Caller(c: Config, s: State, r: Request): Option<string> {
    if r.action.ChangePassword? || r.action.View? || r.action.RotateKey? || r.action.DeleteAccount?
    then Resolve(c, s, r.action.cookie, r.now, r.evicts).1
    else None
  }

  predicate Selects(s: State, user: string, column: User -> Option<Token>, token: string) {
    user in s.users && column(s.users[user]).Some? && column(s.users[user]).value.value == token
  }

  function VerificationOf(u: User): Option<Token> {
    u.verification
  }

  function ResetOf(u: User): Option<Token> {
    u.reset
  }

  /** The random source never repeats itself, and a token selects a row that holds it, if any does. */
  ghost predicate Enabled(s: State, r: Request) {
    && r.freshId !in s.minted
    && (r.action.Confirm? ==> RowFor(s, VerificationOf, r.action.token, r.action.row))
    && (r.action.ResetPassword? ==> RowFor(s, ResetOf, r.action.token, r.action.row))
  }

  ghost predicate RowFor(s: State, column: User -> Option<Token>, token: string, row: Option<string>) {
    if row.Some? then Selects(s, row.value, column, token)
    else forall user :: !Selects(s, user, column, token)
  }

  ghost predicate Runs(c: Config, s: State, rs: seq<Request>)
    decreases |rs|
  {
    rs == [] || (Enabled(s, rs[0]) && Runs(c, Step(c, s, rs[0]), rs[1..]))
  }

  function After(c: Config, s: State, rs: seq<Request>): State
    decreases |rs|
  {
    if rs == [] then s else After(c, Step(c, s, rs[0]), rs[1..])
  }

  // ---------------------------------------------------------------- what every request keeps

  /** A session row belongs to an existing verified user. */
  predicate Verified(s: State) {
    forall id :: id in s.sessions ==>
      s.sessions[id].user in s.users && s.users[s.sessions[id].user].verified
  }

  /** A verified user has no verification token left. */
  predicate TokensSpent(s: State) {
    forall user :: user in s.users && s.users[user].verified ==> s.users[user].verification.None?
  }

  predicate SingleSession(s: State) {
    forall a, b :: a in s.sessions && b in s.sessions && a != b ==> s.sessions[a].user != s.sessions[b].user
  }

  predicate AllMinted(s: State) {
    && (forall id :: id in s.sessions ==> id in s.minted)
    && (forall user :: user in s.users && s.users[user].verification.Some? ==>
          s.users[user].verification.value.value in s.minted)
    && (forall user :: user in s.users && s.users[user].reset.Some? ==>
          s.users[user].reset.value.value in s.minted)
  }

  predicate Sound(s: State) {
    Verified(s) && TokensSpent(s) && SingleSession(s) && AllMinted(s)
  }

  lemma RotateKeepsSound(c: Config, s: State, user: string, id: string, now: int)
    requires Sound(s) && user in s.users && s.users[user].verified && id !in s.minted
    ensures var t := Rotate(c, s, user, id, now); Sound(t.(minted := t.minted + {id}))
  {
  }

  lemma ResolveKeepsSound(c: Config, s: State, cookie: string, now: int, evicts: bool)
    requires Sound(s)
    ensures var (t, user) := Resolve(c, s, cookie, now, evicts);
            Sound(t) && t.users == s.users && t.minted == s.minted && t.sessions.Keys <= s.sessions.Keys &&
            (user.Some? ==> user.value in s.users && s.users[user.value].verified)
  {
  }

  lemma EraseKeepsSound(s: State, user: string)
    requires Sound(s)
    ensures Sound(Erase(s, user))
  {
  }

  lemma LogInKeepsSound(c: Config, s: State, r: Request, user: string, correct: bool)
    requires Sound(s) && r.freshId !in s.minted
    ensures var t := LogIn(c, s, r, user, correct); Sound(t.(minted := t.minted + {r.freshId}))
  {
    if user in s.users && s.users[user].verified {
      RotateKeepsSound(c, s, user, r.freshId, r.now);
    }
  }

  /** The verified user of a live verification token was unverified, hence had no session. */
  lemma ConfirmKeepsSound(c: Config, s: State, r: Request, user: string)
    requires Sound(s) && r.freshId !in s.minted
    ensures user in s.users && Live(s.users[user].verification, r.now) ==>
      forall id :: id in s.sessions ==> s.sessions[id].user != user
    ensures var t := ConfirmRow(c, s, r, user); Sound(t.(minted := t.minted + {r.freshId}))
  {
  }

  lemma ResetKeepsSound(c: Config, s: State, r: Request, user: string)
    requires Sound(s) && r.freshId !in s.minted
    ensures var t := ResetRow(c, s, r, user); Sound(t.(minted := t.minted + {r.freshId}))
  {
    if user in s.users {
      RotateKeepsSound(c, WithUser(s, user, User(true, true, None, None)), user, r.freshId, r.now);
    }
  }

  lemma AccountKeepsSound(c: Config, s: State, r: Request)
    requires Sound(s) && r.freshId !in s.minted
    requires r.action.SignUp? || r.action.Resend? || r.action.Forgot?
    ensures Sound(Step(c, s, r))
  {
  }

  lemma ChangeKeepsSound(c: Config, s: State, r: Request, cookie: string, correct: bool)
    requires Sound(s) && r.freshId !in s.minted
    ensures var t := ChangeBy(c, s, r, cookie, correct); Sound(t.(minted := t.minted + {r.freshId}))
  {
    ResolveKeepsSound(c, s, cookie, r.now, r.evicts);
    var (t, user) := Resolve(c, s, cookie, r.now, r.evicts);
    MintKeepsSound(t, r.freshId);
    if user.Some? {
      RotateKeepsSound(c, t, user.value, r.freshId, r.now);
    }
  }

  lemma EndKeepsSound(c: Config, s: State, cookie: string)
    requires Sound(s)
    ensures Sound(End(c, s, cookie))
  {
  }

  lemma MintKeepsSound(s: State, id: string)
    requires Sound(s)
    ensures Sound(s.(minted := s.minted + {id}))
  {
  }

  lemma RotateKeyKeepsSound(c: Config, s: State, r: Request, cookie: string)
    requires Sound(s)
    ensures Sound(RotateKeyBy(c, s, r, cookie))
  {
    ResolveKeepsSound(c, s, cookie, r.now, r.evicts);
    EndKeepsSound(c, Resolve(c, s, cookie, r.now, r.evicts).0, cookie);
  }

  lemma DeleteKeepsSound(c: Config, s: State, r: Request, cookie: string)
    requires Sound(s)
    ensures Sound(DeleteBy(c, s, r, cookie))
  {
    ResolveKeepsSound(c, s, cookie, r.now, r.evicts);
    var (t, user) := Resolve(c, s, cookie, r.now, r.evicts);
    if user.Some? {
      EraseKeepsSound(t, user.value);
      EndKeepsSound(c, Erase(t, user.value), cookie);
    }
  }

  lemma AccountStepKeepsSound(c: Config, s: State, r: Request)
    requires Sound(s) && r.freshId !in s.minted && !ByCookie(r.action)
    ensures Sound(Step(c, s, r))
  {
    match r.action
    case Login(user, correct) => LogInKeepsSound(c, s, r, user, correct);
    case Confirm(_, row) =>
      if row.Some? {
        ConfirmKeepsSound(c, s, r, row.value);
      } else {
        MintKeepsSound(s, r.freshId);
      }
    case ResetPassword(_, row) =>
      if row.Some? {
        ResetKeepsSound(c, s, r, row.value);
      } else {
        MintKeepsSound(s, r.freshId);
      }
    case DeleteUser(user) =>
      EraseKeepsSound(s, user);
      MintKeepsSound(Erase(s, user), r.freshId);
    case SignUp(_) => AccountKeepsSound(c, s, r);
    case Resend(_) => AccountKeepsSound(c, s, r);
    case Forgot(_) => AccountKeepsSound(c, s, r);
  }

  lemma CookieStepKeepsSound(c: Config, s: State, r: Request)
    requires Sound(s) && r.freshId !in s.minted && ByCookie(r.action)
    ensures Sound(Step(c, s, r))
  {
    match r.action
    case ChangePassword(cookie, correct) => ChangeKeepsSound(c, s, r, cookie, correct);
    case Logout(cookie) =>
      EndKeepsSound(c, s, cookie);
      MintKeepsSound(End(c, s, cookie), r.freshId);
    case View(cookie) =>
      ResolveKeepsSound(c, s, cookie, r.now, r.evicts);
      MintKeepsSound(Resolve(c, s, cookie, r.now, r.evicts).0, r.freshId);
    case RotateKey(cookie) =>
      RotateKeyKeepsSound(c, s, r, cookie);
      MintKeepsSound(RotateKeyBy(c, s, r, cookie), r.freshId);
    case DeleteAccount(cookie) =>
      DeleteKeepsSound(c, s, r, cookie);
      MintKeepsSound(DeleteBy(c, s, r, cookie), r.freshId);
  }

  lemma StepKeepsSound(c: Config, s: State, r: Request)
    requires Sound(s) && r.freshId !in s.minted
    ensures Sound(Step(c, s, r))
  {
    if ByCookie(r.action) {
      CookieStepKeepsSound(c, s, r);
    } else {
      AccountStepKeepsSound(c, s, r);
    }
  }

  /** Over every run: a session always belongs to an existing verified user, and a user never has two. */
  lemma {:induction false} SessionInvariant(c: Config, s: State, rs: seq<Request>)
    requires Sound(s) && Runs(c, s, rs)
    ensures Sound(After(c, s, rs))
    decreases |rs|
  {
    if rs == [] {
    } else {
      StepKeepsSound(c, s, rs[0]);
      SessionInvariant(c, Step(c, s, rs[0]), rs[1..]);
    }
  }

  // ---------------------------------------------------------------- what is gone stays gone

  /** None of these ids opens a session of the user. */
  predicate Powerless(s: State, ids: set<string>, user: string) {
    ids <= s.minted && forall id :: id in ids && id in s.sessions ==> s.sessions[id].user != user
  }

  /** A request adds no session but that of its fresh id, and gives no session another user. */
  ghost predicate OnlyFreshRows(s: State, t: State, freshId: string) {
    forall id :: id in t.sessions && id != freshId ==> id in s.sessions && t.sessions[id] == s.sessions[id]
  }

  lemma ResolveAddsNothing(c: Config, s: State, cookie: string, now: int, evicts: bool, freshId: string)
    ensures OnlyFreshRows(s, Resolve(c, s, cookie, now, evicts).0, freshId)
  {
  }

  lemma RotateAddsOnlyFresh(c: Config, s: State, t: State, user: string, freshId: string, now: int)
    requires OnlyFreshRows(s, t, freshId)
    ensures OnlyFreshRows(s, Rotate(c, t, user, freshId, now), freshId)
  {
  }

  lemma EndAddsNothing(c: Config, s: State, t: State, cookie: string, freshId: string)
    requires OnlyFreshRows(s, t, freshId)
    ensures OnlyFreshRows(s, End(c, t, cookie), freshId)
  {
  }

  lemma ChangeAddsOnlyFresh(c: Config, s: State, r: Request, cookie: string, correct: bool)
    ensures OnlyFreshRows(s, ChangeBy(c, s, r, cookie, correct), r.freshId)
  {
    ResolveAddsNothing(c, s, cookie, r.now, r.evicts, r.freshId);
    var (left, user) := Resolve(c, s, cookie, r.now, r.evicts);
    RotateAddsOnlyFresh(c, s, left, user.GetOr(""), r.freshId, r.now);
  }

  lemma CookieAddsNothing(c: Config, s: State, r: Request, cookie: string)
    ensures OnlyFreshRows(s, Resolve(c, s, cookie, r.now, r.evicts).0, r.freshId)
    ensures OnlyFreshRows(s, RotateKeyBy(c, s, r, cookie), r.freshId)
  {
    ResolveAddsNothing(c, s, cookie, r.now, r.evicts, r.freshId);
    EndAddsNothing(c, s, Resolve(c, s, cookie, r.now, r.evicts).0, cookie, r.freshId);
  }

  lemma EraseAddsNothing(s: State, t: State, user: string, freshId: string)
    requires OnlyFreshRows(s, t, freshId)
    ensures OnlyFreshRows(s, Erase(t, user), freshId)
  {
  }

  lemma DeleteAddsNothing(c: Config, s: State, r: Request, cookie: string)
    ensures OnlyFreshRows(s, DeleteBy(c, s, r, cookie), r.freshId)
  {
    ResolveAddsNothing(c, s, cookie, r.now, r.evicts, r.freshId);
    var (left, user) := Resolve(c, s, cookie, r.now, r.evicts);
    EraseAddsNothing(s, left, user.GetOr(""), r.freshId);
    EndAddsNothing(c, s, Erase(left, user.GetOr("")), cookie, r.freshId);
  }

  lemma AccountAddsOnlyFresh(c: Config, s: State, r: Request, user: string, correct: bool)
    ensures OnlyFreshRows(s, LogIn(c, s, r, user, correct), r.freshId)
    ensures OnlyFreshRows(s, ConfirmRow(c, s, r, user), r.freshId)
    ensures OnlyFreshRows(s, ResetRow(c, s, r, user), r.freshId)
  {
  }

  lemma AccountActAddsOnlyFresh(c: Config, s: State, r: Request)
    requires !ByCookie(r.action)
    ensures OnlyFreshRows(s, Act(c, s, r), r.freshId)
  {
    match r.action
    case Login(user, correct) => AccountAddsOnlyFresh(c, s, r, user, correct);
    case Confirm(_, row) => AccountAddsOnlyFresh(c, s, r, row.GetOr(""), true);
    case ResetPassword(_, row) => AccountAddsOnlyFresh(c, s, r, row.GetOr(""), true);
    case SignUp(_) =>
    case Resend(_) =>
    case Forgot(_) =>
    case DeleteUser(_) =>
  }

  lemma CookieActAddsOnlyFresh(c: Config, s: State, r: Request)
    requires ByCookie(r.action)
    ensures OnlyFreshRows(s, Act(c, s, r), r.freshId)
  {
    match r.action
    case ChangePassword(cookie, correct) => ChangeAddsOnlyFresh(c, s, r, cookie, correct);
    case View(cookie) => CookieAddsNothing(c, s, r, cookie);
    case RotateKey(cookie) => CookieAddsNothing(c, s, r, cookie);
    case DeleteAccount(cookie) => DeleteAddsNothing(c, s, r, cookie);
    case Logout(_) =>
  }

  lemma StepAddsOnlyFresh(c: Config, s: State, r: Request)
    ensures OnlyFreshRows(s, Step(c, s, r), r.freshId)
    ensures Step(c, s, r).minted == s.minted + {r.freshId}
  {
    if ByCookie(r.action) {
      CookieActAddsOnlyFresh(c, s, r);
    } else {
      AccountActAddsOnlyFresh(c, s, r);
    }
  }

  lemma {:induction false} PowerlessForever(c: Config, s: State, rs: seq<Request>, ids: set<string>, user: string)
    requires Powerless(s, ids, user) && Runs(c, s, rs)
    ensures Powerless(After(c, s, rs), ids, user)
    decreases |rs|
  {
    if rs == [] {
    } else {
      StepAddsOnlyFresh(c, s, rs[0]);
      PowerlessForever(c, Step(c, s, rs[0]), rs[1..], ids, user);
    }
  }

  /** The user whose sessions this request rotates. */
  function Rotated(c: Config, s: State, r: Request): Option<string> {
    match r.action
    case Login(user, correct) =>
      if user in s.users && s.users[user].hasPassword && correct && s.users[user].verified
      then Some(user) else None
    case ResetPassword(_, row) =>
      if row.Some? && row.value in s.users && Live(s.users[row.value].reset, r.now) then row else None
    case ChangePassword(_, correct) =>
      var user := Caller(c, s, r);
      if user.Some? && s.users[user.value].hasPassword && correct then user else None
    case _ => None
  }

  /** After a login, a reset or a password change, no cookie handed out before ever acts for that user
      again, whatever requests follow and at whatever time; the new cookie does, until it expires. */
  lemma RotationEndsOldCookies(c: Config, s: State, r: Request, rs: seq<Request>, id: string, now: int, evicts: bool)
    requires Dotless(c) && Sound(s) && Enabled(s, r) && Runs(c, Step(c, s, r), rs)
    requires Rotated(c, s, r).Some?
    requires id in s.minted
    ensures Resolve(c, After(c, Step(c, s, r), rs), Sign(c, id), now, evicts).1 != Rotated(c, s, r)
    ensures r.freshId != "" && now <= r.now + c.lifetime ==>
            Resolve(c, Step(c, s, r), Sign(c, r.freshId), now, evicts).1 == Rotated(c, s, r)
  {
    var user := Rotated(c, s, r).value;
    var t := Step(c, s, r);
    assert Powerless(t, s.minted, user);
    PowerlessForever(c, t, rs, s.minted, user);
    UnsignIff(c, Sign(c, id), id);
    UnsignIff(c, Sign(c, r.freshId), r.freshId);
  }

  /** A minted id without a row stays without one. */
  lemma {:induction false} EndedStaysEnded(c: Config, s: State, rs: seq<Request>, id: string)
    requires id in s.minted && id !in s.sessions && Runs(c, s, rs)
    ensures id !in After(c, s, rs).sessions
    decreases |rs|
  {
    if rs == [] {
    } else {
      StepAddsOnlyFresh(c, s, rs[0]);
      EndedStaysEnded(c, Step(c, s, rs[0]), rs[1..], id);
    }
  }

  /** Logging out is final: the cookie never resolves again. */
  lemma LogoutIsFinal(c: Config, s: State, r: Request, rs: seq<Request>, now: int, evicts: bool)
    requires Dotless(c) && Sound(s) && r.action.Logout? && Enabled(s, r) && Runs(c, Step(c, s, r), rs)
    requires forall id :: id in s.minted ==> id != ""
    ensures Unsign(c, r.action.cookie).Some? && Unsign(c, r.action.cookie).value in s.minted ==>
            Resolve(c, After(c, Step(c, s, r), rs), r.action.cookie, now, evicts).1 == None
  {
    var id := Unsign(c, r.action.cookie);
    if id.Some? && id.value in s.minted {
      EndedStaysEnded(c, Step(c, s, r), rs, id.value);
    }
  }

  // ---------------------------------------------------------------- where sessions come from

  /** What entitles a request to a session of the user: the right password of a verified account, a live
      link that selects the account, or the right password of whoever is signed in. */
  ghost predicate Entitled(c: Config, s: State, r: Request, user: string) {
    match r.action
    case Login(u, correct) => u == user && user in s.users && correct && s.users[user].verified
    case Confirm(_, row) => row == Some(user) && user in s.users && Live(s.users[user].verification, r.now)
    case ResetPassword(_, row) => row == Some(user) && user in s.users && Live(s.users[user].reset, r.now)
    case ChangePassword(_, correct) => correct && Caller(c, s, r) == Some(user)
    case _ => false
  }

  /** Every new session was minted by its request, for a user the request was entitled to. */
  lemma SessionsAreEarned(c: Config, s: State, r: Request, id: string)
    requires Sound(s) && r.freshId !in s.minted
    requires id in Step(c, s, r).sessions && id !in s.sessions
    ensures id == r.freshId && Entitled(c, s, r, Step(c, s, r).sessions[id].user)
    ensures Step(c, s, r).sessions[id].expires == r.now + c.lifetime
  {
    StepAddsOnlyFresh(c, s, r);
    if ByCookie(r.action) {
      CookieSessions(c, s, r, id);
    }
  }

  lemma CookieSessions(c: Config, s: State, r: Request, id: string)
    requires ByCookie(r.action) && id in Act(c, s, r).sessions && id !in s.sessions
    ensures r.action.ChangePassword? && r.action.correct
    ensures Caller(c, s, r) == Some(Act(c, s, r).sessions[id].user)
    ensures Act(c, s, r).sessions[id].expires == r.now + c.lifetime
  {
    match r.action
    case ChangePassword(cookie, correct) => ChangeSessions(c, s, r, cookie, correct, id);
    case Logout(_) =>
    case View(cookie) => CookieShrinks(c, s, r, cookie, id);
    case RotateKey(cookie) => CookieShrinks(c, s, r, cookie, id);
    case DeleteAccount(cookie) => CookieShrinks(c, s, r, cookie, id);
  }

  lemma ChangeSessions(c: Config, s: State, r: Request, cookie: string, correct: bool, id: string)
    requires id in ChangeBy(c, s, r, cookie, correct).sessions && id !in s.sessions
    ensures correct
    ensures Resolve(c, s, cookie, r.now, r.evicts).1 == Some(ChangeBy(c, s, r, cookie, correct).sessions[id].user)
    ensures ChangeBy(c, s, r, cookie, correct).sessions[id].expires == r.now + c.lifetime
  {
  }

  lemma CookieShrinks(c: Config, s: State, r: Request, cookie: string, id: string)
    ensures id in Resolve(c, s, cookie, r.now, r.evicts).0.sessions ==> id in s.sessions
    ensures id in RotateKeyBy(c, s, r, cookie).sessions ==> id in s.sessions
    ensures id in DeleteBy(c, s, r, cookie).sessions ==> id in s.sessions
  {
  }

  lemma CookieKeepsUsers(c: Config, s: State, r: Request, cookie: string, correct: bool)
    ensures Resolve(c, s, cookie, r.now, r.evicts).0.users == s.users
    ensures ChangeBy(c, s, r, cookie, correct).users == s.users
    ensures RotateKeyBy(c, s, r, cookie).users == s.users
    ensures End(c, s, cookie).users == s.users
  {
  }

  lemma DeleteLeavesUsers(c: Config, s: State, r: Request, cookie: string, user: string)
    requires user in DeleteBy(c, s, r, cookie).users
    ensures user in s.users && DeleteBy(c, s, r, cookie).users[user] == s.users[user]
  {
    CookieKeepsUsers(c, s, r, cookie, false);
  }

  lemma CookieVerifiesNobody(c: Config, s: State, r: Request, user: string)
    requires ByCookie(r.action) && user in Act(c, s, r).users
    ensures user in s.users && Act(c, s, r).users[user] == s.users[user]
  {
    match r.action
    case ChangePassword(cookie, correct) => CookieKeepsUsers(c, s, r, cookie, correct);
    case Logout(cookie) => CookieKeepsUsers(c, s, r, cookie, false);
    case View(cookie) => CookieKeepsUsers(c, s, r, cookie, false);
    case RotateKey(cookie) => CookieKeepsUsers(c, s, r, cookie, false);
    case DeleteAccount(cookie) => DeleteLeavesUsers(c, s, r, cookie, user);
  }

  lemma LogInVerifiesNobody(c: Config, s: State, r: Request, user: string, correct: bool, a: string)
    requires a in s.users
    ensures a in LogIn(c, s, r, user, correct).users
    ensures LogIn(c, s, r, user, correct).users[a].verified == s.users[a].verified
  {
  }

  lemma RowVerifies(c: Config, s: State, r: Request, user: string, a: string)
    requires a in s.users
    ensures a in ConfirmRow(c, s, r, user).users && a in ResetRow(c, s, r, user).users
    ensures ConfirmRow(c, s, r, user).users[a].verified <==>
            s.users[a].verified || (a == user && Live(s.users[a].verification, r.now))
    ensures ResetRow(c, s, r, user).users[a].verified <==>
            s.users[a].verified || (a == user && Live(s.users[a].reset, r.now))
  {
  }

  lemma AccountVerifies(c: Config, s: State, r: Request, a: string)
    requires !ByCookie(r.action) && a in s.users && a in Act(c, s, r).users
    ensures Act(c, s, r).users[a].verified <==>
            s.users[a].verified || ((r.action.Confirm? || r.action.ResetPassword?) && Entitled(c, s, r, a))
  {
    match r.action
    case Login(user, correct) => LogInVerifiesNobody(c, s, r, user, correct, a);
    case Confirm(_, row) => RowVerifies(c, s, r, row.GetOr(""), a);
    case ResetPassword(_, row) => RowVerifies(c, s, r, row.GetOr(""), a);
    case SignUp(_) =>
    case Resend(_) =>
    case Forgot(_) =>
    case DeleteUser(_) =>
  }

  /** An account becomes verified by a live verification or reset link of its own, and stays so. */
  lemma VerifiedByLinkOnly(c: Config, s: State, r: Request, user: string)
    requires user in s.users && user in Step(c, s, r).users
    ensures Step(c, s, r).users[user].verified <==>
            s.users[user].verified || ((r.action.Confirm? || r.action.ResetPassword?) && Entitled(c, s, r, user))
  {
    if ByCookie(r.action) {
      CookieVerifiesNobody(c, s, r, user);
    } else {
      AccountVerifies(c, s, r, user);
    }
  }

  // ---------------------------------------------------------------- tokens are spent once

  ghost predicate NobodyHolds(s: State, column: User -> Option<Token>, token: string) {
    token in s.minted && forall user :: !Selects(s, user, column, token)
  }

  /** A token column after a request: as before, empty, or the fresh token. */
  predicate Flows(before: Option<Token>, after: Option<Token>, freshId: string) {
    after == before || after.None? || after.value.value == freshId
  }

  /** A request writes the row of at most one user. */
  ghost predicate OneRowChanges(s: State, t: State, user: string, freshId: string) {
    && (forall a :: a in t.users && a != user ==> a in s.users && t.users[a] == s.users[a])
    && (user in t.users ==>
          Flows(if user in s.users then s.users[user].verification else None, t.users[user].verification, freshId) &&
          Flows(if user in s.users then s.users[user].reset else None, t.users[user].reset, freshId))
  }

  lemma StepChangesOneRow(c: Config, s: State, r: Request) returns (user: string)
    ensures OneRowChanges(s, Step(c, s, r), user, r.freshId)
  {
    match r.action
    case SignUp(u) => user := u;
    case Login(u, _) => user := u;
    case Resend(u) => user := u;
    case Forgot(u) => user := u;
    case Confirm(_, row) => user := row.GetOr("");
    case ResetPassword(_, row) => user := row.GetOr("");
    case _ => user := "";
  }

  lemma OneRowKeepsSpent(s: State, t: State, user: string, freshId: string, token: string)
    requires OneRowChanges(s, t, user, freshId) && freshId !in s.minted && s.minted <= t.minted
    ensures NobodyHolds(s, VerificationOf, token) ==> NobodyHolds(t, VerificationOf, token)
    ensures NobodyHolds(s, ResetOf, token) ==> NobodyHolds(t, ResetOf, token)
  {
    forall a | token in s.minted
      ensures Selects(t, a, VerificationOf, token) ==> Selects(s, a, VerificationOf, token)
      ensures Selects(t, a, ResetOf, token) ==> Selects(s, a, ResetOf, token)
    {
    }
  }

  lemma StepKeepsSpent(c: Config, s: State, r: Request, token: string)
    requires r.freshId !in s.minted
    ensures NobodyHolds(s, VerificationOf, token) ==> NobodyHolds(Step(c, s, r), VerificationOf, token)
    ensures NobodyHolds(s, ResetOf, token) ==> NobodyHolds(Step(c, s, r), ResetOf, token)
  {
    var user := StepChangesOneRow(c, s, r);
    OneRowKeepsSpent(s, Step(c, s, r), user, r.freshId, token);
  }

  lemma {:induction false} SpentForever(c: Config, s: State, rs: seq<Request>, token: string)
    requires Runs(c, s, rs)
    ensures NobodyHolds(s, VerificationOf, token) ==> NobodyHolds(After(c, s, rs), VerificationOf, token)
    ensures NobodyHolds(s, ResetOf, token) ==> NobodyHolds(After(c, s, rs), ResetOf, token)
    decreases |rs|
  {
    if rs == [] {
    } else {
      StepKeepsSpent(c, s, rs[0], token);
      SpentForever(c, Step(c, s, rs[0]), rs[1..], token);
    }
  }

  /** Different users never hold the same token. */
  ghost predicate TokensApart(s: State) {
    && (forall a, b, t :: Selects(s, a, VerificationOf, t) && Selects(s, b, VerificationOf, t) ==> a == b)
    && (forall a, b, t :: Selects(s, a, ResetOf, t) && Selects(s, b, ResetOf, t) ==> a == b)
  }

  lemma {:induction false} TokensStayApart(c: Config, s: State, rs: seq<Request>)
    requires Sound(s) && TokensApart(s) && Runs(c, s, rs)
    ensures TokensApart(After(c, s, rs))
    decreases |rs|
  {
    if rs == [] {
    } else {
      StepKeepsSound(c, s, rs[0]);
      StepKeepsApart(c, s, rs[0]);
      TokensStayApart(c, Step(c, s, rs[0]), rs[1..]);
    }
  }

  lemma StepKeepsApart(c: Config, s: State, r: Request)
    requires Sound(s) && TokensApart(s) && r.freshId !in s.minted
    ensures TokensApart(Step(c, s, r))
  {
    var user := StepChangesOneRow(c, s, r);
    OneRowKeepsApart(s, Step(c, s, r), user, r.freshId);
  }

  lemma OneRowKeepsApart(s: State, t: State, user: string, freshId: string)
    requires AllMinted(s) && TokensApart(s) && freshId !in s.minted
    requires OneRowChanges(s, t, user, freshId)
    ensures TokensApart(t)
  {
    forall a, token | token != freshId
      ensures Selects(t, a, VerificationOf, token) ==> Selects(s, a, VerificationOf, token)
      ensures Selects(t, a, ResetOf, token) ==> Selects(s, a, ResetOf, token)
    {
    }
    forall a | a != user
      ensures !Selects(t, a, VerificationOf, freshId) && !Selects(t, a, ResetOf, freshId)
    {
    }
  }

  /** A verification or reset link works once: after it has, no later request can select a row by it. */
  lemma LinksWorkOnce(c: Config, s: State, r: Request, rs: seq<Request>)
    requires Sound(s) && TokensApart(s) && Enabled(s, r) && Runs(c, Step(c, s, r), rs)
    ensures r.action.Confirm? && r.action.row.Some? && Live(s.users[r.action.row.value].verification, r.now) ==>
            NobodyHolds(After(c, Step(c, s, r), rs), VerificationOf, r.action.token)
    ensures r.action.ResetPassword? && r.action.row.Some? && Live(s.users[r.action.row.value].reset, r.now) ==>
            NobodyHolds(After(c, Step(c, s, r), rs), ResetOf, r.action.token)
  {
    if (r.action.Confirm? || r.action.ResetPassword?) && r.action.row.Some? {
      var t := Step(c, s, r);
      var token := r.action.token;
      assert forall user :: user != r.action.row.value ==>
        (Selects(t, user, VerificationOf, token) ==> Selects(s, user, VerificationOf, token));
      assert forall user :: user != r.action.row.value ==>
        (Selects(t, user, ResetOf, token) ==> Selects(s, user, ResetOf, token));
      SpentForever(c, t, rs, token);
    }
  }

  // ---------------------------------------------------------------- eviction is invisible

  /** The same users and the same sessions, but for rows that have expired by `now`. */
  predicate SameButStale(s: State, t: State, now: int) {
    && s.users == t.users && s.minted == t.minted
    && (forall id :: id in s.sessions && s.sessions[id].expires >= now ==>
          id in t.sessions && t.sessions[id] == s.sessions[id])
    && (forall id :: id in t.sessions && t.sessions[id].expires >= now ==>
          id in s.sessions && s.sessions[id] == t.sessions[id])
  }

  lemma ResolveAgrees(c: Config, s: State, t: State, cookie: string, now: int, e: bool, f: bool)
    requires SameButStale(s, t, now)
    ensures Resolve(c, s, cookie, now, e).1 == Resolve(c, t, cookie, now, f).1
    ensures SameButStale(Resolve(c, s, cookie, now, e).0, Resolve(c, t, cookie, now, f).0, now)
  {
  }

  lemma RotateAgrees(c: Config, s: State, t: State, user: string, id: string, now: int)
    requires SameButStale(s, t, now)
    ensures SameButStale(Rotate(c, s, user, id, now), Rotate(c, t, user, id, now), now)
  {
  }

  lemma EndAgrees(c: Config, s: State, t: State, cookie: string, now: int)
    requires SameButStale(s, t, now)
    ensures SameButStale(End(c, s, cookie), End(c, t, cookie), now)
  {
  }

  lemma EraseAgrees(s: State, t: State, user: string, now: int)
    requires SameButStale(s, t, now)
    ensures SameButStale(Erase(s, user), Erase(t, user), now)
  {
  }

  lemma RotateKeyAgrees(c: Config, s: State, t: State, r: Request, q: Request, cookie: string)
    requires SameButStale(s, t, r.now) && q == r.(evicts := q.evicts)
    ensures SameButStale(RotateKeyBy(c, s, r, cookie), RotateKeyBy(c, t, q, cookie), r.now)
  {
    ResolveAgrees(c, s, t, cookie, r.now, r.evicts, q.evicts);
    EndAgrees(c, Resolve(c, s, cookie, r.now, r.evicts).0, Resolve(c, t, cookie, r.now, q.evicts).0, cookie, r.now);
  }

  lemma DeleteAgrees(c: Config, s: State, t: State, r: Request, q: Request, cookie: string)
    requires SameButStale(s, t, r.now) && q == r.(evicts := q.evicts)
    ensures SameButStale(DeleteBy(c, s, r, cookie), DeleteBy(c, t, q, cookie), r.now)
  {
    ResolveAgrees(c, s, t, cookie, r.now, r.evicts, q.evicts);
    var (s', user) := Resolve(c, s, cookie, r.now, r.evicts);
    var t' := Resolve(c, t, cookie, r.now, q.evicts).0;
    if user.Some? {
      EraseAgrees(s', t', user.value, r.now);
      EndAgrees(c, Erase(s', user.value), Erase(t', user.value), cookie, r.now);
    }
  }

  lemma ChangeAgrees(c: Config, s: State, t: State, r: Request, q: Request, cookie: string, correct: bool)
    requires SameButStale(s, t, r.now) && q == r.(evicts := q.evicts)
    ensures SameButStale(ChangeBy(c, s, r, cookie, correct), ChangeBy(c, t, q, cookie, correct), r.now)
  {
    ResolveAgrees(c, s, t, cookie, r.now, r.evicts, q.evicts);
    var (s', user) := Resolve(c, s, cookie, r.now, r.evicts);
    var t' := Resolve(c, t, cookie, r.now, q.evicts).0;
    if user.Some? {
      RotateAgrees(c, s', t', user.value, r.freshId, r.now);
    }
  }

  lemma AccountActAgrees(c: Config, s: State, t: State, r: Request)
    requires SameButStale(s, t, r.now)
    requires r.action.SignUp? || r.action.Resend? || r.action.Forgot?
    ensures SameButStale(Act(c, s, r), Act(c, t, r), r.now)
  {
  }

  lemma LogInAgrees(c: Config, s: State, t: State, r: Request, user: string, correct: bool)
    requires SameButStale(s, t, r.now)
    ensures SameButStale(LogIn(c, s, r, user, correct), LogIn(c, t, r, user, correct), r.now)
  {
    RotateAgrees(c, s, t, user, r.freshId, r.now);
  }

  lemma ResetAgrees(c: Config, s: State, t: State, r: Request, user: string)
    requires SameButStale(s, t, r.now)
    ensures SameButStale(ResetRow(c, s, r, user), ResetRow(c, t, r, user), r.now)
  {
    var u := User(true, true, None, None);
    RotateAgrees(c, WithUser(s, user, u), WithUser(t, user, u), user, r.freshId, r.now);
  }

  lemma ConfirmAgrees(c: Config, s: State, t: State, r: Request, user: string)
    requires SameButStale(s, t, r.now)
    ensures SameButStale(ConfirmRow(c, s, r, user), ConfirmRow(c, t, r, user), r.now)
  {
  }

  lemma AccountsAgree(c: Config, s: State, t: State, r: Request, q: Request)
    requires SameButStale(s, t, r.now) && q == r.(evicts := q.evicts) && !ByCookie(r.action)
    ensures SameButStale(Act(c, s, r), Act(c, t, q), r.now)
  {
    match r.action
    case Login(user, correct) =>
      assert LogIn(c, t, q, user, correct) == LogIn(c, t, r, user, correct);
      LogInAgrees(c, s, t, r, user, correct);
    case Confirm(_, row) =>
      if row.Some? {
        assert ConfirmRow(c, t, q, row.value) == ConfirmRow(c, t, r, row.value);
        ConfirmAgrees(c, s, t, r, row.value);
      }
    case ResetPassword(_, row) =>
      if row.Some? {
        assert ResetRow(c, t, q, row.value) == ResetRow(c, t, r, row.value);
        ResetAgrees(c, s, t, r, row.value);
      }
    case DeleteUser(user) => EraseAgrees(s, t, user, r.now);
    case SignUp(_) =>
      assert Act(c, t, q) == Act(c, t, r);
      AccountActAgrees(c, s, t, r);
    case Resend(_) =>
      assert Act(c, t, q) == Act(c, t, r);
      AccountActAgrees(c, s, t, r);
    case Forgot(_) =>
      assert Act(c, t, q) == Act(c, t, r);
      AccountActAgrees(c, s, t, r);
  }

  lemma ChangeActAgrees(c: Config, s: State, t: State, r: Request, q: Request)
    requires SameButStale(s, t, r.now) && q == r.(evicts := q.evicts) && r.action.ChangePassword?
    ensures SameButStale(Act(c, s, r), Act(c, t, q), r.now)
  {
    ChangeAgrees(c, s, t, r, q, r.action.cookie, r.action.correct);
  }

  lemma LogoutActAgrees(c: Config, s: State, t: State, r: Request, q: Request)
    requires SameButStale(s, t, r.now) && q == r.(evicts := q.evicts) && r.action.Logout?
    ensures SameButStale(Act(c, s, r), Act(c, t, q), r.now)
  {
    EndAgrees(c, s, t, r.action.cookie, r.now);
  }

  lemma ViewActAgrees(c: Config, s: State, t: State, r: Request, q: Request)
    requires SameButStale(s, t, r.now) && q == r.(evicts := q.evicts) && r.action.View?
    ensures SameButStale(Act(c, s, r), Act(c, t, q), r.now)
  {
    ResolveAgrees(c, s, t, r.action.cookie, r.now, r.evicts, q.evicts);
  }

  lemma RotateKeyActAgrees(c: Config, s: State, t: State, r: Request, q: Request)
    requires SameButStale(s, t, r.now) && q == r.(evicts := q.evicts) && r.action.RotateKey?
    ensures SameButStale(Act(c, s, r), Act(c, t, q), r.now)
  {
    RotateKeyAgrees(c, s, t, r, q, r.action.cookie);
  }

  lemma DeleteActAgrees(c: Config, s: State, t: State, r: Request, q: Request)
    requires SameButStale(s, t, r.now) && q == r.(evicts := q.evicts) && r.action.DeleteAccount?
    ensures SameButStale(Act(c, s, r), Act(c, t, q), r.now)
  {
    DeleteAgrees(c, s, t, r, q, r.action.cookie);
  }

  lemma CookiesAgree(c: Config, s: State, t: State, r: Request, q: Request)
    requires SameButStale(s, t, r.now) && q == r.(evicts := q.evicts) && ByCookie(r.action)
    ensures SameButStale(Act(c, s, r), Act(c, t, q), r.now)
  {
    match r.action
    case ChangePassword(_, _) => ChangeActAgrees(c, s, t, r, q);
    case Logout(_) => LogoutActAgrees(c, s, t, r, q);
    case View(_) => ViewActAgrees(c, s, t, r, q);
    case RotateKey(_) => RotateKeyActAgrees(c, s, t, r, q);
    case DeleteAccount(_) => DeleteActAgrees(c, s, t, r, q);
  }

  lemma CallersAgree(c: Config, s: State, t: State, r: Request, q: Request)
    requires SameButStale(s, t, r.now) && q == r.(evicts := q.evicts)
    ensures Caller(c, s, r) == Caller(c, t, q)
  {
    if ByCookie(r.action) {
      ResolveAgrees(c, s, t, r.action.cookie, r.now, r.evicts, q.evicts);
    }
  }

  lemma StepAgrees(c: Config, s: State, t: State, r: Request, q: Request)
    requires SameButStale(s, t, r.now) && q == r.(evicts := q.evicts)
    ensures Caller(c, s, r) == Caller(c, t, q)
    ensures SameButStale(Step(c, s, r), Step(c, t, q), r.now)
  {
    CallersAgree(c, s, t, r, q);
    if ByCookie(r.action) {
      CookiesAgree(c, s, t, r, q);
    } else {
      AccountsAgree(c, s, t, r, q);
    }
    MintAgrees(Act(c, s, r), Act(c, t, q), r.freshId, r.now);
  }

  lemma MintAgrees(s: State, t: State, id: string, now: int)
    requires SameButStale(s, t, now)
    ensures SameButStale(s.(minted := s.minted + {id}), t.(minted := t.minted + {id}), now)
  {
  }

  predicate Forward(now: int, rs: seq<Request>)
    decreases |rs|
  {
    rs == [] || (now <= rs[0].now && Forward(rs[0].now, rs[1..]))
  }

  /** The same requests, but for which stale rows get deleted. */
  predicate SameRequests(rs: seq<Request>, qs: seq<Request>) {
    |rs| == |qs| && forall i :: 0 <= i < |rs| ==> qs[i] == rs[i].(evicts := qs[i].evicts)
  }

  /** The caller every request of a run is taken to be from. */
  function Callers(c: Config, s: State, rs: seq<Request>): seq<Option<string>>
    decreases |rs|
  {
    if rs == [] then [] else [Caller(c, s, rs[0])] + Callers(c, Step(c, s, rs[0]), rs[1..])
  }

  /** Evicting stale rows, or failing to, never changes who any later request is from: on a clock that
      does not go back, the pruned table answers as one that never evicts. */
  lemma {:induction false} EvictionIsInvisible(c: Config, s: State, t: State, now: int, rs: seq<Request>,
                                               qs: seq<Request>)
    requires SameButStale(s, t, now) && Forward(now, rs) && SameRequests(rs, qs)
    ensures Callers(c, s, rs) == Callers(c, t, qs)
    ensures After(c, s, rs).users == After(c, t, qs).users
    decreases |rs|
  {
    if rs == [] {
    } else {
      StepAgrees(c, s, t, rs[0], qs[0]);
      EvictionIsInvisible(c, Step(c, s, rs[0]), Step(c, t, qs[0]), rs[0].now, rs[1..], qs[1..]);
    }
  }

  // ---------------------------------------------------------------- the table, updated in place

  /** The users and sessions tables. `minted` is the history the random source must not repeat. */
  class Accounts {
    var users: map<string, User>
    var sessions: map<string, Session>
    ghost var minted: set<string>

    ghost function Contents(): State
      reads this
    {
      State(users, sessions, minted)
    }

    constructor ()
      ensures Contents() == State(map[], map[], {}) && Sound(Contents())
    {
      users, sessions, minted := map[], map[], {};
    }

    /** `create_session` with the id the random source gave. */
    method CreateSession(c: Config, user: string, id: string, now: int)
      modifies this`sessions
      ensures sessions == old(sessions)[id := Session(user, now + c.lifetime)]
      ensures forall t, e :: Lookup(sessions, id, t, e).1 == if t <= now + c.lifetime then Some(user) else None
      ensures forall k, t, e :: k != id ==> Lookup(sessions, k, t, e).1 == Lookup(old(sessions), k, t, e).1
    {
      sessions := sessions[id := Session(user, now + c.lifetime)];
    }

    method DeleteSession(id: string)
      modifies this`sessions
      ensures sessions == old(sessions) - {id}
      ensures forall t, e :: Lookup(sessions, id, t, e).1 == None
      ensures forall k, t, e :: k != id ==> Lookup(sessions, k, t, e).1 == Lookup(old(sessions), k, t, e).1
    {
      sessions := sessions - {id};
    }

    method DeleteSessionsForUser(user: string)
      modifies this`sessions
      ensures sessions == WithoutUser(old(sessions), user)
      ensures forall k, t, e :: Lookup(sessions, k, t, e).1 != Some(user)
      ensures forall k, t, e :: Lookup(old(sessions), k, t, e).1 != Some(user) ==>
        Lookup(sessions, k, t, e).1 == Lookup(old(sessions), k, t, e).1
    {
      sessions := WithoutUser(sessions, user);
    }

    /** `lookup_session_user_id` */
    method LookUpSession(id: string, now: int, evicts: bool) returns (user: Option<string>)
      modifies this`sessions
      ensures (sessions, user) == Lookup(old(sessions), id, now, evicts)
    {
      if id !in sessions {
        return None;
      }
      var row := sessions[id];
      if row.expires < now {
        if evicts {
          DeleteSession(id);
        }
        return None;
      }
      return Some(row.user);
    }

    /** `_get_ui_user` */
    method UiUser(c: Config, cookie: string, now: int, evicts: bool) returns (user: Option<string>)
      modifies this`sessions
      ensures (Contents(), user) == Resolve(c, old(Contents()), cookie, now, evicts)
    {
      var id := Unsign(c, cookie);
      if id.None? || id.value == "" {
        return None;
      }
      user := LookUpSession(id.value, now, evicts);
      if user.Some? && user.value !in users {
        user := None;
      }
    }

    /** `_end_session` */
    method EndSession(c: Config, cookie: string)
      modifies this`sessions
      ensures Contents() == End(c, old(Contents()), cookie)
    {
      var id := Unsign(c, cookie);
      if id.Some? && id.value != "" {
        DeleteSession(id.value);
      }
    }

    /** `_rotate_session`: all that is left of the user is the new row. */
    method RotateSession(c: Config, user: string, id: string, now: int)
      modifies this`sessions
      ensures Contents() == Rotate(c, old(Contents()), user, id, now)
      ensures forall k :: k in sessions && sessions[k].user == user ==> k == id
    {
      DeleteSessionsForUser(user);
      CreateSession(c, user, id, now);
    }

    /** `login_submit` for the account its email selects. */
    method LoginSubmit(c: Config, r: Request, user: string, correct: bool) returns (redirected: bool)
      modifies this`users, this`sessions
      ensures Contents() == LogIn(c, old(Contents()), r, user, correct)
      ensures redirected <==> Rotated(c, old(Contents()), r.(action := Login(user, correct))).Some?
    {
      redirected := false;
      if user !in users {
        return;
      }
      var row := users[user];
      if !row.hasPassword {
        users := users[user := row.(reset := Some(Token(r.freshId, r.now + RESET_TTL)))];
        return;
      }
      if !correct {
        return;
      }
      if !row.verified {
        users := users[user := row.(verification := Some(Token(r.freshId, r.now + VERIFICATION_TTL)))];
        return;
      }
      RotateSession(c, user, r.freshId, r.now);
      redirected := true;
    }

    /** `verify_email`: the row its token selected, if any. */
    method VerifyEmail(c: Config, r: Request, token: string) returns (row: Option<string>)
      modifies this`users, this`sessions
      ensures RowFor(old(Contents()), VerificationOf, token, row)
      ensures Contents() == Act(c, old(Contents()), r.(action := Confirm(token, row)))
    {
      row := SelectUser(VerificationOf, token);
      if row.None? {
        return;
      }
      var user := users[row.value];
      if user.verification.value.expires < r.now {
        return;
      }
      users := users[row.value := user.(verified := true, verification := None)];
      CreateSession(c, row.value, r.freshId, r.now);
    }

    /** `reset_password_submit`: the row its token selected, if any. */
    method ResetPasswordSubmit(c: Config, r: Request, token: string) returns (row: Option<string>)
      modifies this`users, this`sessions
      ensures RowFor(old(Contents()), ResetOf, token, row)
      ensures Contents() == Act(c, old(Contents()), r.(action := ResetPassword(token, row)))
    {
      row := SelectUser(ResetOf, token);
      if row.None? || users[row.value].reset.value.expires < r.now {
        return;
      }
      users := users[row.value := User(true, true, None, None)];
      RotateSession(c, row.value, r.freshId, r.now);
    }

    /** `change_password` */
    method ChangePasswordSubmit(c: Config, r: Request, cookie: string, correct: bool)
      modifies this`sessions
      ensures Contents() == ChangeBy(c, old(Contents()), r, cookie, correct)
    {
      var user := UiUser(c, cookie, r.now, r.evicts);
      if user.Some? && users[user.value].hasPassword && correct {
        RotateSession(c, user.value, r.freshId, r.now);
      }
    }

    /** SELECT ... WHERE the token column equals `token`. */
    method SelectUser(column: User -> Option<Token>, token: string) returns (row: Option<string>)
      ensures RowFor(Contents(), column, token, row)
    {
      var todo := users.Keys;
      while todo != {}
        invariant todo <= users.Keys
        invariant forall user :: user in users.Keys - todo ==> !Selects(Contents(), user, column, token)
      {
        var user :| user in todo;
        var held := column(users[user]);
        if held.Some? && held.value.value == token {
          return Some(user);
        }
        todo := todo - {user};
      }
      return None;
    }
  }
}
