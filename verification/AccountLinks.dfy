/** What the requests around an account are for, in the terms of its owner: emailed links that work until they
    expire, logins, and deletion. */
module AccountLinks {
  import opened Tables
  import opened Sessions

  /** Only `user` changed, to `row`. */
  predicate BecomesOnly(s: State, t: State, user: string, row: User) {
    t.users == s.users[user := row]
  }

  /** The sessions of `user` are exactly `id`, from `now` for one lifetime; those of others are as before. */
  predicate SignedInAfresh(c: Config, s: State, t: State, user: string, id: string, now: int) {
    && id in t.sessions && t.sessions[id] == Session(user, now + c.lifetime)
    && (forall k :: k in t.sessions && t.sessions[k].user == user ==> k == id)
    && (forall k :: k != id && k in s.sessions && s.sessions[k].user != user ==>
          k in t.sessions && t.sessions[k] == s.sessions[k])
  }

  predicate NothingElse(s: State, t: State, r: Request) {
    t == s.(minted := s.minted + {r.freshId})
  }

  // ---------------------------------------------------------------- reset links

  /** Asking for a reset gives the account a link for two hours; for an unknown account nothing happens. */
  lemma ForgotGivesLink(c: Config, s: State, r: Request, user: string)
    requires r.action == Forgot(user)
    ensures var t := Step(c, s, r);
            if user in s.users then
              t.sessions == s.sessions &&
              BecomesOnly(s, t, user, s.users[user].(reset := Some(Token(r.freshId, r.now + 7_200_000_000))))
            else NothingElse(s, t, r)
  {
  }

  /** A token selects the row that holds it. */
  lemma OwnerOfReset(s: State, user: string, token: Token, row: Option<string>)
    requires TokensApart(s) && user in s.users && s.users[user].reset == Some(token)
    requires RowFor(s, ResetOf, token.value, row)
    ensures row == Some(user)
  {
    assert Selects(s, user, ResetOf, token.value);
  }

  lemma OwnerOfVerification(s: State, user: string, token: Token, row: Option<string>)
    requires TokensApart(s) && user in s.users && s.users[user].verification == Some(token)
    requires RowFor(s, VerificationOf, token.value, row)
    ensures row == Some(user)
  {
    assert Selects(s, user, VerificationOf, token.value);
  }

  /** The link works exactly until it expires: then the account has a password, is verified, holds no link any
      more, and its owner is signed in afresh. Later it does nothing. */
  lemma ResetLinkWorksIff(c: Config, s: State, r: Request, user: string, token: Token)
    requires TokensApart(s) && Enabled(s, r) && user in s.users && s.users[user].reset == Some(token)
    requires r.action.ResetPassword? && r.action.token == token.value
    ensures var t := Step(c, s, r);
            if r.now <= token.expires then
              && user in t.users && t.users[user].hasPassword && t.users[user].verified
              && t.users[user].verification == None && t.users[user].reset == None
              && BecomesOnly(s, t, user, t.users[user]) && SignedInAfresh(c, s, t, user, r.freshId, r.now)
            else NothingElse(s, t, r)
  {
    OwnerOfReset(s, user, token, r.action.row);
  }

  // ---------------------------------------------------------------- verification links

  /** Signing up makes an unverified account with a password and a link for a day. */
  lemma SignUpGivesLink(c: Config, s: State, r: Request, user: string)
    requires r.action == SignUp(user)
    ensures var t := Step(c, s, r);
            if user in s.users then NothingElse(s, t, r)
            else
              && user in t.users && BecomesOnly(s, t, user, t.users[user]) && t.sessions == s.sessions
              && !t.users[user].verified && t.users[user].hasPassword && t.users[user].reset == None
              && t.users[user].verification == Some(Token(r.freshId, r.now + 86_400_000_000))
  {
  }

  /** Asking again replaces the link, for an account that is not verified yet. */
  lemma ResendGivesLink(c: Config, s: State, r: Request, user: string)
    requires r.action == Resend(user)
    ensures var t := Step(c, s, r);
            if user in s.users && !s.users[user].verified then
              t.sessions == s.sessions &&
              BecomesOnly(s, t, user, s.users[user].(verification := Some(Token(r.freshId, r.now + 86_400_000_000))))
            else NothingElse(s, t, r)
  {
  }

  /** The link works exactly until it expires: then the account is verified, keeps its password and its reset
      link, and gains one session. */
  lemma VerificationLinkWorksIff(c: Config, s: State, r: Request, user: string, token: Token)
    requires TokensApart(s) && Enabled(s, r) && user in s.users && s.users[user].verification == Some(token)
    requires r.action.Confirm? && r.action.token == token.value
    ensures var t := Step(c, s, r);
            if r.now <= token.expires then
              && BecomesOnly(s, t, user, s.users[user].(verified := true, verification := None))
              && t.sessions == s.sessions[r.freshId := Session(user, r.now + c.lifetime)]
            else NothingElse(s, t, r)
  {
    OwnerOfVerification(s, user, token, r.action.row);
  }

  // ---------------------------------------------------------------- logging in, and leaving

  /** Who logs in with the right password is signed in afresh if verified, and sent a new link if not; a wrong
      password or an unknown account changes nothing; an account without a password is sent a reset link. */
  lemma LoginDecides(c: Config, s: State, r: Request, user: string, correct: bool)
    requires r.action == Login(user, correct)
    ensures var t := Step(c, s, r);
            if user !in s.users || (s.users[user].hasPassword && !correct) then NothingElse(s, t, r)
            else if !s.users[user].hasPassword then
              t.sessions == s.sessions &&
              BecomesOnly(s, t, user, s.users[user].(reset := Some(Token(r.freshId, r.now + 7_200_000_000))))
            else if !s.users[user].verified then
              t.sessions == s.sessions &&
              BecomesOnly(s, t, user, s.users[user].(verification := Some(Token(r.freshId, r.now + 86_400_000_000))))
            else t.users == s.users && SignedInAfresh(c, s, t, user, r.freshId, r.now)
  {
  }

  /** A change of password signs its owner in afresh and leaves the account as it is. */
  lemma ChangeDecides(c: Config, s: State, r: Request, user: string)
    requires r.action.ChangePassword? && Caller(c, s, r) == Some(user)
    ensures var t := Step(c, s, r);
            && t.users == s.users
            && if r.action.correct && s.users[user].hasPassword
               then SignedInAfresh(c, s, t, user, r.freshId, r.now) else t.sessions == s.sessions
  {
  }

  /** A deleted account has no row and no session left, and nobody else loses one. */
  ghost predicate Gone(s: State, t: State, user: string) {
    && t.users == s.users - {user}
    && (forall k :: k in t.sessions <==> k in s.sessions && s.sessions[k].user != user)
    && (forall k :: k in t.sessions ==> t.sessions[k] == s.sessions[k])
  }

  lemma DeletionLeavesNothing(c: Config, s: State, r: Request, user: string)
    requires r.action == DeleteUser(user) || (r.action.DeleteAccount? && Caller(c, s, r) == Some(user))
    ensures Gone(s, Step(c, s, r), user)
  {
  }

  /** Logging out, and renewing the API key, end the session of the cookie at hand and no other. */
  lemma EndsOwnSessionOnly(c: Config, s: State, r: Request, k: string)
    requires Dotless(c) && k != ""
    requires r.action.Logout? || (r.action.RotateKey? && Caller(c, s, r).Some?)
    ensures var t := Step(c, s, r);
            && t.users == s.users
            && (k in t.sessions <==> k in s.sessions && r.action.cookie != Sign(c, k))
            && (k in t.sessions ==> t.sessions[k] == s.sessions[k])
  {
    UnsignIff(c, r.action.cookie, k);
  }

  /** Looking at a page changes nothing but, at most, the stale row of the cookie itself. */
  lemma ViewChangesNothing(c: Config, s: State, r: Request, k: string)
    requires r.action.View? && k in s.sessions && r.now <= s.sessions[k].expires
    ensures var t := Step(c, s, r); t.users == s.users && k in t.sessions && t.sessions[k] == s.sessions[k]
  {
  }
}
