/** What each account operation is answered and what it changes, said of the columns it reads. */
module AccountAnswers {
  import opened Wrappers
  import opened Accounts

  // ---------------------------------------------------------------- logging in

  /** A login succeeds exactly if the account exists and has a password, is not locked when that is checked, the
      password is right, the account is not disabled, its organisation is active and its role is known. Every refusal
      has its own condition, the first that applies; only a wrong password and a right one are written down. */
  lemma LoginExactly(env: Env, s: State, id: nat, password: string, checkAt: int, writeAt: int)
    ensures var (t, outcome) := Apply(env, s, Login(id, password, checkAt, writeAt));
      if id !in s.users || s.users[id].passwordHash == None then outcome == InvalidCredentials && t == s
      else
        var u := s.users[id];
        if u.lockedUntil != None && u.lockedUntil.value > checkAt then outcome == AccountLocked && t == s
        else if !env.verify(u.passwordHash.value, password) then
          && outcome == InvalidCredentials
          && t == s.(users := s.users[id := u.(failed := u.failed + 1,
               lockedUntil := if u.failed >= 4 then Some(writeAt + 900_000) else None)])
        else if u.disabled then outcome == UserDisabled && t == s
        else if u.orgId !in s.activeOrgs then outcome == OrgInactive && t == s
        else
          && outcome == (if u.role == None then InvalidRole else LoggedIn)
          && t == s.(users := s.users[id := u.(failed := 0, lockedUntil := None)])
  {
    SetSame(s, id);
  }

  lemma SetSame(s: State, id: nat)
    ensures id in s.users ==> SetUser(s, id, s.users[id]) == s
  {
    if id in s.users { assert s.users[id := s.users[id]] == s.users; }
  }

  /** The account is enabled again: by an administrator, or by its user's password change or consent. */
  predicate Enables(env: Env, s: State, op: Op, id: nat) {
    || op == ChangeStatus(id, false) || op == AcceptConsent(id)
    || (op.ChangePassword? && op.id == id && Apply(env, s, op).1 in {PasswordChanged, InvalidRole})
  }

  ghost predicate NoneEnables(env: Env, s: State, ops: seq<Op>, id: nat)
    decreases |ops|
  {
    ops != [] ==> !Enables(env, s, ops[0], id) && NoneEnables(env, Apply(env, s, ops[0]).0, ops[1..], id)
  }

  lemma StaysDisabled(env: Env, s: State, op: Op, id: nat)
    requires id in s.users && s.users[id].disabled && !Enables(env, s, op, id)
    ensures id in Apply(env, s, op).0.users && Apply(env, s, op).0.users[id].disabled
  {
  }

  /** A disabled user does not log in, and so through every run until somebody enables the account. */
  lemma {:induction false} DisabledStaysOut(env: Env, s: State, ops: seq<Op>, id: nat, password: string, checkAt: int,
                                            writeAt: int)
    requires id in s.users && s.users[id].disabled && NoneEnables(env, s, ops, id)
    ensures var t := RunFrom(env, s, ops);
      && id in t.users && t.users[id].disabled
      && Apply(env, t, Login(id, password, checkAt, writeAt)).1 in {InvalidCredentials, AccountLocked, UserDisabled}
    decreases |ops|
  {
    if ops == [] {
      LoginExactly(env, s, id, password, checkAt, writeAt);
    } else {
      hide Apply, Enables;
      StaysDisabled(env, s, ops[0], id);
      DisabledStaysOut(env, Apply(env, s, ops[0]).0, ops[1..], id, password, checkAt, writeAt);
    }
  }

  // ---------------------------------------------------------------- new passwords

  /** A password change needs the old password and an active organisation; it enables the account, ends its sessions and
      leaves the lock alone. An unknown role is reported after that. */
  lemma ChangeExactly(env: Env, s: State, id: nat, current: string, newHash: string)
    ensures var (t, outcome) := Apply(env, s, ChangePassword(id, current, newHash));
      if id !in s.users || s.users[id].passwordHash == None then outcome == Unauthenticated && t == s
      else
        var u := s.users[id];
        if !env.verify(u.passwordHash.value, current) then outcome == InvalidCurrentPassword && t == s
        else if u.orgId !in s.activeOrgs then outcome == OrgInactive && t == s
        else
          && outcome == (if u.role == None then InvalidRole else PasswordChanged)
          && t == s.(users := s.users[id := User(u.orgId, Some(newHash), u.failed, u.lockedUntil, u.sessionVersion + 1,
               false, u.role)])
  {
    SetSame(s, id);
  }

  /** A reset needs a stored, unconsumed and unexpired token of an account; it consumes that one token. */
  lemma ResetExactly(env: Env, s: State, raw: string, newHash: string, now: int)
    ensures var (t, outcome) := Apply(env, s, ResetPassword(raw, newHash, now));
      var h := env.digest(raw);
      if h !in s.tokens || s.tokens[h].consumedAt != None || s.tokens[h].expiresAt < now
         || s.tokens[h].userId !in s.users then
        outcome == InvalidResetToken && t == s
      else
        var id := s.tokens[h].userId;
        var u := s.users[id];
        && outcome == PasswordReset && t.activeOrgs == s.activeOrgs && t.issued == s.issued
        && t.users == s.users[id := User(u.orgId, Some(newHash), u.failed, u.lockedUntil, u.sessionVersion + 1,
             u.disabled, u.role)]
        && t.tokens == s.tokens[h := ResetToken(id, s.tokens[h].expiresAt, Some(now))]
  {
  }

  /** Asking for a reset: an account with a password in an active organisation gets one new token for half an hour, and
      its other tokens are consumed; every other request changes nothing and gets the same reply. */
  lemma ForgotExactly(env: Env, s: State, id: nat, raw: string, now: int)
    ensures var (t, outcome) := Apply(env, s, ForgotPassword(id, raw, now));
      var h := env.digest(raw);
      if id !in s.users || s.users[id].passwordHash == None || s.users[id].orgId !in s.activeOrgs then
        outcome == GenericReply && t == s
      else if h in s.tokens then outcome == TokenCollision && t == s
      else
        && outcome == GenericReply && t.users == s.users && t.activeOrgs == s.activeOrgs
        && t.tokens.Keys == s.tokens.Keys + {h} && t.tokens[h] == ResetToken(id, now + 1_800_000, None)
        && forall g | g in s.tokens :: t.tokens[g]
             == if s.tokens[g].userId == id && s.tokens[g].consumedAt == None
                then ResetToken(id, s.tokens[g].expiresAt, Some(now)) else s.tokens[g]
  {
  }

  /** The operation leaves a user's newest token as it is: it is not a further request of the user, and not a reset with
      the token itself. */
  predicate LeavesToken(env: Env, s: State, op: Op, id: nat, h: string) {
    && !(op.ForgotPassword? && op.id == id)
    && !(op.ResetPassword? && env.digest(op.raw) == h)
  }

  ghost predicate AllLeave(env: Env, s: State, ops: seq<Op>, id: nat, h: string)
    decreases |ops|
  {
    ops != [] ==> LeavesToken(env, s, ops[0], id, h) && AllLeave(env, Apply(env, s, ops[0]).0, ops[1..], id, h)
  }

  lemma TokenLeft(env: Env, s: State, op: Op, id: nat, h: string)
    requires id in s.users && h in s.tokens && s.tokens[h].userId == id && LeavesToken(env, s, op, id, h)
    ensures var t := Apply(env, s, op).0; id in t.users && h in t.tokens && t.tokens[h] == s.tokens[h]
  {
  }

  lemma {:induction false} TokensLeft(env: Env, s: State, ops: seq<Op>, id: nat, h: string)
    requires id in s.users && h in s.tokens && s.tokens[h].userId == id && AllLeave(env, s, ops, id, h)
    ensures var t := RunFrom(env, s, ops); id in t.users && h in t.tokens && t.tokens[h] == s.tokens[h]
    decreases |ops|
  {
    if ops != [] {
      hide Apply, LeavesToken;
      TokenLeft(env, s, ops[0], id, h);
      TokensLeft(env, Apply(env, s, ops[0]).0, ops[1..], id, h);
    }
  }

  /** A token that was sent works until its half hour is over, whatever happens meanwhile, unless its user asks again or
      it is used. */
  lemma FreshTokenWorks(env: Env, s: State, id: nat, raw: string, asked: int, ops: seq<Op>, newHash: string, now: int)
    requires id in s.users && s.users[id].passwordHash != None && s.users[id].orgId in s.activeOrgs
    requires env.digest(raw) !in s.tokens
    requires AllLeave(env, Apply(env, s, ForgotPassword(id, raw, asked)).0, ops, id, env.digest(raw))
    ensures var t := RunFrom(env, Apply(env, s, ForgotPassword(id, raw, asked)).0, ops);
      var (u, outcome) := Apply(env, t, ResetPassword(raw, newHash, now));
      && (outcome == PasswordReset <==> now <= asked + 1_800_000)
      && (outcome == PasswordReset ==> id in u.users && u.users[id].passwordHash == Some(newHash))
  {
    var s1 := Apply(env, s, ForgotPassword(id, raw, asked)).0;
    ForgotExactly(env, s, id, raw, asked);
    TokensLeft(env, s1, ops, id, env.digest(raw));
    hide RunFrom, Apply;
    ResetExactly(env, RunFrom(env, s1, ops), raw, newHash, now);
  }

  // ---------------------------------------------------------------- the other operations

  /** A new account has no failures, no lock and the first session version, and is enabled. */
  lemma CreatedExactly(env: Env, s: State, id: nat, orgId: nat, hash: Option<string>, role: Option<string>)
    requires id !in s.users
    ensures Apply(env, s, CreateUser(id, orgId, hash, role)).0
         == s.(users := s.users[id := User(orgId, hash, 0, None, 0, false, role)])
  {
  }

  /** What a logout, a consent and the operations of administrators change of a user: these columns and no others. */
  lemma OthersExactly(env: Env, s: State, id: nat, role: Option<string>, disabled: bool, newHash: string)
    requires id in s.users
    ensures var u, v := s.users[id], s.users[id].sessionVersion + 1;
      && Apply(env, s, Logout(id)) == (s.(users := s.users[id := u.(sessionVersion := v)]), Done)
      && Apply(env, s, ChangeRole(id, role))
         == (s.(users := s.users[id := u.(role := role, sessionVersion := v)]), Done)
      && Apply(env, s, ChangeStatus(id, disabled))
         == (s.(users := s.users[id := u.(disabled := disabled, sessionVersion := v)]), Done)
      && Apply(env, s, ReissuePassword(id, newHash))
         == (s.(users := s.users[id := u.(passwordHash := Some(newHash))]), Done)
      && Apply(env, s, AcceptConsent(id)) == (s.(users := s.users[id := u.(disabled := false)]), Done)
  {
  }
}
