/** The account operations as the service performs them on its user and token tables. */
module AuthServices {
  import opened Wrappers
  import opened Accounts

  class AuthService {
    const env: Env
    var users: map<nat, User>
    var activeOrgs: set<nat>
    var tokens: map<string, ResetToken>
    ghost var issued: seq<(nat, string)>

    constructor (env: Env)
      ensures this.env == env && Tables() == INIT
    {
      this.env := env;
      users, activeOrgs, tokens, issued := map[], {}, map[], [];
    }

    ghost function Tables(): State
      reads this
    {
      State(users, activeOrgs, tokens, issued)
    }

    method Login(id: nat, password: string, checkAt: int, writeAt: int) returns (outcome: Outcome)
      modifies this`users
      ensures (Tables(), outcome) == Apply(env, old(Tables()), Op.Login(id, password, checkAt, writeAt))
    {
      if id !in users || users[id].passwordHash == None {
        assert id in users ==> users == users[id := users[id]];
        return InvalidCredentials;
      }
      var found := users[id];
      assert users == users[id := found];
      if found.lockedUntil.Some? && found.lockedUntil.value > checkAt { return AccountLocked; }
      if !env.verify(found.passwordHash.value, password) {
        var attempts := found.failed + 1;
        var lockedUntil := if attempts >= MAX_FAILED then Some(writeAt + LOCK) else None;
        users := users[id := found.(failed := attempts, lockedUntil := lockedUntil)];
        return InvalidCredentials;
      }
      if found.disabled { return UserDisabled; }
      if found.orgId !in activeOrgs { return OrgInactive; }
      users := users[id := found.(failed := 0, lockedUntil := None)];
      return if found.role.Some? then LoggedIn else InvalidRole;
    }

    method Logout(id: nat) returns (outcome: Outcome)
      modifies this`users
      ensures (Tables(), outcome) == Apply(env, old(Tables()), Op.Logout(id))
    {
      if id !in users { return Unauthenticated; }
      users := users[id := users[id].(sessionVersion := users[id].sessionVersion + 1)];
      return Done;
    }

    method ChangePassword(id: nat, current: string, newHash: string) returns (outcome: Outcome)
      modifies this`users
      ensures (Tables(), outcome) == Apply(env, old(Tables()), Op.ChangePassword(id, current, newHash))
    {
      if id !in users { return Unauthenticated; }
      var found := users[id];
      assert users == users[id := found];
      if found.passwordHash == None { return Unauthenticated; }
      if !env.verify(found.passwordHash.value, current) { return InvalidCurrentPassword; }
      if found.orgId !in activeOrgs { return OrgInactive; }
      users := users[id := found.(passwordHash := Some(newHash), disabled := false,
          sessionVersion := found.sessionVersion + 1)];
      return if found.role.Some? then PasswordChanged else InvalidRole;
    }

    method ForgotPassword(id: nat, raw: string, now: int) returns (outcome: Outcome)
      modifies this`tokens, this`issued
      ensures (Tables(), outcome) == Apply(env, old(Tables()), Op.ForgotPassword(id, raw, now))
    {
      if id !in users || users[id].passwordHash == None || users[id].orgId !in activeOrgs { return GenericReply; }
      var tokenHash := env.digest(raw);
      // The token's digest is unique: a second one fails the transaction, which then changes nothing.
      if tokenHash in tokens { return TokenCollision; }
      tokens := ConsumeAll(tokens, id, now);
      tokens := tokens[tokenHash := ResetToken(id, now + RESET_TTL, None)];
      issued := issued + [(id, tokenHash)];
      return GenericReply;
    }

    method ResetPassword(raw: string, newHash: string, now: int) returns (outcome: Outcome)
      modifies this`users, this`tokens
      ensures (Tables(), outcome) == Apply(env, old(Tables()), Op.ResetPassword(raw, newHash, now))
    {
      var tokenHash := env.digest(raw);
      if tokenHash !in tokens { return InvalidResetToken; }
      var row := tokens[tokenHash];
      if row.consumedAt != None || row.expiresAt < now || row.userId !in users { return InvalidResetToken; }
      var user := users[row.userId];
      users := users[row.userId := user.(passwordHash := Some(newHash), sessionVersion := user.sessionVersion + 1)];
      tokens := tokens[tokenHash := row.(consumedAt := Some(now))];
      return PasswordReset;
    }
  }
}
