/** Accounts: the login lockout, password changes, and one-time password reset tokens.

    Operations run one after another; `Apply` is one operation, and a run is any list of them. */
module Accounts {
  import opened Wrappers

  const MAX_FAILED := 5
  const LOCK := 15 * 60 * 1000
  const RESET_TTL := 30 * 60 * 1000

  /** `role` is the key of the user's role, if the role matrix knows it. */
  datatype User = User(orgId: nat, passwordHash: Option<string>, failed: nat, lockedUntil: Option<int>,
                       sessionVersion: nat, disabled: bool, role: Option<string>)

  datatype ResetToken = ResetToken(userId: nat, expiresAt: int, consumedAt: Option<int>)

  /** The password check and the token digest, both left open. */
  datatype Env = Env(verify: (string, string) -> bool, digest: string -> string)

  /** `issued` is history: every reset token in order of issue, with the user it was issued to. */
  datatype State = State(users: map<nat, User>, activeOrgs: set<nat>, tokens: map<string, ResetToken>,
                         issued: seq<(nat, string)>)

  const INIT := State(map[], {}, map[], [])

  datatype Outcome =
    | LoggedIn | InvalidCredentials | AccountLocked | UserDisabled | OrgInactive | InvalidRole
    | PasswordChanged | InvalidCurrentPassword | Unauthenticated
    | GenericReply | TokenCollision | InvalidResetToken | PasswordReset | Done

  datatype Op =
    | CreateUser(id: nat, orgId: nat, hash: Option<string>, role: Option<string>)
    | Login(id: nat, password: string, checkAt: int, writeAt: int)
    | Logout(id: nat)
    | ChangePassword(id: nat, current: string, newHash: string)
    | ForgotPassword(id: nat, raw: string, now: int)
    | ResetPassword(raw: string, newHash: string, now: int)
    | ChangeRole(id: nat, role: Option<string>)
    | ChangeStatus(id: nat, disabled: bool)
    | ReissuePassword(id: nat, newHash: string)      // an administrator sets a temporary password
    | AcceptConsent(id: nat)                         // activates the account as well
    | SwitchOrg(orgId: nat, active: bool)            // an organisation is activated or suspended

  // ---------------------------------------------------------------- the operations

  function NewUser(orgId: nat, hash: Option<string>, role: Option<string>): User {
    User(orgId, hash, 0, None, 0, false, role)
  }

  predicate IsLocked(u: User, now: int) {
    u.lockedUntil.Some? && u.lockedUntil.value > now
  }

  /** The login gets as far as checking the password, and the check fails. */
  predicate FailsCheck(env: Env, u: User, password: string, checkAt: int) {
    u.passwordHash.Some? && !IsLocked(u, checkAt) && !env.verify(u.passwordHash.value, password)
  }

  /** The login passes every check and clears the counters. */
  predicate Passes(env: Env, s: State, u: User, password: string, checkAt: int) {
    && u.passwordHash.Some? && !IsLocked(u, checkAt) && env.verify(u.passwordHash.value, password)
    && !u.disabled && u.orgId in s.activeOrgs
  }

  function LoginUser(env: Env, s: State, u: User, password: string, checkAt: int, writeAt: int): (User, Outcome) {
    if u.passwordHash == None then (u, InvalidCredentials)
    else if IsLocked(u, checkAt) then (u, AccountLocked)
    else if !env.verify(u.passwordHash.value, password) then
      (u.(failed := u.failed + 1, lockedUntil := if u.failed + 1 >= MAX_FAILED then Some(writeAt + LOCK) else None),
       InvalidCredentials)
    else if u.disabled then (u, UserDisabled)
    else if u.orgId !in s.activeOrgs then (u, OrgInactive)
    else (u.(failed := 0, lockedUntil := None), if u.role.Some? then LoggedIn else InvalidRole)
  }

  function Bumped(u: User): User {
    u.(sessionVersion := u.sessionVersion + 1)
  }

  /** Consumes every outstanding token of a user. */
  function ConsumeAll(tokens: map<string, ResetToken>, userId: nat, now: int): map<string, ResetToken> {
    map h | h in tokens ::
      if tokens[h].userId == userId && tokens[h].consumedAt == None then tokens[h].(consumedAt := Some(now))
      else tokens[h]
  }

  predicate TokenWorks(env: Env, s: State, raw: string, now: int) {
    var h := env.digest(raw);
    h in s.tokens && s.tokens[h].consumedAt == None && s.tokens[h].expiresAt >= now
  }

  function Forgot(env: Env, s: State, id: nat, raw: string, now: int): (State, Outcome) {
    if id !in s.users || s.users[id].passwordHash == None || s.users[id].orgId !in s.activeOrgs then (s, GenericReply)
    else
      var h := env.digest(raw);
      if h in s.tokens then (s, TokenCollision)
      else (s.(tokens := ConsumeAll(s.tokens, id, now)[h := ResetToken(id, now + RESET_TTL, None)],
               issued := s.issued + [(id, h)]), GenericReply)
  }

  function Reset(env: Env, s: State, raw: string, newHash: string, now: int): (State, Outcome) {
    if !TokenWorks(env, s, raw, now) then (s, InvalidResetToken)
    else
      var h := env.digest(raw);
      var id := s.tokens[h].userId;
      if id !in s.users then (s, InvalidResetToken)
      else (s.(users := s.users[id := Bumped(s.users[id]).(passwordHash := Some(newHash))],
               tokens := s.tokens[h := s.tokens[h].(consumedAt := Some(now))]), PasswordReset)
  }

  /** The current password is right and the organisation active, so that the new password is stored. */
  predicate MayChange(env: Env, s: State, u: User, current: string) {
    u.passwordHash.Some? && env.verify(u.passwordHash.value, current) && u.orgId in s.activeOrgs
  }

  /** An unknown role is only found out when the new password is stored already. */
  function Change(env: Env, s: State, u: User, current: string, newHash: string): (User, Outcome) {
    if u.passwordHash == None then (u, Unauthenticated)
    else if !env.verify(u.passwordHash.value, current) then (u, InvalidCurrentPassword)
    else if u.orgId !in s.activeOrgs then (u, OrgInactive)
    else
      (Bumped(u).(passwordHash := Some(newHash), disabled := false),
       if u.role.Some? then PasswordChanged else InvalidRole)
  }

  function SetUser(s: State, id: nat, u: User): State {
    s.(users := s.users[id := u])
  }

  function Apply(env: Env, s: State, op: Op): (State, Outcome) {
    match op
    case CreateUser(id, orgId, hash, role) =>
      if id in s.users then (s, Done) else (SetUser(s, id, NewUser(orgId, hash, role)), Done)
    case Login(id, password, checkAt, writeAt) =>
      if id !in s.users then (s, InvalidCredentials)
      else var (u, o) := LoginUser(env, s, s.users[id], password, checkAt, writeAt); (SetUser(s, id, u), o)
    case Logout(id) => if id !in s.users then (s, Unauthenticated) else (SetUser(s, id, Bumped(s.users[id])), Done)
    case ChangePassword(id, current, newHash) =>
      if id !in s.users then (s, Unauthenticated)
      else var (u, o) := Change(env, s, s.users[id], current, newHash); (SetUser(s, id, u), o)
    case ForgotPassword(id, raw, now) => Forgot(env, s, id, raw, now)
    case ResetPassword(raw, newHash, now) => Reset(env, s, raw, newHash, now)
    case ChangeRole(id, role) =>
      if id !in s.users then (s, Done) else (SetUser(s, id, Bumped(s.users[id]).(role := role)), Done)
    case ChangeStatus(id, disabled) =>
      if id !in s.users then (s, Done) else (SetUser(s, id, Bumped(s.users[id]).(disabled := disabled)), Done)
    case ReissuePassword(id, newHash) =>
      if id !in s.users then (s, Done) else (SetUser(s, id, s.users[id].(passwordHash := Some(newHash))), Done)
    case AcceptConsent(id) =>
      if id !in s.users then (s, Done) else (SetUser(s, id, s.users[id].(disabled := false)), Done)
    case SwitchOrg(orgId, active) =>
      (s.(activeOrgs := if active then s.activeOrgs + {orgId} else s.activeOrgs - {orgId}), Done)
  }

  function RunFrom(env: Env, s: State, ops: seq<Op>): State
    decreases |ops|
  {
    if ops == [] then s else RunFrom(env, Apply(env, s, ops[0]).0, ops[1..])
  }

  // ---------------------------------------------------------------- the lockout

  /** The lock is set exactly while the count of consecutive failures is at least five. */
  ghost predicate LockOk(u: User) {
    u.lockedUntil.Some? <==> u.failed >= MAX_FAILED
  }

  ghost predicate LocksOk(s: State) {
    forall id | id in s.users :: LockOk(s.users[id])
  }

  /** The count of consecutive failures after one more operation. */
  function Counted(env: Env, s: State, op: Op, id: nat, n: nat): nat {
    if !op.Login? || op.id != id || id !in s.users then n
    else if FailsCheck(env, s.users[id], op.password, op.checkAt) then n + 1
    else if Passes(env, s, s.users[id], op.password, op.checkAt) then 0
    else n
  }

  /** The failures of an account since its last login that passed, over a run that starts with `n`. */
  function Consecutive(env: Env, s: State, ops: seq<Op>, id: nat, n: nat): nat
    decreases |ops|
  {
    if ops == [] then n else Consecutive(env, Apply(env, s, ops[0]).0, ops[1..], id, Counted(env, s, ops[0], id, n))
  }

  function Failures(s: State, id: nat): nat {
    if id in s.users then s.users[id].failed else 0
  }

  lemma ApplyLocks(env: Env, s: State, op: Op)
    requires LocksOk(s)
    ensures LocksOk(Apply(env, s, op).0)
  {
  }

  lemma ApplyCounts(env: Env, s: State, op: Op, id: nat)
    ensures Failures(Apply(env, s, op).0, id) == Counted(env, s, op, id, Failures(s, id))
  {
  }

  /** In every run the stored counter is the number of consecutive failures, and the lock follows it. */
  lemma {:induction false} LockFollowsFailures(env: Env, s: State, ops: seq<Op>, id: nat)
    requires LocksOk(s)
    ensures LocksOk(RunFrom(env, s, ops))
    ensures Failures(RunFrom(env, s, ops), id) == Consecutive(env, s, ops, id, Failures(s, id))
    decreases |ops|
  {
    if ops != [] {
      hide Apply, Counted, LocksOk, Failures;
      ApplyLocks(env, s, ops[0]);
      ApplyCounts(env, s, ops[0], id);
      LockFollowsFailures(env, Apply(env, s, ops[0]).0, ops[1..], id);
    }
  }

  /** The clock never runs backwards over the logins to an account. */
  ghost predicate Ordered(ops: seq<Op>, id: nat, t: int) {
    if ops == [] then true
    else if ops[0].Login? && ops[0].id == id then
      t <= ops[0].checkAt <= ops[0].writeAt && Ordered(ops[1..], id, ops[0].writeAt)
    else Ordered(ops[1..], id, t)
  }

  predicate Within(op: Op, id: nat, a: int, b: int) {
    op.Login? && op.id == id && a <= op.checkAt <= b
  }

  /** The failed password checks of an account in a time window. */
  function FailedChecks(env: Env, s: State, ops: seq<Op>, id: nat, a: int, b: int): nat
    decreases |ops|
  {
    if ops == [] then 0
    else
      var op := ops[0];
      (if Within(op, id, a, b) && id in s.users && FailsCheck(env, s.users[id], op.password, op.checkAt) then 1 else 0)
      + FailedChecks(env, Apply(env, s, op).0, ops[1..], id, a, b)
  }

  ghost predicate NoLoginIn(env: Env, s: State, ops: seq<Op>, id: nat, a: int, b: int)
    decreases |ops|
  {
    ops != [] ==>
      && !(Within(ops[0], id, a, b) && id in s.users && Passes(env, s, s.users[id], ops[0].password, ops[0].checkAt))
      && NoLoginIn(env, Apply(env, s, ops[0]).0, ops[1..], id, a, b)
  }

  function Max(x: int, y: int): int {
    if x < y then y else x
  }

  /** The earliest moment in `[a, ...)` at which the account may fail a check again. */
  function NextFailure(s: State, id: nat, a: int): int {
    if id in s.users && s.users[id].lockedUntil.Some? then Max(a, s.users[id].lockedUntil.value) else a
  }

  /** How many failures are still possible up to `b`: the free ones, then one per lock period. */
  function Budget(s: State, id: nat, a: int, b: int): nat {
    (if Failures(s, id) < MAX_FAILED then MAX_FAILED - 1 - Failures(s, id) else 0)
    + (var from := NextFailure(s, id, a); if from <= b then 1 + (b - from) / LOCK else 0)
  }

  lemma BudgetShrinks(env: Env, s: State, op: Op, id: nat, a: int, b: int)
    requires LocksOk(s) && Within(op, id, a, b) && op.checkAt <= op.writeAt
    requires id in s.users && FailsCheck(env, s.users[id], op.password, op.checkAt)
    ensures 1 + Budget(Apply(env, s, op).0, id, a, b) <= Budget(s, id, a, b)
  {
    var t := Apply(env, s, op).0;
    var from, next := NextFailure(s, id, a), NextFailure(t, id, a);
    assert from <= op.checkAt <= b;
    if t.users[id].lockedUntil.Some? {
      assert next >= from + LOCK;
      if next <= b {
        assert (b - next) / LOCK <= (b - from - LOCK) / LOCK == (b - from) / LOCK - 1;
      }
    }
  }

  /** From the start of a window on, with no login passing, the failures stay within the budget. */
  lemma {:induction false} WindowBudget(env: Env, s: State, ops: seq<Op>, id: nat, a: int, b: int, t: int)
    requires LocksOk(s) && Ordered(ops, id, t) && a <= t && NoLoginIn(env, s, ops, id, a, b)
    ensures FailedChecks(env, s, ops, id, a, b) <= Budget(s, id, a, b)
    decreases |ops|
  {
    if ops != [] {
      var op, next := ops[0], Apply(env, s, ops[0]).0;
      var mine := op.Login? && op.id == id;
      ApplyLocks(env, s, op);
      WindowStep(env, s, op, id, a, b);
      if mine && op.checkAt > b {
        NothingLater(env, next, ops[1..], id, a, b, op.writeAt);
      } else {
        WindowBudget(env, next, ops[1..], id, a, b, if mine then op.writeAt else t);
      }
    }
  }

  lemma WindowStep(env: Env, s: State, op: Op, id: nat, a: int, b: int)
    requires LocksOk(s) && (op.Login? && op.id == id ==> a <= op.checkAt <= op.writeAt)
    requires !(Within(op, id, a, b) && id in s.users && Passes(env, s, s.users[id], op.password, op.checkAt))
    ensures LocksOk(Apply(env, s, op).0)
    ensures (op.Login? && op.id == id && op.checkAt > b) ||
      (if Within(op, id, a, b) && id in s.users && FailsCheck(env, s.users[id], op.password, op.checkAt) then 1 else 0)
      + Budget(Apply(env, s, op).0, id, a, b) <= Budget(s, id, a, b)
  {
    if Within(op, id, a, b) && id in s.users && FailsCheck(env, s.users[id], op.password, op.checkAt) {
      BudgetShrinks(env, s, op, id, a, b);
    }
  }

  lemma {:induction false} NothingLater(env: Env, s: State, ops: seq<Op>, id: nat, a: int, b: int, t: int)
    requires Ordered(ops, id, t) && t > b
    ensures FailedChecks(env, s, ops, id, a, b) == 0
    decreases |ops|
  {
    if ops != [] {
      NothingLater(env, Apply(env, s, ops[0]).0, ops[1..], id, a, b,
                   if ops[0].Login? && ops[0].id == id then ops[0].writeAt else t);
    }
  }

  /** A window of length `b - a` without a passing login holds at most five failed checks, and one more
      per lock period. */
  lemma {:induction false} GuessRate(env: Env, s: State, ops: seq<Op>, id: nat, a: int, b: int, t: int)
    requires LocksOk(s) && Ordered(ops, id, t) && a <= b && NoLoginIn(env, s, ops, id, a, b)
    ensures FailedChecks(env, s, ops, id, a, b) <= MAX_FAILED + (b - a) / LOCK
    decreases |ops|
  {
    if a <= t {
      WindowBudget(env, s, ops, id, a, b, t);
      BudgetBound(s, id, a, b);
    } else if ops != [] {
      var op, next := ops[0], Apply(env, s, ops[0]).0;
      ApplyLocks(env, s, op);
      if op.Login? && op.id == id {
        if op.checkAt < a {
          GuessRate(env, next, ops[1..], id, a, b, op.writeAt);
        } else {
          WindowBudget(env, s, ops, id, a, b, op.checkAt);
          BudgetBound(s, id, a, b);
        }
      } else {
        GuessRate(env, next, ops[1..], id, a, b, t);
      }
    }
  }

  lemma BudgetBound(s: State, id: nat, a: int, b: int)
    requires a <= b
    ensures Budget(s, id, a, b) <= MAX_FAILED + (b - a) / LOCK
  {
    var from := NextFailure(s, id, a);
    if from <= b {
      assert (b - from) / LOCK <= (b - a) / LOCK;
    }
  }

  /** Wrong passwords: five at time `t`, then one at the end of every lock. */
  function Patient(id: nat, wrong: string, left: nat, t: int, more: nat): seq<Op>
    decreases left + more
  {
    if left > 0 then [Login(id, wrong, t, t)] + Patient(id, wrong, left - 1, t, more)
    else if more > 0 then [Login(id, wrong, t + LOCK, t + LOCK)] + Patient(id, wrong, 0, t + LOCK, more - 1)
    else []
  }

  /** The bound is met: patience earns exactly one guess per lock period after the first five. */
  lemma {:induction false} PatientMeetsBound(env: Env, s: State, id: nat, wrong: string, left: nat, t: int,
                                             more: nat, a: int)
    requires id in s.users && s.users[id].passwordHash.Some? && !env.verify(s.users[id].passwordHash.value, wrong)
    requires left <= MAX_FAILED && s.users[id].failed >= MAX_FAILED - left
    requires if left > 0 then s.users[id].failed == MAX_FAILED - left && s.users[id].lockedUntil == None
             else s.users[id].lockedUntil == Some(t + LOCK)
    requires a <= t
    ensures FailedChecks(env, s, Patient(id, wrong, left, t, more), id, a, t + more * LOCK) == left + more
    decreases left + more
  {
    var ops := Patient(id, wrong, left, t, more);
    if ops != [] {
      var next := Apply(env, s, ops[0]).0;
      if left > 0 {
        assert ops[1..] == Patient(id, wrong, left - 1, t, more);
        PatientMeetsBound(env, next, id, wrong, left - 1, t, more, a);
      } else {
        assert ops[1..] == Patient(id, wrong, 0, t + LOCK, more - 1);
        assert t + LOCK + (more - 1) * LOCK == t + more * LOCK;
        PatientMeetsBound(env, next, id, wrong, 0, t + LOCK, more - 1, a);
      }
    }
  }

  // ---------------------------------------------------------------- reset tokens

  /** `h` is the last token issued to the user. */
  ghost predicate IsNewest(issued: seq<(nat, string)>, id: nat, h: string) {
    exists i | 0 <= i < |issued| :: issued[i] == (id, h) && NoneAfter(issued, i, id)
  }

  ghost predicate NoneAfter(issued: seq<(nat, string)>, i: nat, id: nat) {
    forall j | i < j < |issued| :: issued[j].0 != id
  }

  /** Every issued token is stored under its user, and an outstanding one is the newest of its user. */
  ghost predicate TokensOk(s: State) {
    && (forall i | 0 <= i < |s.issued| :: s.issued[i].1 in s.tokens && s.tokens[s.issued[i].1].userId == s.issued[i].0)
    && (forall h | h in s.tokens && s.tokens[h].consumedAt == None :: IsNewest(s.issued, s.tokens[h].userId, h))
  }

  lemma NewestUnique(issued: seq<(nat, string)>, id: nat, g: string, h: string)
    requires IsNewest(issued, id, g) && IsNewest(issued, id, h)
    ensures g == h
  {
    var i :| 0 <= i < |issued| && issued[i] == (id, g) && NoneAfter(issued, i, id);
    var j :| 0 <= j < |issued| && issued[j] == (id, h) && NoneAfter(issued, j, id);
  }

  lemma NewestAfterIssue(issued: seq<(nat, string)>, id: nat, h: string, one: (nat, string))
    ensures IsNewest(issued + [one], one.0, one.1)
    ensures IsNewest(issued, id, h) && one.0 != id ==> IsNewest(issued + [one], id, h)
  {
    assert NoneAfter(issued + [one], |issued|, one.0);
    if IsNewest(issued, id, h) && one.0 != id {
      var i :| 0 <= i < |issued| && issued[i] == (id, h) && NoneAfter(issued, i, id);
      assert (issued + [one])[i] == (id, h) && NoneAfter(issued + [one], i, id);
    }
  }

  lemma ForgotKeeps(env: Env, s: State, id: nat, raw: string, now: int)
    requires TokensOk(s)
    ensures TokensOk(Forgot(env, s, id, raw, now).0)
  {
    var t, h := Forgot(env, s, id, raw, now).0, env.digest(raw);
    if t != s {
      forall g | g in t.tokens && t.tokens[g].consumedAt == None ensures IsNewest(t.issued, t.tokens[g].userId, g) {
        NewestAfterIssue(s.issued, t.tokens[g].userId, g, (id, h));
        assert g != h ==> s.tokens[g].consumedAt == None && s.tokens[g].userId != id;
      }
    }
  }

  lemma ApplyTokens(env: Env, s: State, op: Op)
    requires TokensOk(s)
    ensures TokensOk(Apply(env, s, op).0)
  {
    if op.ForgotPassword? {
      ForgotKeeps(env, s, op.id, op.raw, op.now);
    } else if !op.ResetPassword? {
      assert Apply(env, s, op).0.tokens == s.tokens && Apply(env, s, op).0.issued == s.issued;
    }
  }

  lemma {:induction false} RunTokens(env: Env, s: State, ops: seq<Op>)
    requires TokensOk(s)
    ensures TokensOk(RunFrom(env, s, ops))
    decreases |ops|
  {
    if ops != [] {
      ApplyTokens(env, s, ops[0]);
      RunTokens(env, Apply(env, s, ops[0]).0, ops[1..]);
    }
  }

  /** In every run a user has at most one outstanding reset token. */
  lemma OneOutstanding(env: Env, ops: seq<Op>, g: string, h: string)
    requires var s := RunFrom(env, INIT, ops);
      && g in s.tokens && h in s.tokens && s.tokens[g].userId == s.tokens[h].userId
      && s.tokens[g].consumedAt == None && s.tokens[h].consumedAt == None
    ensures g == h
  {
    var s := RunFrom(env, INIT, ops);
    RunTokens(env, INIT, ops);
    NewestUnique(s.issued, s.tokens[g].userId, g, h);
  }

  lemma {:induction false} TokensStaySpent(env: Env, s: State, ops: seq<Op>, h: string)
    requires h in s.tokens && s.tokens[h].consumedAt.Some?
    ensures var t := RunFrom(env, s, ops); h in t.tokens && t.tokens[h] == s.tokens[h]
    decreases |ops|
  {
    if ops != [] {
      var t := Apply(env, s, ops[0]).0;
      assert h in t.tokens && t.tokens[h] == s.tokens[h];
      TokensStaySpent(env, t, ops[1..], h);
    }
  }

  /** A token that resets a password is the newest issued to its user, unexpired, and never works again. */
  lemma ResetOnlyByNewest(env: Env, ops: seq<Op>, raw: string, newHash: string, now: int,
                          more: seq<Op>, again: string, hash2: string, later: int)
    requires Reset(env, RunFrom(env, INIT, ops), raw, newHash, now).1 == PasswordReset
    ensures var s := RunFrom(env, INIT, ops); var h := env.digest(raw);
      && h in s.tokens && IsNewest(s.issued, s.tokens[h].userId, h) && s.tokens[h].expiresAt >= now
    ensures env.digest(again) == env.digest(raw) ==>
      var t := RunFrom(env, Reset(env, RunFrom(env, INIT, ops), raw, newHash, now).0, more);
      Reset(env, t, again, hash2, later) == (t, InvalidResetToken)
  {
    RunTokens(env, INIT, ops);
    var s, h := RunFrom(env, INIT, ops), env.digest(raw);
    TokensStaySpent(env, Reset(env, s, raw, newHash, now).0, more, h);
  }

  // ---------------------------------------------------------------- passwords and versions

  /** The operation replaces the user's password. */
  predicate SetsPassword(env: Env, s: State, op: Op, id: nat) {
    id in s.users &&
    match op
    case ChangePassword(k, current, newHash) => k == id && MayChange(env, s, s.users[id], current)
    case ResetPassword(raw, newHash, now) =>
      Reset(env, s, raw, newHash, now).1 == PasswordReset && s.tokens[env.digest(raw)].userId == id
    case ReissuePassword(k, newHash) => k == id
    case _ => false
  }

  /** The operation ends every session of the user. An administrator's new password and a suspension do not. */
  predicate EndsSessions(env: Env, s: State, op: Op, id: nat) {
    id in s.users &&
    match op
    case Logout(k) => k == id
    case ChangeRole(k, _) => k == id
    case ChangeStatus(k, _) => k == id
    case ChangePassword(_, _, _) => SetsPassword(env, s, op, id)
    case ResetPassword(_, _, _) => SetsPassword(env, s, op, id)
    case _ => false
  }

  ghost predicate NoneSets(env: Env, s: State, ops: seq<Op>, id: nat)
    decreases |ops|
  {
    ops != [] ==> !SetsPassword(env, s, ops[0], id) && NoneSets(env, Apply(env, s, ops[0]).0, ops[1..], id)
  }

  /** What one operation does to a user's password: it sets it, or leaves it. */
  lemma HashStep(env: Env, s: State, op: Op, id: nat)
    requires id in s.users
    ensures id in Apply(env, s, op).0.users
    ensures Apply(env, s, op).0.users[id].passwordHash
         == if SetsPassword(env, s, op, id) then Some(op.newHash) else s.users[id].passwordHash
  {
  }

  lemma {:induction false} HashKept(env: Env, s: State, ops: seq<Op>, id: nat)
    requires id in s.users && NoneSets(env, s, ops, id)
    ensures var t := RunFrom(env, s, ops); id in t.users && t.users[id].passwordHash == s.users[id].passwordHash
    decreases |ops|
  {
    if ops != [] {
      hide Apply, SetsPassword;
      HashStep(env, s, ops[0], id);
      HashKept(env, Apply(env, s, ops[0]).0, ops[1..], id);
    }
  }

  /** After a password is changed, reset or re-issued, and until the next time, no password that does not match
      the new hash logs in; and a user who changes it needs the old one. */
  lemma OldPasswordStops(env: Env, s: State, op: Op, more: seq<Op>, id: nat, password: string, checkAt: int,
                         writeAt: int)
    requires SetsPassword(env, s, op, id) && NoneSets(env, Apply(env, s, op).0, more, id)
    ensures op.ChangePassword? ==>
      s.users[id].passwordHash.Some? && env.verify(s.users[id].passwordHash.value, op.current)
    ensures var t := RunFrom(env, Apply(env, s, op).0, more);
      var answer := Apply(env, t, Login(id, password, checkAt, writeAt)).1;
      answer in {InvalidCredentials, AccountLocked} || env.verify(op.newHash, password)
  {
    HashStep(env, s, op, id);
    HashKept(env, Apply(env, s, op).0, more, id);
  }

  /** A new password does not lift a lock: until it is over even the new password is refused. */
  lemma NewPasswordKeepsLock(env: Env, s: State, op: Op, id: nat, password: string, checkAt: int, writeAt: int)
    requires SetsPassword(env, s, op, id) && IsLocked(s.users[id], checkAt)
    ensures Apply(env, Apply(env, s, op).0, Login(id, password, checkAt, writeAt)).1 == AccountLocked
  {
  }

  /** What one operation does to a user's session version: it raises it by one exactly when it ends the sessions. */
  lemma VersionStep(env: Env, s: State, op: Op, id: nat)
    requires id in s.users
    ensures var t := Apply(env, s, op).0; id in t.users && t.users[id].orgId == s.users[id].orgId
    ensures Apply(env, s, op).0.users[id].sessionVersion
         == s.users[id].sessionVersion + if EndsSessions(env, s, op, id) then 1 else 0
  {
  }

  /** How often a run ends the user's sessions. */
  function Endings(env: Env, s: State, ops: seq<Op>, id: nat): nat
    decreases |ops|
  {
    if ops == [] then 0
    else (if EndsSessions(env, s, ops[0], id) then 1 else 0) + Endings(env, Apply(env, s, ops[0]).0, ops[1..], id)
  }

  /** Session versions never fall: they count the operations that end the user's sessions. */
  lemma {:induction false} VersionsRise(env: Env, s: State, ops: seq<Op>, id: nat)
    requires id in s.users
    ensures var t := RunFrom(env, s, ops); id in t.users && t.users[id].orgId == s.users[id].orgId
    ensures RunFrom(env, s, ops).users[id].sessionVersion == s.users[id].sessionVersion + Endings(env, s, ops, id)
    decreases |ops|
  {
    if ops != [] {
      hide Apply, EndsSessions;
      VersionStep(env, s, ops[0], id);
      VersionsRise(env, Apply(env, s, ops[0]).0, ops[1..], id);
    }
  }

  lemma {:induction false} RunAppend(env: Env, s: State, xs: seq<Op>, ys: seq<Op>, id: nat)
    ensures RunFrom(env, s, xs + ys) == RunFrom(env, RunFrom(env, s, xs), ys)
    ensures Endings(env, s, xs + ys, id) == Endings(env, s, xs, id) + Endings(env, RunFrom(env, s, xs), ys, id)
    decreases |xs|
  {
    if xs == [] {
      assert xs + ys == ys;
    } else {
      hide Apply, EndsSessions;
      assert (xs + ys)[1..] == xs[1..] + ys;
      RunAppend(env, Apply(env, s, xs[0]).0, xs[1..], ys, id);
    }
  }
}
