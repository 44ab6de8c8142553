/** Account operations as session events: what the session machine proves holds of the operations themselves. */
module Revocation {
  import A = Accounts
  import opened Wrappers
  import AA = AccountAnswers
  import S = Sessions

  function Shown(u: A.User): S.User {
    S.User(u.orgId, u.role, u.sessionVersion)
  }

  /** The columns of a user that the guard looks at. */
  function Visible(users: map<nat, A.User>): map<nat, S.User> {
    map id | id in users :: Shown(users[id])
  }

  predicate Accepts(s: A.State, token: S.Token) {
    S.Accepts(Visible(s.users), s.activeOrgs, token)
  }

  /** The operation ends with a signed token. */
  predicate Issues(env: A.Env, s: A.State, op: A.Op) {
    (op.Login? && A.Apply(env, s, op).1 == A.LoggedIn)
        || (op.ChangePassword? && A.Apply(env, s, op).1 == A.PasswordChanged)
  }

  /** What an operation that runs alone does to sessions; `rid` is its request. */
  function EventsOf(env: A.Env, s: A.State, op: A.Op, rid: nat): seq<S.Event> {
    match op
    case CreateUser(id, orgId, _, role) => if id in s.users then [] else [S.AddUser(id, orgId, role)]
    case Login(id, _, _, _) => if Issues(env, s, op) then [S.Read(rid, id), S.Sign(rid)] else []
    case Logout(id) => if id in s.users then [S.Bump(id)] else []
    case ChangePassword(id, _, _) =>
      if Issues(env, s, op) then [S.BumpAndRead(rid, id), S.Sign(rid)]
      else if A.SetsPassword(env, s, op, id) then [S.Bump(id)]     // the role turned out to be unknown
      else []
    case ResetPassword(raw, _, _) =>
      if A.Apply(env, s, op).1 == A.PasswordReset then [S.Bump(s.tokens[env.digest(raw)].userId)] else []
    case ChangeRole(id, role) => if id in s.users then [S.ChangeRole(id, role)] else []
    case ChangeStatus(id, _) => if id in s.users then [S.Bump(id)] else []
    case SwitchOrg(orgId, active) => [S.SwitchOrg(orgId, active)]
    case _ => []
  }

  /** The session events of a run; request ids count up from `rid`. */
  function SessionEvents(env: A.Env, s: A.State, ops: seq<A.Op>, rid: nat): seq<S.Event>
    decreases |ops|
  {
    if ops == [] then []
    else EventsOf(env, s, ops[0], rid) + SessionEvents(env, A.Apply(env, s, ops[0]).0, ops[1..], rid + 1)
  }

  ghost predicate Follows(t: S.State, s: A.State, rid: nat) {
    t.users == Visible(s.users) && t.activeOrgs == s.activeOrgs && forall r | r in t.readings :: r < rid
  }

  lemma RunTwo(t: S.State, e: S.Event, f: S.Event)
    ensures S.RunFrom(t, [e]) == S.Step(t, e)
    ensures S.RunFrom(t, [e, f]) == S.Step(S.Step(t, e), f)
  {
    assert [e][1..] == [] && [e, f][1..] == [f] && [f][1..] == [];
    hide S.Step;
    assert S.RunFrom(S.Step(t, e), [f]) == S.RunFrom(S.Step(S.Step(t, e), f), []);
  }

  lemma RunNone(t: S.State)
    ensures S.RunFrom(t, []) == t
  {
  }

  /** Replacing one user replaces what is visible of that user. */
  lemma VisibleUser(users: map<nat, A.User>, id: nat, after: map<nat, A.User>)
    ensures id in users <==> id in Visible(users)
    ensures id in users ==> Visible(users)[id] == Shown(users[id])
    ensures id in after && after == users[id := after[id]] ==> Visible(after) == Visible(users)[id := Shown(after[id])]
  {
  }

  lemma EntryFollows(env: A.Env, s: A.State, op: A.Op, t: S.State, rid: nat)
    requires Follows(t, s, rid) && (op.CreateUser? || op.Login? || op.Logout?)
    ensures Follows(S.RunFrom(t, EventsOf(env, s, op, rid)), A.Apply(env, s, op).0, rid + 1)
  {
    hide Visible, S.RunFrom;
    var es := EventsOf(env, s, op, rid);
    VisibleUser(s.users, op.id, A.Apply(env, s, op).0.users);
    if es == [] { RunNone(t); } else { RunTwo(t, es[0], es[|es| - 1]); }
  }

  lemma PasswordFollows(env: A.Env, s: A.State, op: A.Op, t: S.State, rid: nat)
    requires Follows(t, s, rid) && (op.ChangePassword? || op.ReissuePassword? || op.AcceptConsent?)
    ensures Follows(S.RunFrom(t, EventsOf(env, s, op, rid)), A.Apply(env, s, op).0, rid + 1)
  {
    hide Visible, S.RunFrom;
    var es := EventsOf(env, s, op, rid);
    VisibleUser(s.users, op.id, A.Apply(env, s, op).0.users);
    if es == [] { RunNone(t); } else { RunTwo(t, es[0], es[|es| - 1]); }
  }

  lemma TokenFollows(env: A.Env, s: A.State, op: A.Op, t: S.State, rid: nat)
    requires Follows(t, s, rid) && (op.ResetPassword? || op.ForgotPassword? || op.SwitchOrg?)
    ensures Follows(S.RunFrom(t, EventsOf(env, s, op, rid)), A.Apply(env, s, op).0, rid + 1)
  {
    hide Visible, S.RunFrom;
    var es := EventsOf(env, s, op, rid);
    if op.ResetPassword? && env.digest(op.raw) in s.tokens {
      VisibleUser(s.users, s.tokens[env.digest(op.raw)].userId, A.Apply(env, s, op).0.users);
    }
    if es == [] { RunNone(t); } else { RunTwo(t, es[0], es[|es| - 1]); }
  }

  lemma ChangeFollows(env: A.Env, s: A.State, op: A.Op, t: S.State, rid: nat)
    requires Follows(t, s, rid) && (op.ChangeRole? || op.ChangeStatus?)
    ensures Follows(S.RunFrom(t, EventsOf(env, s, op, rid)), A.Apply(env, s, op).0, rid + 1)
  {
    hide Visible, S.RunFrom;
    var es := EventsOf(env, s, op, rid);
    VisibleUser(s.users, op.id, A.Apply(env, s, op).0.users);
    if es == [] { RunNone(t); } else { RunTwo(t, es[0], es[|es| - 1]); }
  }

  lemma OpFollows(env: A.Env, s: A.State, op: A.Op, t: S.State, rid: nat)
    requires Follows(t, s, rid)
    ensures Follows(S.RunFrom(t, EventsOf(env, s, op, rid)), A.Apply(env, s, op).0, rid + 1)
  {
    hide *;
    if op.ChangePassword? || op.ReissuePassword? || op.AcceptConsent? {
      PasswordFollows(env, s, op, t, rid);
    } else if op.ResetPassword? || op.ForgotPassword? || op.SwitchOrg? {
      TokenFollows(env, s, op, t, rid);
    } else if op.ChangeRole? || op.ChangeStatus? {
      ChangeFollows(env, s, op, t, rid);
    } else {
      EntryFollows(env, s, op, t, rid);
    }
  }

  /** A run of operations and the run of its session events show the guard the same users and organisations. */
  lemma {:induction false} RunFollows(env: A.Env, s: A.State, ops: seq<A.Op>, t: S.State, rid: nat)
    requires Follows(t, s, rid)
    ensures Follows(S.RunFrom(t, SessionEvents(env, s, ops, rid)), A.RunFrom(env, s, ops), rid + |ops|)
    decreases |ops|
  {
    if ops != [] {
      hide S.RunFrom, A.Apply, EventsOf;
      var next := A.Apply(env, s, ops[0]).0;
      var es := EventsOf(env, s, ops[0], rid);
      OpFollows(env, s, ops[0], t, rid);
      RunFollows(env, next, ops[1..], S.RunFrom(t, es), rid + 1);
      S.RunAppend(t, es, SessionEvents(env, next, ops[1..], rid + 1));
    } else {
      RunNone(t);
    }
  }

  /** In a run of whole operations: once one ends a user's sessions, no token issued to the user before
      is accepted again, whatever follows. */
  lemma EndedSessionsStayEnded(env: A.Env, ops: seq<A.Op>, op: A.Op, more: seq<A.Op>, id: nat, token: S.Token)
    requires A.EndsSessions(env, A.RunFrom(env, A.INIT, ops), op, id)
    requires token.userId == id && token in S.RunFrom(S.INIT, SessionEvents(env, A.INIT, ops, 0)).tokens
    ensures !Accepts(A.RunFrom(env, A.RunFrom(env, A.INIT, ops), [op] + more), token)
  {
    hide A.RunFrom, A.Apply, A.EndsSessions, S.RunFrom, SessionEvents;
    var s, es := A.RunFrom(env, A.INIT, ops), SessionEvents(env, A.INIT, ops, 0);
    RunFollows(env, A.INIT, ops, S.INIT, 0);
    S.TokensNotAhead(es, token);
    A.VersionsRise(env, s, [op] + more, id);
    assert ([op] + more)[0] == op;
  }

  /** The token that an issuing operation signs. */
  function TokenOf(env: A.Env, s: A.State, op: A.Op, rid: nat): S.Token
    requires Issues(env, s, op)
  {
    var u := A.Apply(env, s, op).0.users[op.id];
    S.Token(rid, op.id, u.orgId, u.sessionVersion)
  }

  lemma SignsToken(env: A.Env, s: A.State, op: A.Op, t: S.State, rid: nat)
    requires Issues(env, s, op) && Follows(t, s, rid)
    ensures S.RunFrom(t, EventsOf(env, s, op, rid)).tokens == t.tokens + {TokenOf(env, s, op, rid)}
  {
    hide Visible, S.RunFrom;
    var es := EventsOf(env, s, op, rid);
    VisibleUser(s.users, op.id, A.Apply(env, s, op).0.users);
    RunTwo(t, es[0], es[1]);
  }

  /** An issuing operation adds this token to those of the run, and nothing else. */
  lemma IssuesToken(env: A.Env, ops: seq<A.Op>, op: A.Op)
    requires Issues(env, A.RunFrom(env, A.INIT, ops), op)
    ensures var s := A.RunFrom(env, A.INIT, ops);
      var t := S.RunFrom(S.INIT, SessionEvents(env, A.INIT, ops, 0));
      S.RunFrom(t, EventsOf(env, s, op, |ops|)).tokens == t.tokens + {TokenOf(env, s, op, |ops|)}
  {
    var s := A.RunFrom(env, A.INIT, ops);
    var t := S.RunFrom(S.INIT, SessionEvents(env, A.INIT, ops, 0));
    RunFollows(env, A.INIT, ops, S.INIT, 0);
    hide Issues, A.RunFrom, S.RunFrom, SessionEvents;
    SignsToken(env, s, op, t, |ops|);
  }

  /** A token is accepted exactly while nothing has ended its user's sessions since the operation that issued it,
      and the organisation is active and the role known. */
  lemma SessionLasts(env: A.Env, s: A.State, op: A.Op, rid: nat, more: seq<A.Op>)
    requires Issues(env, s, op)
    ensures var after := A.Apply(env, s, op).0;
      var t := A.RunFrom(env, after, more);
      && op.id in t.users
      && (Accepts(t, TokenOf(env, s, op, rid)) <==>
            && A.Endings(env, after, more, op.id) == 0
            && t.users[op.id].orgId in t.activeOrgs && t.users[op.id].role.Some?)
  {
    var after := A.Apply(env, s, op).0;
    assert op.id in after.users;
    hide A.Apply, A.RunFrom, A.Endings;
    A.VersionsRise(env, after, more, op.id);
  }

  /** A successful login issues a token that is accepted at once, and so does a password change. */
  lemma LoginGivesSession(env: A.Env, ops: seq<A.Op>, op: A.Op)
    requires Issues(env, A.RunFrom(env, A.INIT, ops), op)
    ensures
      var s := A.RunFrom(env, A.INIT, ops);
      var t := S.RunFrom(S.INIT, SessionEvents(env, A.INIT, ops, 0));
      exists token | token in S.RunFrom(t, EventsOf(env, s, op, |ops|)).tokens ::
        token.source == |ops| && Accepts(A.Apply(env, s, op).0, token)
  {
    var s := A.RunFrom(env, A.INIT, ops);
    IssuesToken(env, ops, op);
    SessionLasts(env, s, op, |ops|, []);
    assert Accepts(A.Apply(env, s, op).0, TokenOf(env, s, op, |ops|));
  }

  /** Which operations issue a token, by the columns of the account. */
  lemma IssuesExactly(env: A.Env, s: A.State, op: A.Op)
    ensures Issues(env, s, op) <==>
      && (op.Login? || op.ChangePassword?) && op.id in s.users
      && var u := s.users[op.id];
      && u.passwordHash != None && u.orgId in s.activeOrgs && u.role != None
      && (op.Login? ==> !u.disabled && (u.lockedUntil == None || u.lockedUntil.value <= op.checkAt))
      && env.verify(u.passwordHash.value, if op.Login? then op.password else op.current)
  {
    if op.Login? {
      AA.LoginExactly(env, s, op.id, op.password, op.checkAt, op.writeAt);
    } else if op.ChangePassword? {
      AA.ChangeExactly(env, s, op.id, op.current, op.newHash);
    }
    hide A.Apply;
  }

  /** No login issues a token to a user who is disabled at that moment, at any point of any run. */
  lemma DisabledGetsNoToken(env: A.Env, ops: seq<A.Op>, id: nat, password: string, checkAt: int, writeAt: int)
    requires var s := A.RunFrom(env, A.INIT, ops); id in s.users && s.users[id].disabled
    ensures var s := A.RunFrom(env, A.INIT, ops);
      var t := S.RunFrom(S.INIT, SessionEvents(env, A.INIT, ops, 0));
      S.RunFrom(t, EventsOf(env, s, A.Login(id, password, checkAt, writeAt), |ops|)).tokens == t.tokens
  {
    var s := A.RunFrom(env, A.INIT, ops);
    AA.LoginExactly(env, s, id, password, checkAt, writeAt);
    hide A.RunFrom, A.Apply, SessionEvents;
    RunNone(S.RunFrom(S.INIT, SessionEvents(env, A.INIT, ops, 0)));
  }

  /** A suspended organisation's token is refused, and once the organisation is active again it is accepted again,
      exactly if nothing has ended the sessions in the meantime and the role is known. */
  lemma SuspensionPasses(env: A.Env, s: A.State, op: A.Op, rid: nat, more: seq<A.Op>)
    requires Issues(env, s, op)
    ensures var after := A.Apply(env, s, op).0;
      var orgId := TokenOf(env, s, op, rid).orgId;
      && !Accepts(A.RunFrom(env, after, more + [A.SwitchOrg(orgId, false)]), TokenOf(env, s, op, rid))
      && op.id in A.RunFrom(env, after, more).users
      && (Accepts(A.RunFrom(env, after, more + [A.SwitchOrg(orgId, true)]), TokenOf(env, s, op, rid)) <==>
            A.Endings(env, after, more, op.id) == 0 && A.RunFrom(env, after, more).users[op.id].role.Some?)
  {
    var after, orgId := A.Apply(env, s, op).0, TokenOf(env, s, op, rid).orgId;
    A.VersionsRise(env, after, more, op.id);
    Switching(env, after, more, orgId, false, op.id);
    Switching(env, after, more, orgId, true, op.id);
    SessionLasts(env, s, op, rid, more + [A.SwitchOrg(orgId, false)]);
    SessionLasts(env, s, op, rid, more + [A.SwitchOrg(orgId, true)]);
  }

  lemma Switching(env: A.Env, s: A.State, more: seq<A.Op>, orgId: nat, active: bool, id: nat)
    ensures var t := A.RunFrom(env, s, more); var u := A.RunFrom(env, s, more + [A.SwitchOrg(orgId, active)]);
      u.users == t.users && (orgId in u.activeOrgs <==> active)
    ensures A.Endings(env, s, more + [A.SwitchOrg(orgId, active)], id) == A.Endings(env, s, more, id)
  {
    var t, last := A.RunFrom(env, s, more), [A.SwitchOrg(orgId, active)];
    A.RunAppend(env, s, more, last, id);
    assert last[1..] == [];
    assert A.RunFrom(env, t, last) == A.RunFrom(env, A.Apply(env, t, last[0]).0, []);
    assert A.Endings(env, t, last, id) == A.Endings(env, A.Apply(env, t, last[0]).0, [], id);
  }
}
