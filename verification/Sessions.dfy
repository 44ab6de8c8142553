/** Session tokens: who may still use one, when logins, refreshes and revocations interleave.

    A login, a refresh or a password change reads a user row in one step and signs a token in a later one. */
module Sessions {
  import opened Wrappers

  /** `role` is the key of the user's role, if the role matrix knows it. */
  datatype User = User(orgId: nat, role: Option<string>, sessionVersion: nat)

  /** A signed token; `source` names the request that signed it. */
  datatype Token = Token(source: nat, userId: nat, orgId: nat, version: nat)

  /** What a request has read and not yet signed. */
  datatype Reading = Reading(userId: nat, orgId: nat, version: nat)

  datatype State = State(users: map<nat, User>, activeOrgs: set<nat>, readings: map<nat, Reading>, tokens: set<Token>)

  datatype Event =
    | AddUser(id: nat, orgId: nat, role: Option<string>)
    | Read(rid: nat, id: nat)                      // login and me read the row they will sign
    | Sign(rid: nat)
    | Bump(id: nat)                                // logout, a password reset, a status change
    | BumpAndRead(rid: nat, id: nat)               // a password change signs the row its own update returned
    | ChangeRole(id: nat, role: Option<string>)    // the same update bumps the version
    | SwitchOrg(orgId: nat, active: bool)          // touches no user row

  const INIT := State(map[], {}, map[], {})

  function ReadingOf(s: State, id: nat): Reading
    requires id in s.users
  {
    Reading(id, s.users[id].orgId, s.users[id].sessionVersion)
  }

  function Bumped(s: State, id: nat): State
    requires id in s.users
  {
    s.(users := s.users[id := s.users[id].(sessionVersion := s.users[id].sessionVersion + 1)])
  }

  function Switched(orgs: set<nat>, orgId: nat, active: bool): set<nat> {
    if active then orgs + {orgId} else orgs - {orgId}
  }

  function Step(s: State, e: Event): State {
    match e
    case AddUser(id, orgId, role) => if id in s.users then s else s.(users := s.users[id := User(orgId, role, 0)])
    case Read(rid, id) =>
      if id !in s.users || rid in s.readings then s else s.(readings := s.readings[rid := ReadingOf(s, id)])
    case Sign(rid) =>
      if rid !in s.readings then s
      else
        var r := s.readings[rid];
        s.(tokens := s.tokens + {Token(rid, r.userId, r.orgId, r.version)})
    case Bump(id) => if id in s.users then Bumped(s, id) else s
    case BumpAndRead(rid, id) =>
      if id !in s.users || rid in s.readings then s
      else var t := Bumped(s, id); t.(readings := t.readings[rid := ReadingOf(t, id)])
    case ChangeRole(id, role) =>
      if id !in s.users then s
      else var t := Bumped(s, id); t.(users := t.users[id := t.users[id].(role := role)])
    case SwitchOrg(orgId, active) => s.(activeOrgs := Switched(s.activeOrgs, orgId, active))
  }

  function RunFrom(s: State, events: seq<Event>): State
    decreases |events|
  {
    if events == [] then s else RunFrom(Step(s, events[0]), events[1..])
  }

  /** The guard's test on a token whose signature has been verified. */
  predicate Accepts(users: map<nat, User>, activeOrgs: set<nat>, t: Token) {
    && t.userId in users
    && var u := users[t.userId];
    && u.orgId in activeOrgs && u.orgId == t.orgId && u.sessionVersion == t.version && u.role.Some?
  }

  predicate AcceptsIn(s: State, t: Token) {
    Accepts(s.users, s.activeOrgs, t)
  }

  /** The step revokes the user's sessions. */
  predicate Revokes(s: State, e: Event, id: nat) {
    && id in s.users
    && (e == Bump(id) || (e.BumpAndRead? && e.id == id && e.rid !in s.readings) || (e.ChangeRole? && e.id == id))
  }

  /** How often a run revokes the user's sessions. */
  function Revocations(s: State, events: seq<Event>, id: nat): nat
    decreases |events|
  {
    if events == [] then 0
    else (if Revokes(s, events[0], id) then 1 else 0) + Revocations(Step(s, events[0]), events[1..], id)
  }

  // ---------------------------------------------------------------- the request store and the guard

  datatype Decision = Allowed | Unauthenticated | InvalidToken

  const BEARER := "Bearer "

  predicate FromHeader(header: Option<string>) {
    header.Some? && BEARER <= header.value
  }

  /** The credential a request presents: the bearer token of its header, else its session cookie;
      empty if it has none. */
  function Presented(header: Option<string>, cookie: Option<string>): string {
    if FromHeader(header) then header.value[|BEARER|..] else cookie.GetOr("")
  }

  /** A header that starts with `Bearer ` presents what follows, even if it is empty; otherwise the cookie counts. */
  lemma PresentedExactly(header: Option<string>, cookie: Option<string>, token: string)
    ensures header == Some("Bearer " + token) ==> FromHeader(header) && Presented(header, cookie) == token
    ensures header == None || !("Bearer " <= header.value) ==>
      && !FromHeader(header)
      && Presented(header, cookie) == match cookie case None => "" case Some(c) => c
  {
  }

  /** The guard accepts a token exactly if its user exists and still is in the token's organisation, that organisation
      is active, the user's version is the token's, and the role is known. */
  lemma AcceptsExactly(users: map<nat, User>, activeOrgs: set<nat>, t: Token)
    ensures Accepts(users, activeOrgs, t) <==>
      && t.userId in users && users[t.userId].orgId == t.orgId && t.orgId in activeOrgs
      && users[t.userId].sessionVersion == t.version && users[t.userId].role != None
  {
  }

  class RequestStore {
    var actorId: Option<nat>
    var orgId: Option<nat>
    var role: Option<string>

    constructor (role: Option<string>)
      ensures actorId == None && orgId == None && this.role == role
    {
      actorId, orgId := None, None;
      this.role := role;
    }

    /** The guard: `verify` checks a token's signature and expiry. A request that presents a token passes exactly when
        the token is accepted, and only then does the store say who it is; without a token, and with an unreadable
        cookie, only public routes pass, and without a token also a request whose store has a role already. */
    method CanActivate(users: map<nat, User>, activeOrgs: set<nat>, verify: string -> Option<Token>,
                       isPublic: bool, header: Option<string>, cookie: Option<string>) returns (d: Decision)
      modifies this
      ensures var token := Presented(header, cookie);
        if token == "" then d == if isPublic || old(role).GetOr("") != "" then Allowed else Unauthenticated
        else match verify(token)
             case None => d == if isPublic && !FromHeader(header) then Allowed else InvalidToken
             case Some(claims) => d == if Accepts(users, activeOrgs, claims) then Allowed else Unauthenticated
      ensures forall token | header == Some("Bearer " + token) && token != "" ::
        d == match verify(token)
             case None => InvalidToken
             case Some(claims) => if Accepts(users, activeOrgs, claims) then Allowed else Unauthenticated
      ensures header == Some("Bearer ") || (header == None && (cookie == None || cookie == Some(""))) ==>
        d == if isPublic || (old(role) != None && old(role) != Some("")) then Allowed else Unauthenticated
      ensures forall token | (header == None || !("Bearer " <= header.value)) && cookie == Some(token) && token != "" ::
        d == match verify(token)
             case None => if isPublic then Allowed else InvalidToken
             case Some(claims) => if Accepts(users, activeOrgs, claims) then Allowed else Unauthenticated
      ensures var claims := verify(Presented(header, cookie));
        if d == Allowed && Presented(header, cookie) != "" && claims.Some? then
          && actorId == Some(claims.value.userId)
          && orgId == Some(users[claims.value.userId].orgId) && role == users[claims.value.userId].role
        else
          actorId == old(actorId) && orgId == old(orgId) && role == old(role)
    {
      var fromHeader := FromHeader(header);
      var token := Presented(header, cookie);
      if token == "" {
        return if isPublic || role.GetOr("") != "" then Allowed else Unauthenticated;
      }
      var read := verify(token);
      if read == None {
        return if isPublic && !fromHeader then Allowed else InvalidToken;
      }
      var claims := read.value;
      if claims.userId !in users { return Unauthenticated; }
      var current := users[claims.userId];
      if current.orgId !in activeOrgs || current.orgId != claims.orgId || current.sessionVersion != claims.version
         || current.role == None {
        return Unauthenticated;
      }
      actorId, orgId, role := Some(claims.userId), Some(current.orgId), current.role;
      return Allowed;
    }
  }

  // ---------------------------------------------------------------- invariants

  /** Every reading and every token was taken from its user's row at that version or an earlier one. */
  ghost predicate Inv(s: State) {
    && (forall rid | rid in s.readings ::
          var r := s.readings[rid];
          r.userId in s.users && r.orgId == s.users[r.userId].orgId && r.version <= s.users[r.userId].sessionVersion)
    && (forall t | t in s.tokens ::
          t.source in s.readings && s.readings[t.source] == Reading(t.userId, t.orgId, t.version))
  }

  /** Versions never fall, users stay in their organisation, and readings are never changed. */
  ghost predicate Grows(s: State, t: State) {
    && (forall id | id in s.users ::
          id in t.users && t.users[id].orgId == s.users[id].orgId
              && t.users[id].sessionVersion >= s.users[id].sessionVersion)
    && (forall rid | rid in s.readings :: rid in t.readings && t.readings[rid] == s.readings[rid])
    && s.tokens <= t.tokens
  }

  lemma InitOk()
    ensures Inv(INIT)
  {
  }

  lemma StepKeeps(s: State, e: Event)
    requires Inv(s)
    ensures Inv(Step(s, e)) && Grows(s, Step(s, e))
  {
  }

  lemma {:induction false} RunKeeps(s: State, events: seq<Event>)
    requires Inv(s)
    ensures Inv(RunFrom(s, events)) && Grows(s, RunFrom(s, events))
    decreases |events|
  {
    if events != [] {
      var t := Step(s, events[0]);
      StepKeeps(s, events[0]);
      RunKeeps(t, events[1..]);
      var u := RunFrom(t, events[1..]);
      assert Grows(t, u);
    }
  }

  lemma {:induction false} RunAppend(s: State, xs: seq<Event>, ys: seq<Event>)
    ensures RunFrom(s, xs + ys) == RunFrom(RunFrom(s, xs), ys)
    decreases |xs|
  {
    if xs == [] {
      assert xs + ys == ys;
    } else {
      assert (xs + ys)[1..] == xs[1..] + ys;
      RunAppend(Step(s, xs[0]), xs[1..], ys);
    }
  }

  // ---------------------------------------------------------------- what holds in every run

  /** In every run a token's version is at most its user's current version. */
  lemma TokensNotAhead(events: seq<Event>, t: Token)
    requires t in RunFrom(INIT, events).tokens
    ensures var s := RunFrom(INIT, events);
      t.userId in s.users && t.orgId == s.users[t.userId].orgId && t.version <= s.users[t.userId].sessionVersion
  {
    RunKeeps(INIT, events);
  }

  /** The version counts the revocations. */
  lemma {:induction false} VersionCountsRevocations(s: State, events: seq<Event>, id: nat)
    requires id in s.users
    ensures id in RunFrom(s, events).users
    ensures RunFrom(s, events).users[id].sessionVersion == s.users[id].sessionVersion + Revocations(s, events, id)
    ensures RunFrom(s, events).users[id].orgId == s.users[id].orgId
    decreases |events|
  {
    if events != [] {
      VersionCountsRevocations(Step(s, events[0]), events[1..], id);
    }
  }

  /** The step takes a new reading of the user for the request. */
  predicate TakesReading(s: State, e: Event, rid: nat, id: nat) {
    id in s.users && rid !in s.readings && (e == Read(rid, id) || e == BumpAndRead(rid, id))
  }

  /** Whatever happens after a reading, its token carries what was read. */
  lemma TokenKeepsReading(s: State, events: seq<Event>, t: Token)
    requires Inv(s) && t.source in s.readings && t in RunFrom(s, events).tokens
    ensures Reading(t.userId, t.orgId, t.version) == s.readings[t.source]
  {
    RunKeeps(s, events);
  }

  /** A token is accepted exactly while its user has not been revoked since the token's row was read,
      and the organisation is active and the role known now. */
  lemma AcceptedExactly(before: seq<Event>, e: Event, after: seq<Event>, rid: nat, id: nat, t: Token)
    requires TakesReading(RunFrom(INIT, before), e, rid, id)
    requires t in RunFrom(Step(RunFrom(INIT, before), e), after).tokens && t.source == rid
    ensures
      var s := Step(RunFrom(INIT, before), e);
      var u := RunFrom(s, after);
      && t.userId == id && id in u.users
      && (AcceptsIn(u, t) <==>
            Revocations(s, after, id) == 0 && u.users[id].orgId in u.activeOrgs && u.users[id].role.Some?)
  {
    hide RunFrom, Inv, Grows;
    var s := Step(RunFrom(INIT, before), e);
    assert Inv(INIT) by { InitOk(); }
    RunKeeps(INIT, before);
    StepKeeps(RunFrom(INIT, before), e);
    TokenKeepsReading(s, after, t);
    VersionCountsRevocations(s, after, id);
  }

  /** After a logout, password change or reset, no token signed from an earlier reading is ever accepted again,
      even one that is signed only later. */
  lemma RevokedForever(before: seq<Event>, e: Event, after: seq<Event>, id: nat, t: Token)
    requires Revokes(RunFrom(INIT, before), e, id)
    requires t.source in RunFrom(INIT, before).readings && t.userId == id
    requires t in RunFrom(Step(RunFrom(INIT, before), e), after).tokens
    ensures !AcceptsIn(RunFrom(Step(RunFrom(INIT, before), e), after), t)
  {
    hide RunFrom, Grows;
    var s := RunFrom(INIT, before);
    var r := Step(s, e);
    RunKeeps(INIT, before);
    StepKeeps(s, e);
    TokenKeepsReading(r, after, t);
    VersionCountsRevocations(r, after, id);
  }
}
