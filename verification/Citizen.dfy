/** The citizen survey: one-time codes, their verification, and one response per verified code.

    A request runs as a sequence of atomic database steps. `Step` performs one of them, and a run is any
    sequence of steps of any requests, so a statement about every run covers every interleaving. */
module Citizen {
  import opened Wrappers
  import opened Text

  const OTP_TTL := 10 * 60 * 1000
  const OTP_MAX_ATTEMPTS := 5

  datatype Link = Link(orgId: string, needId: string, studyId: string)

  /** What no request changes: survey links, case mapping, and the password hash check. */
  datatype Env = Env(links: map<nat, Link>, lower: CaseMap, verify: (string, string) -> bool)

  datatype Challenge = Challenge(linkId: nat, contact: string, mobile: Option<string>, codeHash: string,
                                 expiresAt: int, attempts: nat, verifiedAt: Option<int>, consumedAt: Option<int>)

  datatype Response = Response(link: Link, linkId: nat, contact: string, mobile: Option<string>)

  datatype Outcome =
    | Verified | OtpExpired | TooManyAttempts | OtpIncorrect | ChallengeNotFound
    | NotVerified | AlreadyUsed | DuplicateSubmission | SurveyNotPublished | SurveyVersionChanged | Submitted
    | UniqueViolation | Crashed | LinkNotFound

  /** The questions of the Need's published survey, if there is one, and the questions that were answered. */
  datatype Survey = Survey(published: Option<set<string>>, answered: set<string>)

  const OPEN_SURVEY := Survey(Some({}), {})

  /** Nothing is published any more, or everything that was answered belongs to another version. */
  function Refusal(v: Survey): Option<Outcome> {
    if v.published == None then Some(SurveyNotPublished)
    else if v.answered != {} && v.answered !! v.published.value then Some(SurveyVersionChanged)
    else None
  }

  /** Where a request stands: what it has read so far, or its answer. */
  datatype Request =
    | Verifying(id: nat, row: Challenge, code: string)
    | Guessing(id: nat, code: string, matches: bool)
    | Submitting(id: nat, row: Challenge)
    | Claimed(id: nat, row: Challenge, at: int)
    | Cleared(id: nat, row: Challenge, at: int, readAt: nat)
    | Answered(id: nat, outcome: Outcome)
  {
    /** The submit transaction holds the challenge's row lock. */
    predicate Open() {
      Claimed? || Cleared?
    }
  }

  datatype Db = Db(challenges: map<nat, Challenge>, responses: seq<Response>)

  /** History: which challenge a response came from, and when its duplicate read and its commit happened. */
  datatype Submission = Submission(id: nat, readAt: nat, commitAt: nat)

  datatype State = State(db: Db, requests: map<nat, Request>, steps: nat,
                         submissions: seq<Submission>, guesses: map<nat, seq<string>>)

  const INIT := State(Db(map[], []), map[], 0, [], map[])

  // ---------------------------------------------------------------- normalisation

  function NormalizeContact(lower: CaseMap, contact: string): string {
    lower(Trim(contact))
  }

  predicate IsDigitText(c: char) {
    !IsSpace(c) && c != '-' && c != '(' && c != ')'
  }

  function NormalizeMobile(mobile: string): string {
    Filter(IsDigitText, Trim(mobile))
  }

  // ---------------------------------------------------------------- the atomic database operations

  function NewChallenge(env: Env, linkId: nat, contact: string, mobile: string, codeHash: string, now: int): Challenge {
    Challenge(linkId, NormalizeContact(env.lower, contact), Some(NormalizeMobile(mobile)), codeHash,
              now + OTP_TTL, 0, None, None)
  }

  /** The row a request may work on: it exists and belongs to the link. */
  predicate Found(db: Db, linkId: nat, id: nat) {
    id in db.challenges && db.challenges[id].linkId == linkId
  }

  /** The guard of the update that counts a guess. */
  predicate CanGuess(c: Challenge, cutoff: int) {
    c.verifiedAt == None && c.consumedAt == None && c.expiresAt > cutoff && c.attempts < OTP_MAX_ATTEMPTS
  }

  function Guessed(c: Challenge, matches: bool, now: int): Challenge {
    if matches then c.(verifiedAt := Some(now)) else c.(attempts := c.attempts + 1)
  }

  /** The guard of the update that claims a challenge for a submission. */
  predicate CanClaim(c: Challenge) {
    c.verifiedAt.Some? && c.consumedAt == None
  }

  /** A stored response of the Need with the contact, or with the mobile if there is one. */
  predicate Matches(r: Response, needId: string, contact: string, mobile: Option<string>) {
    r.link.needId == needId && (r.contact == contact || (mobile.Some? && mobile.value != "" && r.mobile == mobile))
  }

  /** The transaction's duplicate read. */
  predicate Clash(r: Response, needId: string, c: Challenge) {
    Matches(r, needId, c.contact, c.mobile)
  }

  predicate HasClash(db: Db, needId: string, c: Challenge) {
    exists i | 0 <= i < |db.responses| :: Clash(db.responses[i], needId, c)
  }

  function ResponseFor(link: Link, c: Challenge): Response {
    Response(link, c.linkId, c.contact, c.mobile)
  }

  /** The rows agree in a unique index: of one Need, with one contact or one mobile; a missing mobile is exempt,
      an empty one is not. */
  predicate SameKey(a: Response, b: Response) {
    a.link.needId == b.link.needId && (a.contact == b.contact || (a.mobile.Some? && a.mobile == b.mobile))
  }

  /** The indexes refuse the row. */
  predicate Violates(db: Db, r: Response) {
    exists i | 0 <= i < |db.responses| :: SameKey(db.responses[i], r)
  }

  function Commit(db: Db, link: Link, id: nat, c: Challenge, at: int): Db
    requires id in db.challenges
  {
    Db(db.challenges[id := db.challenges[id].(consumedAt := Some(at))], db.responses + [ResponseFor(link, c)])
  }

  /** The advisory check made before a code is requested; here the mobile always takes part. */
  predicate CheckDuplicate(env: Env, db: Db, needId: string, contact: string, mobile: string) {
    exists i | 0 <= i < |db.responses| ::
      var r := db.responses[i];
      r.link.needId == needId
      && (r.contact == NormalizeContact(env.lower, contact) || r.mobile == Some(NormalizeMobile(mobile)))
  }

  // ---------------------------------------------------------------- the machine

  datatype Event =
    | RequestOtp(id: nat, linkId: nat, contact: string, mobile: string, codeHash: string, now: int)
    | StartVerify(rid: nat, linkId: nat, id: nat, code: string, now: int)
    | CheckCode(rid: nat)
    | CountGuess(rid: nat, cutoff: int, now: int)
    | StartSubmit(rid: nat, linkId: nat, id: nat)
    | Claim(rid: nat, now: int)
    | ReadDuplicates(rid: nat)
    | Finish(rid: nat, survey: Survey)
    | Crash(rid: nat)

  predicate Locked(s: State, id: nat) {
    exists rid | rid in s.requests :: s.requests[rid].id == id && s.requests[rid].Open()
  }

  /** How a verification begins: the early answers, or the stale copy it goes on with. */
  function BeginVerify(db: Db, linkId: nat, id: nat, code: string, now: int): Request {
    if !Found(db, linkId, id) then Answered(id, ChallengeNotFound)
    else
      var c := db.challenges[id];
      if c.verifiedAt.Some? then Answered(id, Verified)
      else if c.expiresAt < now then Answered(id, OtpExpired)
      else if c.attempts >= OTP_MAX_ATTEMPTS then Answered(id, TooManyAttempts)
      else Verifying(id, c, code)
  }

  function BeginSubmit(db: Db, linkId: nat, id: nat): Request {
    if !Found(db, linkId, id) then Answered(id, ChallengeNotFound)
    else
      var c := db.challenges[id];
      if c.verifiedAt == None then Answered(id, NotVerified)
      else if c.consumedAt.Some? then Answered(id, AlreadyUsed)
      else Submitting(id, c)
  }

  function Begin(db: Db, e: Event): Request
    requires e.StartVerify? || e.StartSubmit?
  {
    if e.StartVerify? then BeginVerify(db, e.linkId, e.id, e.code, e.now) else BeginSubmit(db, e.linkId, e.id)
  }

  /** Moves one request on. */
  function Go(s: State, rid: nat, r: Request): State {
    s.(requests := s.requests[rid := r])
  }

  function AddChallenge(s: State, id: nat, c: Challenge): State {
    s.(db := s.db.(challenges := s.db.challenges[id := c]), guesses := s.guesses[id := []])
  }

  /** The guarded update has matched: the guess is counted. */
  function CountOn(s: State, rid: nat, id: nat, code: string, matches: bool, now: int): State
    requires id in s.db.challenges && id in s.guesses
  {
    Go(s, rid, Answered(id, if matches then Verified else OtpIncorrect))
      .(db := s.db.(challenges := s.db.challenges[id := Guessed(s.db.challenges[id], matches, now)]),
        guesses := s.guesses[id := s.guesses[id] + [code]])
  }

  /** The claim and the new response become visible together. */
  function CommitOn(link: Link, s: State, rid: nat, id: nat, row: Challenge, at: int, readAt: nat): State
    requires id in s.db.challenges
  {
    Go(s, rid, Answered(id, Submitted))
      .(db := Commit(s.db, link, id, row, at), submissions := s.submissions + [Submission(id, readAt, s.steps)])
  }

  function ActOn(env: Env, s: State, e: Event, r: Request): State
    requires !e.RequestOtp? && e.rid in s.requests && s.requests[e.rid] == r
  {
    match e
    case CheckCode(rid) =>
      if r.Verifying? then Go(s, rid, Guessing(r.id, r.code, env.verify(r.row.codeHash, r.code))) else s
    case CountGuess(rid, cutoff, now) =>
      if !r.Guessing? || Locked(s, r.id) || r.id !in s.db.challenges || r.id !in s.guesses then s
      else if CanGuess(s.db.challenges[r.id], cutoff) then CountOn(s, rid, r.id, r.code, r.matches, now)
      else Go(s, rid, Answered(r.id, TooManyAttempts))
    case Claim(rid, now) =>
      if !r.Submitting? || Locked(s, r.id) || r.id !in s.db.challenges then s
      else if CanClaim(s.db.challenges[r.id]) then Go(s, rid, Claimed(r.id, r.row, now))
      else Go(s, rid, Answered(r.id, AlreadyUsed))
    case ReadDuplicates(rid) =>
      if !r.Claimed? || r.row.linkId !in env.links then s
      else if HasClash(s.db, env.links[r.row.linkId].needId, r.row) then Go(s, rid, Answered(r.id, DuplicateSubmission))
      else Go(s, rid, Cleared(r.id, r.row, r.at, s.steps))
    case Finish(rid, survey) =>
      if !r.Cleared? || r.row.linkId !in env.links || r.id !in s.db.challenges then s
      else if Refusal(survey).Some? then Go(s, rid, Answered(r.id, Refusal(survey).value))
      else if Violates(s.db, ResponseFor(env.links[r.row.linkId], r.row)) then
        Go(s, rid, Answered(r.id, UniqueViolation))
      else CommitOn(env.links[r.row.linkId], s, rid, r.id, r.row, r.at, r.readAt)
    case Crash(rid) => if r.Answered? then s else Go(s, rid, Answered(r.id, Crashed))
    case _ => s
  }

  function Act(env: Env, s: State, e: Event): State {
    match e
    case RequestOtp(id, linkId, contact, mobile, codeHash, now) =>
      if id in s.db.challenges || linkId !in env.links then s
      else AddChallenge(s, id, NewChallenge(env, linkId, contact, mobile, codeHash, now))
    case StartVerify(rid, linkId, id, code, now) =>
      if rid in s.requests || linkId !in env.links then s else Go(s, rid, Begin(s.db, e))
    case StartSubmit(rid, linkId, id) =>
      if rid in s.requests || linkId !in env.links then s else Go(s, rid, Begin(s.db, e))
    case _ => if e.rid in s.requests then ActOn(env, s, e, s.requests[e.rid]) else s
  }

  function Step(env: Env, s: State, e: Event): State {
    Act(env, s, e).(steps := s.steps + 1)
  }

  function RunFrom(env: Env, s: State, events: seq<Event>): State {
    if events == [] then s else Step(env, RunFrom(env, s, events[..|events| - 1]), events[|events| - 1])
  }

  function Run(env: Env, events: seq<Event>): State {
    RunFrom(env, INIT, events)
  }

  // ---------------------------------------------------------------- the invariant

  /** A challenge row is the summary of the guesses counted on it. */
  ghost predicate Summarises(env: Env, c: Challenge, g: seq<string>) {
    if c.verifiedAt == None then
      |g| == c.attempts <= OTP_MAX_ATTEMPTS
      && forall i | 0 <= i < |g| :: !env.verify(c.codeHash, g[i])
    else
      |g| == c.attempts + 1 <= OTP_MAX_ATTEMPTS
      && env.verify(c.codeHash, g[|g| - 1])
      && forall i | 0 <= i < |g| - 1 :: !env.verify(c.codeHash, g[i])
  }

  ghost predicate GuessesOk(env: Env, s: State) {
    && s.guesses.Keys == s.db.challenges.Keys
    && forall id | id in s.db.challenges ::
         s.db.challenges[id].linkId in env.links && Summarises(env, s.db.challenges[id], s.guesses[id])
  }

  ghost predicate SubmissionOk(env: Env, s: State, i: nat)
    requires i < |s.submissions| == |s.db.responses|
  {
    var id := s.submissions[i].id;
    && id in s.db.challenges
    && var c := s.db.challenges[id];
    && c.linkId in env.links && c.consumedAt.Some?
    && s.db.responses[i] == ResponseFor(env.links[c.linkId], c)
    && s.submissions[i].readAt < s.submissions[i].commitAt < s.steps
  }

  ghost predicate Submits(s: State, id: nat) {
    exists i | 0 <= i < |s.submissions| :: s.submissions[i].id == id
  }

  ghost predicate ResponsesOk(env: Env, s: State) {
    && |s.submissions| == |s.db.responses|
    && (forall i | 0 <= i < |s.submissions| :: SubmissionOk(env, s, i))
    && (forall i, j | 0 <= i < j < |s.submissions| ::
          s.submissions[i].id != s.submissions[j].id && s.submissions[i].commitAt < s.submissions[j].commitAt)
    && (forall id | id in s.db.challenges && s.db.challenges[id].consumedAt.Some? ::
          s.db.challenges[id].verifiedAt.Some? && Submits(s, id))
  }

  /** The columns of a challenge that nothing ever updates. */
  ghost predicate SameIdentity(a: Challenge, b: Challenge) {
    a.linkId == b.linkId && a.contact == b.contact && a.mobile == b.mobile && a.codeHash == b.codeHash
    && a.expiresAt == b.expiresAt
  }

  /** Time only adds: rows keep their identity, a verified row is frozen, a consumed row stays consumed. */
  ghost predicate Evolves(s: State, t: State) {
    && s.steps <= t.steps
    && (forall id | id in s.db.challenges ::
          id in t.db.challenges && RowEvolves(s.db.challenges[id], t.db.challenges[id]))
    && s.db.responses <= t.db.responses && s.submissions <= t.submissions
  }

  ghost predicate RowEvolves(a: Challenge, b: Challenge) {
    && SameIdentity(a, b) && a.attempts <= b.attempts
    && (a.verifiedAt.Some? ==> b.verifiedAt == a.verifiedAt && b.attempts == a.attempts)
    && (a.consumedAt.Some? ==> b.consumedAt == a.consumedAt)
  }

  ghost predicate Holds(db: Db, id: nat, row: Challenge) {
    id in db.challenges && SameIdentity(row, db.challenges[id])
  }

  ghost predicate RequestOk(env: Env, db: Db, r: Request) {
    match r
    case Verifying(id, row, code) => Holds(db, id, row)
    case Guessing(id, code, matches) =>
      id in db.challenges && matches == env.verify(db.challenges[id].codeHash, code)
    case Submitting(id, row) => Holds(db, id, row)
    case Claimed(id, row, at) => Holds(db, id, row) && CanClaim(db.challenges[id])
    case Cleared(id, row, at, readAt) => Holds(db, id, row) && CanClaim(db.challenges[id])
    case Answered(id, o) =>
      && (o == Verified ==> id in db.challenges && db.challenges[id].verifiedAt.Some?)
      && (o == Submitted ==> id in db.challenges && db.challenges[id].consumedAt.Some?)
  }

  ghost predicate RequestsOk(env: Env, s: State) {
    && (forall rid | rid in s.requests :: RequestOk(env, s.db, s.requests[rid]))
    && (forall p, q | p in s.requests && q in s.requests && p != q ::
          s.requests[p].Open() && s.requests[q].Open() ==> s.requests[p].id != s.requests[q].id)
  }

  /** A transaction that has read no duplicate has missed only what was committed after its read. */
  ghost predicate ReadOk(env: Env, s: State, r: Request) {
    r.Cleared? && r.row.linkId in env.links && |s.submissions| == |s.db.responses| ==>
      && r.readAt < s.steps
      && forall i | 0 <= i < |s.db.responses| ::
           Clash(s.db.responses[i], env.links[r.row.linkId].needId, r.row) ==> r.readAt < s.submissions[i].commitAt
  }

  ghost predicate ReadsOk(env: Env, s: State) {
    forall rid | rid in s.requests :: ReadOk(env, s, s.requests[rid])
  }

  ghost predicate Inv(env: Env, s: State) {
    GuessesOk(env, s) && ResponsesOk(env, s) && RequestsOk(env, s) && ReadsOk(env, s)
  }

  // ---------------------------------------------------------------- every step keeps it

  function Tick(s: State): State {
    s.(steps := s.steps + 1)
  }

  lemma TickKeeps(env: Env, s: State)
    requires Inv(env, s)
    ensures Inv(env, Tick(s)) && Evolves(s, Tick(s))
  {
    var t := Tick(s);
    forall i | 0 <= i < |t.submissions| ensures SubmissionOk(env, t, i) { assert SubmissionOk(env, s, i); }
    forall id | Submits(s, id) ensures Submits(t, id) {}
    forall rid | rid in t.requests ensures ReadOk(env, t, t.requests[rid]) { assert ReadOk(env, s, s.requests[rid]); }
  }

  /** Rows may evolve, and rows may be added, without disturbing what was submitted. */
  lemma ResponsesKept(env: Env, s: State, t: State)
    requires GuessesOk(env, s) && ResponsesOk(env, s) && Evolves(s, t)
    requires t.submissions == s.submissions && t.db.responses == s.db.responses
    requires forall id | id in t.db.challenges && t.db.challenges[id].consumedAt.Some? ::
               id in s.db.challenges && s.db.challenges[id].consumedAt.Some?
    ensures ResponsesOk(env, t)
  {
    forall i | 0 <= i < |t.submissions| ensures SubmissionOk(env, t, i) {
      assert SubmissionOk(env, s, i);
      var id := s.submissions[i].id;
      assert RowEvolves(s.db.challenges[id], t.db.challenges[id]);
    }
    forall id | id in t.db.challenges && t.db.challenges[id].consumedAt.Some?
      ensures t.db.challenges[id].verifiedAt.Some? && Submits(t, id)
    {
      assert RowEvolves(s.db.challenges[id], t.db.challenges[id]);
      assert Submits(s, id);
      var i :| 0 <= i < |s.submissions| && s.submissions[i].id == id;
      assert t.submissions[i].id == id;
    }
  }

  /** A request whose challenge is not claimed from under it stays well placed. */
  lemma RequestKept(env: Env, s: State, t: State, r: Request)
    requires Evolves(s, t) && RequestOk(env, s.db, r)
    requires r.Open() ==> t.db.challenges[r.id] == s.db.challenges[r.id]
    ensures RequestOk(env, t.db, r)
  {
    if r.id in s.db.challenges {
      assert RowEvolves(s.db.challenges[r.id], t.db.challenges[r.id]);
    }
  }

  /** Request `rid` moves to `r`; no other open request's challenge is touched. */
  ghost predicate Moves(env: Env, s: State, t: State, rid: nat, r: Request) {
    && t.requests == s.requests[rid := r] && t.steps == s.steps + 1
    && t.submissions == s.submissions && t.db.responses == s.db.responses
    && RequestOk(env, t.db, r) && ReadOk(env, t, r)
    && forall p | p in s.requests && p != rid && s.requests[p].Open() ::
         var id := s.requests[p].id;
         id in s.db.challenges && id in t.db.challenges && t.db.challenges[id] == s.db.challenges[id]
         && (r.Open() ==> id != r.id)
  }

  lemma MovesRequests(env: Env, s: State, t: State, rid: nat, r: Request)
    requires RequestsOk(env, s) && Evolves(s, t) && Moves(env, s, t, rid, r)
    ensures RequestsOk(env, t)
  {
    forall p | p in t.requests ensures RequestOk(env, t.db, t.requests[p]) {
      if p != rid { RequestKept(env, s, t, s.requests[p]); }
    }
  }

  lemma MovesReads(env: Env, s: State, t: State, rid: nat, r: Request)
    requires ReadsOk(env, s) && Moves(env, s, t, rid, r)
    ensures ReadsOk(env, t)
  {
    forall p | p in t.requests ensures ReadOk(env, t, t.requests[p]) {
      if p != rid { assert ReadOk(env, s, s.requests[p]); }
    }
  }

  /** Moving a request on without touching a table. */
  lemma GoKeeps(env: Env, s: State, rid: nat, r: Request)
    requires Inv(env, s) && RequestOk(env, s.db, r) && ReadOk(env, Tick(s), r)
    requires r.Open() ==>
      !Locked(s, r.id) || (rid in s.requests && s.requests[rid].Open() && s.requests[rid].id == r.id)
    ensures Inv(env, Tick(Go(s, rid, r))) && Evolves(s, Tick(Go(s, rid, r)))
  {
    var t := Tick(Go(s, rid, r));
    ResponsesKept(env, s, t);
    assert Moves(env, s, t, rid, r) by {
      forall p | p in s.requests && p != rid && s.requests[p].Open()
        ensures s.requests[p].id in s.db.challenges && (r.Open() ==> s.requests[p].id != r.id)
      {
        assert RequestOk(env, s.db, s.requests[p]);
      }
    }
    MovesRequests(env, s, t, rid, r);
    MovesReads(env, s, t, rid, r);
  }

  lemma AddRows(env: Env, s: State, id: nat, c: Challenge)
    requires GuessesOk(env, s) && id !in s.db.challenges && c.linkId in env.links
    requires c.attempts == 0 && c.verifiedAt == None && c.consumedAt == None
    ensures GuessesOk(env, Tick(AddChallenge(s, id, c))) && Evolves(s, Tick(AddChallenge(s, id, c)))
  {
    var t := Tick(AddChallenge(s, id, c));
    forall k | k in t.db.challenges
      ensures t.db.challenges[k].linkId in env.links && Summarises(env, t.db.challenges[k], t.guesses[k])
      ensures k in s.db.challenges ==> RowEvolves(s.db.challenges[k], t.db.challenges[k])
    {
      assert k != id ==> Summarises(env, s.db.challenges[k], s.guesses[k]);
    }
  }

  lemma AddKeeps(env: Env, s: State, id: nat, c: Challenge)
    requires Inv(env, s) && id !in s.db.challenges && c.linkId in env.links
    requires c.attempts == 0 && c.verifiedAt == None && c.consumedAt == None
    ensures Inv(env, Tick(AddChallenge(s, id, c))) && Evolves(s, Tick(AddChallenge(s, id, c)))
  {
    var t := Tick(AddChallenge(s, id, c));
    AddRows(env, s, id, c);
    ResponsesKept(env, s, t);
    forall p | p in t.requests ensures RequestOk(env, t.db, t.requests[p]) && ReadOk(env, t, t.requests[p]) {
      assert RequestOk(env, s.db, s.requests[p]) && ReadOk(env, s, s.requests[p]);
      RequestKept(env, s, t, s.requests[p]);
    }
  }

  lemma SummaryGrows(env: Env, c: Challenge, g: seq<string>, code: string, now: int)
    requires Summarises(env, c, g) && c.verifiedAt == None && c.attempts < OTP_MAX_ATTEMPTS
    ensures Summarises(env, Guessed(c, env.verify(c.codeHash, code), now), g + [code])
  {
  }

  lemma CountGuesses(env: Env, s: State, rid: nat, id: nat, code: string, now: int)
    requires GuessesOk(env, s) && id in s.db.challenges
    requires s.db.challenges[id].verifiedAt == None && s.db.challenges[id].attempts < OTP_MAX_ATTEMPTS
    ensures var t := Tick(CountOn(s, rid, id, code, env.verify(s.db.challenges[id].codeHash, code), now));
      GuessesOk(env, t) && Evolves(s, t)
  {
    var t := Tick(CountOn(s, rid, id, code, env.verify(s.db.challenges[id].codeHash, code), now));
    SummaryGrows(env, s.db.challenges[id], s.guesses[id], code, now);
    forall k | k in t.db.challenges
      ensures t.db.challenges[k].linkId in env.links && Summarises(env, t.db.challenges[k], t.guesses[k])
      ensures RowEvolves(s.db.challenges[k], t.db.challenges[k])
    {
      assert k != id ==> Summarises(env, s.db.challenges[k], s.guesses[k]);
    }
  }

  lemma OpenElsewhere(env: Env, s: State, id: nat)
    requires RequestsOk(env, s) && !Locked(s, id)
    ensures forall p | p in s.requests && s.requests[p].Open() ::
        s.requests[p].id in s.db.challenges && s.requests[p].id != id
  {
    forall p | p in s.requests && s.requests[p].Open()
      ensures s.requests[p].id in s.db.challenges && s.requests[p].id != id {
      assert RequestOk(env, s.db, s.requests[p]);
    }
  }

  lemma CountMoves(env: Env, s: State, rid: nat, id: nat, code: string, now: int)
    requires RequestsOk(env, s) && id in s.db.challenges && id in s.guesses && !Locked(s, id)
    ensures var matches := env.verify(s.db.challenges[id].codeHash, code);
      Moves(env, s, Tick(CountOn(s, rid, id, code, matches, now)), rid,
          Answered(id, if matches then Verified else OtpIncorrect))
  {
    OpenElsewhere(env, s, id);
  }

  /** A counted guess touches one unverified, unclaimed row. */
  lemma CountKeeps(env: Env, s: State, rid: nat, id: nat, code: string, now: int)
    requires Inv(env, s) && id in s.db.challenges && !Locked(s, id)
    requires s.db.challenges[id].verifiedAt == None && s.db.challenges[id].consumedAt == None
    requires s.db.challenges[id].attempts < OTP_MAX_ATTEMPTS
    ensures var t := Tick(CountOn(s, rid, id, code, env.verify(s.db.challenges[id].codeHash, code), now));
      Inv(env, t) && Evolves(s, t)
  {
    var matches := env.verify(s.db.challenges[id].codeHash, code);
    var t := Tick(CountOn(s, rid, id, code, matches, now));
    var r := Answered(id, if matches then Verified else OtpIncorrect);
    hide GuessesOk, ResponsesOk, RequestsOk, ReadsOk, Evolves, Moves, Locked;
    CountGuesses(env, s, rid, id, code, now);
    ResponsesKept(env, s, t);
    CountMoves(env, s, rid, id, code, now);
    MovesRequests(env, s, t, rid, r);
    MovesReads(env, s, t, rid, r);
  }

  ghost predicate MayCommit(env: Env, s: State, rid: nat) {
    && rid in s.requests && s.requests[rid].Cleared? && s.requests[rid].row.linkId in env.links
    && s.requests[rid].id in s.db.challenges
  }

  ghost function Committed(env: Env, s: State, rid: nat): State
    requires MayCommit(env, s, rid)
  {
    var r := s.requests[rid];
    Tick(CommitOn(env.links[r.row.linkId], s, rid, r.id, r.row, r.at, r.readAt))
  }

  lemma CommitRows(env: Env, s: State, rid: nat)
    requires GuessesOk(env, s) && MayCommit(env, s, rid) && RequestOk(env, s.db, s.requests[rid])
    ensures GuessesOk(env, Committed(env, s, rid)) && Evolves(s, Committed(env, s, rid))
  {
    var t, id := Committed(env, s, rid), s.requests[rid].id;
    forall k | k in t.db.challenges
      ensures t.db.challenges[k].linkId in env.links && Summarises(env, t.db.challenges[k], t.guesses[k])
      ensures RowEvolves(s.db.challenges[k], t.db.challenges[k])
    {
      assert Summarises(env, s.db.challenges[k], s.guesses[k]);
    }
  }

  /** An earlier submission is as it was, and was not of the challenge that is claimed now. */
  lemma CommitSubmissionOld(env: Env, s: State, rid: nat, i: nat)
    requires ResponsesOk(env, s) && MayCommit(env, s, rid) && RequestOk(env, s.db, s.requests[rid])
        && i < |s.submissions|
    ensures var t := Committed(env, s, rid);
      && |t.submissions| == |t.db.responses| && SubmissionOk(env, t, i)
      && t.submissions[i].id != s.requests[rid].id && t.submissions[i].commitAt < s.steps
  {
    assert SubmissionOk(env, s, i);
  }

  lemma CommitSubmissionNew(env: Env, s: State, rid: nat)
    requires GuessesOk(env, s) && |s.submissions| == |s.db.responses| && MayCommit(env, s, rid)
    requires RequestOk(env, s.db, s.requests[rid]) && ReadOk(env, s, s.requests[rid])
    ensures var t := Committed(env, s, rid);
      |t.submissions| == |t.db.responses| && SubmissionOk(env, t, |s.submissions|)
  {
  }

  lemma CommitSubmissions(env: Env, s: State, rid: nat)
    requires Inv(env, s) && MayCommit(env, s, rid)
    ensures var t := Committed(env, s, rid);
      && |t.submissions| == |t.db.responses|
      && (forall i | 0 <= i < |t.submissions| :: SubmissionOk(env, t, i))
      && (forall i | 0 <= i < |s.submissions| ::
            t.submissions[i].id != s.requests[rid].id && t.submissions[i].commitAt < s.steps)
  {
    var t, r, n := Committed(env, s, rid), s.requests[rid], |s.submissions|;
    assert RequestOk(env, s.db, r) && ReadOk(env, s, r);
    hide GuessesOk, RequestsOk, ReadsOk, RequestOk, ReadOk, SubmissionOk;
    forall i | 0 <= i < n ensures SubmissionOk(env, t, i) && t.submissions[i].id != r.id
        && t.submissions[i].commitAt < s.steps {
      CommitSubmissionOld(env, s, rid, i);
    }
    CommitSubmissionNew(env, s, rid);
  }

  lemma CommitResponses(env: Env, s: State, rid: nat)
    requires Inv(env, s) && MayCommit(env, s, rid)
    ensures ResponsesOk(env, Committed(env, s, rid))
  {
    var t, r, n := Committed(env, s, rid), s.requests[rid], |s.submissions|;
    CommitSubmissions(env, s, rid);
    assert RequestOk(env, s.db, r);
    forall k | k in t.db.challenges && t.db.challenges[k].consumedAt.Some?
      ensures t.db.challenges[k].verifiedAt.Some? && Submits(t, k)
    {
      if k == r.id {
        assert t.submissions[n].id == k;
      } else {
        assert Submits(s, k);
        var i :| 0 <= i < n && s.submissions[i].id == k;
        assert t.submissions[i].id == k;
      }
    }
  }

  lemma CommitReads(env: Env, s: State, rid: nat)
    requires Inv(env, s) && MayCommit(env, s, rid)
    ensures ReadsOk(env, Committed(env, s, rid))
  {
    var t := Committed(env, s, rid);
    assert ReadOk(env, s, s.requests[rid]);
    forall p | p in t.requests ensures ReadOk(env, t, t.requests[p]) {
      if p != rid { assert ReadOk(env, s, s.requests[p]); }
    }
  }

  /** Committing a submission: the claim and the response appear together. */
  lemma CommitKeeps(env: Env, s: State, rid: nat)
    requires Inv(env, s) && MayCommit(env, s, rid)
    ensures Inv(env, Committed(env, s, rid)) && Evolves(s, Committed(env, s, rid))
  {
    var t := Committed(env, s, rid);
    CommitRows(env, s, rid);
    CommitResponses(env, s, rid);
    CommitReads(env, s, rid);
    forall p | p in t.requests ensures RequestOk(env, t.db, t.requests[p]) {
      if p != rid {
        assert RequestOk(env, s.db, s.requests[p]);
        assert s.requests[p].Open() ==> s.requests[p].id != s.requests[rid].id;
        RequestKept(env, s, t, s.requests[p]);
      }
    }
  }

  /** What the invariant says of one request. */
  lemma Placed(env: Env, s: State, rid: nat)
    requires Inv(env, s) && rid in s.requests
    ensures var r := s.requests[rid];
      && RequestOk(env, s.db, r) && ReadOk(env, s, r) && s.guesses.Keys == s.db.challenges.Keys
      && |s.submissions| == |s.db.responses|
      && (forall i | 0 <= i < |s.submissions| :: s.submissions[i].commitAt < s.steps)
      && (r.Submitting? || r.Claimed? || r.Cleared? ==> r.id in s.db.challenges && r.row.linkId in env.links)
  {
    forall i | 0 <= i < |s.submissions| ensures s.submissions[i].commitAt < s.steps {
      assert SubmissionOk(env, s, i);
    }
  }

  /** A request may be answered at any time with anything but a success. */
  lemma GoAnswers(env: Env, s: State, rid: nat, id: nat, o: Outcome)
    requires Inv(env, s) && o != Verified && o != Submitted
    ensures var t := Tick(Go(s, rid, Answered(id, o))); Inv(env, t) && Evolves(s, t)
  {
    GoKeeps(env, s, rid, Answered(id, o));
  }

  lemma RefusalFails(survey: Survey)
    ensures Refusal(survey).Some? ==> Refusal(survey).value != Verified && Refusal(survey).value != Submitted
  {
  }

  lemma VerifyKeeps(env: Env, s: State, e: Event)
    requires Inv(env, s) && (e.CheckCode? || e.CountGuess?) && e.rid in s.requests
    ensures var t := Tick(ActOn(env, s, e, s.requests[e.rid])); Inv(env, t) && Evolves(s, t)
  {
    var rid, r := e.rid, s.requests[e.rid];
    Placed(env, s, rid);
    hide Inv, Evolves, Locked, HasClash, Refusal, Tick, Go, CountOn, CommitOn;
    TickKeeps(env, s);
    if e.CheckCode? && r.Verifying? {
      GoKeeps(env, s, rid, Guessing(r.id, r.code, env.verify(r.row.codeHash, r.code)));
    } else if e.CountGuess? && r.Guessing? && !Locked(s, r.id) {
      if CanGuess(s.db.challenges[r.id], e.cutoff) {
        CountKeeps(env, s, rid, r.id, r.code, e.now);
      } else {
        GoAnswers(env, s, rid, r.id, TooManyAttempts);
      }
    }
  }

  lemma SubmitKeeps(env: Env, s: State, e: Event)
    requires Inv(env, s) && (e.Claim? || e.ReadDuplicates?) && e.rid in s.requests
    ensures var t := Tick(ActOn(env, s, e, s.requests[e.rid])); Inv(env, t) && Evolves(s, t)
  {
    var rid, r := e.rid, s.requests[e.rid];
    Placed(env, s, rid);
    hide Inv, Evolves, Locked, HasClash, Refusal, Tick, Go, CountOn, CommitOn;
    TickKeeps(env, s);
    if e.Claim? && r.Submitting? && !Locked(s, r.id) {
      if CanClaim(s.db.challenges[r.id]) {
        GoKeeps(env, s, rid, Claimed(r.id, r.row, e.now));
      } else {
        GoAnswers(env, s, rid, r.id, AlreadyUsed);
      }
    } else if e.ReadDuplicates? && r.Claimed? {
      if HasClash(s.db, env.links[r.row.linkId].needId, r.row) {
        GoAnswers(env, s, rid, r.id, DuplicateSubmission);
      } else {
        ClearsOk(env, s, r);
        GoKeeps(env, s, rid, Cleared(r.id, r.row, r.at, s.steps));
      }
    }
  }

  lemma FinishKeeps(env: Env, s: State, rid: nat, survey: Survey)
    requires Inv(env, s) && MayCommit(env, s, rid)
    ensures var t := Tick(ActOn(env, s, Finish(rid, survey), s.requests[rid])); Inv(env, t) && Evolves(s, t)
  {
    hide Inv, Evolves, Tick, Go, CommitOn, Violates;
    RefusalFails(survey);
    if Refusal(survey).Some? {
      GoAnswers(env, s, rid, s.requests[rid].id, Refusal(survey).value);
    } else if Violates(s.db, ResponseFor(env.links[s.requests[rid].row.linkId], s.requests[rid].row)) {
      GoAnswers(env, s, rid, s.requests[rid].id, UniqueViolation);
    } else {
      CommitKeeps(env, s, rid);
    }
  }

  lemma EndKeeps(env: Env, s: State, e: Event)
    requires Inv(env, s) && (e.Finish? || e.Crash?) && e.rid in s.requests
    ensures var t := Tick(ActOn(env, s, e, s.requests[e.rid])); Inv(env, t) && Evolves(s, t)
  {
    var r := s.requests[e.rid];
    Placed(env, s, e.rid);
    TickKeeps(env, s);
    if e.Finish? && r.Cleared? {
      hide Inv, Evolves, ActOn, Tick, ReadOk;
      FinishKeeps(env, s, e.rid, e.survey);
    } else if e.Crash? && !r.Answered? {
      hide Inv, Evolves, Tick, Go, ReadOk;
      GoAnswers(env, s, e.rid, r.id, Crashed);
    }
  }

  lemma ActOnKeeps(env: Env, s: State, e: Event)
    requires Inv(env, s) && !e.RequestOtp? && e.rid in s.requests
    ensures var t := Tick(ActOn(env, s, e, s.requests[e.rid])); Inv(env, t) && Evolves(s, t)
  {
    TickKeeps(env, s);
    StartStays(env, s, e);
    hide Inv, Evolves, ActOn;
    if e.CheckCode? || e.CountGuess? {
      VerifyKeeps(env, s, e);
    } else if e.Claim? || e.ReadDuplicates? {
      SubmitKeeps(env, s, e);
    } else if e.Finish? || e.Crash? {
      EndKeeps(env, s, e);
    }
  }

  lemma StartStays(env: Env, s: State, e: Event)
    requires !e.RequestOtp? && e.rid in s.requests
    ensures e.StartVerify? || e.StartSubmit? ==> ActOn(env, s, e, s.requests[e.rid]) == s
  {
  }

  /** A request that has just read no duplicate has missed nothing yet. */
  lemma ClearsOk(env: Env, s: State, r: Request)
    requires r.Claimed? && r.row.linkId in env.links && !HasClash(s.db, env.links[r.row.linkId].needId, r.row)
    ensures ReadOk(env, Tick(s), Cleared(r.id, r.row, r.at, s.steps))
  {
  }

  lemma BeginOk(env: Env, db: Db, e: Event)
    requires e.StartVerify? || e.StartSubmit?
    ensures RequestOk(env, db, Begin(db, e)) && !Begin(db, e).Open()
  {
  }

  lemma StartKeeps(env: Env, s: State, e: Event)
    requires Inv(env, s) && (e.StartVerify? || e.StartSubmit?)
    ensures Inv(env, Step(env, s, e)) && Evolves(s, Step(env, s, e))
  {
    hide Inv, Evolves, Locked, RequestOk, Begin;
    TickKeeps(env, s);
    if e.rid !in s.requests && e.linkId in env.links {
      BeginOk(env, s.db, e);
      GoKeeps(env, s, e.rid, Begin(s.db, e));
    }
  }

  lemma RequestOtpKeeps(env: Env, s: State, e: Event)
    requires Inv(env, s) && e.RequestOtp?
    ensures Inv(env, Step(env, s, e)) && Evolves(s, Step(env, s, e))
  {
    hide Inv, Evolves;
    if e.id in s.db.challenges || e.linkId !in env.links {
      TickKeeps(env, s);
    } else {
      AddKeeps(env, s, e.id, NewChallenge(env, e.linkId, e.contact, e.mobile, e.codeHash, e.now));
    }
  }

  /** One step of one request keeps the invariant and only adds. */
  lemma StepKeeps(env: Env, s: State, e: Event)
    requires Inv(env, s)
    ensures Inv(env, Step(env, s, e)) && Evolves(s, Step(env, s, e))
  {
    hide Inv, Evolves;
    if e.RequestOtp? {
      RequestOtpKeeps(env, s, e);
    } else if e.StartVerify? || e.StartSubmit? {
      StartKeeps(env, s, e);
    } else if e.rid in s.requests {
      ActOnKeeps(env, s, e);
    } else {
      TickKeeps(env, s);
    }
  }

  lemma EvolvesTransitive(s: State, t: State, u: State)
    requires Evolves(s, t) && Evolves(t, u)
    ensures Evolves(s, u)
  {
    forall id | id in s.db.challenges ensures id in u.db.challenges
        && RowEvolves(s.db.challenges[id], u.db.challenges[id]) {
      assert RowEvolves(s.db.challenges[id], t.db.challenges[id]);
      assert RowEvolves(t.db.challenges[id], u.db.challenges[id]);
    }
  }

  lemma {:induction false} RunKeeps(env: Env, s: State, events: seq<Event>)
    requires Inv(env, s)
    ensures Inv(env, RunFrom(env, s, events)) && Evolves(s, RunFrom(env, s, events))
  {
    if events == [] {
      assert Evolves(s, s);
    } else {
      hide Inv;
      var n := |events| - 1;
      RunKeeps(env, s, events[..n]);
      var t := RunFrom(env, s, events[..n]);
      StepKeeps(env, t, events[n]);
      EvolvesTransitive(s, t, RunFrom(env, s, events));
    }
  }

  lemma ReachableInv(env: Env, events: seq<Event>)
    ensures Inv(env, Run(env, events))
  {
    RunKeeps(env, INIT, events);
  }

  lemma {:induction false} RunAppend(env: Env, s: State, xs: seq<Event>, ys: seq<Event>)
    ensures RunFrom(env, s, xs + ys) == RunFrom(env, RunFrom(env, s, xs), ys)
  {
    if ys == [] {
      assert xs + ys == xs;
    } else {
      assert (xs + ys)[..|xs + ys| - 1] == xs + ys[..|ys| - 1];
      RunAppend(env, s, xs, ys[..|ys| - 1]);
    }
  }

  lemma RunOne(env: Env, s: State, e: Event)
    ensures RunFrom(env, s, [e]) == Step(env, s, e)
  {
    hide Step;
    assert [e][..0] == [];
  }

  lemma RunCons(env: Env, s: State, e: Event, es: seq<Event>)
    ensures RunFrom(env, s, [e] + es) == RunFrom(env, Step(env, s, e), es)
  {
    hide Step;
    RunAppend(env, s, [e], es);
    RunOne(env, s, e);
  }

  lemma RunTwo(env: Env, s: State, e: Event, f: Event)
    ensures RunFrom(env, s, [e, f]) == Step(env, Step(env, s, e), f)
  {
    hide Step;
    RunCons(env, s, e, [f]);
    RunOne(env, Step(env, s, e), f);
    assert [e] + [f] == [e, f];
  }

  // ---------------------------------------------------------------- what holds in every run

  function Wrong(env: Env, hash: string, g: seq<string>): nat {
    if g == [] then 0 else Wrong(env, hash, g[..|g| - 1]) + if env.verify(hash, g[|g| - 1]) then 0 else 1
  }

  lemma {:induction false} AllWrong(env: Env, hash: string, g: seq<string>)
    requires forall i | 0 <= i < |g| :: !env.verify(hash, g[i])
    ensures Wrong(env, hash, g) == |g|
  {
    if g != [] { AllWrong(env, hash, g[..|g| - 1]); }
  }

  /** However requests interleave, at most five guesses are ever counted on a challenge: `attempts` is the number of
      wrong ones, a verified challenge has at most four, and only a matching code verifies it. */
  lemma GuessesBounded(env: Env, events: seq<Event>, id: nat)
    requires id in Run(env, events).db.challenges
    ensures var s := Run(env, events); var c := s.db.challenges[id];
      && id in s.guesses && |s.guesses[id]| <= OTP_MAX_ATTEMPTS
      && c.attempts == Wrong(env, c.codeHash, s.guesses[id]) <= OTP_MAX_ATTEMPTS
      && (c.verifiedAt.Some? <==> exists code | code in s.guesses[id] :: env.verify(c.codeHash, code))
      && (c.verifiedAt.Some? ==> c.attempts <= OTP_MAX_ATTEMPTS - 1)
  {
    ReachableInv(env, events);
    var s := Run(env, events);
    var c, g := s.db.challenges[id], s.guesses[id];
    assert Summarises(env, c, g);
    if c.verifiedAt == None {
      AllWrong(env, c.codeHash, g);
    } else {
      AllWrong(env, c.codeHash, g[..|g| - 1]);
      assert g[|g| - 1] in g;
    }
  }

  /** Once verified, a challenge's verification and its count of attempts never change again. */
  lemma VerifiedIsFinal(env: Env, events: seq<Event>, more: seq<Event>, id: nat)
    requires id in Run(env, events).db.challenges && Run(env, events).db.challenges[id].verifiedAt.Some?
    ensures id in Run(env, events + more).db.challenges
    ensures var c, d := Run(env, events).db.challenges[id], Run(env, events + more).db.challenges[id];
      d.verifiedAt == c.verifiedAt && d.attempts == c.attempts && SameIdentity(c, d)
  {
    ReachableInv(env, events);
    RunAppend(env, INIT, events, more);
    RunKeeps(env, Run(env, events), more);
    assert RowEvolves(Run(env, events).db.challenges[id], Run(env, events + more).db.challenges[id]);
  }

  /** Guesses are judged at `at` or later. */
  predicate JudgedFrom(e: Event, at: int) {
    e.CountGuess? ==> e.cutoff >= at
  }

  lemma StepFreezes(env: Env, s: State, e: Event, id: nat)
    requires id in s.db.challenges && JudgedFrom(e, s.db.challenges[id].expiresAt)
    ensures var t := Step(env, s, e);
      && id in t.db.challenges
      && t.db.challenges[id] == s.db.challenges[id].(consumedAt := t.db.challenges[id].consumedAt)
      && (id in s.guesses ==> id in t.guesses && t.guesses[id] == s.guesses[id])
  {
    hide Locked, HasClash;
  }

  /** Once its time is over a challenge takes no guess, right or wrong: it can be claimed if it was verified,
      and no more. */
  lemma {:induction false} ExpiredIsFrozen(env: Env, s: State, more: seq<Event>, id: nat)
    requires id in s.db.challenges && forall e | e in more :: JudgedFrom(e, s.db.challenges[id].expiresAt)
    ensures var t := RunFrom(env, s, more);
      && id in t.db.challenges
      && t.db.challenges[id] == s.db.challenges[id].(consumedAt := t.db.challenges[id].consumedAt)
      && (id in s.guesses ==> id in t.guesses && t.guesses[id] == s.guesses[id])
  {
    if more != [] {
      var n := |more| - 1;
      assert forall e | e in more[..n] :: e in more;
      ExpiredIsFrozen(env, s, more[..n], id);
      assert more[n] in more;
      StepFreezes(env, RunFrom(env, s, more[..n]), more[n], id);
    }
  }

  /** A request is only told what is true of its challenge. */
  lemma AnswersAreTrue(env: Env, events: seq<Event>, rid: nat)
    requires rid in Run(env, events).requests && Run(env, events).requests[rid].Answered?
    ensures var s := Run(env, events); var r := s.requests[rid];
      && (r.outcome == Verified ==> r.id in s.db.challenges && s.db.challenges[r.id].verifiedAt.Some?)
      && (r.outcome == Submitted ==> Submits(s, r.id))
  {
    ReachableInv(env, events);
    var s := Run(env, events);
    assert RequestOk(env, s.db, s.requests[rid]);
  }

  /** Consumed challenges and responses correspond one to one; each was verified and its response carries its data. */
  lemma OneResponsePerChallenge(env: Env, events: seq<Event>)
    ensures var s := Run(env, events);
      && |s.submissions| == |s.db.responses|
      && (forall i, j | 0 <= i < j < |s.submissions| :: s.submissions[i].id != s.submissions[j].id)
      && (forall id | id in s.db.challenges :: s.db.challenges[id].consumedAt.Some? <==> Submits(s, id))
      && (forall i | 0 <= i < |s.submissions| ::
            && s.submissions[i].id in s.db.challenges
            && var c := s.db.challenges[s.submissions[i].id];
            && c.verifiedAt.Some? && c.linkId in env.links
            && s.db.responses[i] == Response(env.links[c.linkId], c.linkId, c.contact, c.mobile))
  {
    ReachableInv(env, events);
    var s := Run(env, events);
    forall i | 0 <= i < |s.submissions|
      ensures s.submissions[i].id in s.db.challenges && SubmissionOk(env, s, i)
    {
      assert SubmissionOk(env, s, i);
    }
  }

  // ---------------------------------------------------------------- no duplicate is ever stored

  ghost predicate Unique(responses: seq<Response>) {
    forall i, j | 0 <= i < j < |responses| :: !SameKey(responses[i], responses[j])
  }

  lemma UniqueGrows(db: Db, r: Response)
    requires Unique(db.responses) && !Violates(db, r)
    ensures Unique(db.responses + [r])
  {
  }

  lemma StepUnique(env: Env, s: State, e: Event)
    requires Unique(s.db.responses)
    ensures Unique(Step(env, s, e).db.responses)
  {
    hide Unique, Violates, HasClash, Locked, Refusal, Begin, NewChallenge;
    if e.Finish? && e.rid in s.requests {
      var r := s.requests[e.rid];
      if r.Cleared? && r.row.linkId in env.links && !Violates(s.db, ResponseFor(env.links[r.row.linkId], r.row)) {
        UniqueGrows(s.db, ResponseFor(env.links[r.row.linkId], r.row));
      }
    }
  }

  lemma {:induction false} RunUnique(env: Env, s: State, events: seq<Event>)
    requires Unique(s.db.responses)
    ensures Unique(RunFrom(env, s, events).db.responses)
  {
    if events != [] {
      hide Unique, Step;
      var n := |events| - 1;
      RunUnique(env, s, events[..n]);
      StepUnique(env, RunFrom(env, s, events[..n]), events[n]);
    }
  }

  ghost predicate NoConflicts(responses: seq<Response>) {
    forall i, j | 0 <= i < j < |responses| ::
      !Matches(responses[i], responses[j].link.needId, responses[j].contact, responses[j].mobile)
  }

  /** Under every interleaving no two responses of a Need share a contact or a mobile, not even an empty one; so none
      that the duplicate rule forbids are stored. */
  lemma ResponsesUnique(env: Env, events: seq<Event>)
    ensures Unique(Run(env, events).db.responses) && NoConflicts(Run(env, events).db.responses)
  {
    hide RunFrom;
    RunUnique(env, INIT, events);
    var responses := Run(env, events).db.responses;
    assert forall i, j | 0 <= i < j < |responses| :: !SameKey(responses[i], responses[j]);
  }

  /** Two consumed challenges of a Need never share a contact or a mobile: of several requested with one contact or one
      mobile at most one is ever consumed. */
  lemma OneConsumed(env: Env, events: seq<Event>, x: nat, y: nat)
    requires var db := Run(env, events).db;
      && x != y && x in db.challenges && db.challenges[x].consumedAt.Some?
      && y in db.challenges && db.challenges[y].consumedAt.Some?
    ensures var c, d := Run(env, events).db.challenges[x], Run(env, events).db.challenges[y];
      && c.linkId in env.links && d.linkId in env.links
      && !SameKey(ResponseFor(env.links[c.linkId], c), ResponseFor(env.links[d.linkId], d))
  {
    var s := Run(env, events);
    ReachableInv(env, events);
    ResponsesUnique(env, events);
    hide RunFrom, GuessesOk, RequestsOk, ReadsOk;
    assert Submits(s, x) && Submits(s, y);
    var i :| 0 <= i < |s.submissions| && s.submissions[i].id == x;
    var j :| 0 <= j < |s.submissions| && s.submissions[j].id == y;
    assert SubmissionOk(env, s, i) && SubmissionOk(env, s, j);
    assert !SameKey(s.db.responses[if i < j then i else j], s.db.responses[if i < j then j else i]);
  }

  /** A response of the Need that the row's duplicate read forbids was committed after that read. */
  ghost predicate Overtaken(s: State, needId: string, row: Challenge, readAt: nat) {
    exists i | 0 <= i < |s.submissions| && i < |s.db.responses| ::
      Clash(s.db.responses[i], needId, row) && readAt < s.submissions[i].commitAt
  }

  /** The row's mobile is empty, and a response of the Need has an empty one too. */
  ghost predicate MeetsEmptyMobile(db: Db, needId: string, row: Challenge) {
    row.mobile == Some("") && exists i | 0 <= i < |db.responses| :: SharesEmptyMobile(db.responses[i], needId)
  }

  lemma ViolatesExactly(env: Env, s: State, rid: nat)
    requires Inv(env, s) && rid in s.requests && s.requests[rid].Cleared?
    requires s.requests[rid].row.linkId in env.links
    ensures var r := s.requests[rid]; var link := env.links[r.row.linkId];
      Violates(s.db, ResponseFor(link, r.row))
      <==> Overtaken(s, link.needId, r.row, r.readAt) || MeetsEmptyMobile(s.db, link.needId, r.row)
  {
    var r := s.requests[rid];
    var link := env.links[r.row.linkId];
    assert ReadOk(env, s, r);
    forall i | 0 <= i < |s.db.responses|
      ensures SameKey(s.db.responses[i], ResponseFor(link, r.row))
         <==> Clash(s.db.responses[i], link.needId, r.row)
              || (r.row.mobile == Some("") && SharesEmptyMobile(s.db.responses[i], link.needId))
    {}
  }

  /** A submission that has read no duplicate and whose survey stands is answered with the raw constraint error, and not
      with the duplicate's, exactly if a duplicate was committed since it read, or if empty mobiles meet; otherwise it
      is stored. When it is refused the tables stay as they are. */
  lemma RawErrorExactly(env: Env, events: seq<Event>, rid: nat, survey: Survey)
    requires rid in Run(env, events).requests && Run(env, events).requests[rid].Cleared?
    requires survey.published.Some? && (survey.answered == {} || survey.answered * survey.published.value != {})
    ensures var s := Run(env, events); var r := s.requests[rid]; var t := Step(env, s, Finish(rid, survey));
      && r.row.linkId in env.links && rid in t.requests
      && var needId := env.links[r.row.linkId].needId;
      && (t.requests[rid] == Answered(r.id, UniqueViolation) <==>
            Overtaken(s, needId, r.row, r.readAt) || MeetsEmptyMobile(s.db, needId, r.row))
      && (t.requests[rid] == Answered(r.id, UniqueViolation) ==> t.db == s.db)
      && (t.requests[rid] != Answered(r.id, UniqueViolation) ==>
            t.requests[rid] == Answered(r.id, Submitted)
            && t.db.responses == s.db.responses + [ResponseFor(env.links[r.row.linkId], r.row)])
  {
    ReachableInv(env, events);
    var s := Run(env, events);
    Placed(env, s, rid);
    ViolatesExactly(env, s, rid);
    assert Refusal(survey) == None;
    hide RunFrom, Inv, Violates, Overtaken, MeetsEmptyMobile;
  }

  // ---------------------------------------------------------------- the advisory check

  /** A challenge requested with a contact and a mobile. */
  ghost predicate RequestedWith(env: Env, c: Challenge, contact: string, mobile: string) {
    c.contact == NormalizeContact(env.lower, contact) && c.mobile == Some(NormalizeMobile(mobile))
  }

  /** The advisory check and the transaction's own read disagree in exactly one case: the mobile normalises
      to nothing. */
  lemma CheckVersusClaim(env: Env, db: Db, needId: string, contact: string, mobile: string, c: Challenge)
    requires RequestedWith(env, c, contact, mobile)
    ensures HasClash(db, needId, c) ==> CheckDuplicate(env, db, needId, contact, mobile)
    ensures CheckDuplicate(env, db, needId, contact, mobile) && !HasClash(db, needId, c)
       <==> && NormalizeMobile(mobile) == ""
            && (exists i | 0 <= i < |db.responses| :: SharesEmptyMobile(db.responses[i], needId))
            && (forall i | 0 <= i < |db.responses| :: !SharesContact(db.responses[i], needId, c.contact))
  {
    if NormalizeMobile(mobile) == "" {
      forall i | 0 <= i < |db.responses|
        ensures Clash(db.responses[i], needId, c) <==> SharesContact(db.responses[i], needId, c.contact)
      {}
    } else if CheckDuplicate(env, db, needId, contact, mobile) {
      var i :| 0 <= i < |db.responses| && db.responses[i].link.needId == needId
        && (db.responses[i].contact == NormalizeContact(env.lower, contact)
            || db.responses[i].mobile == Some(NormalizeMobile(mobile)));
      assert Clash(db.responses[i], needId, c);
    }
  }

  ghost predicate SharesEmptyMobile(r: Response, needId: string) {
    r.link.needId == needId && r.mobile == Some("")
  }

  ghost predicate SharesContact(r: Response, needId: string, contact: string) {
    r.link.needId == needId && r.contact == contact
  }

  /** The check reports a pair exactly when the indexes refuse a response of a challenge requested with it. */
  lemma CheckPredictsIndex(env: Env, db: Db, link: Link, contact: string, mobile: string, c: Challenge)
    requires RequestedWith(env, c, contact, mobile)
    ensures CheckDuplicate(env, db, link.needId, contact, mobile) <==> Violates(db, ResponseFor(link, c))
  {
    if CheckDuplicate(env, db, link.needId, contact, mobile) {
      var i :| 0 <= i < |db.responses| && db.responses[i].link.needId == link.needId
        && (db.responses[i].contact == NormalizeContact(env.lower, contact)
            || db.responses[i].mobile == Some(NormalizeMobile(mobile)));
      assert SameKey(db.responses[i], ResponseFor(link, c));
    }
  }

  /** Once the check reports a pair, no response of the Need from a challenge requested with it is stored afterwards,
      in any interleaving. */
  lemma ReportedIsFinal(env: Env, events: seq<Event>, more: seq<Event>, needId: string, contact: string,
                        mobile: string, j: nat)
    requires CheckDuplicate(env, Run(env, events).db, needId, contact, mobile)
    requires var s, t := Run(env, events), Run(env, events + more);
      |s.db.responses| <= j < |t.db.responses| && t.db.responses[j].link.needId == needId
    ensures var t := Run(env, events + more);
      && j < |t.submissions| && t.submissions[j].id in t.db.challenges
      && !RequestedWith(env, t.db.challenges[t.submissions[j].id], contact, mobile)
  {
    var s, t := Run(env, events), Run(env, events + more);
    ReachableInv(env, events);
    ReachableInv(env, events + more);
    RunAppend(env, INIT, events, more);
    RunKeeps(env, s, more);
    ResponsesUnique(env, events + more);
    hide RunFrom;
    assert SubmissionOk(env, t, j);
    var c := t.db.challenges[t.submissions[j].id];
    forall i | 0 <= i < |s.db.responses| ensures !SameKey(s.db.responses[i], t.db.responses[j]) {
      assert t.db.responses[i] == s.db.responses[i];
    }
    assert !Violates(s.db, ResponseFor(env.links[c.linkId], c));
    hide Violates, CheckDuplicate;
    if RequestedWith(env, c, contact, mobile) {
      CheckPredictsIndex(env, s.db, env.links[c.linkId], contact, mobile, c);
    }
  }
}
