/** Two submissions interleaved: the duplicate read takes no lock, and the unique indexes decide. */
module CitizenRace {
  import opened Wrappers
  import opened Citizen

  // ---------------------------------------------------------------- any two that have both read

  /** The response a cleared request is about to store. */
  function Pending(env: Env, r: Request): Response
    requires r.Cleared? && r.row.linkId in env.links
  {
    ResponseFor(env.links[r.row.linkId], r.row)
  }

  /** The request has read no duplicate, and the indexes would take its response now. */
  ghost predicate Ready(env: Env, s: State, rid: nat) {
    && rid in s.requests && s.requests[rid].Cleared? && s.requests[rid].row.linkId in env.links
    && s.requests[rid].id in s.db.challenges && !Violates(s.db, Pending(env, s.requests[rid]))
  }

  /** Two transactions that have both read no duplicate, in any reachable state: the first to finish commits. If their
      responses agree in an index the second one does not, and its challenge stays verified and unconsumed;
      otherwise it commits too. */
  lemma FirstCommits(env: Env, s: State, p: nat, q: nat)
    requires Inv(env, s) && p != q && Ready(env, s, p) && Ready(env, s, q)
    ensures var t := RunFrom(env, s, [Finish(p, OPEN_SURVEY), Finish(q, OPEN_SURVEY)]);
      var a, b := Pending(env, s.requests[p]), Pending(env, s.requests[q]);
      var x, y := s.requests[p].id, s.requests[q].id;
      && {p, q} <= t.requests.Keys && t.requests[p] == Answered(x, Submitted) && y in t.db.challenges
      && (if SameKey(a, b) then
            && t.requests[q] == Answered(y, UniqueViolation)
            && t.db.responses == s.db.responses + [a]
            && t.db.challenges[y] == s.db.challenges[y] && CanClaim(t.db.challenges[y])
          else
            && t.requests[q] == Answered(y, Submitted)
            && t.db.responses == s.db.responses + [a, b])
  {
    var a, b := Pending(env, s.requests[p]), Pending(env, s.requests[q]);
    var mid := Step(env, s, Finish(p, OPEN_SURVEY));
    assert RequestOk(env, s.db, s.requests[p]) && RequestOk(env, s.db, s.requests[q]);
    assert s.requests[p].id != s.requests[q].id;
    RunTwo(env, s, Finish(p, OPEN_SURVEY), Finish(q, OPEN_SURVEY));
    Finishes(env, s, p);
    ViolatesMore(s.db, a, b);
    hide Inv, RunFrom, Step, Violates, SameKey;
    assert mid.db.responses == s.db.responses + [a];
    Finishes(env, mid, q);
    assert s.db.responses + [a] + [b] == s.db.responses + [a, b];
  }

  /** What the end of a cleared transaction does while the survey stands. */
  lemma Finishes(env: Env, s: State, rid: nat)
    requires rid in s.requests && s.requests[rid].Cleared? && s.requests[rid].row.linkId in env.links
    requires s.requests[rid].id in s.db.challenges
    ensures var t, r := Step(env, s, Finish(rid, OPEN_SURVEY)), s.requests[rid];
      && (if Violates(s.db, Pending(env, r)) then
            t.db == s.db && t.requests == s.requests[rid := Answered(r.id, UniqueViolation)]
          else
            && t.db == Commit(s.db, env.links[r.row.linkId], r.id, r.row, r.at)
            && t.requests == s.requests[rid := Answered(r.id, Submitted)])
  {
    hide Violates;
  }

  lemma ViolatesMore(db: Db, a: Response, b: Response)
    ensures forall more: Db | more.responses == db.responses + [a] ::
        Violates(more, b) <==> Violates(db, b) || SameKey(a, b)
  {
    forall more: Db | more.responses == db.responses + [a]
      ensures Violates(more, b) <==> Violates(db, b) || SameKey(a, b)
    {
      assert more.responses[|db.responses|] == a;
      forall i | 0 <= i < |db.responses| ensures more.responses[i] == db.responses[i] {}
    }
  }

  // ---------------------------------------------------------------- each challenge is requested and verified

  function Ask(id: nat, contact: string, mobile: string, hash: string, code: string): seq<Event> {
    [RequestOtp(id, 0, contact, mobile, hash, 0), StartVerify(id, 0, id, code, 1)]
  }

  function Guess(id: nat): seq<Event> {
    [CheckCode(id), CountGuess(id, 1, 1)]
  }

  ghost predicate AllAnswered(s: State) {
    forall rid | rid in s.requests :: s.requests[rid].Answered?
  }

  lemma Asks(env: Env, s: State, id: nat, contact: string, mobile: string, hash: string, code: string)
    requires 0 in env.links && id !in s.db.challenges && id !in s.requests
    ensures var t := RunFrom(env, s, Ask(id, contact, mobile, hash, code));
      var c := NewChallenge(env, 0, contact, mobile, hash, 0);
      && t.db == s.db.(challenges := s.db.challenges[id := c]) && id in t.guesses
      && t.requests == s.requests[id := Verifying(id, c, code)]
  {
    RunTwo(env, s, RequestOtp(id, 0, contact, mobile, hash, 0), StartVerify(id, 0, id, code, 1));
  }

  lemma Guesses(env: Env, s: State, before: State, id: nat, c: Challenge, code: string)
    requires env.verify(c.codeHash, code) && CanGuess(c, 1)
    requires AllAnswered(before) && s.requests == before.requests[id := Verifying(id, c, code)]
    requires id in s.db.challenges && s.db.challenges[id] == c && id in s.guesses
    ensures var t := RunFrom(env, s, Guess(id));
      && t.db == s.db.(challenges := s.db.challenges[id := c.(verifiedAt := Some(1))]) && AllAnswered(t)
      && t.requests.Keys == s.requests.Keys
  {
    var mid := Step(env, s, CheckCode(id));
    assert mid.requests == before.requests[id := Guessing(id, code, true)] && mid.db == s.db && !Locked(mid, id);
    RunTwo(env, s, CheckCode(id), CountGuess(id, 1, 1));
  }

  lemma Verifies(env: Env, s: State, id: nat, contact: string, mobile: string, hash: string, code: string)
    requires 0 in env.links && env.verify(hash, code)
    requires id !in s.db.challenges && id !in s.requests && AllAnswered(s)
    ensures var t := RunFrom(env, s, Ask(id, contact, mobile, hash, code) + Guess(id));
      var c := NewChallenge(env, 0, contact, mobile, hash, 0).(verifiedAt := Some(1));
      && t.db == s.db.(challenges := s.db.challenges[id := c]) && AllAnswered(t)
      && t.requests.Keys == s.requests.Keys + {id}
  {
    hide Step, RunFrom;
    var asks := Ask(id, contact, mobile, hash, code);
    Asks(env, s, id, contact, mobile, hash, code);
    Guesses(env, RunFrom(env, s, asks), s, id, NewChallenge(env, 0, contact, mobile, hash, 0), code);
    RunAppend(env, s, asks, Guess(id));
  }

  // ---------------------------------------------------------------- both submissions read before either commits

  const STARTS := [StartSubmit(2, 0, 0), StartSubmit(3, 0, 1)]
  const CLAIMS := [Claim(2, 2), Claim(3, 2)]
  const READS := [ReadDuplicates(2), ReadDuplicates(3)]
  const COMMITS := [Finish(2, OPEN_SURVEY), Finish(3, OPEN_SURVEY)]

  /** Requests 2 and 3 stand at `p` and `q`; the others are answered, and nothing is stored yet. */
  ghost predicate Stand(s: State, c: Challenge, p: Request, q: Request) {
    && s.db == Db(map[0 := c, 1 := c], []) && 2 in s.requests && 3 in s.requests
    && s.requests[2] == p && s.requests[3] == q
    && forall rid | rid in s.requests && rid != 2 && rid != 3 :: s.requests[rid].Answered?
  }

  lemma Start(env: Env, s: State, c: Challenge)
    requires 0 in env.links && c.linkId == 0 && CanClaim(c) && s.db == Db(map[0 := c, 1 := c], [])
    requires AllAnswered(s) && 2 !in s.requests && 3 !in s.requests
    ensures Stand(RunFrom(env, s, STARTS), c, Submitting(0, c), Submitting(1, c))
  {
    RunTwo(env, s, StartSubmit(2, 0, 0), StartSubmit(3, 0, 1));
  }

  lemma ClaimBoth(env: Env, s: State, c: Challenge)
    requires CanClaim(c) && Stand(s, c, Submitting(0, c), Submitting(1, c))
    ensures Stand(RunFrom(env, s, CLAIMS), c, Claimed(0, c, 2), Claimed(1, c, 2))
  {
    var mid := Step(env, s, Claim(2, 2));
    assert !Locked(s, 0);
    assert Stand(mid, c, Claimed(0, c, 2), Submitting(1, c)) && !Locked(mid, 1);
    RunTwo(env, s, Claim(2, 2), Claim(3, 2));
  }

  lemma ReadBoth(env: Env, s: State, c: Challenge)
    requires 0 in env.links && c.linkId == 0 && Stand(s, c, Claimed(0, c, 2), Claimed(1, c, 2))
    ensures Stand(RunFrom(env, s, READS), c, Cleared(0, c, 2, s.steps), Cleared(1, c, 2, s.steps + 1))
  {
    var mid := Step(env, s, ReadDuplicates(2));
    assert Stand(mid, c, Cleared(0, c, 2, s.steps), Claimed(1, c, 2)) && mid.steps == s.steps + 1;
    RunTwo(env, s, ReadDuplicates(2), ReadDuplicates(3));
  }

  /** The first commits, the second meets the index. */
  ghost predicate SecondRefused(env: Env, s: State, c: Challenge)
    requires 0 in env.links
  {
    && s.db == Db(map[0 := c.(consumedAt := Some(2)), 1 := c], [ResponseFor(env.links[0], c)])
    && 2 in s.requests && s.requests[2] == Answered(0, Submitted)
    && 3 in s.requests && s.requests[3] == Answered(1, UniqueViolation)
  }

  lemma CommitOne(env: Env, s: State, c: Challenge, r0: nat, r1: nat)
    requires 0 in env.links && c.linkId == 0 && Stand(s, c, Cleared(0, c, 2, r0), Cleared(1, c, 2, r1))
    ensures SecondRefused(env, RunFrom(env, s, COMMITS), c)
  {
    hide Step, RunFrom;
    var mid, r := Step(env, s, Finish(2, OPEN_SURVEY)), ResponseFor(env.links[0], c);
    Finishes(env, s, 2);
    assert !Violates(s.db, r);
    assert mid.db.responses == [r] && mid.db.responses[0] == r;
    assert Violates(mid.db, r);
    Finishes(env, mid, 3);
    RunTwo(env, s, Finish(2, OPEN_SURVEY), Finish(3, OPEN_SURVEY));
  }

  lemma Races(env: Env, s: State, c: Challenge)
    requires 0 in env.links && c.linkId == 0 && CanClaim(c) && s.db == Db(map[0 := c, 1 := c], [])
    requires AllAnswered(s) && 2 !in s.requests && 3 !in s.requests
    ensures SecondRefused(env, RunFrom(env, s, STARTS + CLAIMS + READS + COMMITS), c)
  {
    hide Step, RunFrom, SecondRefused;
    var s1 := RunFrom(env, s, STARTS);
    var s2 := RunFrom(env, s1, CLAIMS);
    var s3 := RunFrom(env, s2, READS);
    Start(env, s, c);
    ClaimBoth(env, s1, c);
    ReadBoth(env, s2, c);
    CommitOne(env, s3, c, s2.steps, s2.steps + 1);
    RunAppend(env, s, STARTS, CLAIMS);
    RunAppend(env, s, STARTS + CLAIMS, READS);
    RunAppend(env, s, STARTS + CLAIMS + READS, COMMITS);
  }

  function RaceEvents(contact: string, mobile: string, hash: string, code: string): seq<Event> {
    (Ask(0, contact, mobile, hash, code) + Guess(0)) + (Ask(1, contact, mobile, hash, code) + Guess(1))
    + (STARTS + CLAIMS + READS + COMMITS)
  }

  /** Such a race can be reached, for any contact and mobile: both submissions read no duplicate, one is stored, and the
      other meets the index although its duplicate read found nothing. */
  lemma RaceRefusesSecond(env: Env, contact: string, mobile: string, hash: string, code: string)
    requires 0 in env.links && env.verify(hash, code)
    ensures var s := Run(env, RaceEvents(contact, mobile, hash, code));
      && |s.db.responses| == 1
      && 2 in s.requests && s.requests[2] == Answered(0, Submitted)
      && 3 in s.requests && s.requests[3] == Answered(1, UniqueViolation)
      && 1 in s.db.challenges && CanClaim(s.db.challenges[1])
  {
    hide Step, RunFrom;
    var a, b := Ask(0, contact, mobile, hash, code) + Guess(0), Ask(1, contact, mobile, hash, code) + Guess(1);
    var c := NewChallenge(env, 0, contact, mobile, hash, 0).(verifiedAt := Some(1));
    RunAppend(env, INIT, a + b, STARTS + CLAIMS + READS + COMMITS);
    RunAppend(env, INIT, a, b);
    Verifies(env, INIT, 0, contact, mobile, hash, code);
    var s := RunFrom(env, INIT, a);
    Verifies(env, s, 1, contact, mobile, hash, code);
    var t := RunFrom(env, s, b);
    assert t.db.challenges == map[0 := c, 1 := c];
    Races(env, t, c);
  }
}
