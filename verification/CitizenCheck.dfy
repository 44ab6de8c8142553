/** A reachable state in which the advisory duplicate check and the submission's own duplicate read disagree. */
module CitizenCheck {
  import opened Wrappers
  import opened Text
  import opened Citizen
  import opened CitizenRace
  import opened CitizenServices

  /** A first respondent asks for a code, verifies it and submits; a second one asks for a code and verifies it. */
  function FirstResponse(contact: string, mobile: string, hash: string, code: string): seq<Event> {
    (Ask(0, contact, mobile, hash, code) + Guess(0)) + SubmitEvents(2, 0, 0, 2, OPEN_SURVEY)
  }

  function SecondCode(contact: string, mobile: string, hash: string, code: string): seq<Event> {
    Ask(1, contact, mobile, hash, code) + Guess(1)
  }

  function Verified1(env: Env, contact: string, mobile: string, hash: string): Challenge {
    NewChallenge(env, 0, contact, mobile, hash, 0).(verifiedAt := Some(1))
  }

  lemma BothCodes(env: Env, first: string, second: string, mobile: string, hash: string, code: string)
    requires 0 in env.links && env.verify(hash, code)
    ensures var s := Run(env, FirstResponse(first, mobile, hash, code) + SecondCode(second, mobile, hash, code));
      var c, d := Verified1(env, first, mobile, hash), Verified1(env, second, mobile, hash);
      && s.db == Db(map[0 := c.(consumedAt := Some(2)), 1 := d], [ResponseFor(env.links[0], c)])
      && AllAnswered(s) && s.requests.Keys == {0, 1, 2}
  {
    hide Step, RunFrom, HasClash;
    var a, b := Ask(0, first, mobile, hash, code) + Guess(0), SecondCode(second, mobile, hash, code);
    var submit := SubmitEvents(2, 0, 0, 2, OPEN_SURVEY);
    var s0 := Run(env, a);
    var s1 := RunFrom(env, s0, submit);
    RunAppend(env, INIT, a, submit);
    RunAppend(env, INIT, a + submit, b);
    Verifies(env, INIT, 0, first, mobile, hash, code);
    ReachableInv(env, a);
    hide Inv, Verified1;
    FirstStored(env, s0, Verified1(env, first, mobile, hash));
    Verifies(env, s1, 1, second, mobile, hash, code);
  }

  /** If both give a mobile that normalises to nothing, and different contacts, the check reports a duplicate for the
      second; the second's own duplicate read, run next, finds nothing, and its insert meets the index: it is
      refused with the constraint error, and its challenge stays unconsumed. */
  lemma EmptyMobilesMeet(env: Env, first: string, second: string, mobile: string, hash: string, code: string)
    requires 0 in env.links && env.verify(hash, code) && NormalizeMobile(mobile) == ""
    requires NormalizeContact(env.lower, first) != NormalizeContact(env.lower, second)
    ensures var events := FirstResponse(first, mobile, hash, code) + SecondCode(second, mobile, hash, code);
      var s := Run(env, events);
      var t := Run(env, events + SubmitEvents(3, 0, 1, 2, OPEN_SURVEY));
      && CheckDuplicate(env, s.db, env.links[0].needId, second, mobile)
      && 1 in s.db.challenges && !HasClash(s.db, env.links[0].needId, s.db.challenges[1])
      && CanClaim(s.db.challenges[1])
      && t.db == s.db && 3 in t.requests && t.requests[3] == Answered(1, UniqueViolation)
  {
    hide Step, RunFrom, HasClash, CheckDuplicate, Inv, NormalizeMobile, FirstResponse, SecondCode, SubmitEvents,
        AllAnswered, Violates;
    var events := FirstResponse(first, mobile, hash, code) + SecondCode(second, mobile, hash, code);
    var s := Run(env, events);
    var c, d := Verified1(env, first, mobile, hash), Verified1(env, second, mobile, hash);
    RunAppend(env, INIT, events, SubmitEvents(3, 0, 1, 2, OPEN_SURVEY));
    ReachableInv(env, events);
    BothCodes(env, first, second, mobile, hash, code);
    Disagree(env, s.db, first, second, mobile, c, d);
    SecondMeetsIndex(env, s, d);
  }

  lemma SecondMeetsIndex(env: Env, s: State, d: Challenge)
    requires Inv(env, s) && AllAnswered(s) && 3 !in s.requests && 0 in env.links
    requires 1 in s.db.challenges && s.db.challenges[1] == d && d.linkId == 0 && CanClaim(d)
    requires !HasClash(s.db, env.links[0].needId, d) && Violates(s.db, ResponseFor(env.links[0], d))
    ensures var t := RunFrom(env, s, SubmitEvents(3, 0, 1, 2, OPEN_SURVEY));
      t.db == s.db && 3 in t.requests && t.requests[3] == Answered(1, UniqueViolation)
  {
    hide Step, RunFrom, HasClash, Inv, Violates;
    SubmitIsRun(env, s, 3, 0, 1, 2, OPEN_SURVEY);
  }

  lemma NoLock(s: State, id: nat)
    requires AllAnswered(s)
    ensures !Locked(s, id)
  {
  }

  lemma FirstStored(env: Env, s: State, c: Challenge)
    requires Inv(env, s) && AllAnswered(s) && s.requests.Keys == {0} && 0 in env.links
    requires s.db == Db(map[0 := c], []) && c.linkId == 0 && CanClaim(c)
    ensures var t := RunFrom(env, s, SubmitEvents(2, 0, 0, 2, OPEN_SURVEY));
      && t.db == Db(map[0 := c.(consumedAt := Some(2))], [ResponseFor(env.links[0], c)])
      && AllAnswered(t) && t.requests.Keys == {0, 2}
  {
    hide RunFrom, Step, Inv, SubmitEvents, Locked;
    NoLock(s, 0);
    SubmitIsRun(env, s, 2, 0, 0, 2, OPEN_SURVEY);
    OthersStay(env, s, 2, 0, 0, 2, OPEN_SURVEY);
    assert !Violates(s.db, ResponseFor(env.links[0], c));
    assert !HasClash(s.db, env.links[0].needId, c);
  }

  /** A submission touches no other request. */
  lemma OthersStay(env: Env, s: State, rid: nat, linkId: nat, id: nat, now: int, survey: Survey)
    requires rid !in s.requests
    ensures var t := RunFrom(env, s, SubmitEvents(rid, linkId, id, now, survey));
      forall p | p != rid :: (p in t.requests <==> p in s.requests)
          && (p in s.requests ==> t.requests[p] == s.requests[p])
  {
    var s1 := Step(env, s, StartSubmit(rid, linkId, id));
    var s2 := Step(env, s1, Claim(rid, now));
    var s3 := Step(env, s2, ReadDuplicates(rid));
    RunTwo(env, s2, ReadDuplicates(rid), Finish(rid, survey));
    RunCons(env, s1, Claim(rid, now), [ReadDuplicates(rid), Finish(rid, survey)]);
    RunCons(env, s, StartSubmit(rid, linkId, id),
        [Claim(rid, now)] + [ReadDuplicates(rid), Finish(rid, survey)]);
    OneMoves(env, s, StartSubmit(rid, linkId, id));
    OneMoves(env, s1, Claim(rid, now));
    OneMoves(env, s2, ReadDuplicates(rid));
    hide Step, RunFrom;
    OneMoves(env, s3, Finish(rid, survey));
  }

  lemma OneMoves(env: Env, s: State, e: Event)
    requires !e.RequestOtp?
    ensures var t := Step(env, s, e);
      forall p | p != e.rid :: (p in t.requests <==> p in s.requests)
          && (p in s.requests ==> t.requests[p] == s.requests[p])
  {
    hide Locked, HasClash, Begin;
  }

  lemma Disagree(env: Env, db: Db, first: string, second: string, mobile: string, c: Challenge, d: Challenge)
    requires 0 in env.links && NormalizeMobile(mobile) == "" && c.linkId == 0
    requires RequestedWith(env, c, first, mobile) && RequestedWith(env, d, second, mobile)
    requires NormalizeContact(env.lower, first) != NormalizeContact(env.lower, second)
    requires db.responses == [ResponseFor(env.links[0], c)]
    ensures CheckDuplicate(env, db, env.links[0].needId, second, mobile) && !HasClash(db, env.links[0].needId, d)
    ensures Violates(db, ResponseFor(env.links[0], d))
  {
    assert SharesEmptyMobile(db.responses[0], env.links[0].needId);
    CheckVersusClaim(env, db, env.links[0].needId, second, mobile, d);
    CheckPredictsIndex(env, db, env.links[0], second, mobile, d);
  }

  /** Three dashes are such a mobile. */
  lemma DashesAreEmpty()
    ensures NormalizeMobile("---") == ""
  {
    TrimShape(IsSpace, "---");
    assert "---"[1..] == "--" && "--"[1..] == "-" && "-"[1..] == "";
    assert Filter(IsDigitText, "-") == "" && Filter(IsDigitText, "--") == "" && Filter(IsDigitText, "---") == "";
  }
}
