/** The citizen operations as the service runs them, one request at a time, each a run of the machine's steps. */
module CitizenServices {
  import opened Wrappers
  import opened Citizen

  // ---------------------------------------------------------------- whole requests as functions of the tables

  function VerifyWhole(env: Env, db: Db, linkId: nat, id: nat, code: string, now: int, cutoff: int, later: int)
    : (Db, Outcome)
  {
    match BeginVerify(db, linkId, id, code, now)
    case Verifying(_, row, _) =>
      var matches := env.verify(row.codeHash, code);
      if !CanGuess(row, cutoff) then (db, TooManyAttempts)
      else
        (db.(challenges := db.challenges[id := Guessed(row, matches, later)]),
         if matches then Verified else OtpIncorrect)
    case r => (db, r.outcome)
  }

  function SubmitWhole(env: Env, db: Db, linkId: nat, id: nat, now: int, survey: Survey): (Db, Outcome)
    requires linkId in env.links
  {
    match BeginSubmit(db, linkId, id)
    case Submitting(_, row) =>
      if HasClash(db, env.links[linkId].needId, row) then (db, DuplicateSubmission)
      else if Refusal(survey).Some? then (db, Refusal(survey).value)
      else if Violates(db, ResponseFor(env.links[linkId], row)) then (db, UniqueViolation)
      else (Commit(db, env.links[linkId], id, row, now), Submitted)
    case r => (db, r.outcome)
  }

  class CitizenService {
    const env: Env
    var challenges: map<nat, Challenge>
    var responses: seq<Response>

    constructor (env: Env)
      ensures this.env == env && Tables() == Db(map[], [])
    {
      this.env := env;
      challenges, responses := map[], [];
    }

    function Tables(): Db
      reads this
    {
      Db(challenges, responses)
    }

    /** The guarded update of a guess: the number of rows it changed. */
    method CountGuessed(id: nat, matches: bool, cutoff: int, now: int) returns (count: nat)
      requires id in challenges
      modifies this`challenges
      ensures count == if CanGuess(old(challenges)[id], cutoff) then 1 else 0
      ensures challenges == if count == 1 then old(challenges)[id := Guessed(old(challenges)[id], matches, now)]
          else old(challenges)
    {
      var c := challenges[id];
      if c.verifiedAt != None || c.consumedAt != None || c.expiresAt <= cutoff
          || c.attempts >= OTP_MAX_ATTEMPTS { return 0; }
      challenges := challenges[id := if matches then c.(verifiedAt := Some(now)) else c.(attempts := c.attempts + 1)];
      return 1;
    }

    method RequestOtp(id: nat, linkId: nat, contact: string, mobile: string, codeHash: string, now: int)
        returns (outcome: Option<Outcome>)
      requires id !in challenges
      modifies this`challenges
      ensures linkId !in env.links ==> outcome == Some(LinkNotFound) && challenges == old(challenges)
      ensures linkId in env.links ==>
        && outcome == None
        && challenges == old(challenges)[id := NewChallenge(env, linkId, contact, mobile, codeHash, now)]
    {
      if linkId !in env.links { return Some(LinkNotFound); }
      var c := Challenge(linkId, NormalizeContact(env.lower, contact), Some(NormalizeMobile(mobile)), codeHash,
                         now + OTP_TTL, 0, None, None);
      challenges := challenges[id := c];
      return None;
    }

    method VerifyOtp(linkId: nat, id: nat, code: string, now: int, cutoff: int, later: int) returns (outcome: Outcome)
      modifies this`challenges
      ensures linkId !in env.links ==> outcome == LinkNotFound && Tables() == old(Tables())
      ensures linkId in env.links ==>
        (Tables(), outcome) == VerifyWhole(env, old(Tables()), linkId, id, code, now, cutoff, later)
    {
      if linkId !in env.links { return LinkNotFound; }
      if id !in challenges || challenges[id].linkId != linkId { return ChallengeNotFound; }
      var challenge := challenges[id];
      if challenge.verifiedAt != None { return Verified; }
      if challenge.expiresAt < now { return OtpExpired; }
      if challenge.attempts >= OTP_MAX_ATTEMPTS { return TooManyAttempts; }
      var matches := env.verify(challenge.codeHash, code);
      var changed := CountGuessed(id, matches, cutoff, later);
      if changed != 1 { return TooManyAttempts; }
      if !matches { return OtpIncorrect; }
      return Verified;
    }

    method FindDuplicate(needId: string, contact: string, mobile: Option<string>) returns (found: bool)
      ensures found <==> exists i | 0 <= i < |responses| :: Matches(responses[i], needId, contact, mobile)
    {
      for i := 0 to |responses|
        invariant forall j | 0 <= j < i :: !Matches(responses[j], needId, contact, mobile)
      {
        var r := responses[i];
        if r.link.needId == needId
           && (r.contact == contact || (mobile.Some? && mobile.value != "" && r.mobile == mobile)) {
          return true;
        }
      }
      return false;
    }

    /** The insert of a response: the table's two unique indexes refuse a row that agrees with a stored one. */
    method CreateResponse(r: Response) returns (created: bool)
      modifies this`responses
      ensures created <==> forall i | 0 <= i < |old(responses)| :: !SameKey(old(responses)[i], r)
      ensures responses == if created then old(responses) + [r] else old(responses)
    {
      for i := 0 to |responses|
        invariant responses == old(responses) && forall j | 0 <= j < i :: !SameKey(responses[j], r)
      {
        var stored := responses[i];
        if stored.link.needId == r.link.needId
           && (stored.contact == r.contact || (stored.mobile.Some? && stored.mobile == r.mobile)) {
          return false;
        }
      }
      responses := responses + [r];
      return true;
    }

    method SubmitResponse(linkId: nat, id: nat, now: int, survey: Survey) returns (outcome: Outcome)
      modifies this
      ensures linkId !in env.links ==> outcome == LinkNotFound && Tables() == old(Tables())
      ensures linkId in env.links ==>
        (Tables(), outcome) == SubmitWhole(env, old(Tables()), linkId, id, now, survey)
    {
      if linkId !in env.links { return LinkNotFound; }
      if id !in challenges || challenges[id].linkId != linkId { return ChallengeNotFound; }
      var challenge := challenges[id];
      if challenge.verifiedAt == None { return NotVerified; }
      if challenge.consumedAt != None { return AlreadyUsed; }
      // The transaction: the claim below is undone whenever a later statement throws.
      ghost var before := Tables();
      challenges := challenges[id := challenge.(consumedAt := Some(now))];
      var link := env.links[linkId];
      var existing := FindDuplicate(link.needId, challenge.contact, challenge.mobile);
      assert existing <==> HasClash(before, link.needId, challenge) by {
        assert before.responses == responses;
        assert forall i | 0 <= i < |responses| ::
            Clash(before.responses[i], link.needId, challenge)
            <==> Matches(responses[i], link.needId, challenge.contact, challenge.mobile);
      }
      if existing {
        challenges := challenges[id := challenge];
        assert challenges == before.challenges;
        return DuplicateSubmission;
      }
      if Refusal(survey).Some? {
        challenges := challenges[id := challenge];
        assert challenges == before.challenges;
        return Refusal(survey).value;
      }
      var created := CreateResponse(Response(link, challenge.linkId, challenge.contact, challenge.mobile));
      assert created <==> !Violates(before, ResponseFor(link, challenge));
      if !created {
        challenges := challenges[id := challenge];
        assert challenges == before.challenges;
        return UniqueViolation;
      }
      return Submitted;
    }
  }

  // ---------------------------------------------------------------- a whole request is a run of its steps

  function VerifyEvents(rid: nat, linkId: nat, id: nat, code: string, now: int, cutoff: int, later: int): seq<Event> {
    [StartVerify(rid, linkId, id, code, now)] + [CheckCode(rid), CountGuess(rid, cutoff, later)]
  }

  /** An undisturbed verification runs as the machine's three steps do. */
  lemma VerifyIsRun(env: Env, s: State, rid: nat, linkId: nat, id: nat, code: string, now: int, cutoff: int, later: int)
    requires Inv(env, s) && rid !in s.requests && linkId in env.links && !Locked(s, id)
    ensures var t := RunFrom(env, s, VerifyEvents(rid, linkId, id, code, now, cutoff, later));
      var (db, outcome) := VerifyWhole(env, s.db, linkId, id, code, now, cutoff, later);
      t.db == db && rid in t.requests && t.requests[rid] == Answered(id, outcome)
  {
    var s1 := Step(env, s, StartVerify(rid, linkId, id, code, now));
    var s2 := Step(env, s1, CheckCode(rid));
    RunCons(env, s, StartVerify(rid, linkId, id, code, now), [CheckCode(rid), CountGuess(rid, cutoff, later)]);
    RunTwo(env, s1, CheckCode(rid), CountGuess(rid, cutoff, later));
    hide Inv, RunFrom;
    var r := BeginVerify(s.db, linkId, id, code, now);
    if r.Verifying? {
      assert s2.requests == s.requests[rid := Guessing(id, code, env.verify(r.row.codeHash, code))];
      assert !Locked(s2, id);
      GuessKnown(env, s, id);
    }
  }

  lemma GuessKnown(env: Env, s: State, id: nat)
    requires Inv(env, s) && id in s.db.challenges
    ensures id in s.guesses
  {
  }

  /** An undisturbed submission runs as the machine's four steps do. */
  lemma SubmitIsRun(env: Env, s: State, rid: nat, linkId: nat, id: nat, now: int, survey: Survey)
    requires Inv(env, s) && rid !in s.requests && linkId in env.links && !Locked(s, id)
    ensures var t := RunFrom(env, s, SubmitEvents(rid, linkId, id, now, survey));
      var (db, outcome) := SubmitWhole(env, s.db, linkId, id, now, survey);
      t.db == db && rid in t.requests && t.requests[rid] == Answered(id, outcome)
  {
    var s1 := Step(env, s, StartSubmit(rid, linkId, id));
    var s2 := Step(env, s1, Claim(rid, now));
    var s3 := Step(env, s2, ReadDuplicates(rid));
    RunTwo(env, s2, ReadDuplicates(rid), Finish(rid, survey));
    RunCons(env, s1, Claim(rid, now), [ReadDuplicates(rid), Finish(rid, survey)]);
    RunCons(env, s, StartSubmit(rid, linkId, id),
        [Claim(rid, now)] + [ReadDuplicates(rid), Finish(rid, survey)]);
    hide Inv, RunFrom;
    var r := BeginSubmit(s.db, linkId, id);
    assert s1.db == s.db && s1.requests == s.requests[rid := r];
    if r.Submitting? {
      assert !Locked(s1, id);
      assert s2.db == s.db && s2.requests == s.requests[rid := Claimed(id, r.row, now)];
      ReadsAlone(env, s2, rid, id, r.row, now, survey);
    } else {
      AnsweredStays(env, s1, rid, id, r.outcome, now, survey);
    }
  }

  function SubmitEvents(rid: nat, linkId: nat, id: nat, now: int, survey: Survey): seq<Event> {
    [StartSubmit(rid, linkId, id)] + ([Claim(rid, now)] + [ReadDuplicates(rid), Finish(rid, survey)])
  }

  lemma ReadsAlone(env: Env, s: State, rid: nat, id: nat, row: Challenge, now: int, survey: Survey)
    requires rid in s.requests && s.requests[rid] == Claimed(id, row, now) && row.linkId in env.links
    requires id in s.db.challenges && s.db.challenges[id] == row
    ensures var t := Step(env, Step(env, s, ReadDuplicates(rid)), Finish(rid, survey));
      var link := env.links[row.linkId];
      && rid in t.requests
      && (if HasClash(s.db, link.needId, row) then t.db == s.db && t.requests[rid] == Answered(id, DuplicateSubmission)
          else if Refusal(survey).Some? then t.db == s.db && t.requests[rid] == Answered(id, Refusal(survey).value)
          else if Violates(s.db, ResponseFor(link, row)) then
            t.db == s.db && t.requests[rid] == Answered(id, UniqueViolation)
          else t.db == Commit(s.db, link, id, row, now) && t.requests[rid] == Answered(id, Submitted))
  {
    hide HasClash, Violates;
  }

  lemma AnsweredStays(env: Env, s: State, rid: nat, id: nat, o: Outcome, now: int, survey: Survey)
    requires rid in s.requests && s.requests[rid] == Answered(id, o)
    ensures var t := Step(env, Step(env, Step(env, s, Claim(rid, now)), ReadDuplicates(rid)),
        Finish(rid, survey));
      t.db == s.db && rid in t.requests && t.requests[rid] == Answered(id, o)
  {
  }

  /** A submission never adds a response that shares its Need and contact, or its Need and mobile, with another,
      whatever is stored already. */
  lemma SubmitKeepsUnique(env: Env, db: Db, linkId: nat, id: nat, now: int, survey: Survey)
    requires linkId in env.links
    ensures var after := SubmitWhole(env, db, linkId, id, now, survey).0.responses;
      && db.responses <= after
      && (forall i, j | 0 <= i < j < |after| && j >= |db.responses| :: !SameKey(after[i], after[j]))
      && (Unique(db.responses) ==> Unique(after))
  {
    var after := SubmitWhole(env, db, linkId, id, now, survey).0.responses;
    forall i, j | 0 <= i < j < |after| && j >= |db.responses| ensures !SameKey(after[i], after[j]) {
      assert j == |db.responses| && !Violates(db, ResponseFor(env.links[linkId], db.challenges[id]));
    }
    forall i, j | Unique(db.responses) && 0 <= i < j < |after| ensures !SameKey(after[i], after[j]) {
      if j < |db.responses| { assert after[i] == db.responses[i] && after[j] == db.responses[j]; }
    }
  }

  /** With a challenge that can be claimed and a survey that stands, a submission that runs alone is stored exactly if
      the advisory check reports no duplicate; a reported one is refused as a duplicate, or by the indexes if only
      empty mobiles match. */
  lemma SubmitAsChecked(env: Env, db: Db, linkId: nat, id: nat, now: int, survey: Survey, contact: string,
                        mobile: string)
    requires linkId in env.links && Found(db, linkId, id) && CanClaim(db.challenges[id])
    requires survey.published.Some? && (survey.answered == {} || survey.answered * survey.published.value != {})
    requires RequestedWith(env, db.challenges[id], contact, mobile)
    ensures var needId, c := env.links[linkId].needId, db.challenges[id];
      SubmitWhole(env, db, linkId, id, now, survey).1
      == if !CheckDuplicate(env, db, needId, contact, mobile) then Submitted
         else if (exists i | 0 <= i < |db.responses| :: SharesContact(db.responses[i], needId, c.contact))
                 || NormalizeMobile(mobile) != "" then DuplicateSubmission
         else UniqueViolation
  {
    var link, c := env.links[linkId], db.challenges[id];
    CheckVersusClaim(env, db, link.needId, contact, mobile, c);
    CheckPredictsIndex(env, db, link, contact, mobile, c);
    CheckSees(env, db, link.needId, contact, mobile);
    assert Refusal(survey) == None;
    hide HasClash, Violates, CheckDuplicate, NormalizeMobile, Refusal;
  }

  lemma CheckSees(env: Env, db: Db, needId: string, contact: string, mobile: string)
    ensures CheckDuplicate(env, db, needId, contact, mobile) && NormalizeMobile(mobile) == ""
       ==> (exists i | 0 <= i < |db.responses| ::
              SharesContact(db.responses[i], needId, NormalizeContact(env.lower, contact)))
           || exists i | 0 <= i < |db.responses| :: SharesEmptyMobile(db.responses[i], needId)
  {
    if CheckDuplicate(env, db, needId, contact, mobile) {
      var i :| 0 <= i < |db.responses| && db.responses[i].link.needId == needId
        && (db.responses[i].contact == NormalizeContact(env.lower, contact)
            || db.responses[i].mobile == Some(NormalizeMobile(mobile)));
      assert SharesContact(db.responses[i], needId, NormalizeContact(env.lower, contact))
          || NormalizeMobile(mobile) != "" || SharesEmptyMobile(db.responses[i], needId);
    }
  }

  /** A submission changes both tables or neither. */
  lemma SubmitAllOrNothing(env: Env, db: Db, linkId: nat, id: nat, now: int, survey: Survey)
    requires linkId in env.links
    ensures var (after, outcome) := SubmitWhole(env, db, linkId, id, now, survey);
      if outcome == Submitted then
        && Found(db, linkId, id) && db.challenges[id].consumedAt == None && id in after.challenges
        && after.challenges[id].consumedAt == Some(now) && |after.responses| == |db.responses| + 1
        && forall again, later :: SubmitWhole(env, after, linkId, id, later, again) == (after, AlreadyUsed)
      else after == db
  {
  }
}
