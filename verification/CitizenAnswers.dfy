/** What each citizen request is answered and what it changes, said of the columns it reads. */
module CitizenAnswers {
  import opened Wrappers
  import opened Text
  import opened Citizen
  import opened CitizenServices

  // ---------------------------------------------------------------- submitting

  /** Some response of the Need has the contact, or the mobile, whatever the mobile is. */
  ghost predicate KeyTaken(responses: seq<Response>, needId: string, contact: string, mobile: Option<string>) {
    exists i | 0 <= i < |responses| ::
      && responses[i].link.needId == needId
      && (responses[i].contact == contact || (mobile.Some? && responses[i].mobile == mobile))
  }

  /** Likewise, but an empty mobile does not take part. */
  ghost predicate ReadTaken(responses: seq<Response>, needId: string, contact: string, mobile: Option<string>) {
    exists i | 0 <= i < |responses| ::
      && responses[i].link.needId == needId
      && (responses[i].contact == contact || (mobile.Some? && mobile.value != "" && responses[i].mobile == mobile))
  }

  /** Every question that was answered belongs to another version, and there is one. */
  ghost predicate OtherVersion(published: set<string>, answered: set<string>) {
    answered != {} && forall q | q in answered :: q !in published
  }

  lemma Taken(db: Db, link: Link, c: Challenge)
    ensures HasClash(db, link.needId, c) <==> ReadTaken(db.responses, link.needId, c.contact, c.mobile)
    ensures Violates(db, ResponseFor(link, c)) <==> KeyTaken(db.responses, link.needId, c.contact, c.mobile)
  {
    forall i | 0 <= i < |db.responses|
      ensures Clash(db.responses[i], link.needId, c)
         <==> db.responses[i].link.needId == link.needId
              && (db.responses[i].contact == c.contact
                  || (c.mobile.Some? && c.mobile.value != "" && db.responses[i].mobile == c.mobile))
      ensures SameKey(db.responses[i], ResponseFor(link, c))
         <==> db.responses[i].link.needId == link.needId
              && (db.responses[i].contact == c.contact || (c.mobile.Some? && db.responses[i].mobile == c.mobile))
    {}
  }

  lemma Refuses(survey: Survey)
    ensures Refusal(survey)
         == if survey.published == None then Some(SurveyNotPublished)
            else if OtherVersion(survey.published.value, survey.answered) then Some(SurveyVersionChanged) else None
  {
  }

  /** The answer to a whole submission, and what it changes: the response is stored and the challenge consumed exactly
      if the challenge is verified and unconsumed, no response of the Need has its contact or mobile, and a survey is
      published to which an answered question belongs, if any was answered. */
  lemma SubmitExactly(env: Env, db: Db, linkId: nat, id: nat, now: int, survey: Survey)
    requires linkId in env.links
    ensures var (after, outcome) := SubmitWhole(env, db, linkId, id, now, survey);
      var link := env.links[linkId];
      if id !in db.challenges || db.challenges[id].linkId != linkId then
        outcome == ChallengeNotFound && after == db
      else
        var c := db.challenges[id];
        if c.verifiedAt == None then outcome == NotVerified && after == db
        else if c.consumedAt != None then outcome == AlreadyUsed && after == db
        else if ReadTaken(db.responses, link.needId, c.contact, c.mobile) then
          outcome == DuplicateSubmission && after == db
        else if survey.published == None then outcome == SurveyNotPublished && after == db
        else if OtherVersion(survey.published.value, survey.answered) then
          outcome == SurveyVersionChanged && after == db
        else if KeyTaken(db.responses, link.needId, c.contact, c.mobile) then
          outcome == UniqueViolation && after == db
        else
          && outcome == Submitted
          && after.challenges == db.challenges[id := c.(consumedAt := Some(now))]
          && after.responses == db.responses + [Response(link, linkId, c.contact, c.mobile)]
  {
    if id in db.challenges { Taken(db, env.links[linkId], db.challenges[id]); }
    Refuses(survey);
    hide HasClash, Violates, Refusal, ReadTaken, KeyTaken, OtherVersion;
  }

  /** Likewise for the end of a transaction that has read no duplicate, in any reachable state. */
  lemma FinishExactly(env: Env, s: State, rid: nat, survey: Survey)
    requires Inv(env, s) && rid in s.requests && s.requests[rid].Cleared?
    ensures var r, t := s.requests[rid], Step(env, s, Finish(rid, survey));
      && r.row.linkId in env.links && r.id in s.db.challenges && rid in t.requests
      && var link := env.links[r.row.linkId];
      if survey.published == None then t.requests[rid] == Answered(r.id, SurveyNotPublished) && t.db == s.db
      else if OtherVersion(survey.published.value, survey.answered) then
        t.requests[rid] == Answered(r.id, SurveyVersionChanged) && t.db == s.db
      else if KeyTaken(s.db.responses, link.needId, r.row.contact, r.row.mobile) then
        t.requests[rid] == Answered(r.id, UniqueViolation) && t.db == s.db
      else
        && t.requests[rid] == Answered(r.id, Submitted)
        && t.db.challenges == s.db.challenges[r.id := s.db.challenges[r.id].(consumedAt := Some(r.at))]
        && t.db.responses == s.db.responses + [Response(link, r.row.linkId, r.row.contact, r.row.mobile)]
  {
    var r := s.requests[rid];
    Placed(env, s, rid);
    Taken(s.db, env.links[r.row.linkId], r.row);
    Refuses(survey);
    hide Inv, Violates, Refusal, KeyTaken, OtherVersion, ReadOk;
  }

  /** Likewise for the duplicate read. */
  lemma ReadExactly(env: Env, s: State, rid: nat)
    requires Inv(env, s) && rid in s.requests && s.requests[rid].Claimed?
    ensures var r, t := s.requests[rid], Step(env, s, ReadDuplicates(rid));
      && r.row.linkId in env.links && rid in t.requests && t.db == s.db
      && t.requests[rid] == if ReadTaken(s.db.responses, env.links[r.row.linkId].needId, r.row.contact, r.row.mobile)
                            then Answered(r.id, DuplicateSubmission) else Cleared(r.id, r.row, r.at, s.steps)
  {
    var r := s.requests[rid];
    Placed(env, s, rid);
    Taken(s.db, env.links[r.row.linkId], r.row);
    hide Inv, HasClash, ReadTaken, ReadOk;
  }

  // ---------------------------------------------------------------- verifying

  /** The answer to a whole verification, and what it changes. */
  lemma VerifyExactly(env: Env, db: Db, linkId: nat, id: nat, code: string, now: int, cutoff: int, later: int)
    ensures var (after, outcome) := VerifyWhole(env, db, linkId, id, code, now, cutoff, later);
      if id !in db.challenges || db.challenges[id].linkId != linkId then
        outcome == ChallengeNotFound && after == db
      else
        var c := db.challenges[id];
        if c.verifiedAt != None then outcome == Verified && after == db
        else if c.expiresAt < now then outcome == OtpExpired && after == db
        else if c.attempts >= 5 || c.consumedAt != None || c.expiresAt <= cutoff then
          outcome == TooManyAttempts && after == db
        else if env.verify(c.codeHash, code) then
          && outcome == Verified
          && after == Db(db.challenges[id := c.(verifiedAt := Some(later))], db.responses)
        else
          && outcome == OtpIncorrect
          && after == Db(db.challenges[id := c.(attempts := c.attempts + 1)], db.responses)
  {
  }

  /** The row a code request stores. */
  lemma AskedExactly(env: Env, linkId: nat, contact: string, mobile: string, codeHash: string, now: int)
    ensures var c := NewChallenge(env, linkId, contact, mobile, codeHash, now);
      && RequestedWith(env, c, contact, mobile) && c.linkId == linkId && c.codeHash == codeHash
      && c.expiresAt == now + 600_000 && c.attempts == 0 && c.verifiedAt == None && c.consumedAt == None
  {
  }

  /** A code that has just been requested is accepted until its ten minutes are over, and only that code. */
  lemma FreshCode(env: Env, db: Db, id: nat, linkId: nat, contact: string, mobile: string, codeHash: string, asked: int,
                  code: string, now: int, cutoff: int, later: int)
    requires now <= cutoff
    ensures var row := NewChallenge(env, linkId, contact, mobile, codeHash, asked);
      var asking := Db(db.challenges[id := row], db.responses);
      VerifyWhole(env, asking, linkId, id, code, now, cutoff, later).1
      == if now > asked + 600_000 then OtpExpired
         else if cutoff >= asked + 600_000 then TooManyAttempts
         else if env.verify(codeHash, code) then Verified
         else OtpIncorrect
  {
    AskedExactly(env, linkId, contact, mobile, codeHash, asked);
  }

  // ---------------------------------------------------------------- spelling

  /** White space around a contact does not matter, and its case is taken away. */
  lemma ContactSpelling(lower: CaseMap, before: string, contact: string, after: string)
    requires CleanEdges(IsSpace, contact)
    requires (forall c | c in before :: IsSpace(c)) && forall c | c in after :: IsSpace(c)
    ensures NormalizeContact(lower, before + contact + after) == lower(contact)
  {
    TrimPadded(IsSpace, before, contact, after);
  }

  /** A mobile is read character by character: white space, hyphens and brackets are dropped, the rest stays. */
  lemma MobileSpelling(a: string, b: string, c: char)
    ensures NormalizeMobile("") == "" && NormalizeMobile(a + b) == NormalizeMobile(a) + NormalizeMobile(b)
    ensures NormalizeMobile([c]) == if IsSpace(c) || c in "-()" then "" else [c]
  {
    MobileKept(a);
    MobileKept(b);
    MobileKept(a + b);
    MobileKept([c]);
    FilterAppend(IsDigitText, a, b);
    assert [c][1..] == "";
  }

  lemma MobileKept(s: string)
    ensures NormalizeMobile(s) == Filter(IsDigitText, s)
  {
    FilterTrimmed(IsSpace, IsDigitText, s);
  }
}
