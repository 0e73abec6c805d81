/** The email-address record store of EmailAddressDataServiceImpl: records
    keyed by id, each holding an address and an optional reference to a
    verification subject of the external verification engine.

    The persistence store is the map `records`. The engine and the mail
    service are seen from this side only: the calls the service makes to the
    engine are appended to `engineCalls`, the mails it sends to `outbox`, and
    what the engine answers reaches each operation as an `Option` parameter
    (None where the engine returns null). Java null arguments are `Option`
    parameters as well, dates are milliseconds as `int`, and the clock read
    by isEmailAddressVerified is the parameter `now`. */
module EmailAddressData {
  import opened Wrappers
  import opened EmailPattern

  /** An email-address record: the saved address and, once the first
      verification request has been made, the engine's subject id. */
  datatype Record = Record(emailAddress: string, verifiableData: Option<int>)

  /** What a verification length is counted from (engine parameter). */
  datatype VerificationLengthBase = RequestCreation | Verification

  /** The engine's verdict on a presented token; every outcome other than a
      confirmation or a refusal (an expired or used token, say) is Other. */
  datatype TokenUsageResult = Verified | Rejected | Other

  /** The outcome this service reports for a presented token. */
  datatype ConfirmationResult = Success | Rejected | Failed

  /** The reply of verifyEmailAddress: the record's id (null when unknown)
      and the confirmation result. */
  datatype EmailVerificationResult =
    EmailVerificationResult(emailAddressId: Option<int>, result: ConfirmationResult)

  /** The accept and reject tokens the engine issues for one request. */
  datatype VerificationRequest =
    VerificationRequest(verifyTokenUuid: string, rejectTokenUuid: string)

  /** The engine's reply when it creates a new verification subject. */
  datatype VerifiableDataCreation =
    VerifiableDataCreation(verifiableDataId: int, verificationRequest: VerificationRequest)

  /** The engine's reply when a token is presented to it. */
  datatype VerificationResult =
    VerificationResult(verifiableDataId: int, tokenUsageResult: TokenUsageResult)

  /** A sent verification mail: its recipient, the two tokens it carries
      (the template's $acceptToken and $rejectToken) and the template. */
  datatype Mail = Mail(recipient: string, acceptToken: string, rejectToken: string, template: string)

  /** A call from the service into the verification engine. */
  datatype EngineCall =
    | CreateVerifiableData(tokenValidityEndDate: int, verificationLength: int,
                           lengthBase: VerificationLengthBase)
    | CreateVerificationRequest(verifiableDataId: int, tokenValidityEndDate: int,
                                verificationLength: int, lengthBase: VerificationLengthBase)
    | InvalidateData(verifiableDataId: int)

  /** The exceptions the service throws. */
  datatype Error =
    | IllegalArgument
    | InvalidEmailAddress
    | NonPositiveVerificationLength
    | NoSuchEmailAddressData

  /** The service's mapping of the engine's verdict. */
  function DetermineConfirmationResult(t: TokenUsageResult): (r: ConfirmationResult)
    ensures r == Success <==> t == Verified
    ensures r == ConfirmationResult.Rejected <==> t == TokenUsageResult.Rejected
    ensures r == Failed <==> t == Other
  {
    match t
    case Verified => Success
    case Rejected => ConfirmationResult.Rejected
    case Other => Failed
  }

  /** The ids of the records that refer to verification subject v. */
  function Holders(records: map<int, Record>, v: int): set<int>
  {
    set id | id in records && records[id].verifiableData == Some(v)
  }

  /** A set of size one is a singleton. */
  lemma Singleton(s: set<int>)
    requires |s| == 1
    ensures exists x :: s == {x}
  {
    NonEmpty(s);
    var x :| x in s;
    assert |s - {x}| == 0;
    assert s == {x};
  }

  /** A set that is not empty has an element. */
  lemma NonEmpty(s: set<int>)
    requires |s| > 0
    ensures exists x :: x in s
  {
    if forall x :: x !in s {
      assert false;
    }
  }

  /** The id of the record referring to subject v, found only when exactly
      one record refers to it. */
  function EmailAddressIdByVerifiableDataId(records: map<int, Record>, v: int): (r: Option<int>)
    ensures r.Some? <==> |Holders(records, v)| == 1
    ensures r.Some? ==> Holders(records, v) == {r.value}
  {
    var holders := Holders(records, v);
    if |holders| == 1 then
      Singleton(holders);
      var id :| holders == {id};
      Some(id)
    else
      None
  }

  /** The address saved under id; None when there is no such record. */
  function EmailAddressById(records: map<int, Record>, id: int): (r: Option<string>)
    ensures r.Some? <==> id in records
    ensures r.Some? ==> r.value == records[id].emailAddress
  {
    if id in records then Some(records[id].emailAddress) else None
  }

  /** The record's verification subject; None when there is no such record
      or it has none yet (the inner join finds no row). */
  function VerifiableDataIdById(records: map<int, Record>, id: int): (r: Option<int>)
    ensures r.Some? <==> id in records && records[id].verifiableData.Some?
    ensures r.Some? ==> id in Holders(records, r.value)
  {
    if id in records then records[id].verifiableData else None
  }

  /** The verified-until date of the record's subject, read through the
      engine's table `verifiedUntil`; None when there is no such record, no
      subject, no row for it, or the row's date is null. */
  function VerificationEndById(records: map<int, Record>, verifiedUntil: map<int, Option<int>>,
                               id: int): (r: Option<int>)
    ensures r.Some? ==> VerifiableDataIdById(records, id).Some?
    ensures r.Some? ==> var v := VerifiableDataIdById(records, id).value;
                        v in verifiedUntil && verifiedUntil[v] == r
  {
    match VerifiableDataIdById(records, id)
    case None => None
    case Some(v) => if v in verifiedUntil then verifiedUntil[v] else None
  }

  /** A record counts as verified at time now when its subject's
      verified-until date is known and lies strictly after now. */
  ghost predicate VerifiedAt(records: map<int, Record>, verifiedUntil: map<int, Option<int>>,
                             id: int, now: int)
  {
    id in records && records[id].verifiableData.Some? &&
    var v := records[id].verifiableData.value;
    v in verifiedUntil && verifiedUntil[v].Some? && now < verifiedUntil[v].value
  }

  /** Ids are positive and below the next id to hand out, and every stored
      address passed validation. */
  ghost predicate WellFormed(records: map<int, Record>, nextId: int)
  {
    0 < nextId &&
    (forall id :: id in records ==> 0 < id < nextId) &&
    (forall id :: id in records ==> ValidateEmailAddress(records[id].emailAddress))
  }

  /** How the store may evolve: a record that is still there keeps its
      address, and a verification reference once attached is never
      replaced or dropped. */
  ghost predicate Evolves(before: map<int, Record>, after: map<int, Record>)
  {
    forall id :: id in before && id in after ==>
      after[id].emailAddress == before[id].emailAddress &&
      (before[id].verifiableData.Some? ==> after[id].verifiableData == before[id].verifiableData)
  }

  /** How ids are handed out: the next id never decreases, and a record that
      was not there before has an id at or above the old next id. */
  ghost predicate FreshIds(before: map<int, Record>, nextBefore: int,
                           after: map<int, Record>, nextAfter: int)
  {
    nextBefore <= nextAfter &&
    forall id :: id in after && id !in before ==> nextBefore <= id
  }

  /** The service object: the persisted records, the mails sent and the
      calls made into the verification engine. */
  class EmailAddressDataService {
    var records: map<int, Record>
    var outbox: seq<Mail>
    var engineCalls: seq<EngineCall>
    /** The id the store hands to the next persisted record. */
    var nextId: int

    ghost predicate Valid()
      reads this
    {
      WellFormed(records, nextId)
    }

    constructor ()
      ensures Valid()
      ensures records == map[] && outbox == [] && engineCalls == []
    {
      records := map[];
      outbox := [];
      engineCalls := [];
      nextId := 1;
    }

    /** saveEmailAddress: a null address is an illegal argument, an invalid
        one is refused, a valid one is stored under a fresh positive id with
        no verification reference. */
    method SaveEmailAddress(emailAddress: Option<string>) returns (r: Result<int, Error>)
      requires Valid()
      modifies this
      ensures Valid()
      ensures emailAddress.None? ==> r == Err(IllegalArgument)
      ensures emailAddress.Some? && !ValidateEmailAddress(emailAddress.value) ==>
                r == Err(InvalidEmailAddress)
      ensures r.Err? ==> records == old(records) && nextId == old(nextId)
      ensures emailAddress.Some? && ValidateEmailAddress(emailAddress.value) ==>
                r.Ok? && r.value > 0 && r.value !in old(records) &&
                r.value == old(nextId) && nextId == old(nextId) + 1 &&
                records == old(records)[r.value := Record(emailAddress.value, None)]
      ensures Evolves(old(records), records)
      ensures FreshIds(old(records), old(nextId), records, nextId)
      ensures outbox == old(outbox) && engineCalls == old(engineCalls)
    {
      if emailAddress.None? {
        return Err(IllegalArgument);
      }
      if ValidateEmailAddress(emailAddress.value) {
        var id := nextId;
        records := records[id := Record(emailAddress.value, None)];
        nextId := nextId + 1;
        r := Ok(id);
      } else {
        r := Err(InvalidEmailAddress);
      }
    }

    /** createVerificationRequest: after the argument checks (nulls, then
        the length, then the record), reuse the record's subject if it has
        one, otherwise create a subject and attach it; mail the tokens to
        the record's address whenever the engine issued them. The engine's
        reply to a request on an existing subject is requestReply, its reply
        to a subject creation is creationReply. */
    method CreateVerificationRequest(emailAddressId: int, messageTemplate: Option<string>,
                                     tokenValidityEndDate: Option<int>, verificationLength: int,
                                     verificationLengthBase: Option<VerificationLengthBase>,
                                     requestReply: Option<VerificationRequest>,
                                     creationReply: Option<VerifiableDataCreation>)
      returns (r: Outcome<Error>)
      requires Valid()
      modifies this
      ensures Valid()
      ensures tokenValidityEndDate.None? || verificationLengthBase.None? || messageTemplate.None? ==>
                r == Fail(IllegalArgument)
      ensures tokenValidityEndDate.Some? && verificationLengthBase.Some? && messageTemplate.Some? &&
              verificationLength <= 0 ==>
                r == Fail(NonPositiveVerificationLength)
      ensures tokenValidityEndDate.Some? && verificationLengthBase.Some? && messageTemplate.Some? &&
              verificationLength > 0 && emailAddressId !in old(records) ==>
                r == Fail(NoSuchEmailAddressData)
      ensures r.Fail? ==>
                records == old(records) && outbox == old(outbox) && engineCalls == old(engineCalls)
      ensures r.Pass? <==>
                tokenValidityEndDate.Some? && verificationLengthBase.Some? && messageTemplate.Some? &&
                verificationLength > 0 && emailAddressId in old(records)
      // An existing subject is reused; the record does not change.
      ensures r.Pass? && old(records)[emailAddressId].verifiableData.Some? ==>
                var v := old(records)[emailAddressId].verifiableData.value;
                records == old(records) &&
                engineCalls == old(engineCalls) + [EngineCall.CreateVerificationRequest(
                  v, tokenValidityEndDate.value, verificationLength, verificationLengthBase.value)] &&
                outbox == old(outbox) + MailFor(old(records)[emailAddressId].emailAddress,
                                                requestReply, messageTemplate.value)
      // Without a subject one is created, attached, then mailed about.
      ensures r.Pass? && old(records)[emailAddressId].verifiableData.None? ==>
                engineCalls == old(engineCalls) + [CreateVerifiableData(
                  tokenValidityEndDate.value, verificationLength, verificationLengthBase.value)] &&
                match creationReply
                case None =>
                  records == old(records) && outbox == old(outbox)
                case Some(c) =>
                  records == old(records)[emailAddressId :=
                    old(records)[emailAddressId].(verifiableData := Some(c.verifiableDataId))] &&
                  outbox == old(outbox) + MailFor(old(records)[emailAddressId].emailAddress,
                                                  Some(c.verificationRequest), messageTemplate.value)
      ensures Evolves(old(records), records)
      ensures FreshIds(old(records), old(nextId), records, nextId)
      ensures nextId == old(nextId)
    {
      if tokenValidityEndDate.None? || verificationLengthBase.None? || messageTemplate.None? {
        return Fail(IllegalArgument);
      }
      if verificationLength <= 0 {
        return Fail(NonPositiveVerificationLength);
      }
      if EmailAddressById(records, emailAddressId).None? {
        return Fail(NoSuchEmailAddressData);
      }
      var entity := records[emailAddressId];
      match entity.verifiableData {
        case Some(v) =>
          engineCalls := engineCalls + [EngineCall.CreateVerificationRequest(
            v, tokenValidityEndDate.value, verificationLength, verificationLengthBase.value)];
          if requestReply.Some? {
            SendEmail(entity.emailAddress, requestReply.value, messageTemplate.value);
          }
        case None =>
          engineCalls := engineCalls + [CreateVerifiableData(
            tokenValidityEndDate.value, verificationLength, verificationLengthBase.value)];
          if creationReply.Some? {
            var c := creationReply.value;
            records := records[emailAddressId := entity.(verifiableData := Some(c.verifiableDataId))];
            SendEmail(entity.emailAddress, c.verificationRequest, messageTemplate.value);
          }
      }
      r := Pass;
    }

    /** sendEmail: one mail to the receiver carrying the two tokens. */
    method SendEmail(receiver: string, request: VerificationRequest, messageTemplate: string)
      modifies this`outbox
      ensures outbox == old(outbox) + MailFor(receiver, Some(request), messageTemplate)
    {
      outbox := outbox + [Mail(receiver, request.verifyTokenUuid, request.rejectTokenUuid,
                               messageTemplate)];
    }

    /** isEmailAddressVerified, at time now, given the engine's table of
        verified-until dates. */
    method IsEmailAddressVerified(emailAddressId: int, verifiedUntil: map<int, Option<int>>, now: int)
      returns (r: Result<bool, Error>)
      requires Valid()
      ensures emailAddressId !in records <==> r == Err(NoSuchEmailAddressData)
      ensures emailAddressId in records <==> r.Ok?
      ensures r.Ok? ==> (r.value <==> VerifiedAt(records, verifiedUntil, emailAddressId, now))
    {
      if EmailAddressById(records, emailAddressId).None? {
        return Err(NoSuchEmailAddressData);
      }
      var end := VerificationEndById(records, verifiedUntil, emailAddressId);
      r := Ok(end.Some? && now < end.value);
    }

    /** invalidateEmailAddress: the engine is told to invalidate the
        record's subject, if it has one, and then the record is removed. */
    method InvalidateEmailAddress(emailAddressId: int) returns (r: Outcome<Error>)
      requires Valid()
      modifies this
      ensures Valid()
      ensures emailAddressId !in old(records) <==> r == Fail(NoSuchEmailAddressData)
      ensures emailAddressId in old(records) <==> r.Pass?
      ensures r.Fail? ==> records == old(records) && engineCalls == old(engineCalls)
      ensures r.Pass? ==>
                records == old(records) - {emailAddressId} &&
                engineCalls == old(engineCalls) +
                  match old(records)[emailAddressId].verifiableData
                  case Some(v) => [InvalidateData(v)]
                  case None => []
      ensures Evolves(old(records), records)
      ensures FreshIds(old(records), old(nextId), records, nextId)
      ensures outbox == old(outbox) && nextId == old(nextId)
    {
      if EmailAddressById(records, emailAddressId).None? {
        return Fail(NoSuchEmailAddressData);
      }
      var verifiableDataId := VerifiableDataIdById(records, emailAddressId);
      if verifiableDataId.Some? {
        engineCalls := engineCalls + [InvalidateData(verifiableDataId.value)];
      }
      records := records - {emailAddressId};
      r := Pass;
    }

    /** verifyEmailAddress: the engine's verdict on the token (verdict,
        None where the engine found no usable token) is mapped back to the
        one record referring to its subject. */
    method VerifyEmailAddress(tokenUuid: Option<string>, verdict: Option<VerificationResult>)
      returns (r: Result<EmailVerificationResult, Error>)
      requires Valid()
      ensures tokenUuid.None? <==> r == Err(IllegalArgument)
      ensures tokenUuid.Some? && verdict.None? ==>
                r == Ok(EmailVerificationResult(None, Failed))
      ensures tokenUuid.Some? && verdict.Some? ==>
                var v := verdict.value.verifiableDataId;
                r.Ok? &&
                (r.value.emailAddressId.Some? <==> |Holders(records, v)| == 1) &&
                (r.value.emailAddressId.Some? ==>
                   Holders(records, v) == {r.value.emailAddressId.value} &&
                   r.value.result == DetermineConfirmationResult(verdict.value.tokenUsageResult)) &&
                (r.value.emailAddressId.None? ==> r.value.result == Failed)
    {
      if tokenUuid.None? {
        return Err(IllegalArgument);
      }
      match verdict {
        case None =>
          r := Ok(EmailVerificationResult(None, Failed));
        case Some(verifyData) =>
          var emailAddressId := EmailAddressIdByVerifiableDataId(records, verifyData.verifiableDataId);
          if emailAddressId.Some? {
            r := Ok(EmailVerificationResult(
              emailAddressId, DetermineConfirmationResult(verifyData.tokenUsageResult)));
          } else {
            r := Ok(EmailVerificationResult(None, Failed));
          }
      }
    }
  }

  /** The mail sent to recipient when the engine issued tokens, nothing
      when it issued none. */
  function MailFor(recipient: string, request: Option<VerificationRequest>, template: string)
    : (mails: seq<Mail>)
    ensures |mails| == if request.Some? then 1 else 0
    ensures request.Some? ==>
              mails[0].recipient == recipient && mails[0].template == template &&
              mails[0].acceptToken == request.value.verifyTokenUuid &&
              mails[0].rejectToken == request.value.rejectTokenUuid
  {
    match request
    case None => []
    case Some(q) => [Mail(recipient, q.verifyTokenUuid, q.rejectTokenUuid, template)]
  }
}

/** Properties of the record store that span several operations. */
module EmailAddressDataLifecycle {
  import opened Wrappers
  import opened EmailPattern
  import opened EmailAddressData

  /** No record is ever stored under id 0 or a negative id, so every
      operation given such an id fails with NoSuchEmailAddressData. */
  lemma NonPositiveIdsAbsent(records: map<int, Record>, nextId: int, id: int)
    requires WellFormed(records, nextId)
    requires id <= 0
    ensures EmailAddressById(records, id) == None
  {
  }

  /** A freshly saved record is not verified, whatever the engine's table
      says and whatever the time. */
  lemma FreshRecordNotVerified(records: map<int, Record>, verifiedUntil: map<int, Option<int>>,
                               id: int, address: string, now: int)
    ensures !VerifiedAt(records[id := Record(address, None)], verifiedUntil, id, now)
  {
  }

  /** Saving a record under an unused id changes no reverse lookup. */
  lemma SaveKeepsHolders(records: map<int, Record>, id: int, address: string, v: int)
    requires id !in records
    ensures Holders(records[id := Record(address, None)], v) == Holders(records, v)
    ensures EmailAddressIdByVerifiableDataId(records[id := Record(address, None)], v)
         == EmailAddressIdByVerifiableDataId(records, v)
  {
    var after := records[id := Record(address, None)];
    assert Holders(after, v) == Holders(records, v);
  }

  /** A subject attached to a record that no other record refers to maps
      back to that record, so a token issued for it is reported against
      that record. */
  lemma AttachedSubjectMapsBack(records: map<int, Record>, id: int, v: int)
    requires id in records && records[id].verifiableData.None?
    requires Holders(records, v) == {}
    ensures var after := records[id := records[id].(verifiableData := Some(v))];
            EmailAddressIdByVerifiableDataId(after, v) == Some(id)
  {
    var after := records[id := records[id].(verifiableData := Some(v))];
    assert Holders(after, v) == {id};
  }

  /** A subject shared by two records maps back to neither. */
  lemma SharedSubjectMapsNowhere(records: map<int, Record>, a: int, b: int, v: int)
    requires a != b && a in Holders(records, v) && b in Holders(records, v)
    ensures EmailAddressIdByVerifiableDataId(records, v) == None
  {
    var holders := Holders(records, v);
    if |holders| == 1 {
      Singleton(holders);
    }
  }

  /** Once its only record is invalidated, a subject maps back to nothing,
      so its tokens give Failed with no id. */
  lemma InvalidatedSubjectMapsNowhere(records: map<int, Record>, id: int, v: int)
    requires Holders(records, v) == {id}
    ensures EmailAddressIdByVerifiableDataId(records - {id}, v) == None
  {
    assert Holders(records - {id}, v) == {};
  }

  /** Invalidating a stored record succeeds once; afterwards the record is
      gone, so asking whether it is verified and invalidating it again both
      fail with NoSuchEmailAddressData, as do invalidations of ids 0 and -1. */
  method InvalidateThenRetry(service: EmailAddressDataService, id: int,
                             verifiedUntil: map<int, Option<int>>, now: int)
    returns (first: Outcome<Error>, query: Result<bool, Error>, second: Outcome<Error>,
             zero: Outcome<Error>, negative: Outcome<Error>)
    requires service.Valid() && id in service.records
    modifies service
    ensures service.Valid()
    ensures first == Pass
    ensures query == Err(NoSuchEmailAddressData)
    ensures second == Fail(NoSuchEmailAddressData)
    ensures zero == Fail(NoSuchEmailAddressData) && negative == Fail(NoSuchEmailAddressData)
  {
    first := service.InvalidateEmailAddress(id);
    query := service.IsEmailAddressVerified(id, verifiedUntil, now);
    second := service.InvalidateEmailAddress(id);
    zero := service.InvalidateEmailAddress(0);
    negative := service.InvalidateEmailAddress(-1);
  }

  /** The verified-until lookup isEmailAddressVerified performs agrees with
      VerifiedAt. */
  lemma VerificationEndDecidesVerified(records: map<int, Record>, verifiedUntil: map<int, Option<int>>,
                                       id: int, now: int)
    ensures var end := VerificationEndById(records, verifiedUntil, id);
            (end.Some? && now < end.value) <==> VerifiedAt(records, verifiedUntil, id, now)
  {
  }

  /** Ids are never reused: a record present at the start and at the end of
      two steps that hand out ids as FreshIds says was there in between. */
  lemma IdsNeverReused(a: map<int, Record>, na: int, b: map<int, Record>, nb: int,
                       c: map<int, Record>, nc: int, id: int)
    requires WellFormed(a, na)
    requires FreshIds(a, na, b, nb) && FreshIds(b, nb, c, nc)
    requires id in a && id in c
    ensures id in b
  {
  }

  /** The evolution the operations allow composes: across any run of
      operations a record keeps its address and its first subject, and
      the store keeps handing out fresh ids. */
  lemma EvolvesTransitive(a: map<int, Record>, na: int, b: map<int, Record>, nb: int,
                          c: map<int, Record>, nc: int)
    requires WellFormed(a, na)
    requires Evolves(a, b) && FreshIds(a, na, b, nb)
    requires Evolves(b, c) && FreshIds(b, nb, c, nc)
    ensures Evolves(a, c) && FreshIds(a, na, c, nc)
  {
    forall id | id in a && id in c
      ensures id in b
    {
      IdsNeverReused(a, na, b, nb, c, nc, id);
    }
  }
}
