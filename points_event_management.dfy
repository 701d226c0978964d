/** `service/event/EventManagementServiceImpl.process`: the thin pipeline that
    delegates the award to `PointsServiceImpl.awardPoints` and translates its
    result into the response sent to the LMS. Both run in one database
    transaction, so an exception from the award leaves every table as it was. */
module PointsEventManagement {
  import opened Common
  import opened Store
  import opened Dtos
  import PointsService
  import EventTypeService
  import UserService

  /** The response for an award result; `displayName` is the name of the
      type looked up again after a success. */
  function Respond(req: LmsEventRequest, result: AwardResult, displayName: string): (r: LmsEventResponse)
    requires HasIdentifiers(req) && WellShaped(result)
    ensures IsSuccess(result) <==> IsSuccessResponse(r)
    ensures result.status == DUPLICATE <==> IsDuplicateResponse(r)
    ensures result.status == REJECTED <==> IsErrorResponse(r)
    ensures result.status == DUPLICATE ==> r == DuplicateResponse(req.eventId.value)
    ensures result.status == REJECTED ==> r.message == result.rejectionReason
    ensures IsSuccess(result) ==>
      && r.userId == req.userId && r.eventId == req.eventId && r.displayName == Some(displayName)
      && r.pointsEarned == result.pointsEarned && r.totalPoints == result.totalPointsAfter
      && r.transactionId == result.transactionId && r.levelUp == Some(result.levelUp)
      && r.pointsToNextLevel == result.pointsToNextLevel && r.newLevel.None?
  {
    if IsSuccess(result) then
      SuccessResponse(req.userId.value, result.pointsEarned.value, result.totalPointsAfter.value,
                      req.eventId.value, result.transactionId.value, displayName)
        .(pointsToNextLevel := result.pointsToNextLevel, levelUp := Some(result.levelUp))
    else if result.status == DUPLICATE then DuplicateResponse(req.eventId.value)
    else ErrorResponse(result.rejectionReason)
  }

  /** The effect of `process(request)`. */
  function ProcessEffect(t: Tables, req: LmsEventRequest, today: int, fault: Option<SaveFault>)
    : (r: (Tables, Result<LmsEventResponse>))
    requires ValidTables(t) && HasIdentifiers(req)
    ensures ValidTables(r.0)
    ensures r.1.Failure? ==> r.0 == t
  {
    var (t1, award) := PointsService.PointsEffect(t, req, today, fault);
    match award
    case Failure(err) => (t, Failure(err))
    case Success(result) =>
      if IsSuccess(result) then
        match EventTypeService.GetActiveByCode(t1, req.eventType.value)
        case Failure(err) => (t, Failure(err))
        case Success(e) => (t1, Success(Respond(req, result, e.displayName)))
      else (t1, Success(Respond(req, result, "")))
  }

  /** `process(request)`. */
  method Process(db: Db, req: LmsEventRequest, today: int, fault: Option<SaveFault>)
    returns (r: Result<LmsEventResponse>)
    requires db.Valid() && HasIdentifiers(req)
    modifies db
    ensures (db.State(), r) == ProcessEffect(old(db.State()), req, today, fault)
  {
    var snapshot := db.State();
    var award := PointsService.AwardPoints(db, req, today, fault);
    if award.Failure? {
      return Failure(award.error);
    }
    var result := award.value;
    if IsSuccess(result) {
      var found := EventTypeService.GetActiveByCode(db.State(), req.eventType.value);
      if found.Failure? {
        db.Restore(snapshot);
        return Failure(found.error);
      }
      return Success(Respond(req, result, found.value.displayName));
    }
    return Success(Respond(req, result, ""));
  }

  // ---------------------------------------------------------------------------
  // What processing does, case by case.

  /** The store after processing is the store after the award: the second
      lookup of the type after a success always finds it. */
  lemma {:induction false} SameStoreAsAward(t: Tables, req: LmsEventRequest, today: int, fault: Option<SaveFault>)
    requires ValidTables(t) && HasIdentifiers(req)
    ensures var (t1, award) := PointsService.PointsEffect(t, req, today, fault);
      var (t2, response) := ProcessEffect(t, req, today, fault);
      && t2 == t1
      && (response.Failure? <==> award.Failure?)
      && (response.Failure? ==> response.error == award.error)
  {
    var (t1, award) := PointsService.PointsEffect(t, req, today, fault);
    if award.Success? && IsSuccess(award.value) {
      PointsService.SuccessEffect(t, req, today, fault);
    }
  }

  /** A successful award is answered with a success response naming the
      type, the points earned, the user's new total and the transaction. */
  lemma {:induction false} SuccessResponds(t: Tables, req: LmsEventRequest, today: int, fault: Option<SaveFault>)
    requires ValidTables(t) && HasIdentifiers(req)
    requires ProcessEffect(t, req, today, fault).1.Success?
    requires IsSuccessResponse(ProcessEffect(t, req, today, fault).1.value)
    ensures var (t', response) := ProcessEffect(t, req, today, fault);
      var e := t.eventTypes[req.eventType.value];
      var userId := req.userId.value;
      && req.eventType.value in t.eventTypes && e.active
      && |t'.transactions| == |t.transactions| + 1
      && response.value.displayName == Some(e.displayName)
      && response.value.pointsEarned == Some(e.points)
      && response.value.totalPoints == Some(t'.users[userId].totalPoints)
      && response.value.transactionId == Some(t'.transactions[|t.transactions|].uuid)
      && response.value.userId == req.userId && response.value.eventId == req.eventId
  {
    SameStoreAsAward(t, req, today, fault);
    var award := PointsService.PointsEffect(t, req, today, fault).1;
    assert award.Success? && IsSuccess(award.value);
    PointsService.SuccessEffect(t, req, today, fault);
  }

  /** A recorded event id is answered as a duplicate naming it, and nothing
      changes. */
  lemma DuplicateResponds(t: Tables, req: LmsEventRequest, today: int, fault: Option<SaveFault>)
    requires ValidTables(t) && HasIdentifiers(req)
    requires EventRecorded(t.transactions, req.eventId.value)
    ensures ProcessEffect(t, req, today, fault) == (t, Success(DuplicateResponse(req.eventId.value)))
  {
    PointsService.DuplicateChangesNothing(t, req, today, fault);
  }

  /** An award over the daily limit is an error response carrying the
      rejection reason; the user created for it stays. */
  lemma {:induction false} OverLimitResponds(t: Tables, req: LmsEventRequest, today: int, fault: Option<SaveFault>)
    requires ValidTables(t) && HasIdentifiers(req)
    requires !EventRecorded(t.transactions, req.eventId.value)
    requires req.eventType.value in t.eventTypes && t.eventTypes[req.eventType.value].active
    requires var e := t.eventTypes[req.eventType.value];
      EventTypeService.OverDailyLimit(e, DailySum(t.transactions, req.userId.value, req.eventType.value, today), e.points)
    ensures ProcessEffect(t, req, today, fault)
         == (UserService.GetOrCreateEffect(t, req.userId.value).0,
             Success(ErrorResponse(Some(PointsService.DailyLimitPrefix + t.eventTypes[req.eventType.value].displayName))))
  {
    var (t1, row) := UserService.GetOrCreateEffect(t, req.userId.value);
    assert t1.transactions == t.transactions;
  }

  /** An unknown or inactive type is not answered: the exception of the award
      escapes with every table unchanged. */
  lemma UnknownTypeEscapes(t: Tables, req: LmsEventRequest, today: int, fault: Option<SaveFault>)
    requires ValidTables(t) && HasIdentifiers(req)
    requires !EventRecorded(t.transactions, req.eventId.value)
    requires !(req.eventType.value in t.eventTypes && t.eventTypes[req.eventType.value].active)
    ensures ProcessEffect(t, req, today, fault) == (t, Failure(EventTypeNotFound(req.eventType.value)))
  {
    PointsService.UnknownTypeThrows(t, req, today, fault);
  }
}
