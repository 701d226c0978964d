/** `service/EventManagementServiceImpl.process`: the validating pipeline that
    answers the LMS with a response object rather than an award result.
    Validation of the request, the active type, the daily limit through
    `canAwardPoints`, get-or-create of the user, the insert through
    `saveIfNotExists` with its duplicate handling, then the user update with
    `User.recalculateLevel`.

    Every exception of the insert is caught inside `process`, which then
    returns normally; the model rolls nothing back, so a user created for an
    event whose insert fails stays. (Spring marks the transaction rollback-only
    when an exception leaves a `@Transactional` proxy, even if it is caught
    later; that rule is not modelled.) */
module EventManagement {
  import opened Common
  import opened Store
  import opened Users
  import opened Dtos
  import TransactionService
  import UserService
  import EventTypeService

  const NullRequestMessage: string := "Запрос события не может быть null"
  const UserIdRequiredMessage: string := "Идентификатор пользователя обязателен"
  const EventIdRequiredMessage: string := "Идентификатор события обязателен"
  const EventTypeRequiredMessage: string := "Тип события (eventType) обязателен"
  const UnknownTypePrefix: string := "Неизвестный или отключённый тип события: "
  const DailyLimitPrefix: string := "Достигнут дневной лимит начисления по типу "
  const DescriptionPrefix: string := "Тип события: "
  const SaveErrorMessage: string := "Внутренняя ошибка сервера при обработке события"

  // ---------------------------------------------------------------------------
  // Validation

  /** The message of the first validation the request fails, in the order
      null request, user id, event id, event type; `None` when it passes. */
  function Validate(req: Option<LmsEventRequest>): (m: Option<string>)
    ensures m.None? <==> req.Some? && !IsBlank(req.value.userId) && !IsBlank(req.value.eventId)
                         && !IsBlank(req.value.eventType)
    ensures req.None? ==> m == Some(NullRequestMessage)
    ensures req.Some? && IsBlank(req.value.userId) ==> m == Some(UserIdRequiredMessage)
    ensures req.Some? && !IsBlank(req.value.userId) && IsBlank(req.value.eventId) ==> m == Some(EventIdRequiredMessage)
    ensures req.Some? && !IsBlank(req.value.userId) && !IsBlank(req.value.eventId) && IsBlank(req.value.eventType)
        ==> m == Some(EventTypeRequiredMessage)
  {
    if req.None? then Some(NullRequestMessage)
    else if IsBlank(req.value.userId) then Some(UserIdRequiredMessage)
    else if IsBlank(req.value.eventId) then Some(EventIdRequiredMessage)
    else if IsBlank(req.value.eventType) then Some(EventTypeRequiredMessage)
    else None
  }

  /** A request that passes validation carries all three identifiers. */
  lemma ValidatedHasIdentifiers(req: Option<LmsEventRequest>)
    requires Validate(req).None?
    ensures HasIdentifiers(req.value)
  {
  }

  /** A blank user id is reported even when the event id and type are blank
      too: the first failing check decides the message. */
  lemma FirstFailureWins(eventId: Option<string>, eventType: Option<string>, courseId: Option<string>)
    ensures Validate(Some(LmsEventRequest(Some(" "), eventId, eventType, courseId, None))) == Some(UserIdRequiredMessage)
  {
    assert IsBlank(Some(" "));
  }

  // ---------------------------------------------------------------------------
  // The type lookup and its catch clause

  /** What the `try`/`catch` around `getActiveByCode` yields: the type, a
      response returned from the handler, or an exception that escapes. */
  datatype Lookup = Found(e: EventType) | Respond(response: LmsEventResponse) | Escape(error: Error)

  /** As written: the handler catches `EntityNotFoundException`, while
      `getActiveByCode` throws `EventTypeNotFoundException`, which is not one,
      so a missing type escapes the handler. */
  function LookupAsWritten(t: Tables, typeCode: string): (r: Lookup)
    ensures r.Found? <==> EventTypeService.GetActiveByCode(t, typeCode).Success?
  {
    match EventTypeService.GetActiveByCode(t, typeCode)
    case Success(e) => Found(e)
    case Failure(EntityNotFound) => Respond(ErrorResponse(Some(UnknownTypePrefix + typeCode)))
    case Failure(err) => Escape(err)
  }

  /** As intended (and as the service's test expects): a missing or inactive
      type is answered with the "unknown or disabled type" error. */
  function LookupIntended(t: Tables, typeCode: string): (r: Lookup)
    ensures r.Found? <==> EventTypeService.GetActiveByCode(t, typeCode).Success?
    ensures !r.Escape?
  {
    match EventTypeService.GetActiveByCode(t, typeCode)
    case Success(e) => Found(e)
    case Failure(_) => Respond(ErrorResponse(Some(UnknownTypePrefix + typeCode)))
  }

  /** The discrepancy: for a missing or inactive type the handler as written
      never runs and the exception escapes, where the intended handler answers
      with an error response. For a found type the two agree. */
  lemma LookupCatchesWrongException(t: Tables, typeCode: string)
    ensures !EventTypeService.GetActiveByCode(t, typeCode).Success? ==>
      && LookupAsWritten(t, typeCode) == Escape(EventTypeNotFound(EventTypeService.ActiveNotFoundPrefix + typeCode))
      && LookupIntended(t, typeCode) == Respond(ErrorResponse(Some(UnknownTypePrefix + typeCode)))
    ensures EventTypeService.GetActiveByCode(t, typeCode).Success? ==> LookupAsWritten(t, typeCode) == LookupIntended(t, typeCode)
  {
  }

  // ---------------------------------------------------------------------------
  // The pipeline

  /** The transaction `process` writes (its key is drawn on insert). */
  function EventTransaction(userId: string, eventId: string, e: EventType, today: int): Transaction
  {
    Transaction(0, userId, eventId, e.typeCode, e.points, DescriptionPrefix + e.displayName, today)
  }

  /** From the daily-limit check on, for the active type `e` of the request. */
  function AwardFound(t: Tables, req: LmsEventRequest, e: EventType, today: int, fault: Option<SaveFault>)
    : (r: (Tables, LmsEventResponse))
    requires ValidTables(t) && HasIdentifiers(req)
    requires EventTypeService.GetActiveByCode(t, req.eventType.value) == Success(e)
    ensures ValidTables(r.0)
  {
    var userId := req.userId.value;
    if !EventTypeService.CanAwardPoints(t, userId, req.eventType.value, e.points, today).value then
      (t, ErrorResponse(Some(DailyLimitPrefix + e.displayName)))
    else
      var (t1, row) := UserService.GetOrCreateEffect(t, userId);
      RecordAndCredit(t1, row, req, e, today, fault)
  }

  /** From the insert on, once the user row is loaded: a failed insert keeps
      the tables and is answered as a duplicate or an internal error; a
      successful one is followed by the update of the user. */
  function RecordAndCredit(t1: Tables, row: UserRow, req: LmsEventRequest, e: EventType, today: int,
                           fault: Option<SaveFault>): (r: (Tables, LmsEventResponse))
    requires ValidTables(t1) && HasIdentifiers(req)
    ensures ValidTables(r.0)
  {
    var userId, eventId := req.userId.value, req.eventId.value;
    var (t2, saved) := TransactionService.SaveEffect(t1, EventTransaction(userId, eventId, e, today), fault);
    match saved
    case Failure(DuplicateEvent(_)) => (t1, DuplicateResponse(eventId))
    case Failure(_) => (t1, ErrorResponse(Some(SaveErrorMessage)))
    case Success(tx) =>
      var newTotal := row.totalPoints + e.points;
      var t3 := UserService.UpdateEffect(t2, Some(row.uuid), userId, newTotal, LevelForPoints(newTotal)).0;
      (t3, SuccessResponse(userId, e.points, newTotal, eventId, tx.uuid, e.displayName))
  }

  /** The effect of `process(request)` with the intended handling of a missing
      type. */
  function ProcessEffect(t: Tables, req: Option<LmsEventRequest>, today: int, fault: Option<SaveFault>)
    : (r: (Tables, LmsEventResponse))
    requires ValidTables(t)
    ensures ValidTables(r.0)
  {
    match Validate(req)
    case Some(message) => (t, ErrorResponse(Some(message)))
    case None =>
      ValidatedHasIdentifiers(req);
      match LookupIntended(t, req.value.eventType.value)
      case Found(e) => AwardFound(t, req.value, e, today, fault)
      case Respond(response) => (t, response)
      case Escape(_) => assert false; (t, EmptyResponse)
  }

  /** The effect of `process(request)` as written: a missing type is an
      exception, which rolls back the (so far untouched) tables. */
  function ProcessEffectAsWritten(t: Tables, req: Option<LmsEventRequest>, today: int, fault: Option<SaveFault>)
    : (r: (Tables, Result<LmsEventResponse>))
    requires ValidTables(t)
    ensures ValidTables(r.0)
    ensures r.1.Failure? ==> r.0 == t
  {
    match Validate(req)
    case Some(message) => (t, Success(ErrorResponse(Some(message))))
    case None =>
      ValidatedHasIdentifiers(req);
      match LookupAsWritten(t, req.value.eventType.value)
      case Found(e) => var (t', response) := AwardFound(t, req.value, e, today, fault); (t', Success(response))
      case Respond(response) => (t, Success(response))
      case Escape(err) => (t, Failure(err))
  }

  /** The input that shows the difference: a well-formed request naming a
      type that is missing or inactive. As written it throws, intended is the
      error response. */
  lemma AsWrittenThrowsForUnknownType(t: Tables, req: Option<LmsEventRequest>, today: int, fault: Option<SaveFault>)
    requires ValidTables(t) && Validate(req).None?
    requires !EventTypeService.GetActiveByCode(t, req.value.eventType.value).Success?
    ensures var code := req.value.eventType.value;
      && ProcessEffectAsWritten(t, req, today, fault)
         == (t, Failure(EventTypeNotFound(EventTypeService.ActiveNotFoundPrefix + code)))
      && ProcessEffect(t, req, today, fault) == (t, ErrorResponse(Some(UnknownTypePrefix + code)))
  {
    ValidatedHasIdentifiers(req);
    LookupCatchesWrongException(t, req.value.eventType.value);
  }

  /** On every other input the code as written and the intended code agree. */
  lemma {:induction false} AsWrittenAgreesOtherwise(t: Tables, req: Option<LmsEventRequest>, today: int,
                                                    fault: Option<SaveFault>)
    requires ValidTables(t)
    requires Validate(req).None? ==> EventTypeService.GetActiveByCode(t, req.value.eventType.value).Success?
    ensures ProcessEffectAsWritten(t, req, today, fault)
         == (ProcessEffect(t, req, today, fault).0, Success(ProcessEffect(t, req, today, fault).1))
  {
    if Validate(req).None? {
      ValidatedHasIdentifiers(req);
      LookupCatchesWrongException(t, req.value.eventType.value);
    }
  }

  /** `process(request)`, with the intended handling of a missing type. */
  method Process(db: Db, req: Option<LmsEventRequest>, today: int, fault: Option<SaveFault>)
    returns (response: LmsEventResponse)
    requires db.Valid()
    modifies db
    ensures (db.State(), response) == ProcessEffect(old(db.State()), req, today, fault)
  {
    if req.None? {
      return ErrorResponse(Some(NullRequestMessage));
    }
    var request := req.value;
    if IsBlank(request.userId) {
      return ErrorResponse(Some(UserIdRequiredMessage));
    }
    if IsBlank(request.eventId) {
      return ErrorResponse(Some(EventIdRequiredMessage));
    }
    if IsBlank(request.eventType) {
      return ErrorResponse(Some(EventTypeRequiredMessage));
    }
    var typeCode := request.eventType.value;
    // 1. the active type
    var found := EventTypeService.GetActiveByCode(db.State(), typeCode);
    if found.Failure? {
      return ErrorResponse(Some(UnknownTypePrefix + typeCode));
    }
    response := AwardType(db, request, found.value, today, fault);
  }

  /** Steps 2 to 7 of `process(request)`, once the active type is found. */
  method AwardType(db: Db, req: LmsEventRequest, e: EventType, today: int, fault: Option<SaveFault>)
    returns (response: LmsEventResponse)
    requires db.Valid() && HasIdentifiers(req)
    requires EventTypeService.GetActiveByCode(db.State(), req.eventType.value) == Success(e)
    modifies db
    ensures (db.State(), response) == AwardFound(old(db.State()), req, e, today, fault)
  {
    var userId, eventId, typeCode := req.userId.value, req.eventId.value, req.eventType.value;
    // 2. the daily limit
    var can := EventTypeService.CanAwardPoints(db.State(), userId, typeCode, e.points, today);
    if !can.value {
      return ErrorResponse(Some(DailyLimitPrefix + e.displayName));
    }
    // 3. the user
    var user := UserService.CreateIfNotExists(db, userId);
    response := RecordAndCreditUser(db, user, req, e, today, fault);
  }

  /** Steps 4 to 7 of `process(request)`, with the user loaded. */
  method RecordAndCreditUser(db: Db, user: User, req: LmsEventRequest, e: EventType, today: int,
                             fault: Option<SaveFault>) returns (response: LmsEventResponse)
    requires db.Valid() && HasIdentifiers(req) && user.uuid.Some? && user.userId == req.userId.value
    modifies db, user
    ensures (db.State(), response)
         == RecordAndCredit(old(db.State()), old(UserService.RowOf(user)), req, e, today, fault)
    ensures user.uuid == old(user.uuid) && user.userId == old(user.userId)
    ensures IsSuccessResponse(response) ==>
      user.totalPoints == old(user.totalPoints) + e.points && user.level == LevelForPoints(user.totalPoints)
    ensures !IsSuccessResponse(response) ==> user.totalPoints == old(user.totalPoints) && user.level == old(user.level)
  {
    var userId, eventId := req.userId.value, req.eventId.value;
    // 4, 5. the transaction, every exception of the insert caught
    var saved := TransactionService.SaveIfNotExists(db, EventTransaction(userId, eventId, e, today), fault);
    if saved.Failure? {
      if saved.error.DuplicateEvent? {
        return DuplicateResponse(eventId);
      }
      return ErrorResponse(Some(SaveErrorMessage));
    }
    // 6. the user's progress
    var oldPoints := user.totalPoints;
    user.totalPoints := oldPoints + e.points;
    user.RecalculateLevel();
    var updated := UserService.Update(db, user);
    // 7. the response
    return SuccessResponse(userId, e.points, user.totalPoints, eventId, saved.value.uuid, e.displayName);
  }

  // ---------------------------------------------------------------------------
  // What processing does, case by case.

  /** A request failing validation is answered with the first failure's
      message and the store is not consulted. */
  lemma InvalidRequestChangesNothing(t: Tables, req: Option<LmsEventRequest>, today: int, fault: Option<SaveFault>)
    requires ValidTables(t) && Validate(req).Some?
    ensures ProcessEffect(t, req, today, fault) == (t, ErrorResponse(Validate(req)))
    ensures IsErrorResponse(ProcessEffect(t, req, today, fault).1)
  {
  }

  /** A valid request over the daily limit is an error response, and, unlike
      in the awarding service, no user is created and nothing is saved. */
  lemma OverLimitChangesNothing(t: Tables, req: Option<LmsEventRequest>, today: int, fault: Option<SaveFault>)
    requires ValidTables(t) && Validate(req).None?
    requires EventTypeService.GetActiveByCode(t, req.value.eventType.value).Success?
    requires var e := t.eventTypes[req.value.eventType.value];
      EventTypeService.OverDailyLimit(e, DailySum(t.transactions, req.value.userId.value, req.value.eventType.value, today), e.points)
    ensures ProcessEffect(t, req, today, fault)
         == (t, ErrorResponse(Some(DailyLimitPrefix + t.eventTypes[req.value.eventType.value].displayName)))
  {
    ValidatedHasIdentifiers(req);
    EventTypeService.CanAwardIsNotOverLimit(t, req.value.userId.value, req.value.eventType.value,
                                            t.eventTypes[req.value.eventType.value].points, today);
  }

  /** When the insert fails, the user is not updated and no transaction is
      written, but a user created for the event stays: an already recorded
      event id or an integrity violation is answered as a duplicate, any other
      failure as an internal error. */
  lemma {:induction false} SaveFailureKeepsCreatedUser(t: Tables, req: Option<LmsEventRequest>, today: int,
                                                       fault: Option<SaveFault>)
    requires ValidTables(t) && Validate(req).None?
    requires EventTypeService.GetActiveByCode(t, req.value.eventType.value).Success?
    requires var e := t.eventTypes[req.value.eventType.value];
      !EventTypeService.OverDailyLimit(e, DailySum(t.transactions, req.value.userId.value, req.value.eventType.value, today), e.points)
    requires EventRecorded(t.transactions, req.value.eventId.value) || fault.Some?
    ensures var (t', response) := ProcessEffect(t, req, today, fault);
      && t' == UserService.GetOrCreateEffect(t, req.value.userId.value).0
      && t'.transactions == t.transactions
      && ((EventRecorded(t.transactions, req.value.eventId.value) || fault == Some(IntegrityViolation))
          ==> response == DuplicateResponse(req.value.eventId.value))
      && ((!EventRecorded(t.transactions, req.value.eventId.value) && fault == Some(OtherFailure))
          ==> response == ErrorResponse(Some(SaveErrorMessage)))
  {
    ValidatedHasIdentifiers(req);
    var r := req.value;
    var e := t.eventTypes[r.eventType.value];
    EventTypeService.CanAwardIsNotOverLimit(t, r.userId.value, r.eventType.value, e.points, today);
  }

  /** The insert and the credit, when they succeed: one transaction under the
      next key, and the loaded row raised by the type's points. */
  lemma RecordAndCreditSucceeds(t1: Tables, row: UserRow, req: LmsEventRequest, e: EventType, today: int,
                                fault: Option<SaveFault>)
    requires ValidTables(t1) && HasIdentifiers(req)
    requires IsSuccessResponse(RecordAndCredit(t1, row, req, e, today, fault).1)
    ensures var (t', response) := RecordAndCredit(t1, row, req, e, today, fault);
      var userId, eventId := req.userId.value, req.eventId.value;
      var newTotal := row.totalPoints + e.points;
      && fault.None? && !EventRecorded(t1.transactions, eventId)
      && t'.transactions == t1.transactions + [EventTransaction(userId, eventId, e, today).(uuid := t1.nextId)]
      && t'.users == t1.users[userId := UserRow(row.uuid, newTotal, LevelForPoints(newTotal))]
      && response == SuccessResponse(userId, e.points, newTotal, eventId, t1.nextId, e.displayName)
  {
    var userId, eventId := req.userId.value, req.eventId.value;
    var (t2, saved) := TransactionService.SaveEffect(t1, EventTransaction(userId, eventId, e, today), fault);
    if saved.Failure? {
      ResponseFactoriesExactlyOneStatus(userId, 0, 0, eventId, 0, "", Some(SaveErrorMessage));
      assert false;
    }
  }

  /** A successful insert stage, field by field: the transaction it appends,
      the user's new total and level, and what the response reports. */
  lemma RecordAndCreditReports(t1: Tables, row: UserRow, req: LmsEventRequest, e: EventType, today: int,
                               fault: Option<SaveFault>)
    requires ValidTables(t1) && HasIdentifiers(req)
    requires IsSuccessResponse(RecordAndCredit(t1, row, req, e, today, fault).1)
    ensures var (t', response) := RecordAndCredit(t1, row, req, e, today, fault);
      var userId, eventId := req.userId.value, req.eventId.value;
      && fault.None? && !EventRecorded(t1.transactions, eventId)
      && response.transactionId.Some?
      && t'.transactions == t1.transactions + [Transaction(response.transactionId.value, userId, eventId,
                                                           e.typeCode, e.points, DescriptionPrefix + e.displayName, today)]
      && userId in t'.users
      && t'.users[userId].totalPoints == row.totalPoints + e.points
      && t'.users[userId].level == LevelForPoints(t'.users[userId].totalPoints)
      && response.pointsEarned == Some(e.points) && response.totalPoints == Some(t'.users[userId].totalPoints)
      && response.userId == Some(userId) && response.eventId == Some(eventId)
  {
    RecordAndCreditSucceeds(t1, row, req, e, today, fault);
    ResponseFactoryFields(req.userId.value, e.points, row.totalPoints + e.points, req.eventId.value, t1.nextId, e.displayName, "");
  }

  /** The insert of an event already recorded is answered as a duplicate and
      changes nothing. */
  lemma RecordAndCreditRecorded(t1: Tables, row: UserRow, req: LmsEventRequest, e: EventType, today: int,
                                fault: Option<SaveFault>)
    requires ValidTables(t1) && HasIdentifiers(req)
    requires EventRecorded(t1.transactions, req.eventId.value)
    ensures RecordAndCredit(t1, row, req, e, today, fault) == (t1, DuplicateResponse(req.eventId.value))
  {
    var tx := EventTransaction(req.userId.value, req.eventId.value, e, today);
    assert TransactionService.SaveEffect(t1, tx, fault).1 == Failure(DuplicateEvent(req.eventId.value));
  }

  /** The steps before the insert, for a request that reaches it: the request
      is valid, its type is active, the limit is not exceeded and the user row
      is loaded or created. */
  lemma {:induction false} ReachesInsert(t: Tables, req: Option<LmsEventRequest>, today: int, fault: Option<SaveFault>)
    requires ValidTables(t)
    requires !IsErrorResponse(ProcessEffect(t, req, today, fault).1)
    ensures Validate(req).None? && HasIdentifiers(req.value)
    ensures var r := req.value;
      && EventTypeService.GetActiveByCode(t, r.eventType.value).Success?
      && var e := t.eventTypes[r.eventType.value];
         var (t1, row) := UserService.GetOrCreateEffect(t, r.userId.value);
         ProcessEffect(t, req, today, fault) == RecordAndCredit(t1, row, r, e, today, fault)
  {
    if Validate(req).Some? {
      assert false;
    }
    ValidatedHasIdentifiers(req);
    var r := req.value;
    if EventTypeService.GetActiveByCode(t, r.eventType.value).Failure? {
      assert false;
    }
    var e := t.eventTypes[r.eventType.value];
    if !EventTypeService.CanAwardPoints(t, r.userId.value, r.eventType.value, e.points, today).value {
      assert false;
    }
  }

  /** A successful event writes one transaction of the type's points with the
      description "Тип события: " and the type's name, raises the user's total
      by exactly those points, puts the user on the level of the new total,
      and reports the points and the new total. */
  lemma {:induction false} SuccessEffect(t: Tables, req: Option<LmsEventRequest>, today: int, fault: Option<SaveFault>)
    requires ValidTables(t)
    requires IsSuccessResponse(ProcessEffect(t, req, today, fault).1)
    ensures var (t', response) := ProcessEffect(t, req, today, fault);
      var r := req.value;
      var userId := r.userId.value;
      var e := t.eventTypes[r.eventType.value];
      var before := UserService.GetOrCreateEffect(t, userId).1;
      && Validate(req).None? && r.eventType.value in t.eventTypes && e.active
      && fault.None? && !EventRecorded(t.transactions, r.eventId.value)
      && t'.transactions == t.transactions + [Transaction(response.transactionId.value, userId, r.eventId.value,
                                                         r.eventType.value, e.points, DescriptionPrefix + e.displayName, today)]
      && t'.users[userId].totalPoints == before.totalPoints + e.points
      && t'.users[userId].level == LevelForPoints(t'.users[userId].totalPoints)
      && response.pointsEarned == Some(e.points) && response.totalPoints == Some(t'.users[userId].totalPoints)
      && response.userId == Some(userId) && response.eventId == Some(r.eventId.value)
  {
    ResponseFactoriesExactlyOneStatus("", 0, 0, "", 0, "", None);
    ReachesInsert(t, req, today, fault);
    var r := req.value;
    var e := t.eventTypes[r.eventType.value];
    var (t1, row) := UserService.GetOrCreateEffect(t, r.userId.value);
    RecordAndCreditReports(t1, row, r, e, today, fault);
  }

  /** An event id already recorded is never saved again: whatever the
      database would report, the answer is a duplicate or an error, no
      transaction is written, and at most the requesting user is created. */
  lemma {:induction false} RecordedEventIsNotSavedAgain(t: Tables, req: Option<LmsEventRequest>, today: int,
                                                        fault: Option<SaveFault>)
    requires ValidTables(t) && req.Some? && HasIdentifiers(req.value)
    requires EventRecorded(t.transactions, req.value.eventId.value)
    ensures var (t', response) := ProcessEffect(t, req, today, fault);
      && (t' == t || t' == UserService.GetOrCreateEffect(t, req.value.userId.value).0)
      && t'.transactions == t.transactions
      && (IsDuplicateResponse(response) || IsErrorResponse(response))
  {
    var r := req.value;
    var code := r.eventType.value;
    ResponseFactoriesExactlyOneStatus("", 0, 0, r.eventId.value, 0, "", Some(""));
    if Validate(req).None? && EventTypeService.GetActiveByCode(t, code).Success? {
      var e := t.eventTypes[code];
      var (t1, row) := UserService.GetOrCreateEffect(t, r.userId.value);
      RecordAndCreditRecorded(t1, row, r, e, today, fault);
    }
  }

  /** Processing an event again after it succeeded changes nothing: the
      answer is a duplicate, or the daily-limit error when the first award
      used up the day's allowance. */
  lemma {:induction false} ReprocessingChangesNothing(t: Tables, req: Option<LmsEventRequest>, today: int,
                                                      fault: Option<SaveFault>, fault2: Option<SaveFault>)
    requires ValidTables(t)
    requires IsSuccessResponse(ProcessEffect(t, req, today, fault).1)
    ensures var t' := ProcessEffect(t, req, today, fault).0;
      var (t'', response) := ProcessEffect(t', req, today, fault2);
      && t''.transactions == t'.transactions && t''.users == t'.users
      && (IsDuplicateResponse(response) || IsErrorResponse(response))
  {
    SuccessEffect(t, req, today, fault);
    var t' := ProcessEffect(t, req, today, fault).0;
    var r := req.value;
    assert t'.transactions[|t.transactions|].eventId == r.eventId.value;
    ValidatedHasIdentifiers(req);
    RecordedEventIsNotSavedAgain(t', req, today, fault2);
  }
}
