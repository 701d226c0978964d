/** `PointsServiceImpl.awardPoints`: the variant of the award pipeline that
    talks to the repositories directly, throws `EventTypeNotFoundException` for
    an unknown or inactive type, inserts the transaction without translating
    database errors, and levels the user with `User.recalculateLevel`.

    The method runs in one database transaction: an escaping exception is a
    `Failure` and every table returns to the state it was called in. */
module PointsService {
  import opened Common
  import opened Store
  import opened Users
  import opened Dtos
  import TransactionService
  import UserService
  import EventTypeService

  const DailyLimitPrefix: string := "Превышен дневной лимит по типу "
  const DescriptionPrefix: string := "Начисление за "

  /** The transaction row `transactionRepo.save` inserts, under key `id`. */
  function InsertedTransaction(id: nat, req: LmsEventRequest, e: EventType, today: int): Transaction
    requires HasIdentifiers(req)
  {
    Transaction(id, req.userId.value, req.eventId.value, req.eventType.value, e.points,
                DescriptionPrefix + e.displayName, today)
  }

  /** The effect of `awardPoints(request)` on the tables and its result. */
  function PointsEffect(t: Tables, req: LmsEventRequest, today: int, fault: Option<SaveFault>): (r: (Tables, Result<AwardResult>))
    requires ValidTables(t) && HasIdentifiers(req)
    ensures ValidTables(r.0)
    ensures r.1.Failure? ==> r.0 == t
    ensures r.1.Success? ==> WellShaped(r.1.value)
  {
    var userId, eventId, typeCode := req.userId.value, req.eventId.value, req.eventType.value;
    if TransactionService.IsExistsByEventId(t, eventId) then (t, Success(AwardDuplicate()))
    else if !(typeCode in t.eventTypes && t.eventTypes[typeCode].active) then (t, Failure(EventTypeNotFound(typeCode)))
    else
      var (t1, row) := UserService.GetOrCreateEffect(t, userId);
      LimitedEffect(t, t1, row, t.eventTypes[typeCode], req, today, fault)
  }

  /** From the daily-limit check on, with the user's row `row` in `t1`; `t` is
      the state a rollback returns to. */
  function LimitedEffect(t: Tables, t1: Tables, row: UserRow, e: EventType, req: LmsEventRequest, today: int,
                         fault: Option<SaveFault>): (r: (Tables, Result<AwardResult>))
    requires ValidTables(t) && ValidTables(t1) && HasIdentifiers(req)
    requires !EventRecorded(t1.transactions, req.eventId.value)
    ensures ValidTables(r.0)
    ensures r.1.Failure? ==> r.0 == t
    ensures r.1.Success? ==> WellShaped(r.1.value)
  {
    var userId, typeCode := req.userId.value, req.eventType.value;
    if EventTypeService.OverDailyLimit(e, DailySum(t1.transactions, userId, typeCode, today), e.points) then
      (t1, Success(AwardRejected(DailyLimitPrefix + e.displayName)))
    else match fault
      case Some(IntegrityViolation) => (t, Failure(DataIntegrityViolation))
      case Some(OtherFailure) => (t, Failure(UnexpectedFailure))
      case None =>
        var saved := InsertedTransaction(t1.nextId, req, e, today);
        AppendFreshKeepsUnique(t1.transactions, saved);
        var t2 := t1.(transactions := t1.transactions + [saved], nextId := t1.nextId + 1);
        var newTotal := row.totalPoints + e.points;
        var newLevel := LevelForPoints(newTotal);
        var t3 := t2.(users := t2.users[userId := UserRow(row.uuid, newTotal, newLevel)]);
        (t3, Success(AwardSuccessBasic(e.points, newTotal, newLevel, newLevel > row.level, saved.uuid)))
  }

  /** `awardPoints(request)`. */
  method AwardPoints(db: Db, req: LmsEventRequest, today: int, fault: Option<SaveFault>) returns (r: Result<AwardResult>)
    requires db.Valid() && HasIdentifiers(req)
    modifies db
    ensures (db.State(), r) == PointsEffect(old(db.State()), req, today, fault)
  {
    var snapshot := db.State();
    var userId, eventId, typeCode := req.userId.value, req.eventId.value, req.eventType.value;
    // 1. duplicate check
    if TransactionService.IsExistsByEventId(db.State(), eventId) {
      return Success(AwardDuplicate());
    }
    // 2. the active type, or the exception
    if !(typeCode in db.eventTypes && db.eventTypes[typeCode].active) {
      db.Restore(snapshot);
      return Failure(EventTypeNotFound(typeCode));
    }
    var e := db.eventTypes[typeCode];
    // 3. the user, created when absent
    var user := UserService.CreateIfNotExists(db, userId);
    r := AwardLimited(db, snapshot, user, e, req, today, fault);
  }

  /** Steps 4 to 6 of `awardPoints`, for the user object `user` just loaded. */
  method AwardLimited(db: Db, snapshot: Tables, user: User, e: EventType, req: LmsEventRequest, today: int,
                      fault: Option<SaveFault>) returns (r: Result<AwardResult>)
    requires ValidTables(snapshot) && db.Valid() && HasIdentifiers(req)
    requires !EventRecorded(db.transactions, req.eventId.value)
    requires user.uuid.Some? && user.userId == req.userId.value
    modifies db, user
    ensures (db.State(), r) == LimitedEffect(snapshot, old(db.State()), old(UserService.RowOf(user)), e, req, today, fault)
    ensures user.uuid == old(user.uuid) && user.userId == old(user.userId)
    ensures r.Success? && IsSuccess(r.value) ==>
      user.totalPoints == old(user.totalPoints) + e.points && user.level == LevelForPoints(user.totalPoints)
    ensures !(r.Success? && IsSuccess(r.value)) ==> user.totalPoints == old(user.totalPoints) && user.level == old(user.level)
  {
    var userId, typeCode := req.userId.value, req.eventType.value;
    // 4. daily limit
    var todaySum := DailySum(db.transactions, userId, typeCode, today);
    var points := e.points;
    if e.maxDailyPoints.Some? && todaySum + points > e.maxDailyPoints.value {
      return Success(AwardRejected(DailyLimitPrefix + e.displayName));
    }
    // 5. the transaction; a database error escapes
    if fault.Some? {
      db.Restore(snapshot);
      return Failure(if fault.value == IntegrityViolation then DataIntegrityViolation else UnexpectedFailure);
    }
    var savedTx := InsertedTransaction(db.nextId, req, e, today);
    db.transactions := db.transactions + [savedTx];
    db.nextId := db.nextId + 1;
    // 6. the user
    var oldLevel := user.level;
    var newTotal := user.totalPoints + points;
    user.totalPoints := newTotal;
    user.RecalculateLevel();
    db.users := db.users[userId := UserRow(user.uuid.value, user.totalPoints, user.level)];
    var levelUp := user.level > oldLevel;
    return Success(AwardSuccessBasic(points, newTotal, user.level, levelUp, savedTx.uuid));
  }

  // ---------------------------------------------------------------------------
  // What an award does, case by case.

  /** A recorded event id is a duplicate and nothing changes. */
  lemma DuplicateChangesNothing(t: Tables, req: LmsEventRequest, today: int, fault: Option<SaveFault>)
    requires ValidTables(t) && HasIdentifiers(req)
    requires EventRecorded(t.transactions, req.eventId.value)
    ensures PointsEffect(t, req, today, fault) == (t, Success(AwardDuplicate()))
  {
  }

  /** A fresh event of an unknown or inactive type is not a result but an
      exception carrying the code, and nothing changes. */
  lemma UnknownTypeThrows(t: Tables, req: LmsEventRequest, today: int, fault: Option<SaveFault>)
    requires ValidTables(t) && HasIdentifiers(req)
    requires !EventRecorded(t.transactions, req.eventId.value)
    requires !(req.eventType.value in t.eventTypes && t.eventTypes[req.eventType.value].active)
    ensures PointsEffect(t, req, today, fault) == (t, Failure(EventTypeNotFound(req.eventType.value)))
  {
  }

  /** The award is rejected exactly when the event is fresh, the type is
      active and the daily rule says the award is over the limit; the rejection
      writes no transaction but keeps a user created for it. */
  lemma {:induction false} RejectedExactlyOverLimit(t: Tables, req: LmsEventRequest, today: int, fault: Option<SaveFault>)
    requires ValidTables(t) && HasIdentifiers(req)
    ensures var r := PointsEffect(t, req, today, fault);
      var typeCode := req.eventType.value;
      (r.1.Success? && r.1.value.status == REJECTED)
      <==> (&& !EventRecorded(t.transactions, req.eventId.value)
            && typeCode in t.eventTypes && t.eventTypes[typeCode].active
            && EventTypeService.OverDailyLimit(t.eventTypes[typeCode],
                 DailySum(t.transactions, req.userId.value, typeCode, today), t.eventTypes[typeCode].points))
    ensures var r := PointsEffect(t, req, today, fault);
      r.1.Success? && r.1.value.status == REJECTED ==>
        && r.0 == UserService.GetOrCreateEffect(t, req.userId.value).0
        && r.0.transactions == t.transactions
  {
  }

  /** Where the insert would succeed, a database error on it instead rolls
      everything back, the created user included, and surfaces unchanged. */
  lemma SaveFailureRollsBack(t: Tables, req: LmsEventRequest, today: int, fault: Option<SaveFault>)
    requires ValidTables(t) && HasIdentifiers(req) && fault.Some?
    requires PointsEffect(t, req, today, None).1.Success? && PointsEffect(t, req, today, None).1.value.status == SUCCESS
    ensures PointsEffect(t, req, today, fault)
         == (t, Failure(if fault == Some(IntegrityViolation) then DataIntegrityViolation else UnexpectedFailure))
  {
  }

  /** A successful award appends exactly one transaction with the request's
      user, event and type and the type's points, before the user is updated;
      the user's total grows by exactly those points; the level is the one
      `recalculateLevel` gives for the new total; a level-up is reported
      exactly when that level is above the stored one. */
  lemma {:induction false} SuccessEffect(t: Tables, req: LmsEventRequest, today: int, fault: Option<SaveFault>)
    requires ValidTables(t) && HasIdentifiers(req)
    requires PointsEffect(t, req, today, fault).1.Success?
    requires PointsEffect(t, req, today, fault).1.value.status == SUCCESS
    ensures var (t', r) := PointsEffect(t, req, today, fault);
      var userId, typeCode := req.userId.value, req.eventType.value;
      var e := t.eventTypes[typeCode];
      var before := UserService.GetOrCreateEffect(t, userId).1;
      var after := t'.users[userId];
      && fault.None? && typeCode in t.eventTypes && e.active
      && t'.transactions == t.transactions + [InsertedTransaction(r.value.transactionId.value, req, e, today)]
      && after.uuid == before.uuid
      && after.totalPoints == before.totalPoints + e.points
      && after.level == LevelForPoints(after.totalPoints)
      && r.value.totalPointsAfter == Some(after.totalPoints) && r.value.level == Some(after.level)
      && (r.value.levelUp <==> after.level > before.level)
      && r.value.pointsToNextLevel.None?
      && t'.eventTypes == t.eventTypes && t'.enrollments == t.enrollments
  {
  }
}
