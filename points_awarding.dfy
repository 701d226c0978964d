/** `PointsAwardingServiceImpl.awardPoints`: duplicate check, active type
    lookup, get-or-create of the user, daily limit, transaction insert, user
    update with the configured level formula, per-course points.

    The method runs in one database transaction: when an exception escapes it
    every table returns to the state it was called in. The calendar day is the
    `today` parameter; `fault` is what the database reports on the insert, and
    `enabled` is the courses feature flag. */
module PointsAwarding {
  import opened Common
  import opened Store
  import opened Levels
  import opened Users
  import opened Dtos
  import TransactionService
  import UserService
  import UserCourseService
  import EventTypeService

  const UnknownTypePrefix: string := "Неизвестный или отключённый тип события: "
  const DailyLimitPrefix: string := "Превышен дневной лимит по типу "
  const DescriptionPrefix: string := "Начисление за "

  /** The transaction an award writes (its key is drawn on insert). */
  function AwardTransaction(userId: string, eventId: string, typeCode: string, e: EventType, today: int): Transaction
  {
    Transaction(0, userId, eventId, typeCode, e.points, DescriptionPrefix + e.displayName, today)
  }

  /** The effect of `awardPoints(request)` on the tables and its result; an
      escaping exception is a `Failure` and leaves the tables as they were. */
  function AwardEffect(t: Tables, cfg: LevelConfig, req: LmsEventRequest, today: int,
                       fault: Option<SaveFault>, enabled: bool): (r: (Tables, Result<AwardResult>))
    requires ValidConfig(cfg) && ValidTables(t) && HasIdentifiers(req)
    ensures ValidTables(r.0)
    ensures r.1.Failure? ==> r.0 == t
    ensures r.1.Success? ==> WellShaped(r.1.value)
  {
    if TransactionService.IsExistsByEventId(t, req.eventId.value) then (t, Success(AwardDuplicate()))
    else match EventTypeService.GetActiveByCode(t, req.eventType.value)
      case Failure(_) => (t, Success(AwardRejected(UnknownTypePrefix + req.eventType.value)))
      case Success(e) =>
        var (t1, row) := UserService.GetOrCreateEffect(t, req.userId.value);
        LimitedEffect(t, t1, row, e, cfg, req, today, fault, enabled)
  }

  /** From the daily-limit check on, with the user's row `row` in `t1`; `t` is
      the state a rollback returns to. */
  function LimitedEffect(t: Tables, t1: Tables, row: UserRow, e: EventType, cfg: LevelConfig, req: LmsEventRequest,
                         today: int, fault: Option<SaveFault>, enabled: bool): (r: (Tables, Result<AwardResult>))
    requires ValidConfig(cfg) && ValidTables(t) && ValidTables(t1) && HasIdentifiers(req)
    ensures ValidTables(r.0)
    ensures r.1.Failure? ==> r.0 == t
    ensures r.1.Success? ==> WellShaped(r.1.value)
  {
    var userId, eventId, typeCode := req.userId.value, req.eventId.value, req.eventType.value;
    if EventTypeService.OverDailyLimit(e, DailySum(t1.transactions, userId, typeCode, today), e.points) then
      (t1, Success(AwardRejected(DailyLimitPrefix + e.displayName)))
    else
      var (t2, saved) := TransactionService.SaveEffect(t1, AwardTransaction(userId, eventId, typeCode, e, today), fault);
      if saved.Failure? then (t, Failure(saved.error))
      else CreditEffect(t, t2, row, e, saved.value.uuid, cfg, req, enabled)
  }

  /** After the insert: the user update and the course points. */
  function CreditEffect(t: Tables, t2: Tables, row: UserRow, e: EventType, txId: nat, cfg: LevelConfig,
                        req: LmsEventRequest, enabled: bool): (r: (Tables, Result<AwardResult>))
    requires ValidConfig(cfg) && ValidTables(t) && ValidTables(t2) && HasIdentifiers(req)
    ensures ValidTables(r.0)
    ensures r.1.Failure? ==> r.0 == t
    ensures r.1.Success? ==> WellShaped(r.1.value)
  {
    var newTotal := row.totalPoints + e.points;
    var newLevel := LevelOf(cfg, newTotal);
    var t3 := UserService.UpdateEffect(t2, Some(row.uuid), req.userId.value, newTotal, newLevel).0;
    var (t4, course) := UserCourseService.AddCoursePointsEffect(t3, enabled, req.userId.value, req.courseId, e.points);
    if course.Fail? then (t, Failure(course.error))
    else (t4, Success(AwardSuccess(e.points, newTotal, newLevel, newLevel > row.level, txId, 0, 0.0)))
  }

  /** `awardPoints(request)`. */
  method AwardPoints(db: Db, cfg: LevelConfig, req: LmsEventRequest, today: int,
                     fault: Option<SaveFault>, enabled: bool) returns (r: Result<AwardResult>)
    requires ValidConfig(cfg) && db.Valid() && HasIdentifiers(req)
    modifies db
    ensures (db.State(), r) == AwardEffect(old(db.State()), cfg, req, today, fault, enabled)
  {
    var snapshot := db.State();
    var userId, eventId, typeCode := req.userId.value, req.eventId.value, req.eventType.value;
    // 1. duplicate check
    if TransactionService.IsExistsByEventId(db.State(), eventId) {
      return Success(AwardDuplicate());
    }
    // 2. the active type; its absence is caught and becomes a rejection
    var found := EventTypeService.GetActiveByCode(db.State(), typeCode);
    if found.Failure? {
      return Success(AwardRejected(UnknownTypePrefix + typeCode));
    }
    var e := found.value;
    // 3. get or create the user
    var user := UserService.CreateIfNotExists(db, userId);
    r := AwardLimited(db, snapshot, user, e, cfg, req, today, fault, enabled);
  }

  /** Steps 4 to 7 of `awardPoints`, for the user object `user` just loaded. */
  method AwardLimited(db: Db, snapshot: Tables, user: User, e: EventType, cfg: LevelConfig, req: LmsEventRequest,
                      today: int, fault: Option<SaveFault>, enabled: bool) returns (r: Result<AwardResult>)
    requires ValidConfig(cfg) && ValidTables(snapshot) && db.Valid() && HasIdentifiers(req)
    requires user.uuid.Some? && user.userId == req.userId.value
    modifies db, user
    ensures (db.State(), r) == LimitedEffect(snapshot, old(db.State()), old(UserService.RowOf(user)), e, cfg, req, today, fault, enabled)
    ensures user.uuid == old(user.uuid) && user.userId == old(user.userId)
    ensures r.Success? && IsSuccess(r.value) ==>
      user.totalPoints == old(user.totalPoints) + e.points && user.level == LevelOf(cfg, user.totalPoints)
    ensures r.Success? && !IsSuccess(r.value) ==> user.totalPoints == old(user.totalPoints) && user.level == old(user.level)
  {
    var userId, eventId, typeCode := req.userId.value, req.eventId.value, req.eventType.value;
    // 4. daily limit
    var todaySum := DailySum(db.transactions, userId, typeCode, today);
    var points := e.points;
    if e.maxDailyPoints.Some? && todaySum + points > e.maxDailyPoints.value {
      return Success(AwardRejected(DailyLimitPrefix + e.displayName));
    }
    // 5. the transaction
    var tx := AwardTransaction(userId, eventId, typeCode, e, today);
    var savedTx := TransactionService.SaveIfNotExists(db, tx, fault);
    if savedTx.Failure? {
      db.Restore(snapshot);
      return Failure(savedTx.error);
    }
    r := AwardCredit(db, snapshot, user, e, savedTx.value.uuid, cfg, req, enabled);
  }

  /** Steps 6 and 7 of `awardPoints`: the user update and the course points. */
  method AwardCredit(db: Db, snapshot: Tables, user: User, e: EventType, txId: nat, cfg: LevelConfig,
                     req: LmsEventRequest, enabled: bool) returns (r: Result<AwardResult>)
    requires ValidConfig(cfg) && ValidTables(snapshot) && db.Valid() && HasIdentifiers(req)
    requires user.uuid.Some? && user.userId == req.userId.value
    modifies db, user
    ensures (db.State(), r) == CreditEffect(snapshot, old(db.State()), old(UserService.RowOf(user)), e, txId, cfg, req, enabled)
    ensures user.uuid == old(user.uuid) && user.userId == old(user.userId)
    ensures user.totalPoints == old(user.totalPoints) + e.points && user.level == LevelOf(cfg, user.totalPoints)
  {
    var points := e.points;
    // 6. the user
    var oldLevel := user.level;
    var newTotal := user.totalPoints + points;
    user.totalPoints := newTotal;
    var level := CalculateLevel(cfg, newTotal);
    user.level := level;
    var updated := UserService.Update(db, user);
    var levelUp := user.level > oldLevel;
    // 7. course points
    if req.courseId.Some? {
      var course := UserCourseService.AddPointsToCourse(db, enabled, user, req.courseId, points);
      if course.Fail? {
        db.Restore(snapshot);
        return Failure(course.error);
      }
    }
    return Success(AwardSuccess(points, newTotal, user.level, levelUp, txId, 0, 0.0));
  }

  // ---------------------------------------------------------------------------
  // What an award does, case by case.

  /** The user's row before the award: the stored one, or the one get-or-create
      inserts. */
  function RowBefore(t: Tables, userId: string): UserRow
  {
    UserService.GetOrCreateEffect(t, userId).1
  }

  /** A recorded event id is a duplicate: nothing is read further and nothing
      changes. */
  lemma DuplicateChangesNothing(t: Tables, cfg: LevelConfig, req: LmsEventRequest, today: int,
                                fault: Option<SaveFault>, enabled: bool)
    requires ValidConfig(cfg) && ValidTables(t) && HasIdentifiers(req)
    requires EventRecorded(t.transactions, req.eventId.value)
    ensures AwardEffect(t, cfg, req, today, fault, enabled) == (t, Success(AwardDuplicate()))
  {
  }

  /** A fresh event of an unknown or inactive type is rejected with the code in
      the reason, and no user is created. */
  lemma UnknownTypeRejected(t: Tables, cfg: LevelConfig, req: LmsEventRequest, today: int,
                            fault: Option<SaveFault>, enabled: bool)
    requires ValidConfig(cfg) && ValidTables(t) && HasIdentifiers(req)
    requires !EventRecorded(t.transactions, req.eventId.value)
    requires !(req.eventType.value in t.eventTypes && t.eventTypes[req.eventType.value].active)
    ensures AwardEffect(t, cfg, req, today, fault, enabled)
         == (t, Success(AwardRejected(UnknownTypePrefix + req.eventType.value)))
  {
  }

  /** Over the daily limit the award is rejected, no transaction or course
      points are written, but a user created for it stays. */
  lemma OverLimitKeepsCreatedUser(t: Tables, cfg: LevelConfig, req: LmsEventRequest, today: int,
                                  fault: Option<SaveFault>, enabled: bool)
    requires ValidConfig(cfg) && ValidTables(t) && HasIdentifiers(req)
    requires !EventRecorded(t.transactions, req.eventId.value)
    requires EventTypeService.GetActiveByCode(t, req.eventType.value).Success?
    requires var e := t.eventTypes[req.eventType.value];
      EventTypeService.OverDailyLimit(e, DailySum(t.transactions, req.userId.value, req.eventType.value, today), e.points)
    ensures var r := AwardEffect(t, cfg, req, today, fault, enabled);
      && r.1 == Success(AwardRejected(DailyLimitPrefix + t.eventTypes[req.eventType.value].displayName))
      && r.0 == UserService.GetOrCreateEffect(t, req.userId.value).0
      && r.0.transactions == t.transactions && r.0.enrollments == t.enrollments
      && r.0.users == UsersAfterGetOrCreate(t.users, req.userId.value, t.nextId)
  {
  }

  /** The award is rejected exactly when the event is fresh and the type is
      unknown, inactive, or over its daily limit for the user; the same daily
      rule as `PointsServiceImpl` and the complement of `canAwardPoints`. */
  lemma {:induction false} RejectedExactly(t: Tables, cfg: LevelConfig, req: LmsEventRequest, today: int,
                                           fault: Option<SaveFault>, enabled: bool)
    requires ValidConfig(cfg) && ValidTables(t) && HasIdentifiers(req)
    ensures var r := AwardEffect(t, cfg, req, today, fault, enabled);
      var typeCode := req.eventType.value;
      (r.1.Success? && r.1.value.status == REJECTED)
      <==> (&& !EventRecorded(t.transactions, req.eventId.value)
            && (typeCode in t.eventTypes && t.eventTypes[typeCode].active ==>
                  EventTypeService.OverDailyLimit(t.eventTypes[typeCode],
                    DailySum(t.transactions, req.userId.value, typeCode, today), t.eventTypes[typeCode].points)))
  {
    var userId, typeCode := req.userId.value, req.eventType.value;
    if !EventRecorded(t.transactions, req.eventId.value) && typeCode in t.eventTypes && t.eventTypes[typeCode].active {
      var (t1, row) := UserService.GetOrCreateEffect(t, userId);
      LimitedRejectsExactly(t, t1, row, t.eventTypes[typeCode], cfg, req, today, fault, enabled);
    }
  }

  /** The limit stage rejects exactly when the day's sum plus the type's
      points passes the type's maximum. */
  lemma LimitedRejectsExactly(t: Tables, t1: Tables, row: UserRow, e: EventType, cfg: LevelConfig, req: LmsEventRequest,
                              today: int, fault: Option<SaveFault>, enabled: bool)
    requires ValidConfig(cfg) && ValidTables(t) && ValidTables(t1) && HasIdentifiers(req)
    ensures var r := LimitedEffect(t, t1, row, e, cfg, req, today, fault, enabled);
      (r.1.Success? && r.1.value.status == REJECTED)
      <==> EventTypeService.OverDailyLimit(e, DailySum(t1.transactions, req.userId.value, req.eventType.value, today), e.points)
  {
    var r := LimitedEffect(t, t1, row, e, cfg, req, today, fault, enabled);
    if !EventTypeService.OverDailyLimit(e, DailySum(t1.transactions, req.userId.value, req.eventType.value, today), e.points)
       && r.1.Success? {
      assert IsSuccess(r.1.value);
    }
  }

  /** Without a daily maximum the limit never rejects: the award is a success
      or a rolled-back failure. */
  lemma NoMaximumNeverRejects(t: Tables, cfg: LevelConfig, req: LmsEventRequest, today: int,
                              fault: Option<SaveFault>, enabled: bool)
    requires ValidConfig(cfg) && ValidTables(t) && HasIdentifiers(req)
    requires !EventRecorded(t.transactions, req.eventId.value)
    requires EventTypeService.GetActiveByCode(t, req.eventType.value).Success?
    requires t.eventTypes[req.eventType.value].maxDailyPoints.None?
    ensures var r := AwardEffect(t, cfg, req, today, fault, enabled);
      r.1.Failure? || r.1.value.status == SUCCESS
  {
  }

  /** A database failure on the insert rolls everything back, the created user
      included; an integrity violation is reported as a duplicate event. */
  lemma SaveFailureRollsBack(t: Tables, cfg: LevelConfig, req: LmsEventRequest, today: int,
                             fault: Option<SaveFault>, enabled: bool)
    requires ValidConfig(cfg) && ValidTables(t) && HasIdentifiers(req)
    requires !EventRecorded(t.transactions, req.eventId.value)
    requires EventTypeService.GetActiveByCode(t, req.eventType.value).Success?
    requires var e := t.eventTypes[req.eventType.value];
      !EventTypeService.OverDailyLimit(e, DailySum(t.transactions, req.userId.value, req.eventType.value, today), e.points)
    requires fault.Some?
    ensures var r := AwardEffect(t, cfg, req, today, fault, enabled);
      && r.0 == t
      && r.1 == Failure(if fault == Some(IntegrityViolation) then DuplicateEvent(req.eventId.value) else UnexpectedFailure)
  {
  }

  /** The limit stage succeeds only past the limit and the insert: it is then
      the credit stage on the tables with the transaction appended. */
  lemma LimitedSucceeds(t: Tables, t1: Tables, row: UserRow, e: EventType, cfg: LevelConfig, req: LmsEventRequest,
                        today: int, fault: Option<SaveFault>, enabled: bool)
    requires ValidConfig(cfg) && ValidTables(t) && ValidTables(t1) && HasIdentifiers(req)
    requires LimitedEffect(t, t1, row, e, cfg, req, today, fault, enabled).1.Success?
    requires IsSuccess(LimitedEffect(t, t1, row, e, cfg, req, today, fault, enabled).1.value)
    ensures var userId, eventId, typeCode := req.userId.value, req.eventId.value, req.eventType.value;
      var saved := AwardTransaction(userId, eventId, typeCode, e, today).(uuid := t1.nextId);
      var t2 := t1.(transactions := t1.transactions + [saved], nextId := t1.nextId + 1);
      && fault.None? && !EventRecorded(t1.transactions, eventId)
      && ValidTables(t2)
      && LimitedEffect(t, t1, row, e, cfg, req, today, fault, enabled) == CreditEffect(t, t2, row, e, t1.nextId, cfg, req, enabled)
  {
  }

  /** The credit stage, when it succeeds: the user row is rewritten with the
      new total and level, the course total moves exactly when a course is
      given and the feature is on, and nothing else changes. */
  lemma {:induction false} CreditSucceeds(t: Tables, t2: Tables, row: UserRow, e: EventType, txId: nat, cfg: LevelConfig,
                                          req: LmsEventRequest, enabled: bool)
    requires ValidConfig(cfg) && ValidTables(t) && ValidTables(t2) && HasIdentifiers(req) && e.points >= 1
    requires CreditEffect(t, t2, row, e, txId, cfg, req, enabled).1.Success?
    ensures var (t', r) := CreditEffect(t, t2, row, e, txId, cfg, req, enabled);
      var newTotal := row.totalPoints + e.points;
      var newLevel := LevelOf(cfg, newTotal);
      && t'.transactions == t2.transactions && t'.eventTypes == t2.eventTypes
      && t'.users == t2.users[req.userId.value := UserRow(row.uuid, newTotal, newLevel)]
      && r.value == AwardSuccess(e.points, newTotal, newLevel, newLevel > row.level, txId, 0, 0.0)
      && (t'.enrollments == t2.enrollments <==> !enabled || req.courseId.None?)
  {
    var userId := req.userId.value;
    var newTotal := row.totalPoints + e.points;
    var t3 := UserService.UpdateEffect(t2, Some(row.uuid), userId, newTotal, LevelOf(cfg, newTotal)).0;
    var (t4, course) := UserCourseService.AddCoursePointsEffect(t3, enabled, userId, req.courseId, e.points);
    if enabled && req.courseId.Some? {
      var key := (userId, req.courseId.value);
      assert t4.enrollments[key].totalPointsInCourse == t2.enrollments[key].totalPointsInCourse + e.points;
    }
  }

  /** A successful award passed every check: the event is fresh, the type is
      active, the insert met no error; and it is the credit stage on the
      tables with the user loaded and the transaction appended. */
  lemma {:induction false} AwardSucceeds(t: Tables, cfg: LevelConfig, req: LmsEventRequest, today: int,
                                         fault: Option<SaveFault>, enabled: bool)
    requires ValidConfig(cfg) && ValidTables(t) && HasIdentifiers(req)
    requires AwardEffect(t, cfg, req, today, fault, enabled).1.Success?
    requires IsSuccess(AwardEffect(t, cfg, req, today, fault, enabled).1.value)
    ensures var userId, eventId, typeCode := req.userId.value, req.eventId.value, req.eventType.value;
      && fault.None? && !EventRecorded(t.transactions, eventId)
      && typeCode in t.eventTypes && t.eventTypes[typeCode].active && t.eventTypes[typeCode].points >= 1
      && var e := t.eventTypes[typeCode];
         var (t1, row) := UserService.GetOrCreateEffect(t, userId);
         var saved := AwardTransaction(userId, eventId, typeCode, e, today).(uuid := t1.nextId);
         var t2 := t1.(transactions := t1.transactions + [saved], nextId := t1.nextId + 1);
         && ValidTables(t2)
         && AwardEffect(t, cfg, req, today, fault, enabled) == CreditEffect(t, t2, row, e, t1.nextId, cfg, req, enabled)
  {
    var userId, eventId, typeCode := req.userId.value, req.eventId.value, req.eventType.value;
    assert !EventRecorded(t.transactions, eventId) && EventTypeService.GetActiveByCode(t, typeCode).Success?;
    EventTypeService.ActiveTypeIsWellFormed(t, typeCode);
    var (t1, row) := UserService.GetOrCreateEffect(t, userId);
    LimitedSucceeds(t, t1, row, t.eventTypes[typeCode], cfg, req, today, fault, enabled);
  }

  /** A successful award saves exactly one transaction, after the ones
      already there, carrying the request's user, event and type and the
      type's points. */
  lemma {:induction false} SuccessEffect(t: Tables, cfg: LevelConfig, req: LmsEventRequest, today: int,
                                         fault: Option<SaveFault>, enabled: bool)
    requires ValidConfig(cfg) && ValidTables(t) && HasIdentifiers(req)
    requires AwardEffect(t, cfg, req, today, fault, enabled).1.Success?
    requires IsSuccess(AwardEffect(t, cfg, req, today, fault, enabled).1.value)
    ensures var (t', r) := AwardEffect(t, cfg, req, today, fault, enabled);
      var typeCode := req.eventType.value;
      && fault.None? && !EventRecorded(t.transactions, req.eventId.value)
      && typeCode in t.eventTypes && t.eventTypes[typeCode].active
      && r.value.transactionId.Some?
      && var e := t.eventTypes[typeCode];
         && |t'.transactions| == |t.transactions| + 1
         && t'.transactions[..|t.transactions|] == t.transactions
         && t'.transactions[|t.transactions|]
            == Transaction(r.value.transactionId.value, req.userId.value, req.eventId.value, typeCode, e.points,
                           DescriptionPrefix + e.displayName, today)
         && r.value.pointsEarned == Some(e.points)
  {
    var userId, eventId, typeCode := req.userId.value, req.eventId.value, req.eventType.value;
    AwardSucceeds(t, cfg, req, today, fault, enabled);
    var e := t.eventTypes[typeCode];
    var (t1, row) := UserService.GetOrCreateEffect(t, userId);
    var saved := AwardTransaction(userId, eventId, typeCode, e, today).(uuid := t1.nextId);
    var t2 := t1.(transactions := t1.transactions + [saved], nextId := t1.nextId + 1);
    CreditSucceeds(t, t2, row, e, t1.nextId, cfg, req, enabled);
    var (t', r) := AwardEffect(t, cfg, req, today, fault, enabled);
    assert t'.transactions == t.transactions + [saved];
    assert (t.transactions + [saved])[..|t.transactions|] == t.transactions;
  }

  /** The credit stage, when it succeeds, raises the loaded row's total by
      the type's points under the same key and reports the new total. */
  lemma CreditRaisesTotal(t: Tables, t2: Tables, row: UserRow, e: EventType, txId: nat, cfg: LevelConfig,
                          req: LmsEventRequest, enabled: bool)
    requires ValidConfig(cfg) && ValidTables(t) && ValidTables(t2) && HasIdentifiers(req) && e.points >= 1
    requires CreditEffect(t, t2, row, e, txId, cfg, req, enabled).1.Success?
    ensures var (t', r) := CreditEffect(t, t2, row, e, txId, cfg, req, enabled);
      var userId := req.userId.value;
      && r.Success? && userId in t'.users
      && var after := t'.users[userId];
         && after.uuid == row.uuid
         && after.totalPoints == row.totalPoints + e.points
         && r.value.totalPointsAfter == Some(after.totalPoints)
  {
    CreditSucceeds(t, t2, row, e, txId, cfg, req, enabled);
  }

  /** The credit stage, when it succeeds, puts the user on the formula's level
      for the new total and reports a level-up exactly when it is above the
      loaded row's. */
  lemma CreditLevelsUser(t: Tables, t2: Tables, row: UserRow, e: EventType, txId: nat, cfg: LevelConfig,
                         req: LmsEventRequest, enabled: bool)
    requires ValidConfig(cfg) && ValidTables(t) && ValidTables(t2) && HasIdentifiers(req) && e.points >= 1
    requires CreditEffect(t, t2, row, e, txId, cfg, req, enabled).1.Success?
    ensures var (t', r) := CreditEffect(t, t2, row, e, txId, cfg, req, enabled);
      var userId := req.userId.value;
      && r.Success? && userId in t'.users
      && var after := t'.users[userId];
         && after.level == LevelOf(cfg, after.totalPoints) && r.value.level == Some(after.level)
         && (r.value.levelUp <==> after.level > row.level)
  {
    CreditSucceeds(t, t2, row, e, txId, cfg, req, enabled);
  }

  /** A successful award raises the user's total by exactly the type's
      points and reports the new total. */
  lemma {:induction false} SuccessCreditsUser(t: Tables, cfg: LevelConfig, req: LmsEventRequest, today: int,
                                              fault: Option<SaveFault>, enabled: bool)
    requires ValidConfig(cfg) && ValidTables(t) && HasIdentifiers(req)
    requires AwardEffect(t, cfg, req, today, fault, enabled).1.Success?
    requires IsSuccess(AwardEffect(t, cfg, req, today, fault, enabled).1.value)
    ensures var (t', r) := AwardEffect(t, cfg, req, today, fault, enabled);
      var userId, typeCode := req.userId.value, req.eventType.value;
      && typeCode in t.eventTypes && userId in t'.users
      && var before := RowBefore(t, userId);
         var after := t'.users[userId];
         && after.uuid == before.uuid
         && after.totalPoints == before.totalPoints + t.eventTypes[typeCode].points
         && r.value.totalPointsAfter == Some(after.totalPoints)
  {
    var userId, eventId, typeCode := req.userId.value, req.eventId.value, req.eventType.value;
    AwardSucceeds(t, cfg, req, today, fault, enabled);
    var e := t.eventTypes[typeCode];
    var (t1, row) := UserService.GetOrCreateEffect(t, userId);
    var saved := AwardTransaction(userId, eventId, typeCode, e, today).(uuid := t1.nextId);
    var t2 := t1.(transactions := t1.transactions + [saved], nextId := t1.nextId + 1);
    CreditRaisesTotal(t, t2, row, e, t1.nextId, cfg, req, enabled);
  }

  /** After a successful award the user is on the level the configured
      formula gives for the new total, and a level-up is reported exactly
      when that level is above the old one. */
  lemma {:induction false} SuccessLevelsUser(t: Tables, cfg: LevelConfig, req: LmsEventRequest, today: int,
                                             fault: Option<SaveFault>, enabled: bool)
    requires ValidConfig(cfg) && ValidTables(t) && HasIdentifiers(req)
    requires AwardEffect(t, cfg, req, today, fault, enabled).1.Success?
    requires IsSuccess(AwardEffect(t, cfg, req, today, fault, enabled).1.value)
    ensures var (t', r) := AwardEffect(t, cfg, req, today, fault, enabled);
      var userId := req.userId.value;
      && userId in t'.users
      && var after := t'.users[userId];
         && after.level == LevelOf(cfg, after.totalPoints) && r.value.level == Some(after.level)
         && (r.value.levelUp <==> after.level > RowBefore(t, userId).level)
  {
    var userId, eventId, typeCode := req.userId.value, req.eventId.value, req.eventType.value;
    AwardSucceeds(t, cfg, req, today, fault, enabled);
    var e := t.eventTypes[typeCode];
    var (t1, row) := UserService.GetOrCreateEffect(t, userId);
    var saved := AwardTransaction(userId, eventId, typeCode, e, today).(uuid := t1.nextId);
    var t2 := t1.(transactions := t1.transactions + [saved], nextId := t1.nextId + 1);
    CreditLevelsUser(t, t2, row, e, t1.nextId, cfg, req, enabled);
  }

  /** A successful award leaves the event types alone and changes the course
      totals exactly when a course is given and the feature is on. */
  lemma {:induction false} SuccessCourseEffect(t: Tables, cfg: LevelConfig, req: LmsEventRequest, today: int,
                                               fault: Option<SaveFault>, enabled: bool)
    requires ValidConfig(cfg) && ValidTables(t) && HasIdentifiers(req)
    requires AwardEffect(t, cfg, req, today, fault, enabled).1.Success?
    requires IsSuccess(AwardEffect(t, cfg, req, today, fault, enabled).1.value)
    ensures var t' := AwardEffect(t, cfg, req, today, fault, enabled).0;
      && t'.eventTypes == t.eventTypes
      && (t'.enrollments == t.enrollments <==> !enabled || req.courseId.None?)
  {
    var userId, eventId, typeCode := req.userId.value, req.eventId.value, req.eventType.value;
    AwardSucceeds(t, cfg, req, today, fault, enabled);
    var e := t.eventTypes[typeCode];
    var (t1, row) := UserService.GetOrCreateEffect(t, userId);
    var saved := AwardTransaction(userId, eventId, typeCode, e, today).(uuid := t1.nextId);
    var t2 := t1.(transactions := t1.transactions + [saved], nextId := t1.nextId + 1);
    CreditSucceeds(t, t2, row, e, t1.nextId, cfg, req, enabled);
  }

  /** An event is awarded at most once: after a success the same request is a
      duplicate that changes nothing. */
  lemma AwardIsExactlyOnce(t: Tables, cfg: LevelConfig, req: LmsEventRequest, today: int,
                           fault: Option<SaveFault>, enabled: bool, today2: int, fault2: Option<SaveFault>)
    requires ValidConfig(cfg) && ValidTables(t) && HasIdentifiers(req)
    requires AwardEffect(t, cfg, req, today, fault, enabled).1.Success?
    requires IsSuccess(AwardEffect(t, cfg, req, today, fault, enabled).1.value)
    ensures var t' := AwardEffect(t, cfg, req, today, fault, enabled).0;
      AwardEffect(t', cfg, req, today2, fault2, enabled) == (t', Success(AwardDuplicate()))
  {
    SuccessEffect(t, cfg, req, today, fault, enabled);
    var t' := AwardEffect(t, cfg, req, today, fault, enabled).0;
    assert t'.transactions[|t.transactions|].eventId == req.eventId.value;
  }
}
