/** The values the award pipeline passes around: the LMS request, the award
    results of `service/point/result`, `dto` and `dto/result`, and the response
    sent back to the LMS. */
module Dtos {
  import opened Common

  /** `LmsEventRequestDto`: every field is a nullable string. */
  datatype LmsEventRequest = LmsEventRequest(
    userId: Option<string>, eventId: Option<string>, eventType: Option<string>,
    courseId: Option<string>, groupId: Option<string>)

  /** The three identifiers are present, as the controller's validation of
      the request guarantees before an award service runs. */
  predicate HasIdentifiers(req: LmsEventRequest)
  {
    req.userId.Some? && req.eventId.Some? && req.eventType.Some?
  }

  // ---------------------------------------------------------------------------
  // AwardResult. The three classes share status, the award payload and the
  // rejection reason; `service/point/result` names the level `newLevel` and adds
  // `progressPercent`, the two `dto` classes name it `levelAfter`. One record
  // holds the union of the fields; a field a class lacks stays null.

  datatype AwardStatus = SUCCESS | DUPLICATE | REJECTED

  datatype AwardResult = AwardResult(
    status: AwardStatus,
    pointsEarned: Option<int>,
    totalPointsAfter: Option<int>,
    level: Option<int>,
    levelUp: bool,
    rejectionReason: Option<string>,
    transactionId: Option<nat>,
    pointsToNextLevel: Option<int>,
    progressPercent: Option<real>)

  /** `success` of `service/point/result/AwardResult` (seven arguments). */
  function AwardSuccess(pointsEarned: int, totalAfter: int, levelAfter: int, levelUp: bool,
                        txId: nat, pointsToNext: int, progressPercent: real): AwardResult
  {
    AwardResult(SUCCESS, Some(pointsEarned), Some(totalAfter), Some(levelAfter), levelUp, None,
                Some(txId), Some(pointsToNext), Some(progressPercent))
  }

  /** `success` of `dto/AwardResult` (five arguments): no gap, no percentage. */
  function AwardSuccessBasic(pointsEarned: int, totalAfter: int, levelAfter: int, levelUp: bool,
                             txId: nat): AwardResult
  {
    AwardResult(SUCCESS, Some(pointsEarned), Some(totalAfter), Some(levelAfter), levelUp, None,
                Some(txId), None, None)
  }

  /** `success` of `dto/result/AwardResult` (six arguments): a gap, no percentage. */
  function AwardSuccessWithGap(pointsEarned: int, totalAfter: int, levelAfter: int, levelUp: bool,
                               txId: nat, pointsToNext: int): AwardResult
  {
    AwardResult(SUCCESS, Some(pointsEarned), Some(totalAfter), Some(levelAfter), levelUp, None,
                Some(txId), Some(pointsToNext), None)
  }

  /** `duplicate()`, the same in all three classes. */
  function AwardDuplicate(): AwardResult
  {
    AwardResult(DUPLICATE, None, None, None, false, None, None, None, None)
  }

  /** `rejected(reason)`, the same in all three classes. */
  function AwardRejected(reason: string): AwardResult
  {
    AwardResult(REJECTED, None, None, None, false, Some(reason), None, None, None)
  }

  predicate IsSuccess(r: AwardResult)
  {
    r.status == SUCCESS
  }

  /** A result carries an award payload exactly when it is a success, and a
      reason exactly when it is a rejection. */
  predicate WellShaped(r: AwardResult)
  {
    && (r.pointsEarned.Some? <==> IsSuccess(r))
    && (r.totalPointsAfter.Some? <==> IsSuccess(r))
    && (r.level.Some? <==> IsSuccess(r))
    && (r.transactionId.Some? <==> IsSuccess(r))
    && (r.levelUp ==> IsSuccess(r))
    && (r.rejectionReason.Some? <==> r.status == REJECTED)
  }

  /** Every factory gives a well-shaped result with its own status, and each
      success factory hands back every argument through its getters. */
  lemma AwardFactories(p: int, t: int, l: int, up: bool, tx: nat, gap: int, pc: real, reason: string)
    ensures var s := AwardSuccess(p, t, l, up, tx, gap, pc);
      && WellShaped(s) && IsSuccess(s)
      && s.pointsEarned == Some(p) && s.totalPointsAfter == Some(t) && s.level == Some(l)
      && s.levelUp == up && s.transactionId == Some(tx)
      && s.pointsToNextLevel == Some(gap) && s.progressPercent == Some(pc)
    ensures var s := AwardSuccessBasic(p, t, l, up, tx);
      && WellShaped(s) && IsSuccess(s)
      && s.pointsEarned == Some(p) && s.totalPointsAfter == Some(t) && s.level == Some(l)
      && s.levelUp == up && s.transactionId == Some(tx)
      && s.pointsToNextLevel.None? && s.progressPercent.None?
    ensures var s := AwardSuccessWithGap(p, t, l, up, tx, gap);
      && WellShaped(s) && IsSuccess(s)
      && s.pointsEarned == Some(p) && s.totalPointsAfter == Some(t) && s.level == Some(l)
      && s.levelUp == up && s.transactionId == Some(tx)
      && s.pointsToNextLevel == Some(gap) && s.progressPercent.None?
    ensures WellShaped(AwardDuplicate()) && AwardDuplicate().status == DUPLICATE && !IsSuccess(AwardDuplicate())
    ensures WellShaped(AwardRejected(reason)) && AwardRejected(reason).status == REJECTED
    ensures AwardRejected(reason).rejectionReason == Some(reason) && !IsSuccess(AwardRejected(reason))
  {
  }

  // ---------------------------------------------------------------------------
  // LmsEventResponsetDto (`processedAt`, a clock reading, is not modelled).

  datatype LmsEventResponse = LmsEventResponse(
    userId: Option<string>,
    eventId: Option<string>,
    displayName: Option<string>,
    status: Option<string>,
    message: Option<string>,
    pointsEarned: Option<int>,
    totalPoints: Option<int>,
    newLevel: Option<int>,
    levelUp: Option<bool>,
    pointsToNextLevel: Option<int>,
    transactionId: Option<nat>)

  /** The builder with nothing set. */
  const EmptyResponse: LmsEventResponse :=
    LmsEventResponse(None, None, None, None, None, None, None, None, None, None, None)

  const DefaultErrorMessage: string := "Внутренняя ошибка обработки события"

  const DuplicatePrefix: string := "Событие с ID "

  function DuplicateMessage(eventId: string): string
  {
    DuplicatePrefix + eventId + " уже обработано ранее"
  }

  /** `success(userId, pointsEarned, totalPoints, eventId, transactionId, displayName)`. */
  function SuccessResponse(userId: string, pointsEarned: int, totalPoints: int, eventId: string,
                           txId: nat, displayName: string): LmsEventResponse
  {
    EmptyResponse.(status := Some("success"), userId := Some(userId), eventId := Some(eventId),
                   displayName := Some(displayName), pointsEarned := Some(pointsEarned),
                   totalPoints := Some(totalPoints), transactionId := Some(txId))
  }

  /** `duplicate(eventId)`. */
  function DuplicateResponse(eventId: string): LmsEventResponse
  {
    EmptyResponse.(status := Some("duplicate"), eventId := Some(eventId),
                   message := Some(DuplicateMessage(eventId)))
  }

  /** `error(message)`: a null message is replaced by the default one. */
  function ErrorResponse(message: Option<string>): LmsEventResponse
  {
    EmptyResponse.(status := Some("error"),
                   message := Some(if message.Some? then message.value else DefaultErrorMessage))
  }

  predicate IsSuccessResponse(r: LmsEventResponse)
  {
    r.status == Some("success")
  }

  predicate IsDuplicateResponse(r: LmsEventResponse)
  {
    r.status == Some("duplicate")
  }

  predicate IsErrorResponse(r: LmsEventResponse)
  {
    r.status == Some("error")
  }

  /** The number of the three status tests a response passes. */
  function StatusTestsPassed(r: LmsEventResponse): nat
  {
    (if IsSuccessResponse(r) then 1 else 0) + (if IsDuplicateResponse(r) then 1 else 0)
      + (if IsErrorResponse(r) then 1 else 0)
  }

  /** Each factory's response passes exactly one of the three status tests,
      its own. */
  lemma ResponseFactoriesExactlyOneStatus(userId: string, p: int, t: int, eventId: string, tx: nat,
                                          name: string, message: Option<string>)
    ensures IsSuccessResponse(SuccessResponse(userId, p, t, eventId, tx, name))
    ensures StatusTestsPassed(SuccessResponse(userId, p, t, eventId, tx, name)) == 1
    ensures IsDuplicateResponse(DuplicateResponse(eventId)) && StatusTestsPassed(DuplicateResponse(eventId)) == 1
    ensures IsErrorResponse(ErrorResponse(message)) && StatusTestsPassed(ErrorResponse(message)) == 1
  {
  }

  /** The success factory copies its arguments; an error keeps a given message
      and falls back to the default for null. */
  lemma ResponseFactoryFields(userId: string, p: int, t: int, eventId: string, tx: nat, name: string, m: string)
    ensures var s := SuccessResponse(userId, p, t, eventId, tx, name);
      && s.userId == Some(userId) && s.pointsEarned == Some(p) && s.totalPoints == Some(t)
      && s.eventId == Some(eventId) && s.transactionId == Some(tx) && s.displayName == Some(name)
      && s.message.None? && s.levelUp.None? && s.pointsToNextLevel.None?
    ensures ErrorResponse(Some(m)).message == Some(m)
    ensures ErrorResponse(None).message == Some(DefaultErrorMessage)
  {
  }

  /** A duplicate response repeats the event id and names it in its message,
      right after the fixed prefix. */
  lemma DuplicateMessageNamesEvent(eventId: string)
    ensures DuplicateResponse(eventId).eventId == Some(eventId)
    ensures var m := DuplicateResponse(eventId).message.value;
      |m| >= |DuplicatePrefix| + |eventId| && m[|DuplicatePrefix|..|DuplicatePrefix| + |eventId|] == eventId
  {
  }
}
