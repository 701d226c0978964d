/** `EventTypeServiceImpl`: lookup of an active event type by its code and the
    daily-limit test. The daily sum `getDailyPointsSum` is `Store.DailySum`. */
module EventTypeService {
  import opened Common
  import opened Store

  const ActiveNotFoundPrefix: string := "Активный тип события не найден по коду: "

  /** `getActiveByCode(typeCode)`: `findByTypeCodeAndActiveTrue`, or
      `EventTypeNotFoundException` naming the code. */
  function GetActiveByCode(t: Tables, typeCode: string): (r: Result<EventType>)
    ensures r.Success? <==> typeCode in t.eventTypes && t.eventTypes[typeCode].active
    ensures r.Failure? ==> r.error == EventTypeNotFound(ActiveNotFoundPrefix + typeCode)
  {
    if typeCode in t.eventTypes && t.eventTypes[typeCode].active then Success(t.eventTypes[typeCode])
    else Failure(EventTypeNotFound(ActiveNotFoundPrefix + typeCode))
  }

  /** In a valid store the type found is the stored, active type of that code,
      with at least one point and a non-negative limit if it has one. */
  lemma ActiveTypeIsWellFormed(t: Tables, typeCode: string)
    requires ValidTables(t) && GetActiveByCode(t, typeCode).Success?
    ensures var e := GetActiveByCode(t, typeCode).value;
      e == t.eventTypes[typeCode] && e.typeCode == typeCode && e.active && EventTypeConstraints(e)
  {
  }

  /** The rule the award services apply inline: a type with a daily maximum
      rejects an award that would take the day's sum above it. */
  predicate OverDailyLimit(e: EventType, todaySum: int, points: int)
  {
    e.maxDailyPoints.Some? && todaySum + points > e.maxDailyPoints.value
  }

  /** `canAwardPoints(userId, typeCode, points, date)`: throws for an inactive
      or missing type; true without a maximum; otherwise whether the day's sum
      plus the points stays within the maximum. */
  function CanAwardPoints(t: Tables, userId: string, typeCode: string, points: int, date: int): (r: Result<bool>)
    ensures r.Failure? <==> GetActiveByCode(t, typeCode).Failure?
    ensures r.Failure? ==> r.error == GetActiveByCode(t, typeCode).error
    ensures r.Success? && t.eventTypes[typeCode].maxDailyPoints.None? ==> r.value
    ensures r.Success? && t.eventTypes[typeCode].maxDailyPoints.Some? ==>
      (r.value <==> DailySum(t.transactions, userId, typeCode, date) + points <= t.eventTypes[typeCode].maxDailyPoints.value)
  {
    match GetActiveByCode(t, typeCode)
    case Failure(e) => Failure(e)
    case Success(e) =>
      if e.maxDailyPoints.None? then Success(true)
      else Success(DailySum(t.transactions, userId, typeCode, date) + points <= e.maxDailyPoints.value)
  }

  /** The service's test and the award services' inline rule are complements:
      `canAwardPoints` allows exactly the awards the inline rule does not
      reject, so an award that reaches the maximum exactly is allowed. */
  lemma CanAwardIsNotOverLimit(t: Tables, userId: string, typeCode: string, points: int, date: int)
    requires GetActiveByCode(t, typeCode).Success?
    ensures var e := GetActiveByCode(t, typeCode).value;
      CanAwardPoints(t, userId, typeCode, points, date)
      == Success(!OverDailyLimit(e, DailySum(t.transactions, userId, typeCode, date), points))
    ensures var e := GetActiveByCode(t, typeCode).value;
      e.maxDailyPoints.Some? && DailySum(t.transactions, userId, typeCode, date) + points == e.maxDailyPoints.value
      ==> CanAwardPoints(t, userId, typeCode, points, date) == Success(true)
  {
  }
}
