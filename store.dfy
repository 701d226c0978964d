/** The database as the services see it through their repositories: the
    transaction log, the users, the event types, courses, groups and course
    enrollments. Generated primary keys are drawn from one counter. */
module Store {
  import opened Common

  /** A row of `transactions`; `date` is the day of `createdAt`. */
  datatype Transaction = Transaction(
    uuid: nat, userId: string, eventId: string, eventTypeCode: string,
    pointsEarned: int, description: string, date: int)

  /** A row of `users`, keyed by the LMS user id. */
  datatype UserRow = UserRow(uuid: nat, totalPoints: int, level: int)

  /** A row of `event_types`, keyed by its unique type code. */
  datatype EventType = EventType(
    uuid: nat, typeCode: string, displayName: string, points: int,
    maxDailyPoints: Option<int>, active: bool)

  /** A row of the user–course link, keyed by (user id, course id). */
  datatype Enrollment = Enrollment(groupId: Option<string>, totalPointsInCourse: int)

  /** The contents of every table at one moment. */
  datatype Tables = Tables(
    transactions: seq<Transaction>,
    users: map<string, UserRow>,
    eventTypes: map<string, EventType>,
    courses: set<string>,
    groups: set<(string, string)>,
    enrollments: map<(string, string), Enrollment>,
    nextId: nat)

  /** The bean-validation constraints on an event type: at least one point, and
      a daily maximum that is null or >= 0. */
  predicate EventTypeConstraints(e: EventType)
  {
    e.points >= 1 && (e.maxDailyPoints.Some? ==> e.maxDailyPoints.value >= 0)
  }

  /** `eventId` is a unique column. */
  predicate EventIdsUnique(txs: seq<Transaction>)
  {
    forall i, j | 0 <= i < j < |txs| :: txs[i].eventId != txs[j].eventId
  }

  predicate EventRecorded(txs: seq<Transaction>, eventId: string)
  {
    exists i | 0 <= i < |txs| :: txs[i].eventId == eventId
  }

  /** Event types are stored under their own code, satisfy their constraints
      and carry primary keys that are distinct and already drawn. */
  predicate EventTypesWellKeyed(types: map<string, EventType>, nextId: nat)
  {
    && (forall c | c in types :: types[c].typeCode == c && EventTypeConstraints(types[c]) && types[c].uuid < nextId)
    && (forall c, d | c in types && d in types && types[c].uuid == types[d].uuid :: c == d)
  }

  /** The invariants the database keeps: unique event ids and well-keyed
      event types. */
  predicate ValidTables(t: Tables)
  {
    EventIdsUnique(t.transactions) && EventTypesWellKeyed(t.eventTypes, t.nextId)
  }

  /** Appending a transaction with a fresh event id keeps event ids unique. */
  lemma AppendFreshKeepsUnique(txs: seq<Transaction>, tx: Transaction)
    requires !EventRecorded(txs, tx.eventId)
    ensures EventIdsUnique(txs) ==> EventIdsUnique(txs + [tx])
    ensures EventRecorded(txs + [tx], tx.eventId)
  {
    assert (txs + [tx])[|txs|] == tx;
  }

  /** The query `sumPointsByUserIdAndEventTypeAndDate`: the sum of the points of
      the user's transactions of that type on that day, 0 when there are none. */
  predicate Counts(tx: Transaction, userId: string, typeCode: string, date: int)
  {
    tx.userId == userId && tx.eventTypeCode == typeCode && tx.date == date
  }

  function DailySum(txs: seq<Transaction>, userId: string, typeCode: string, date: int): int
  {
    if txs == [] then 0
    else (if Counts(txs[0], userId, typeCode, date) then txs[0].pointsEarned else 0)
         + DailySum(txs[1..], userId, typeCode, date)
  }

  /** No matching transaction: the sum is 0 (the query's COALESCE). */
  lemma {:induction false} DailySumNoMatches(txs: seq<Transaction>, userId: string, typeCode: string, date: int)
    requires forall i | 0 <= i < |txs| :: !Counts(txs[i], userId, typeCode, date)
    ensures DailySum(txs, userId, typeCode, date) == 0
  {
    if txs != [] {
      DailySumNoMatches(txs[1..], userId, typeCode, date);
    }
  }

  /** A new transaction adds its points to the sum it counts in and leaves every
      other sum as it was. */
  lemma {:induction false} DailySumAppend(txs: seq<Transaction>, tx: Transaction, userId: string, typeCode: string, date: int)
    ensures DailySum(txs + [tx], userId, typeCode, date)
         == DailySum(txs, userId, typeCode, date) + (if Counts(tx, userId, typeCode, date) then tx.pointsEarned else 0)
  {
    if txs == [] {
      assert [tx][1..] == [];
    } else {
      assert (txs + [tx])[1..] == txs[1..] + [tx];
      DailySumAppend(txs[1..], tx, userId, typeCode, date);
    }
  }

  /** With non-negative points the sum is never negative. */
  lemma {:induction false} DailySumNonNegative(txs: seq<Transaction>, userId: string, typeCode: string, date: int)
    requires forall i | 0 <= i < |txs| :: txs[i].pointsEarned >= 0
    ensures DailySum(txs, userId, typeCode, date) >= 0
  {
    if txs != [] {
      DailySumNonNegative(txs[1..], userId, typeCode, date);
    }
  }

  /** The row a get-or-create leaves for a user id: the existing one, or a new
      one with 0 points on level 1. */
  function UsersAfterGetOrCreate(users: map<string, UserRow>, userId: string, id: nat): (m: map<string, UserRow>)
    ensures userId in m && m.Keys == users.Keys + {userId}
    ensures forall k | k in users :: m[k] == users[k]
    ensures userId !in users ==> m[userId] == UserRow(id, 0, 1)
  {
    if userId in users then users else users[userId := UserRow(id, 0, 1)]
  }

  /** The repositories' storage. */
  class Db {
    var transactions: seq<Transaction>
    var users: map<string, UserRow>
    var eventTypes: map<string, EventType>
    var courses: set<string>
    /** Pairs (group id, course id). */
    var groups: set<(string, string)>
    var enrollments: map<(string, string), Enrollment>
    /** The next generated primary key. */
    var nextId: nat

    function State(): Tables
      reads this
    {
      Tables(transactions, users, eventTypes, courses, groups, enrollments, nextId)
    }

    predicate Valid()
      reads this
    {
      ValidTables(State())
    }

    constructor (t: Tables)
      ensures State() == t
    {
      transactions, users, eventTypes := t.transactions, t.users, t.eventTypes;
      courses, groups, enrollments, nextId := t.courses, t.groups, t.enrollments, t.nextId;
    }

    /** Rolling back a transaction: every table returns to a saved state. */
    method Restore(t: Tables)
      modifies this
      ensures State() == t
    {
      transactions, users, eventTypes := t.transactions, t.users, t.eventTypes;
      courses, groups, enrollments, nextId := t.courses, t.groups, t.enrollments, t.nextId;
    }
  }
}
