/** `UserServiceImpl`: get-or-create, lookup and write-back of users. The
    methods hand out fresh `Users.User` objects loaded from the user table, as
    the repository does outside a persistence context. */
module UserService {
  import opened Common
  import opened Store
  import opened Users

  const NoInternalIdMessage: string := "Нельзя обновлять пользователя без внутреннего ID"

  /** The effect of `createIfNotExists(userId)` (and of `getOrCreateLocked`):
      the stored row when the user exists, otherwise a new row with 0 points on
      level 1 under the next primary key. */
  function GetOrCreateEffect(t: Tables, userId: string): (r: (Tables, UserRow))
    ensures userId in r.0.users && r.1 == r.0.users[userId]
    ensures userId in t.users ==> r == (t, t.users[userId])
    ensures userId !in t.users ==>
      && r.1 == UserRow(t.nextId, 0, 1)
      && r.0 == t.(users := t.users[userId := r.1], nextId := t.nextId + 1)
    ensures r.0.users.Keys == t.users.Keys + {userId}
    ensures ValidTables(t) ==> ValidTables(r.0)
  {
    if userId in t.users then (t, t.users[userId])
    else
      var row := UserRow(t.nextId, 0, 1);
      (t.(users := t.users[userId := row], nextId := t.nextId + 1), row)
  }

  /** Asking twice for the same user returns the same row and inserts nothing
      the second time. */
  lemma {:induction false} GetOrCreateIdempotent(t: Tables, userId: string)
    ensures var (t1, row1) := GetOrCreateEffect(t, userId);
      GetOrCreateEffect(t1, userId) == (t1, row1)
  {
  }

  /** A user object with the contents of a stored row. */
  predicate Loaded(u: User, userId: string, row: UserRow)
    reads u
  {
    u.uuid == Some(row.uuid) && u.userId == userId && u.totalPoints == row.totalPoints && u.level == row.level
  }

  /** The user's row as the entity object holds it. */
  function RowOf(u: User): UserRow
    reads u
    requires u.uuid.Some?
  {
    UserRow(u.uuid.value, u.totalPoints, u.level)
  }

  /** `createIfNotExists(userId)`. */
  method CreateIfNotExists(db: Db, userId: string) returns (u: User)
    modifies db
    ensures fresh(u)
    ensures var (t, row) := GetOrCreateEffect(old(db.State()), userId);
      db.State() == t && Loaded(u, userId, row)
  {
    if userId !in db.users {
      db.users := db.users[userId := UserRow(db.nextId, 0, 1)];
      db.nextId := db.nextId + 1;
    }
    var row := db.users[userId];
    u := new User(Some(row.uuid), userId, row.totalPoints, row.level);
  }

  /** `getOrCreateLocked(userId)`: the same get-or-create under a row lock
      (the lock is not modelled). */
  method GetOrCreateLocked(db: Db, userId: string) returns (u: User)
    modifies db
    ensures fresh(u)
    ensures var (t, row) := GetOrCreateEffect(old(db.State()), userId);
      db.State() == t && Loaded(u, userId, row)
  {
    u := CreateIfNotExists(db, userId);
  }

  /** `get(userId)`: the stored row, or `UserNotFoundException`. */
  function Get(t: Tables, userId: string): (r: Result<UserRow>)
    ensures r.Success? <==> userId in t.users
    ensures r.Success? ==> r.value == t.users[userId]
    ensures r.Failure? ==> r.error == UserNotFound(userId)
  {
    if userId in t.users then Success(t.users[userId]) else Failure(UserNotFound(userId))
  }

  /** The effect of `update(user)` for a user with the given fields: refused
      without an internal id, otherwise the user's row is written back. */
  function UpdateEffect(t: Tables, uuid: Option<nat>, userId: string, totalPoints: int, level: int): (r: (Tables, Outcome))
    ensures r.1.Fail? <==> uuid.None?
    ensures r.1.Fail? ==> r.0 == t && r.1.error == IllegalArgument(NoInternalIdMessage)
    ensures r.1.Pass? ==> r.0 == t.(users := t.users[userId := UserRow(uuid.value, totalPoints, level)])
    ensures ValidTables(t) ==> ValidTables(r.0)
  {
    if uuid.None? then (t, Fail(IllegalArgument(NoInternalIdMessage)))
    else (t.(users := t.users[userId := UserRow(uuid.value, totalPoints, level)]), Pass)
  }

  /** Writing back a user just loaded changes nothing. */
  lemma UpdateUnchangedIsNoOp(t: Tables, userId: string)
    requires userId in t.users
    ensures var row := t.users[userId];
      UpdateEffect(t, Some(row.uuid), userId, row.totalPoints, row.level) == (t, Pass)
  {
    var row := t.users[userId];
    assert t.users[userId := row] == t.users;
  }

  /** `update(user)`. */
  method Update(db: Db, u: User) returns (r: Outcome)
    modifies db
    ensures (db.State(), r) == UpdateEffect(old(db.State()), u.uuid, u.userId, u.totalPoints, u.level)
  {
    if u.uuid.None? {
      return Fail(IllegalArgument(NoInternalIdMessage));
    }
    db.users := db.users[u.userId := UserRow(u.uuid.value, u.totalPoints, u.level)];
    return Pass;
  }
}
