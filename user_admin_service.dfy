/** `UserAdminServiceImpl`: the administrator's view of one user and of a
    page of users. */
module UserAdminService {
  import opened Common
  import opened Store
  import UserService

  const BlankUserIdMessage: string := "userId не может быть пустым"

  /** `UserAdminDto` as far as the service determines it: the internal id,
      the LMS id, the total and the level. */
  datatype UserAdminDto = UserAdminDto(uuid: nat, userId: string, totalPoints: int, level: int)

  /** The mapping of a stored user to its view. */
  function ToDto(userId: string, row: UserRow): UserAdminDto
  {
    UserAdminDto(row.uuid, userId, row.totalPoints, row.level)
  }

  /** `findByUserId(userId)`: a blank id is refused without a lookup; a
      missing user is `get`'s `UserNotFoundException`; otherwise that user's
      view. */
  function FindByUserId(t: Tables, userId: Option<string>): (r: Result<UserAdminDto>)
    ensures r.Success? <==> !IsBlank(userId) && userId.value in t.users
    ensures IsBlank(userId) ==> r == Failure(IllegalArgument(BlankUserIdMessage))
    ensures !IsBlank(userId) && userId.value !in t.users ==> r == Failure(UserNotFound(userId.value))
    ensures r.Success? ==>
      var row := t.users[userId.value];
      r.value.userId == userId.value && r.value.uuid == row.uuid
      && r.value.totalPoints == row.totalPoints && r.value.level == row.level
  {
    if IsBlank(userId) then Failure(IllegalArgument(BlankUserIdMessage))
    else match UserService.Get(t, userId.value)
      case Failure(err) => Failure(err)
      case Success(row) => Success(ToDto(userId.value, row))
  }

  /** The views of a sequence of users, one per user, in order. */
  function Views(users: seq<(string, UserRow)>): (views: seq<UserAdminDto>)
    ensures |views| == |users|
    ensures forall i | 0 <= i < |users| :: views[i] == ToDto(users[i].0, users[i].1)
  {
    if users == [] then [] else [ToDto(users[0].0, users[0].1)] + Views(users[1..])
  }

  /** `findAll(pageable)`, given the page of users the repository returns:
      the page's users mapped one by one with its metadata kept. */
  function FindAll(users: Page<(string, UserRow)>): (r: Page<UserAdminDto>)
    ensures |r.content| == |users.content|
    ensures forall i | 0 <= i < |users.content| ::
      r.content[i].userId == users.content[i].0 && r.content[i].totalPoints == users.content[i].1.totalPoints
      && r.content[i].level == users.content[i].1.level
    ensures r.number == users.number && r.size == users.size && r.totalElements == users.totalElements
      && r.totalPages == users.totalPages && r.hasNext == users.hasNext && r.hasPrevious == users.hasPrevious
  {
    Page(Views(users.content), users.number, users.size, users.totalElements, users.totalPages,
         users.hasNext, users.hasPrevious)
  }

  /** An entry of a page read from the store is exactly what `findByUserId`
      answers for that user. */
  lemma FindAllAgreesWithFindByUserId(t: Tables, users: Page<(string, UserRow)>, i: int)
    requires 0 <= i < |users.content|
    requires users.content[i].0 in t.users && t.users[users.content[i].0] == users.content[i].1
    requires !IsBlank(Some(users.content[i].0))
    ensures FindByUserId(t, Some(users.content[i].0)) == Success(FindAll(users).content[i])
  {
  }
}
