/** `AnalyticsServiceImpl.getGroupLeaderboard`: the validation chain in front
    of the group leaderboard and the copy of the page the leaderboard query
    returns. The query itself runs in the database and is a parameter here. */
module Analytics {
  import opened Common
  import opened Store
  import CourseService
  import GroupService

  const BlankCourseIdMessage: string := "Идентификатор курса не может быть пустым или null"
  const BlankGroupIdMessage: string := "Идентификатор группы не может быть пустым или null"
  /** The messages of Spring Data's `PageRequest.of(page, size)`. */
  const NegativePageMessage: string := "Page index must not be less than zero"
  const EmptyPageMessage: string := "Page size must not be less than one"

  /** `LeaderboardEntryDto`. */
  datatype LeaderboardEntry = LeaderboardEntry(
    userUuid: nat, userId: string, pointsInCourse: int, globalLevel: int, rank: int)

  /** `GroupLeaderboardPageDto`. */
  datatype GroupLeaderboardPage = GroupLeaderboardPage(
    content: seq<LeaderboardEntry>, pageNumber: int, pageSize: int, totalElements: int, totalPages: int,
    hasNext: bool, hasPrevious: bool)

  /** `PageRequest.of(page, size)`: refuses a negative page index and a page
      size below one. */
  function PageRequestCheck(page: int, size: int): (r: Outcome)
    ensures r.Pass? <==> page >= 0 && size >= 1
    ensures page < 0 ==> r == Fail(IllegalArgument(NegativePageMessage))
    ensures page >= 0 && size < 1 ==> r == Fail(IllegalArgument(EmptyPageMessage))
  {
    if page < 0 then Fail(IllegalArgument(NegativePageMessage))
    else if size < 1 then Fail(IllegalArgument(EmptyPageMessage))
    else Pass
  }

  /** `getGroupLeaderboard(courseId, groupId, page, size)`, where `leaderboard`
      is the page the leaderboard query returns for these arguments. */
  function GetGroupLeaderboard(t: Tables, courseId: Option<string>, groupId: Option<string>, page: int, size: int,
                               leaderboard: Page<LeaderboardEntry>): (r: Result<GroupLeaderboardPage>)
    ensures r.Success? <==>
      && !IsBlank(courseId) && !IsBlank(groupId)
      && courseId.value in t.courses && (groupId.value, courseId.value) in t.groups
      && page >= 0 && size >= 1
    ensures IsBlank(courseId) ==> r == Failure(IllegalArgument(BlankCourseIdMessage))
    ensures !IsBlank(courseId) && IsBlank(groupId) ==> r == Failure(IllegalArgument(BlankGroupIdMessage))
    ensures !IsBlank(courseId) && !IsBlank(groupId) && courseId.value !in t.courses
      ==> r == Failure(CourseNotFound(courseId.value))
    ensures !IsBlank(courseId) && !IsBlank(groupId) && courseId.value in t.courses
      && (groupId.value, courseId.value) !in t.groups
      ==> r == Failure(GroupNotFound(groupId.value, courseId.value))
    ensures r.Success? ==>
      && r.value.content == leaderboard.content
      && r.value.pageNumber == leaderboard.number && r.value.pageSize == leaderboard.size
      && r.value.totalElements == leaderboard.totalElements && r.value.totalPages == leaderboard.totalPages
      && r.value.hasNext == leaderboard.hasNext && r.value.hasPrevious == leaderboard.hasPrevious
  {
    if IsBlank(courseId) then Failure(IllegalArgument(BlankCourseIdMessage))
    else if IsBlank(groupId) then Failure(IllegalArgument(BlankGroupIdMessage))
    else match CourseService.ExistsByCourseId(t, courseId)
      case Failure(err) => Failure(err)
      case Success(false) => Failure(CourseNotFound(courseId.value))
      case Success(true) =>
        match GroupService.ExistsByGroupIdAndCourseId(t, groupId, courseId)
        case Failure(err) => Failure(err)
        case Success(false) => Failure(GroupNotFound(groupId.value, courseId.value))
        case Success(true) =>
          match PageRequestCheck(page, size)
          case Fail(err) => Failure(err)
          case Pass =>
            Success(GroupLeaderboardPage(leaderboard.content, leaderboard.number, leaderboard.size,
                                         leaderboard.totalElements, leaderboard.totalPages,
                                         leaderboard.hasNext, leaderboard.hasPrevious))
  }

  /** The leaderboard query's page is never read before the arguments, the
      course and the group have been accepted: any failure is the same for
      every page the query could return. */
  lemma {:induction false} FailuresIgnoreTheQuery(t: Tables, courseId: Option<string>, groupId: Option<string>,
                                                  page: int, size: int,
                                                  p1: Page<LeaderboardEntry>, p2: Page<LeaderboardEntry>)
    requires GetGroupLeaderboard(t, courseId, groupId, page, size, p1).Failure?
    ensures GetGroupLeaderboard(t, courseId, groupId, page, size, p2) == GetGroupLeaderboard(t, courseId, groupId, page, size, p1)
  {
    if !IsBlank(courseId) && !IsBlank(groupId) && courseId.value in t.courses
       && (groupId.value, courseId.value) in t.groups {
      assert !(page >= 0 && size >= 1);
    }
  }

  /** The checks the leaderboard repeats through the course and group
      services never fail once its own checks have passed: a course the
      course service finds is one the leaderboard accepts, and the same for the
      group. */
  lemma DelegatedChecksAgree(t: Tables, courseId: Option<string>, groupId: Option<string>)
    requires !IsBlank(courseId) && !IsBlank(groupId)
    ensures CourseService.ExistsByCourseId(t, courseId) == Success(courseId.value in t.courses)
    ensures GroupService.ExistsByGroupIdAndCourseId(t, groupId, courseId)
         == Success((groupId.value, courseId.value) in t.groups)
  {
  }
}
