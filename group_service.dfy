/** `GroupServiceImpl.existsByGroupIdAndCourseId`: argument validation in
    front of the group table, whose rows are (group id, course id) pairs. */
module GroupService {
  import opened Common
  import opened Store

  const BlankGroupIdMessage: string := "Идентификатор группы не может быть пустым или null"
  const BlankCourseIdMessage: string := "Идентификатор курса не может быть пустым или null"

  /** `existsByGroupIdAndCourseId(groupId, courseId)`: the group id is checked
      first, then the course id; with both present, whether that group exists
      in that course. */
  function ExistsByGroupIdAndCourseId(t: Tables, groupId: Option<string>, courseId: Option<string>): (r: Result<bool>)
    ensures r.Failure? <==> IsBlank(groupId) || IsBlank(courseId)
    ensures IsBlank(groupId) ==> r == Failure(IllegalArgument(BlankGroupIdMessage))
    ensures !IsBlank(groupId) && IsBlank(courseId) ==> r == Failure(IllegalArgument(BlankCourseIdMessage))
    ensures r.Success? ==> (r.value <==> (groupId.value, courseId.value) in t.groups)
  {
    if IsBlank(groupId) then Failure(IllegalArgument(BlankGroupIdMessage))
    else if IsBlank(courseId) then Failure(IllegalArgument(BlankCourseIdMessage))
    else Success((groupId.value, courseId.value) in t.groups)
  }

  /** With both ids null the group id is the one reported; a group is found
      only under its own course. */
  lemma {:induction false} GroupChecks(t: Tables, g: string, c: string, other: string)
    requires !IsBlank(Some(g)) && !IsBlank(Some(c)) && !IsBlank(Some(other))
    requires (g, c) in t.groups && (g, other) !in t.groups
    ensures ExistsByGroupIdAndCourseId(t, None, None) == Failure(IllegalArgument(BlankGroupIdMessage))
    ensures ExistsByGroupIdAndCourseId(t, Some(g), None) == Failure(IllegalArgument(BlankCourseIdMessage))
    ensures ExistsByGroupIdAndCourseId(t, Some(g), Some(c)) == Success(true)
    ensures ExistsByGroupIdAndCourseId(t, Some(g), Some(other)) == Success(false)
  {
  }
}
