/** `CourceServiceImpl.existsByCourseId`: argument validation in front of
    the course table. */
module CourseService {
  import opened Common
  import opened Store

  const BlankCourseIdMessage: string := "Идентификатор курса не может быть пустым или null"

  /** `existsByCourseId(courseId)`: a null or blank id is refused with
      `IllegalArgumentException`; otherwise whether a course has exactly that
      id. */
  function ExistsByCourseId(t: Tables, courseId: Option<string>): (r: Result<bool>)
    ensures r.Failure? <==> IsBlank(courseId)
    ensures r.Failure? ==> r.error == IllegalArgument(BlankCourseIdMessage)
    ensures r.Success? ==> (r.value <==> courseId.value in t.courses)
  {
    if IsBlank(courseId) then Failure(IllegalArgument(BlankCourseIdMessage))
    else Success(courseId.value in t.courses)
  }

  /** Null, the empty id and a whitespace-only id are all refused, whatever
      the course table holds; ids are compared exactly, so an id differing from
      a stored one only in case is not found when it is not stored itself. */
  lemma {:induction false} CourseIdChecks(t: Tables)
    ensures ExistsByCourseId(t, None) == Failure(IllegalArgument(BlankCourseIdMessage))
    ensures ExistsByCourseId(t, Some("")) == Failure(IllegalArgument(BlankCourseIdMessage))
    ensures ExistsByCourseId(t, Some("  \t")) == Failure(IllegalArgument(BlankCourseIdMessage))
    ensures "CS-101" in t.courses && "cs-101" !in t.courses ==>
      ExistsByCourseId(t, Some("CS-101")) == Success(true) && ExistsByCourseId(t, Some("cs-101")) == Success(false)
  {
    IsBlankExamples();
    assert IsBlank(Some("  \t"));
    assert "CS-101"[0] == 'C' && "cs-101"[0] == 'c';
  }
}
