/** `UserCourseServiceImpl`: enrolling a user in a course (and optionally a
    group of it) and adding points to the user's per-course total. The
    `gamification.features.courses.enabled` property is the `enabled`
    parameter. */
module UserCourseService {
  import opened Common
  import opened Store
  import opened Users

  /** The effect of `enrollIfNeeded(user, courseId, groupId)`. */
  function EnrollEffect(t: Tables, enabled: bool, userId: string, courseId: Option<string>,
                        groupId: Option<string>): (r: (Tables, Outcome))
    ensures r.0 == t.(enrollments := r.0.enrollments)
    ensures !enabled || courseId.None? ==> r == (t, Pass)
    ensures r.1.Fail? ==> r.0 == t
    ensures enabled && courseId.Some? ==>
      (r.1 == Fail(CourseNotFound(courseId.value)) <==> courseId.value !in t.courses)
    ensures enabled && courseId.Some? && courseId.value in t.courses ==>
      (r.1.Fail? <==> groupId.Some? && (groupId.value, courseId.value) !in t.groups)
    ensures r.1.Fail? && courseId.value in t.courses ==> r.1 == Fail(GroupNotFound(groupId.value, courseId.value))
    ensures r.1.Pass? && enabled && courseId.Some? ==>
      && (userId, courseId.value) in r.0.enrollments
      && ((userId, courseId.value) in t.enrollments ==> r.0 == t)
      && ((userId, courseId.value) !in t.enrollments ==>
            r.0.enrollments == t.enrollments[(userId, courseId.value) := Enrollment(groupId, 0)])
  {
    if !enabled || courseId.None? then (t, Pass)
    else
      var c := courseId.value;
      if c !in t.courses then (t, Fail(CourseNotFound(c)))
      else if groupId.Some? && (groupId.value, c) !in t.groups then (t, Fail(GroupNotFound(groupId.value, c)))
      else if (userId, c) in t.enrollments then (t, Pass)
      else (t.(enrollments := t.enrollments[(userId, c) := Enrollment(groupId, 0)]), Pass)
  }

  /** Enrolling twice is enrolling once. */
  lemma {:induction false} EnrollIdempotent(t: Tables, enabled: bool, userId: string, courseId: Option<string>,
                                            groupId: Option<string>)
    ensures var (t1, o1) := EnrollEffect(t, enabled, userId, courseId, groupId);
      EnrollEffect(t1, enabled, userId, courseId, groupId) == (t1, o1)
  {
  }

  /** `enrollIfNeeded(user, courseId, groupId)`. */
  method EnrollIfNeeded(db: Db, enabled: bool, user: User, courseId: Option<string>, groupId: Option<string>)
    returns (r: Outcome)
    modifies db
    ensures (db.State(), r) == EnrollEffect(old(db.State()), enabled, user.userId, courseId, groupId)
  {
    if !enabled || courseId.None? {
      return Pass;
    }
    var c := courseId.value;
    if c !in db.courses {
      return Fail(CourseNotFound(c));
    }
    if groupId.Some? && (groupId.value, c) !in db.groups {
      return Fail(GroupNotFound(groupId.value, c));
    }
    if (user.userId, c) in db.enrollments {
      return Pass;
    }
    db.enrollments := db.enrollments[(user.userId, c) := Enrollment(groupId, 0)];
    return Pass;
  }

  /** The effect of `addPointsToCourse(user, courseId, points)`. */
  function AddCoursePointsEffect(t: Tables, enabled: bool, userId: string, courseId: Option<string>,
                                 points: int): (r: (Tables, Outcome))
    ensures r.0 == t.(enrollments := r.0.enrollments)
    ensures !enabled || courseId.None? || points <= 0 ==> r == (t, Pass)
    ensures r.1.Fail? <==> enabled && courseId.Some? && points > 0 && (userId, courseId.value) !in t.enrollments
    ensures r.1.Fail? ==> r.0 == t && r.1.error == UserNotEnrolledInCourse(userId, courseId.value)
    ensures r.0.enrollments.Keys == t.enrollments.Keys
    ensures forall k | k in t.enrollments ::
      r.0.enrollments[k].groupId == t.enrollments[k].groupId
      && r.0.enrollments[k].totalPointsInCourse
         == t.enrollments[k].totalPointsInCourse
            + (if r.1.Pass? && enabled && courseId.Some? && points > 0 && k == (userId, courseId.value) then points else 0)
  {
    if !enabled || courseId.None? || points <= 0 then (t, Pass)
    else
      var key := (userId, courseId.value);
      if key !in t.enrollments then (t, Fail(UserNotEnrolledInCourse(userId, courseId.value)))
      else
        var e := t.enrollments[key];
        (t.(enrollments := t.enrollments[key := e.(totalPointsInCourse := e.totalPointsInCourse + points)]), Pass)
  }

  /** Two additions to one course add up. */
  lemma {:induction false} AddCoursePointsAccumulates(t: Tables, userId: string, courseId: string, a: int, b: int)
    requires (userId, courseId) in t.enrollments && a > 0 && b > 0
    ensures var t1 := AddCoursePointsEffect(t, true, userId, Some(courseId), a).0;
      var t2 := AddCoursePointsEffect(t1, true, userId, Some(courseId), b).0;
      t2 == AddCoursePointsEffect(t, true, userId, Some(courseId), a + b).0
  {
    var key := (userId, courseId);
    var t1 := AddCoursePointsEffect(t, true, userId, Some(courseId), a).0;
    var t2 := AddCoursePointsEffect(t1, true, userId, Some(courseId), b).0;
    var t3 := AddCoursePointsEffect(t, true, userId, Some(courseId), a + b).0;
    assert t2.enrollments == t3.enrollments;
  }

  /** `addPointsToCourse(user, courseId, points)`. */
  method AddPointsToCourse(db: Db, enabled: bool, user: User, courseId: Option<string>, points: int)
    returns (r: Outcome)
    modifies db
    ensures (db.State(), r) == AddCoursePointsEffect(old(db.State()), enabled, user.userId, courseId, points)
  {
    if !enabled || courseId.None? || points <= 0 {
      return Pass;
    }
    var key := (user.userId, courseId.value);
    if key !in db.enrollments {
      return Fail(UserNotEnrolledInCourse(user.userId, courseId.value));
    }
    var e := db.enrollments[key];
    db.enrollments := db.enrollments[key := e.(totalPointsInCourse := e.totalPointsInCourse + points)];
    return Pass;
  }
}
