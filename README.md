# lms-gamification: the gamification engine in Dafny

This project models the server-side engine of lms-gamification, a Spring
service. A learning-management system (LMS) reports events such as "lesson
finished" or "quiz passed". The engine turns each event into points. It
records a transaction, raises the user's total and level, and keeps per-course
totals. It also answers the LMS and the administrators.

The model covers:

- **The level calculators.**
  - Each maps a total of points to a level under the TRIANGULAR, QUADRATIC or LINEAR formula, and gives the points to the next level.
  - There are three copies. In two of them the three named formulas are guarded: a total ≤ 0 is level 1. Their fallback for an unknown name, `1 + total / 1000`, is not guarded in any copy. `service/level/LevelCalculatorImpl` has no guard at all.
  - The progress calculator turns the gap into a percentage.
  - `User.recalculateLevel` is the fixed "one level per 100 points" rule.
- **The four award pipelines.**
  - `PointsAwardingServiceImpl` and `PointsServiceImpl` produce an `AwardResult`.
  - The two `EventManagementServiceImpl` classes produce the LMS response `LmsEventResponsetDto`.
- **The services the pipelines use.**
  - Transactions: insert-if-absent with duplicate detection, and the daily sum.
  - Users: get-or-create, get and update.
  - Course enrolment and course points.
  - Event types: the active lookup, the daily-limit test, and the administrator's create, get, partial update and deactivate.
- **The read-only services.** These are argument validation in front of queries:
  - the group leaderboard;
  - the group and course existence checks;
  - the administrator's user views.

**How the database is modelled.**

- The database is a value, `Store.Tables`: the transaction log, users, event types, courses, groups, enrolments and a key counter.
- The class `Store.Db` holds those tables as fields, and the service methods update them in place.
- Each operation has two parts:
  - a pure effect function `…Effect(tables, …)` that returns the new tables and the result;
  - a method whose postcondition ties the new state and the result to that function.
- The properties are lemmas about the effect functions.

**How Java behaviour is modelled.**

- Exceptions are `Failure` values. A `@Transactional` method that lets an exception escape returns the tables it was called with, because the database rolls back. An exception caught inside the method rolls nothing back.
- Three things outside the program are parameters:
  - the current day (`today`);
  - the outcome the database reports for an insert (`fault`);
  - the courses feature flag (`enabled`).
- Java's truncating integer division is `Common.JavaDiv`. The one place where 32-bit wrap-around changes an answer is written out with `Common.Wrap32`.

## Model

Source paths are relative to the repository root.

| member | source | states |
|---|---|---|
| Common.JavaDiv | src/main/java/ru/misis/gamification/model/entity/User.java:82 | the quotient truncates toward zero, as Java's `/` on int does, including for negative totals |
| Common.Wrap32 | src/main/java/ru/misis/gamification/service/level/LevelCalculatorServiceImpl.java:74-76 | the result is the unique 32-bit value congruent to the argument modulo 2^32 |
| Common.TrimStart | src/main/java/ru/misis/gamification/service/group/GroupServiceImpl.java:20 | the first half of `String.trim()`: the result is a suffix whose first character is above U+0020, and every character dropped is at most U+0020 |
| Common.TrimEnd | src/main/java/ru/misis/gamification/service/group/GroupServiceImpl.java:20 | the second half of `String.trim()`: the result is a prefix whose last character is above U+0020, and every character dropped is at most U+0020 |
| Common.BlankIsTrimEmpty | src/main/java/ru/misis/gamification/service/group/GroupServiceImpl.java:20 | `IsBlank`, the services' blank test, holds for a string exactly when `trim()` leaves it empty, so it is the test "null, or `trim().isEmpty()`" |
| Common.IsBlankExamples | src/main/java/ru/misis/gamification/service/group/GroupServiceImpl.java:20 | null, the empty string and whitespace-only strings are blank for `trim().isEmpty()`; a string with a visible character is not |
| Levels.ParseFormulaIgnoresCase | src/main/java/ru/misis/gamification/service/progress/LevelCalculatorServiceImpl.java:35 | `ParseFormula`, the switch's choice: the formula name is matched after `toUpperCase()`, so its case never matters |
| Levels.ToUpper | src/main/java/ru/misis/gamification/service/progress/LevelCalculatorServiceImpl.java:35 | the upper-cased name has the same length, contains no lower-case ASCII letter, and keeps every character that has no upper-case form in place |
| Levels.ToUpperIdempotent | src/main/java/ru/misis/gamification/service/progress/LevelCalculatorServiceImpl.java:35 | upper-casing an upper-cased name changes nothing |
| Levels.ParseFormulaExamples | src/main/java/ru/misis/gamification/service/progress/LevelCalculatorServiceImpl.java:35-40 | "linear", "Quadratic" and "TRIANGULAR" select their formulas; any other name falls back |
| Levels.CanonicalNames | src/main/java/ru/misis/gamification/service/progress/LevelCalculatorServiceImpl.java:35-40 | each of the three case labels selects its formula, and another upper-case name such as "UNKNOWN" selects the fallback |
| Levels.Isqrt | src/main/java/ru/misis/gamification/service/progress/LevelCalculatorServiceImpl.java:64 | the integer square root: r² ≤ n < (r+1)², the exact value `Math.floor(Math.sqrt(n))` stands for |
| Levels.LinearThresholdClosedForm | src/main/java/ru/misis/gamification/service/progress/LevelCalculatorServiceImpl.java:92-101 | the LINEAR loop's running sum after k levels is k·base + increment·k(k−1)/2 |
| Levels.LinearThresholdMono | src/main/java/ru/misis/gamification/service/progress/LevelCalculatorServiceImpl.java:96-99 | with base > 0 and increment ≥ 0 the loop's sum strictly increases, so the loop ends |
| Levels.ThresholdStrictlyIncreasing | src/main/java/ru/misis/gamification/service/progress/LevelCalculatorServiceImpl.java:62-101 | under every named formula a later level starts at strictly more points |
| Levels.TriangularThresholdMono | src/main/java/ru/misis/gamification/service/progress/LevelCalculatorServiceImpl.java:62-66 | a later level starts at strictly more points under TRIANGULAR |
| Levels.QuadraticThresholdMono | src/main/java/ru/misis/gamification/service/progress/LevelCalculatorServiceImpl.java:77-81 | a later level starts at strictly more points under QUADRATIC |
| Levels.BandIsUnique | src/main/java/ru/misis/gamification/service/progress/LevelCalculatorServiceImpl.java:62-101 | a total lies in the band of at most one level |
| Levels.TriangularLevel | src/main/java/ru/misis/gamification/service/progress/LevelCalculatorServiceImpl.java:62-66 | the level is ≥ 1, and is 1 for a total ≤ 0 |
| Levels.TriangularLevelBounds | src/main/java/ru/misis/gamification/service/progress/LevelCalculatorServiceImpl.java:62-66 | for a total ≥ 0 the level is the L with base·L(L−1)/2 ≤ total < base·L(L+1)/2 |
| Levels.QuadraticLevel | src/main/java/ru/misis/gamification/service/progress/LevelCalculatorServiceImpl.java:77-81 | the level is ≥ 1, and is 1 for a total ≤ 0 |
| Levels.QuadraticLevelBounds | src/main/java/ru/misis/gamification/service/progress/LevelCalculatorServiceImpl.java:77-81 | for a total ≥ 0 the level is the L with base·(L−1)² ≤ total < base·L² |
| Levels.TriangularInBand | src/main/java/ru/misis/gamification/service/progress/LevelCalculatorServiceImpl.java:62-66 | for a total ≥ 0 the TRIANGULAR level lies in its own band |
| Levels.QuadraticInBand | src/main/java/ru/misis/gamification/service/progress/LevelCalculatorServiceImpl.java:77-81 | for a total ≥ 0 the QUADRATIC level lies in its own band |
| Levels.LinearSearch | src/main/java/ru/misis/gamification/service/progress/LevelCalculatorServiceImpl.java:92-101 | the level is the first one whose next threshold exceeds the total; every threshold before it is within the total |
| Levels.LinearLoop | src/main/java/ru/misis/gamification/service/progress/LevelCalculatorServiceImpl.java:94-100 | the while loop ends and returns exactly the level the threshold search defines |
| Levels.LinearInBand | src/main/java/ru/misis/gamification/service/progress/LevelCalculatorServiceImpl.java:92-101 | for a total ≥ 0 the LINEAR level lies in its own band |
| Levels.CalculateLevel | src/main/java/ru/misis/gamification/service/progress/LevelCalculatorServiceImpl.java:34-41 | the dispatch returns `LevelOf`, the level of the total under the configured formula (its band is given by LevelIsBand, its floor of 1 by NamedFormulaLevelAtLeastOne, its fallback by FallbackLevel) |
| Levels.NamedFormulaLevelAtLeastOne | src/main/java/ru/misis/gamification/service/level/LevelCalculatorServiceImpl.java:17-50 | under a named formula every level is ≥ 1, and a total ≤ 0 is level 1 |
| Levels.LevelIsBand | src/main/java/ru/misis/gamification/service/level/LevelCalculatorServiceImpl.java:26-50 | for a total ≥ 0 the computed level is the unique level whose band contains the total |
| Levels.FallbackLevel | src/main/java/ru/misis/gamification/service/progress/LevelCalculatorServiceImpl.java:39 | an unknown formula gives 1 + total/1000 truncated: level 1 for every total between −999 and 999, and 1000-point bands above 0 |
| Levels.TriangularLevelExamples | src/main/java/ru/misis/gamification/service/progress/LevelCalculatorServiceImpl.java:62-66 | with base 1000, totals 2999 and 3000 are levels 2 and 3 |
| Levels.QuadraticLevelExamples | src/main/java/ru/misis/gamification/service/progress/LevelCalculatorServiceImpl.java:77-81 | with base 200, total 1800 is level 4; with base 300, total 2700 is level 4 |
| Levels.LinearLevelExamples | src/main/java/ru/misis/gamification/service/progress/LevelCalculatorServiceImpl.java:92-101 | with base 1000 and increment 200, totals 2200 and 3599 are both level 3 |
| Levels.FallbackLevelExamples | src/main/java/ru/misis/gamification/service/progress/LevelCalculatorServiceImpl.java:39 | an unknown formula puts 9999 points on level 10 and −100 points on level 1 |
| Levels.CalculateLevelUnguarded | src/main/java/ru/misis/gamification/service/level/LevelCalculatorImpl.java:17-47 | the unguarded copy returns `LevelOfUnguarded`, the level its formulas give, including for negative totals |
| Levels.UnguardedAgreesOnNonNegative | src/main/java/ru/misis/gamification/service/level/LevelCalculatorImpl.java:26-47 | for totals ≥ 0 the unguarded copy agrees with the guarded ones |
| Levels.UnguardedLinearNegativeIsZero | src/main/java/ru/misis/gamification/service/level/LevelCalculatorImpl.java:39-47 | for a negative total LINEAR gives level 0 unguarded, against 1 guarded |
| Levels.UnguardedTriangularSmallNegativeIsZero | src/main/java/ru/misis/gamification/service/level/LevelCalculatorImpl.java:26-31 | for totals in [−base/8, 0) TRIANGULAR gives level 0 unguarded, against 1 guarded |
| Levels.TriangularToNext | src/main/java/ru/misis/gamification/service/progress/LevelCalculatorServiceImpl.java:109-113 | the difference of the two triangular thresholds is exactly base·(L+1); both halvings are exact |
| Levels.QuadraticToNext | src/main/java/ru/misis/gamification/service/progress/LevelCalculatorServiceImpl.java:121-125 | the difference of the two squares is exactly base·(2L+1) |
| Levels.LinearToNextInt | src/main/java/ru/misis/gamification/service/level/LevelCalculatorServiceImpl.java:74-76 | the int-typed gap is always a 32-bit value |
| Levels.PointsToNextClosedForms | src/main/java/ru/misis/gamification/service/progress/LevelCalculatorServiceImpl.java:44-50 | `PointsToNextLevel`, the progress copy's gap, is base(L+1), base(2L+1), base + increment·L (`LinearToNext`), or 1000 for an unknown formula |
| Levels.PointsToNextIsWidthOfFollowingBand | src/main/java/ru/misis/gamification/service/progress/LevelCalculatorServiceImpl.java:44-50 | for level L the gap is the width of level L+1's band, from threshold(L+1) to threshold(L+2) |
| Levels.PointsToNextExamples | src/main/java/ru/misis/gamification/service/progress/LevelCalculatorServiceImpl.java:44-50 | the gaps 11000, 1400, 2000 and 1000 for the configurations the calculator's tests use |
| Levels.LinearToNextIntAgreesInRange | src/main/java/ru/misis/gamification/service/level/LevelCalculatorServiceImpl.java:74-76 | while the sum fits in an int, the int-typed LINEAR gap equals the long-typed one |
| Levels.PointsToNextIntAgrees | src/main/java/ru/misis/gamification/service/level/LevelCalculatorServiceImpl.java:52-76 | `PointsToNextLevelInt`, the gap of the two `service/level` copies, equals the progress copy's gap for TRIANGULAR, QUADRATIC and unknown names, and for LINEAR whenever the int sum does not overflow |
| Levels.LinearToNextIntOverflows | src/main/java/ru/misis/gamification/service/level/LevelCalculatorImpl.java:71-73 | with base 500 and increment 200, level 10 737 416 overflows: the int copy reports a negative gap, the long copy 2 147 483 700 |
| Progress.ProgressPercent | src/main/java/ru/misis/gamification/service/progress/calculator/ProgressCalculator.java:42 | the percentage never exceeds 100; it is 100 when the gap is not positive; otherwise it is 100 exactly when the points reach the gap; it is 0 for no points and never negative for non-negative points |
| Progress.Calculate | src/main/java/ru/misis/gamification/service/progress/calculator/ProgressCalculator.java:30-33 | a null user, and only a null user, is refused with IllegalArgumentException |
| Progress.NullCountersDefault | src/main/java/ru/misis/gamification/service/progress/calculator/ProgressCalculator.java:35-39 | a null total and a null level behave exactly as 0 points on level 1 |
| Progress.MetricsProperties | src/main/java/ru/misis/gamification/service/progress/calculator/ProgressCalculator.java:38-47 | the gap is the calculator's gap for the defaulted level; the percentage is capped at 100, reaches 100 exactly when the points cover the gap, and is 0 without points |
| Progress.GapIsPositive | src/main/java/ru/misis/gamification/service/progress/calculator/ProgressCalculator.java:41-42 | with a valid configuration and a level ≥ 0 the gap is positive, so the 100-for-no-gap branch is never taken |
| Users.LevelForPoints | src/main/java/ru/misis/gamification/model/entity/User.java:81-83 | for a total ≥ 0 the level is ≥ 1 and 100·(level−1) ≤ total < 100·level; totals between −99 and 99 are level 1 |
| Users.LevelForPointsMonotone | src/main/java/ru/misis/gamification/model/entity/User.java:81-83 | more points never give a lower level |
| Users.LevelUpOnAward | src/main/java/ru/misis/gamification/model/entity/User.java:81-83 | an award never lowers the level, and raises it exactly when the new total crosses a multiple of 100 |
| Users.User.constructor | src/main/java/ru/misis/gamification/model/entity/User.java:24-28 | the new user holds exactly the given key, LMS id, total and level |
| Users.User.RecalculateLevel | src/main/java/ru/misis/gamification/model/entity/User.java:81-83 | only the level field changes, to the level of the current total |
| Store.AppendFreshKeepsUnique | src/main/java/ru/misis/gamification/service/transaction/TransactionServiceImpl.java:37-45 | appending a transaction whose event id is not yet recorded keeps event ids unique, and records it |
| Store.DailySumNoMatches | src/main/java/ru/misis/gamification/repository/TransactionRepository.java:36-38 | `DailySum`, the query `sumPointsByUserIdAndEventTypeAndDate`: with no matching transaction the sum is 0, the query's COALESCE |
| Store.DailySumAppend | src/main/java/ru/misis/gamification/repository/TransactionRepository.java:36-38 | a new transaction adds its points to the one (user, type, day) sum it matches and to no other |
| Store.DailySumNonNegative | src/main/java/ru/misis/gamification/repository/TransactionRepository.java:36-38 | when points are non-negative, the daily sum is never negative |
| Store.UsersAfterGetOrCreate | src/main/java/ru/misis/gamification/service/user/UserServiceImpl.java:24-39 | the user table after get-or-create holds the id; an existing row is kept; a new row has 0 points, level 1 and a fresh key |
| Store.Db.constructor | src/main/java/ru/misis/gamification/service/transaction/TransactionServiceImpl.java:15-23 | the database holds exactly the given tables |
| Store.Db.Restore | src/main/java/ru/misis/gamification/service/point/PointsServiceImpl.java:25 | a rollback: every table becomes the given snapshot |
| Dtos.AwardFactories | src/main/java/ru/misis/gamification/service/point/result/AwardResult.java:72-118 | for the five factories `AwardSuccess`, `AwardSuccessBasic`, `AwardSuccessWithGap`, `AwardDuplicate` and `AwardRejected`: each gives its own status with the matching fields set. Successes return every argument through the getters. A duplicate carries nothing. A rejection carries exactly its reason. The five- and six-argument variants (src/main/java/ru/misis/gamification/dto/AwardResult.java:20-44, src/main/java/ru/misis/gamification/dto/result/AwardResult.java:79-122) leave the gap and the percentage null |
| Dtos.ResponseFactoriesExactlyOneStatus | src/main/java/ru/misis/gamification/dto/lms/response/LmsEventResponsetDto.java:94-136 | each response factory (`SuccessResponse`, `DuplicateResponse`, `ErrorResponse`) gives a result that passes exactly one of `isSuccess`, `isDuplicate` and `isError`: its own |
| Dtos.ResponseFactoryFields | src/main/java/ru/misis/gamification/dto/lms/response/LmsEventResponsetDto.java:94-124 | the success response carries its six arguments and no message; an error keeps its message and falls back to the default for null |
| Dtos.DuplicateMessageNamesEvent | src/main/java/ru/misis/gamification/dto/lms/response/LmsEventResponsetDto.java:109-116 | the duplicate response repeats the event id and names it in the message right after the fixed prefix |
| TransactionService.IsExistsByEventId | src/main/java/ru/misis/gamification/service/transaction/TransactionServiceImpl.java:26-28 | true exactly when a transaction with that event id is recorded |
| TransactionService.SaveEffect | src/main/java/ru/misis/gamification/service/transaction/TransactionServiceImpl.java:31-53 | The insert succeeds exactly when the event id is new and the database reports no error. A recorded id or an integrity violation is a DuplicateEvent; any other error is rethrown. A success appends the row under the next key. Event ids stay unique |
| TransactionService.EventRecordedAppend | src/main/java/ru/misis/gamification/service/transaction/TransactionServiceImpl.java:43 | after an append an event id is recorded exactly when it was before or is the new row's |
| TransactionService.SaveIfNotExists | src/main/java/ru/misis/gamification/service/transaction/TransactionServiceImpl.java:31-53 | the new tables and the result are those of the insert's effect |
| TransactionService.SaveTwiceIsDuplicate | src/main/java/ru/misis/gamification/service/transaction/TransactionServiceImpl.java:37-40 | after a successful save, saving the same event id again is a duplicate and changes nothing, whatever the database would report |
| TransactionService.SaveAddsToDailySum | src/main/java/ru/misis/gamification/service/transaction/TransactionServiceImpl.java:67-70 | a saved transaction adds its points to exactly its own user's, type's and day's sum |
| UserService.GetOrCreateEffect | src/main/java/ru/misis/gamification/service/user/UserServiceImpl.java:24-39 | an existing user is returned unchanged with nothing written; otherwise a user with 0 points on level 1 is inserted under the next key; only the user table and the counter change |
| UserService.GetOrCreateIdempotent | src/main/java/ru/misis/gamification/service/user/UserServiceImpl.java:24-39 | a second get-or-create returns the same row and changes nothing |
| UserService.CreateIfNotExists | src/main/java/ru/misis/gamification/service/user/UserServiceImpl.java:24-39 | the fresh user object holds the row get-or-create defines, and the tables are the ones it defines |
| UserService.GetOrCreateLocked | src/main/java/ru/misis/gamification/service/user/UserServiceImpl.java:52-65 | the same get-or-create, with the lock left out |
| UserService.Get | src/main/java/ru/misis/gamification/service/user/UserServiceImpl.java:42-48 | the stored row exactly when the user exists, UserNotFound otherwise |
| UserService.UpdateEffect | src/main/java/ru/misis/gamification/service/user/UserServiceImpl.java:68-78 | a user without an internal id is refused with IllegalArgumentException and nothing changes; otherwise exactly that user's row is written |
| UserService.UpdateUnchangedIsNoOp | src/main/java/ru/misis/gamification/service/user/UserServiceImpl.java:68-78 | writing back a stored user's own values leaves the tables as they were |
| UserService.Update | src/main/java/ru/misis/gamification/service/user/UserServiceImpl.java:68-78 | the new tables and the outcome are those of the update's effect for the object's fields |
| UserCourseService.EnrollEffect | src/main/java/ru/misis/gamification/service/course/UserCourseServiceImpl.java:47-75 | A disabled feature or a null course is a no-op. An unknown course is CourseNotFound, and an unknown group in that course is GroupNotFound. An existing enrolment is kept. A new one records the group and 0 course points. Only enrolments change |
| UserCourseService.EnrollIdempotent | src/main/java/ru/misis/gamification/service/course/UserCourseServiceImpl.java:61-63 | enrolling twice is enrolling once |
| UserCourseService.EnrollIfNeeded | src/main/java/ru/misis/gamification/service/course/UserCourseServiceImpl.java:47-75 | the new tables and the outcome are those of the enrolment effect |
| UserCourseService.AddCoursePointsEffect | src/main/java/ru/misis/gamification/service/course/UserCourseServiceImpl.java:78-92 | A disabled feature, a null course or points ≤ 0 is a no-op. A missing enrolment is UserNotEnrolledInCourse. Otherwise exactly that enrolment grows by the points and every other enrolment is unchanged |
| UserCourseService.AddCoursePointsAccumulates | src/main/java/ru/misis/gamification/service/course/UserCourseServiceImpl.java:87-88 | adding a and then b to one course is adding a + b |
| UserCourseService.AddPointsToCourse | src/main/java/ru/misis/gamification/service/course/UserCourseServiceImpl.java:78-92 | the new tables and the outcome are those of the course-points effect |
| EventTypeService.GetActiveByCode | src/main/java/ru/misis/gamification/service/event/EventTypeServiceImpl.java:25-29 | the stored type exactly when it exists and is active; otherwise EventTypeNotFound with the code in the message |
| EventTypeService.ActiveTypeIsWellFormed | src/main/java/ru/misis/gamification/service/event/EventTypeServiceImpl.java:25-29 | in a valid store the type found is active, carries its own code, has at least one point, and has a non-negative limit if any |
| EventTypeService.CanAwardPoints | src/main/java/ru/misis/gamification/service/event/EventTypeServiceImpl.java:33-41 | Fails exactly when the type is not active. Without a maximum it is true. With one, it is true exactly when the day's sum plus the points stays within the maximum |
| EventTypeService.CanAwardIsNotOverLimit | src/main/java/ru/misis/gamification/service/event/EventTypeServiceImpl.java:33-41 | `canAwardPoints` allows exactly the awards that `OverDailyLimit`, the pipelines' inline limit test, does not reject; reaching the maximum exactly is allowed |
| EventTypeAdminService.CreateEffect | src/main/java/ru/misis/gamification/service/event/EventTypeAdminServiceImpl.java:28-33 | a code already present is DuplicateEventType and nothing changes; otherwise the type is stored under its code with a fresh key |
| EventTypeAdminService.Create | src/main/java/ru/misis/gamification/service/event/EventTypeAdminServiceImpl.java:28-33 | the new tables and the result are those of the create effect |
| EventTypeAdminService.CreateTwiceIsDuplicate | src/main/java/ru/misis/gamification/service/event/EventTypeAdminServiceImpl.java:29-31 | after a create, creating a type with the same code is a duplicate and changes nothing |
| EventTypeAdminService.GetById | src/main/java/ru/misis/gamification/service/event/EventTypeAdminServiceImpl.java:37-40 | the stored type with that key exactly when one exists, EventTypeNotFound otherwise |
| EventTypeAdminService.ApplyPatch | src/main/java/ru/misis/gamification/service/event/EventTypeAdminServiceImpl.java:45-61 | each non-null field overwrites the stored one and a null field keeps it; the active flag is always taken from the patch; the code and the key never change; the constraints are kept |
| EventTypeAdminService.ApplyPatchIdempotent | src/main/java/ru/misis/gamification/service/event/EventTypeAdminServiceImpl.java:45-61 | applying a patch twice is applying it once |
| EventTypeAdminService.FullPatchOverwrites | src/main/java/ru/misis/gamification/service/event/EventTypeAdminServiceImpl.java:48-59 | a patch with every field set replaces every updatable field |
| EventTypeAdminService.UpdateEffect | src/main/java/ru/misis/gamification/service/event/EventTypeAdminServiceImpl.java:44-62 | an unknown key is EventTypeNotFound and nothing changes; otherwise the table becomes `PatchById`, where exactly the row with that key is patched, and the store stays valid |
| EventTypeAdminService.Update | src/main/java/ru/misis/gamification/service/event/EventTypeAdminServiceImpl.java:44-62 | the new tables and the result are those of the update effect |
| EventTypeAdminService.DeactivateEffect | src/main/java/ru/misis/gamification/service/event/EventTypeAdminServiceImpl.java:66-71 | an unknown key is EventTypeNotFound and nothing changes; otherwise only the active flag of the row with that key is cleared |
| EventTypeAdminService.DeactivateIsEmptyPatch | src/main/java/ru/misis/gamification/service/event/EventTypeAdminServiceImpl.java:66-71 | deactivating is the partial update with an all-null patch and `active = false` |
| EventTypeAdminService.DeactivateIdempotent | src/main/java/ru/misis/gamification/service/event/EventTypeAdminServiceImpl.java:66-71 | deactivating twice is deactivating once |
| EventTypeAdminService.Deactivate | src/main/java/ru/misis/gamification/service/event/EventTypeAdminServiceImpl.java:66-71 | the new tables and the outcome are those of the deactivate effect |
| PointsAwarding.AwardEffect | src/main/java/ru/misis/gamification/service/point/PointsAwardingServiceImpl.java:57-130 | the store stays valid; an escaping exception leaves every table as it was; every result is well shaped |
| PointsAwarding.AwardPoints | src/main/java/ru/misis/gamification/service/point/PointsAwardingServiceImpl.java:57-130 | the new tables and the result are those of the award effect |
| PointsAwarding.LimitedEffect | src/main/java/ru/misis/gamification/service/point/PointsAwardingServiceImpl.java:78-102 | from the daily-limit check to the insert, the store stays valid and a database error leaves it as the award found it |
| PointsAwarding.CreditEffect | src/main/java/ru/misis/gamification/service/point/PointsAwardingServiceImpl.java:104-129 | from the user update on, the store stays valid, a course failure leaves it as the award found it, and the result is well shaped |
| PointsAwarding.AwardLimited | src/main/java/ru/misis/gamification/service/point/PointsAwardingServiceImpl.java:81-102 | the daily-limit check and the insert do what the limit stage of the effect defines; on a success the loaded `User` object holds the raised total and the formula's level for it, on a rejection it is untouched, and its key and LMS id never change |
| PointsAwarding.AwardCredit | src/main/java/ru/misis/gamification/service/point/PointsAwardingServiceImpl.java:104-129 | the user update and the course points do what the credit stage of the effect defines; the loaded `User` object's total rises by the type's points and its level becomes the formula's level for the new total, with key and LMS id kept |
| PointsAwarding.DuplicateChangesNothing | src/main/java/ru/misis/gamification/service/point/PointsAwardingServiceImpl.java:63-66 | a recorded event id is DUPLICATE and nothing changes |
| PointsAwarding.UnknownTypeRejected | src/main/java/ru/misis/gamification/service/point/PointsAwardingServiceImpl.java:69-75 | a fresh event of an unknown or inactive type is REJECTED with the code in the reason, and no user is created |
| PointsAwarding.OverLimitKeepsCreatedUser | src/main/java/ru/misis/gamification/service/point/PointsAwardingServiceImpl.java:78-90 | over the daily limit the result is REJECTED with the type's name. No transaction and no course points are written, but a user created for the event stays |
| PointsAwarding.RejectedExactly | src/main/java/ru/misis/gamification/service/point/PointsAwardingServiceImpl.java:63-90 | REJECTED exactly when the event is fresh and the type is unknown, inactive or over its daily limit |
| PointsAwarding.LimitedRejectsExactly | src/main/java/ru/misis/gamification/service/point/PointsAwardingServiceImpl.java:80-90 | the limit stage rejects exactly when the day's sum plus the type's points passes the type's maximum |
| PointsAwarding.NoMaximumNeverRejects | src/main/java/ru/misis/gamification/service/point/PointsAwardingServiceImpl.java:86 | a type without a maximum never rejects a fresh event |
| PointsAwarding.SaveFailureRollsBack | src/main/java/ru/misis/gamification/service/point/PointsAwardingServiceImpl.java:102 | a database error on the insert rolls everything back, the created user included; an integrity violation surfaces as DuplicateEvent |
| PointsAwarding.SuccessEffect | src/main/java/ru/misis/gamification/service/point/PointsAwardingServiceImpl.java:92-102 | a success passed every check, and appends exactly one transaction after the existing ones, with the request's ids, the type's points and the "Начисление за " description, reporting those points |
| PointsAwarding.SuccessCreditsUser | src/main/java/ru/misis/gamification/service/point/PointsAwardingServiceImpl.java:104-109 | a success raises the user's total by exactly the type's points, keeps the user's key, and reports the new total |
| PointsAwarding.SuccessLevelsUser | src/main/java/ru/misis/gamification/service/point/PointsAwardingServiceImpl.java:105-111 | after a success the user is on the level the configured formula gives for the new total, and a level-up is reported exactly when that level is above the old one |
| PointsAwarding.SuccessCourseEffect | src/main/java/ru/misis/gamification/service/point/PointsAwardingServiceImpl.java:113-116 | a success leaves the event types alone and changes the course totals exactly when a course is given and the feature is on |
| PointsAwarding.LimitedSucceeds | src/main/java/ru/misis/gamification/service/point/PointsAwardingServiceImpl.java:80-102 | when the limit stage succeeds, the event was fresh, the insert met no error, and the outcome is the credit stage on the tables with the transaction appended under the next key |
| PointsAwarding.CreditSucceeds | src/main/java/ru/misis/gamification/service/point/PointsAwardingServiceImpl.java:104-129 | when the credit stage succeeds, only the user's row changes among users, to the new total and the formula's level; transactions and types stay; the result carries the points, total, level, level-up and key; the course totals change exactly when a course is given and the feature is on |
| PointsAwarding.CreditRaisesTotal | src/main/java/ru/misis/gamification/service/point/PointsAwardingServiceImpl.java:104-109 | a successful credit stage keeps the loaded user's key, raises the total by exactly the type's points and reports the new total |
| PointsAwarding.CreditLevelsUser | src/main/java/ru/misis/gamification/service/point/PointsAwardingServiceImpl.java:105-111 | a successful credit stage puts the user on the formula's level for the new total and reports a level-up exactly when that level is above the loaded one |
| PointsAwarding.AwardSucceeds | src/main/java/ru/misis/gamification/service/point/PointsAwardingServiceImpl.java:57-129 | a successful award found a fresh event, an active type with positive points and no insert error, and its outcome is the credit stage after the user is loaded and the transaction appended |
| PointsAwarding.AwardIsExactlyOnce | src/main/java/ru/misis/gamification/service/point/PointsAwardingServiceImpl.java:63-66 | after a success the same event is a DUPLICATE that changes nothing, on any day and whatever the database reports |
| PointsService.PointsEffect | src/main/java/ru/misis/gamification/service/point/PointsServiceImpl.java:37-94 | the store stays valid; an escaping exception leaves every table as it was; every result is well shaped |
| PointsService.AwardPoints | src/main/java/ru/misis/gamification/service/point/PointsServiceImpl.java:37-94 | the new tables and the result are those of the award effect; the level comes from `recalculateLevel` on the loaded user |
| PointsService.LimitedEffect | src/main/java/ru/misis/gamification/service/point/PointsServiceImpl.java:55-93 | from the daily-limit check on, the store stays valid, a database error leaves it as the award found it, and every result is well shaped |
| PointsService.AwardLimited | src/main/java/ru/misis/gamification/service/point/PointsServiceImpl.java:55-93 | the limit check, the insert and the user update do what the limit stage of the effect defines; the loaded `User` object gains the points and the level total/100 + 1 exactly on a success, and is untouched otherwise |
| PointsService.DuplicateChangesNothing | src/main/java/ru/misis/gamification/service/point/PointsServiceImpl.java:43-45 | a recorded event id is DUPLICATE and nothing changes |
| PointsService.UnknownTypeThrows | src/main/java/ru/misis/gamification/service/point/PointsServiceImpl.java:48-49 | a fresh event of an unknown or inactive type is an EventTypeNotFound exception and nothing changes |
| PointsService.RejectedExactlyOverLimit | src/main/java/ru/misis/gamification/service/point/PointsServiceImpl.java:52-64 | REJECTED exactly when the event is fresh, the type is active and the limit is exceeded; the rejection keeps a created user and writes no transaction |
| PointsService.SaveFailureRollsBack | src/main/java/ru/misis/gamification/service/point/PointsServiceImpl.java:76 | where the insert would succeed, a database error instead rolls everything back and surfaces untranslated |
| PointsService.SuccessEffect | src/main/java/ru/misis/gamification/service/point/PointsServiceImpl.java:66-93 | a success appends exactly one transaction; the total grows by the type's points; the level is total/100 + 1; a level-up is reported exactly when the level rises; no gap is reported |
| EventManagement.Validate | src/main/java/ru/misis/gamification/service/EventManagementServiceImpl.java:49-67 | The request passes exactly when it is non-null and all three ids are non-blank. Otherwise the message is that of the first failing check, in the order null, user id, event id, event type |
| EventManagement.ValidatedHasIdentifiers | src/main/java/ru/misis/gamification/service/EventManagementServiceImpl.java:54-67 | a request that passes validation carries all three ids |
| EventManagement.FirstFailureWins | src/main/java/ru/misis/gamification/service/EventManagementServiceImpl.java:59-61 | a blank user id is reported even when the other ids are blank too |
| EventManagement.LookupAsWritten | src/main/java/ru/misis/gamification/service/EventManagementServiceImpl.java:73-79 | the type is found exactly when it is active; the handler as written catches only `EntityNotFoundException` |
| EventManagement.LookupIntended | src/main/java/ru/misis/gamification/service/EventManagementServiceImpl.java:73-79 | the type is found exactly when it is active, and no exception ever escapes the lookup |
| EventManagement.LookupCatchesWrongException | src/main/java/ru/misis/gamification/service/EventManagementServiceImpl.java:76 | for a missing type the handler as written lets EventTypeNotFound escape, where the intended one answers with the error; for a found type the two agree |
| EventManagement.AwardFound | src/main/java/ru/misis/gamification/service/EventManagementServiceImpl.java:81-134 | from the daily-limit check on, the store stays valid |
| EventManagement.AwardType | src/main/java/ru/misis/gamification/service/EventManagementServiceImpl.java:81-134 | from the daily-limit check on, the new tables and the response are those the award stage defines for the active type |
| EventManagement.RecordAndCredit | src/main/java/ru/misis/gamification/service/EventManagementServiceImpl.java:91-134 | from the insert on, the store stays valid |
| EventManagement.RecordAndCreditUser | src/main/java/ru/misis/gamification/service/EventManagementServiceImpl.java:91-134 | the insert and the user update do what the insert stage defines for the loaded user; the `User` object gains the points and the level total/100 + 1 exactly when the response is a success, and is untouched otherwise |
| EventManagement.RecordAndCreditSucceeds | src/main/java/ru/misis/gamification/service/EventManagementServiceImpl.java:91-134 | a successful insert appends one transaction under the next key, rewrites the user's row with the total raised by the type's points and its level, and answers with those values |
| EventManagement.RecordAndCreditReports | src/main/java/ru/misis/gamification/service/EventManagementServiceImpl.java:91-134 | a successful insert stage appends the transaction with the type's code, points and "Тип события: " description, raises the total by the type's points onto the level of the new total, and reports the ids, points and new total |
| EventManagement.RecordAndCreditRecorded | src/main/java/ru/misis/gamification/service/EventManagementServiceImpl.java:100-106 | inserting an event already recorded is answered as a duplicate and changes nothing |
| EventManagement.ReachesInsert | src/main/java/ru/misis/gamification/service/EventManagementServiceImpl.java:48-98 | a request not answered with an error passed validation and has an active type, and its outcome is the insert stage for the loaded or created user |
| EventManagement.ProcessEffect | src/main/java/ru/misis/gamification/service/EventManagementServiceImpl.java:48-135 | the store stays valid whatever the request |
| EventManagement.ProcessEffectAsWritten | src/main/java/ru/misis/gamification/service/EventManagementServiceImpl.java:48-135 | the store stays valid, and an escaping exception leaves it as it was |
| EventManagement.AsWrittenThrowsForUnknownType | src/main/java/ru/misis/gamification/service/EventManagementServiceImpl.java:74-79 | for a valid request naming a missing type, the code as written throws EventTypeNotFound, while the intended code answers with the "unknown or disabled type" error |
| EventManagement.AsWrittenAgreesOtherwise | src/main/java/ru/misis/gamification/service/EventManagementServiceImpl.java:48-135 | on every other request the code as written and the intended code give the same tables and response |
| EventManagement.Process | src/main/java/ru/misis/gamification/service/EventManagementServiceImpl.java:48-135 | the new tables and the response are those of the intended processing effect |
| EventManagement.InvalidRequestChangesNothing | src/main/java/ru/misis/gamification/service/EventManagementServiceImpl.java:49-67 | a request failing validation is an error response with the first failure's message and nothing changes |
| EventManagement.OverLimitChangesNothing | src/main/java/ru/misis/gamification/service/EventManagementServiceImpl.java:81-86 | a valid request over the daily limit is the limit error with the type's name; no user is created and nothing is saved |
| EventManagement.SaveFailureKeepsCreatedUser | src/main/java/ru/misis/gamification/service/EventManagementServiceImpl.java:88-113 | When the insert fails, the user created for the event stays and no transaction is written. A recorded id or an integrity violation is a duplicate response; any other error is the internal-error response |
| EventManagement.SuccessEffect | src/main/java/ru/misis/gamification/service/EventManagementServiceImpl.java:92-134 | A success appends exactly one transaction with the type's points and the "Тип события: " description. The user's total grows by those points and the level is total/100 + 1. The response reports the ids, the points and the new total |
| EventManagement.RecordedEventIsNotSavedAgain | src/main/java/ru/misis/gamification/service/EventManagementServiceImpl.java:81-113 | an event id already recorded is answered as a duplicate or an error, no transaction is written, and at most the requesting user is created |
| EventManagement.ReprocessingChangesNothing | src/main/java/ru/misis/gamification/service/EventManagementServiceImpl.java:81-113 | after a success, processing the same event again changes no transaction and no user, and is answered as a duplicate or an error |
| PointsEventManagement.Respond | src/main/java/ru/misis/gamification/service/event/EventManagementServiceImpl.java:36-57 | The response is a success, duplicate or error exactly when the award is. A success copies the request's ids, the type's name and the award's points, total, gap, transaction and level-up, and leaves the new level unset. A duplicate names the event. An error carries the rejection reason |
| PointsEventManagement.ProcessEffect | src/main/java/ru/misis/gamification/service/event/EventManagementServiceImpl.java:33-58 | the store stays valid; an escaping exception leaves every table as it was |
| PointsEventManagement.Process | src/main/java/ru/misis/gamification/service/event/EventManagementServiceImpl.java:33-58 | the new tables and the result are those of the processing effect |
| PointsEventManagement.SameStoreAsAward | src/main/java/ru/misis/gamification/service/event/EventManagementServiceImpl.java:34-37 | the store after processing is the store after the award, and processing fails exactly when the award does, with its error: the second type lookup after a success always succeeds |
| PointsEventManagement.SuccessResponds | src/main/java/ru/misis/gamification/service/event/EventManagementServiceImpl.java:36-50 | a success response names the active type, the type's points, the user's new total and the new transaction's key |
| PointsEventManagement.DuplicateResponds | src/main/java/ru/misis/gamification/service/event/EventManagementServiceImpl.java:53-55 | a recorded event id is a duplicate response naming it, and nothing changes |
| PointsEventManagement.OverLimitResponds | src/main/java/ru/misis/gamification/service/event/EventManagementServiceImpl.java:57 | an award over the daily limit is an error response with the rejection reason, and the user created for it stays |
| PointsEventManagement.UnknownTypeEscapes | src/main/java/ru/misis/gamification/service/event/EventManagementServiceImpl.java:34 | an unknown or inactive type is not answered: the award's exception escapes and nothing changes |
| CourseService.ExistsByCourseId | src/main/java/ru/misis/gamification/service/course/CourceServiceImpl.java:19-24 | a null or blank id, and only such an id, is IllegalArgumentException; otherwise true exactly when a course with exactly that id exists |
| CourseService.CourseIdChecks | src/main/java/ru/misis/gamification/service/course/CourceServiceImpl.java:20-23 | null, empty and whitespace-only ids are refused; ids are compared case-sensitively |
| GroupService.ExistsByGroupIdAndCourseId | src/main/java/ru/misis/gamification/service/group/GroupServiceImpl.java:19-28 | The group id is validated first, then the course id, each with its own message. With both present, the result is true exactly when that group exists in that course |
| GroupService.GroupChecks | src/main/java/ru/misis/gamification/service/group/GroupServiceImpl.java:20-27 | with both ids null the group id is reported; a group is found only under its own course |
| Analytics.PageRequestCheck | src/main/java/ru/misis/gamification/service/analytics/AnalyticsServiceImpl.java:66 | a page request is accepted exactly when page ≥ 0 and size ≥ 1, with Spring Data's message for each refusal |
| Analytics.GetGroupLeaderboard | src/main/java/ru/misis/gamification/service/analytics/AnalyticsServiceImpl.java:40-80 | A blank course id is refused first, then a blank group id. Next come an unknown course, then a group not in that course. On success the content and all six metadata fields are copied from the query's page |
| Analytics.FailuresIgnoreTheQuery | src/main/java/ru/misis/gamification/service/analytics/AnalyticsServiceImpl.java:46-69 | every failure happens before the leaderboard query is read: it is the same whatever page the query would return |
| Analytics.DelegatedChecksAgree | src/main/java/ru/misis/gamification/service/analytics/AnalyticsServiceImpl.java:56-64 | once the leaderboard's own checks pass, the course and group services cannot fail and answer plain existence |
| UserAdminService.FindByUserId | src/main/java/ru/misis/gamification/service/user/UserAdminServiceImpl.java:31-41 | a blank id is IllegalArgumentException without a lookup; a missing user is UserNotFound; otherwise the view (`ToDto`) holding exactly that user's key, LMS id, total and level |
| UserAdminService.Views | src/main/java/ru/misis/gamification/service/user/UserAdminServiceImpl.java:49-50 | one view per user, in order |
| UserAdminService.FindAll | src/main/java/ru/misis/gamification/service/user/UserAdminServiceImpl.java:45-51 | the page keeps its count and every metadata field; entry i is the view of user i |
| UserAdminService.FindAllAgreesWithFindByUserId | src/main/java/ru/misis/gamification/service/user/UserAdminServiceImpl.java:36-50 | an entry of a page read from the store is exactly what `findByUserId` answers for that user |

## Left out

- Floating point.
  - The TRIANGULAR and QUADRATIC levels are the exact integer solutions of the inequalities that the `Math.sqrt` formulas approximate. They agree with the double computation whenever that computation rounds correctly.
  - The progress percentage is an exact `real`.
- Progress.ProgressPercent: only the cap at 100, the value 100 and the value 0 are stated, not the double value of the division.
- Integer overflow.
  - Totals and sums are unbounded. The one overflow modelled is the int-typed LINEAR gap (`Levels.LinearToNextInt`).
  - Levels.LinearLoop: the loop's running sum is unbounded, so a total near 2^31, where the Java `sum` would wrap, is not modelled.
- Levels.ParseFormula: `toUpperCase()` is modelled for the characters whose upper case is an ASCII letter. Locale-specific mappings, such as the Turkish dotted i, are left out.
- Levels.ValidConfig: a positive base and a non-negative increment are assumed of the configuration, and every Levels member, the progress calculator and PointsAwarding.AwardEffect require it. The source checks neither. With base ≤ 0 the guarded TRIANGULAR and QUADRATIC levels come out as 1 through double arithmetic (an infinite or NaN root), LINEAR still ends when the increment is positive, and the increment is not read by TRIANGULAR or QUADRATIC at all. Those configurations are not modelled.
- The clock. `LocalDate.now()` is the `today` parameter. The `processedAt`, `createdAt` and `updatedAt` timestamps are not modelled.
- Locking and concurrency.
  - `findByUserIdWithLock` and `findByUserIdForUpdate` are plain reads.
  - Two concurrent awards of one event are not modelled. The unique event-id column appears only as the `fault` outcome of an insert.
- Rollback details. A rollback is modelled as restoring every table. Spring marks a transaction rollback-only when an exception leaves any `@Transactional` proxy, a repository or another service, even if the caller catches it. That rule is not modelled, and a caught exception rolls nothing back here. So the model answers normally where Spring would raise `UnexpectedRollbackException` at commit:
  - PointsAwarding.UnknownTypeRejected and PointsAwarding.RejectedExactly: the `EventTypeNotFoundException` caught at `PointsAwardingServiceImpl.java:70-75` comes from the `@Transactional(readOnly = true)` `getActiveByCode`, so the REJECTED answer for an unknown type would fail at commit.
  - EventManagement.LookupIntended and EventManagement.ProcessEffect: the corrected lookup catches the same exception inside the `@Transactional` `process`, with the same consequence.
  - EventManagement.SaveFailureKeepsCreatedUser: the insert's exception is caught after leaving the repository proxy, so the created user would be rolled back at commit rather than kept.
- The database queries run inside the database.
  - The leaderboard query is a parameter of `Analytics.GetGroupLeaderboard`.
  - `getTransactionsByUserId` (`TransactionServiceImpl.java:56-64`) is not modelled. It is a sorted, paged repository query.
  - `UserServiceImpl.findAll` and `EventTypeAdminServiceImpl.findAll` are not modelled. They hand back a repository page, which `UserAdminService.FindAll` takes as its argument.
- Mappers, logging, and HTTP controllers.
  - UserAdminService.UserAdminDto: the generated mapper's further fields (gap, timestamps) are not modelled.
- PointsAwarding.AwardEffect: `userService.createIfNotExists(userId, courseId, groupId)` has no implementation in the service. It is modelled as the one-argument get-or-create, with no enrolment. So with courses enabled, an award that names a course for a user not yet enrolled in it fails with UserNotEnrolledInCourse and is rolled back.
- The transaction entity `model/admin/Transaction.java` declares no event-type field, while every pipeline sets `eventTypeCode` and the daily sum filters on it. The model keeps the field.
- JPA merges a saved user by primary key. The model writes the row under the LMS user id, which is unique.
- Micrometer's `StringUtils.isBlank` is not part of this model. It is taken to be the same test as `trim().isEmpty()`.
- Progress percent in `PointsAwardingServiceImpl` is the constant 0.0, and its gap the constant 0, as the source passes them. These are not the progress calculator's values.

## Findings

| source | as written | input that shows it | evidently intended | confidence | as-written member | corrected member |
|---|---|---|---|---|---|---|
| src/main/java/ru/misis/gamification/service/level/LevelCalculatorImpl.java:26-47 | `calculateLevel` has no guard for totals ≤ 0. LINEAR's loop never runs for a negative total and returns 0. TRIANGULAR returns 0 for totals in [−base/8, 0) | formula LINEAR, base 500, increment 200, total −1: level 0 | every total has a level ≥ 1 under the three named formulas, as the two guarded copies compute | medium; not executed | Levels.UnguardedLinearNegativeIsZero | Levels.NamedFormulaLevelAtLeastOne |
| src/main/java/ru/misis/gamification/service/EventManagementServiceImpl.java:74-79 | The handler catches `jakarta.persistence.EntityNotFoundException`. `getActiveByCode` (src/main/java/ru/misis/gamification/service/event/EventTypeServiceImpl.java:25-29) throws `EventTypeNotFoundException`, a plain `RuntimeException`. So a missing type escapes `process` as an exception | a request with user "u", event "e1" and type "nope", where no active type "nope" exists: `process` throws instead of answering | answer with the error "Неизвестный или отключённый тип события: nope", as src/test/java/ru/misis/gamification/service/EventManagementServiceTest.java:183-200 expects | high; not executed | EventManagement.AsWrittenThrowsForUnknownType | EventManagement.LookupIntended |
