/** `ProgressCalculator.calculate`: the points a user needs for the next level,
    and the user's whole total as a percentage of that gap, capped at 100.

    The percentage is a Java double; here it is an exact `real`, so only its
    order relations (the clamp at 100, 0 for no points) are claimed. */
module Progress {
  import opened Common
  import opened Levels

  /** The user entity as the calculator reads it: both counters are nullable. */
  datatype ProgressUser = ProgressUser(userId: string, totalPoints: Option<int>, level: Option<int>)

  datatype ProgressMetrics = ProgressMetrics(pointsToNextLevel: int, progressPercent: real)

  const NullUserMessage: string := "Пользователь не может быть null"

  function Min(a: real, b: real): real
  {
    if a <= b then a else b
  }

  /** points / toNext · 100, capped at 100; 100 when there is no positive gap. */
  function ProgressPercent(points: int, toNext: int): (p: real)
    ensures p <= 100.0
    ensures toNext <= 0 ==> p == 100.0
    ensures toNext > 0 ==> (p == 100.0 <==> points >= toNext)
    ensures toNext > 0 && points == 0 ==> p == 0.0
    ensures toNext > 0 && points >= 0 ==> p >= 0.0
  {
    if toNext > 0 then
      var q := points as real / toNext as real;
      assert q * toNext as real == points as real;
      Min(q * 100.0, 100.0)
    else 100.0
  }

  /** `calculate`: a null user is refused; a null total counts as 0 and a null
      level as 1; the gap is the level calculator's `pointsToNextLevel`. */
  function Calculate(cfg: LevelConfig, user: Option<ProgressUser>): (r: Result<ProgressMetrics>)
    ensures user.None? <==> r.Failure?
    ensures r.Failure? ==> r.error == IllegalArgument(NullUserMessage)
  {
    match user
    case None => Failure(IllegalArgument(NullUserMessage))
    case Some(u) =>
      var points := if u.totalPoints.Some? then u.totalPoints.value else 0;
      var level := if u.level.Some? then u.level.value else 1;
      var toNext := PointsToNextLevel(cfg, level);
      Success(ProgressMetrics(toNext, ProgressPercent(points, toNext)))
  }

  /** Null counters behave exactly like a total of 0 on level 1. */
  lemma NullCountersDefault(cfg: LevelConfig, userId: string)
    ensures Calculate(cfg, Some(ProgressUser(userId, None, None)))
         == Calculate(cfg, Some(ProgressUser(userId, Some(0), Some(1))))
    ensures Calculate(cfg, Some(ProgressUser(userId, None, None)))
         == Success(ProgressMetrics(PointsToNextLevel(cfg, 1), if PointsToNextLevel(cfg, 1) > 0 then 0.0 else 100.0))
  {
  }

  /** What the metrics promise: the gap comes from the calculator for the
      user's (defaulted) level, the percentage never exceeds 100, is 100 exactly
      when the user has at least the gap's worth of points or the gap is not
      positive, and is 0 for a user without points. */
  lemma MetricsProperties(cfg: LevelConfig, u: ProgressUser)
    ensures var r := Calculate(cfg, Some(u));
      var points := if u.totalPoints.Some? then u.totalPoints.value else 0;
      var level := if u.level.Some? then u.level.value else 1;
      && r.Success?
      && r.value.pointsToNextLevel == PointsToNextLevel(cfg, level)
      && r.value.progressPercent <= 100.0
      && (r.value.progressPercent == 100.0 <==> (r.value.pointsToNextLevel <= 0 || points >= r.value.pointsToNextLevel))
      && (points == 0 && r.value.pointsToNextLevel > 0 ==> r.value.progressPercent == 0.0)
  {
  }

  /** With a valid configuration and a level >= 0 the gap is positive, so the
      percentage is 100 only once the points reach the gap. */
  lemma GapIsPositive(cfg: LevelConfig, level: int)
    requires ValidConfig(cfg) && level >= 0
    ensures PointsToNextLevel(cfg, level) > 0
  {
    PointsToNextClosedForms(cfg, level);
    var b, inc := cfg.base, cfg.increment;
    MulLeftMono(b, 1, level + 1);
    MulLeftMono(b, 1, 2 * level + 1);
    MulLeftMono(inc, 0, level);
  }
}
