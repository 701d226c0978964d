/** The user entity of `model/entity/User`, whose `recalculateLevel` updates the
    level field in place from the total. */
module Users {
  import opened Common

  /** level = totalPoints / 100 + 1 with Java's truncating division. */
  function LevelForPoints(totalPoints: int): (level: int)
    ensures totalPoints >= 0 ==> level >= 1
    ensures totalPoints >= 0 ==> 100 * (level - 1) <= totalPoints < 100 * level
    ensures -100 < totalPoints < 100 ==> level == 1
  {
    JavaDiv(totalPoints, 100) + 1
  }

  /** More points never mean a lower level. */
  lemma LevelForPointsMonotone(a: int, b: int)
    requires a <= b
    ensures LevelForPoints(a) <= LevelForPoints(b)
  {
  }

  /** Adding points to a user on the level of their total never lowers it, and
      raises it exactly when the new total crosses a multiple of 100. */
  lemma LevelUpOnAward(total: int, points: int)
    requires total >= 0 && points >= 1
    ensures LevelForPoints(total + points) >= LevelForPoints(total)
    ensures LevelForPoints(total + points) > LevelForPoints(total)
        <==> (total + points) / 100 > total / 100
  {
    LevelForPointsMonotone(total, total + points);
  }

  class User {
    /** The generated primary key; null until the row is saved. */
    var uuid: Option<nat>
    var userId: string
    var totalPoints: int
    var level: int

    constructor (uuid: Option<nat>, userId: string, totalPoints: int, level: int)
      ensures this.uuid == uuid && this.userId == userId
      ensures this.totalPoints == totalPoints && this.level == level
    {
      this.uuid := uuid;
      this.userId := userId;
      this.totalPoints := totalPoints;
      this.level := level;
    }

    /** `recalculateLevel`: only the level changes, to the level of the current
        total; running it again changes nothing more. */
    method RecalculateLevel()
      modifies this`level
      ensures level == LevelForPoints(totalPoints)
      ensures uuid == old(uuid) && userId == old(userId) && totalPoints == old(totalPoints)
    {
      level := JavaDiv(totalPoints, 100) + 1;
    }
  }
}
