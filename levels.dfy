/** The level table of GameView and the skill unlock schedule derived from it. */
module Levels {

  datatype LevelConfig = LevelConfig(
    name: string,
    killTarget: int,
    maxEnemies: int,
    enemySpeedMultiplier: real,
    playerSpeedMultiplier: real,
    dropBonus: real,
    explosionChance: real,
    maxHealthEnemy: int)

  const Table: seq<LevelConfig> := [
    LevelConfig("Level 1", 2, 4, 1.0, 1.0, 1.0, 1.0, 10),
    LevelConfig("Level 2", 3, 5, 1.1, 1.3, 1.1, 0.2, 12),
    LevelConfig("Level 3", 5, 7, 1.2, 1.5, 1.2, 0.3, 15)
  ]

  /** The number of live enemies the game keeps on the field as a floor. */
  const MinEnemiesAtStart: int := 3

  predicate ValidLevel(i: int) { 0 <= i < |Table| }

  /** The configuration of level `i`; every level asks for at least one kill, gives
      enemies positive health and has room for the minimum enemy count. */
  function Level(i: int): (c: LevelConfig)
    requires ValidLevel(i)
    ensures c.killTarget > 0 && c.maxHealthEnemy > 0
    ensures MinEnemiesAtStart <= c.maxEnemies
    ensures c.enemySpeedMultiplier >= 1.0 && c.playerSpeedMultiplier >= 1.0 && c.dropBonus >= 1.0
    ensures 0.0 <= c.explosionChance <= 1.0
  {
    Table[i]
  }

  /** Later levels never lower the enemy cap, the kill target or the enemies' health. */
  lemma LevelsGetHarder(i: int, j: int)
    requires ValidLevel(i) && ValidLevel(j) && i <= j
    ensures Level(i).maxEnemies <= Level(j).maxEnemies
    ensures Level(i).killTarget <= Level(j).killTarget
    ensures Level(i).maxHealthEnemy <= Level(j).maxHealthEnemy
    ensures Level(i).enemySpeedMultiplier <= Level(j).enemySpeedMultiplier
  {
  }

  datatype Skill = ArcherSkill | WarriorSkill | LancerSkill | GuardSkill

  /** The 1-based level at which each skill becomes available. */
  function UnlockLevel(s: Skill): int
  {
    match s
    case ArcherSkill => 2
    case WarriorSkill => 1
    case LancerSkill => 3
    case GuardSkill => 3
  }

  /** A skill is usable once the 1-based level number reaches its unlock level. */
  predicate IsUnlocked(levelIndex: int, s: Skill)
  {
    levelIndex + 1 >= UnlockLevel(s)
  }

  /** What GameView publishes to its unlock listener. */
  datatype UnlockState = UnlockState(
    archerUnlocked: bool,
    warriorUnlocked: bool,
    lancerUnlocked: bool,
    guardUnlocked: bool)

  /** The unlock state on the 0-based level `levelIndex`: the warrior strike from the
      first level, the bow from the second, lancer and guard from the third. */
  function UnlockStateAt(levelIndex: int): (u: UnlockState)
    ensures u.warriorUnlocked <==> levelIndex >= 0
    ensures u.archerUnlocked <==> levelIndex >= 1
    ensures u.lancerUnlocked <==> levelIndex >= 2
    ensures u.guardUnlocked <==> levelIndex >= 2
  {
    UnlockState(IsUnlocked(levelIndex, ArcherSkill), IsUnlocked(levelIndex, WarriorSkill),
                IsUnlocked(levelIndex, LancerSkill), IsUnlocked(levelIndex, GuardSkill))
  }

  /** Once unlocked, a skill stays unlocked on every later level. */
  lemma UnlocksAreMonotone(i: int, j: int, s: Skill)
    requires i <= j && IsUnlocked(i, s)
    ensures IsUnlocked(j, s)
  {
  }

  /** The schedule level by level: the warrior strike from the start, the bow from
      level 2, lancer and guard on level 3. */
  lemma UnlockSchedule()
    ensures UnlockStateAt(0) == UnlockState(false, true, false, false)
    ensures UnlockStateAt(1) == UnlockState(true, true, false, false)
    ensures UnlockStateAt(2) == UnlockState(true, true, true, true)
  {
  }
}
