/** GameView's gameplay state as one value, and what each update of `onDraw`, each
    input and each lifecycle call does to it. The class World implements these
    step by step on its fields. */
module GameSpec {
  import opened Num
  import opened Seqs
  import opened Geometry
  import opened Levels
  import opened EnemyModel
  import opened GameTypes
  import opened PlayerSpec
  import opened EnemySpec
  import opened CombatSpec

  /** A snapshot of GameView's gameplay fields, with each enemy as a view. */
  datatype GameState = GameState(
    player: Player,
    level: int,
    killsThisLevel: int,
    enemiesKilled: int,
    isGameOver: bool,
    isGameWon: bool,
    isInLevelTransition: bool,
    gameStartTime: int,
    enemies: seq<EnemyView>,
    arrows: seq<Arrow>,
    explosions: seq<Explosion>,
    mushrooms: seq<MapItem>,
    meats: seq<MapItem>)
  {
    function Loot(): Loot { GameTypes.Loot(mushrooms, meats, explosions) }
  }

  /** The invariant of a running game: a valid level, a sound player, sound enemies
      no more than the level allows, kill counters that agree, sound explosions and
      only items still lying on the field. */
  predicate StateOk(s: GameState, a: Arena)
  {
    a.Valid() && ValidLevel(s.level) && PlayerOk(s.player, a)
    && (forall k :: 0 <= k < |s.enemies| ==> ViewValid(s.enemies[k]))
    && |s.enemies| <= Level(s.level).maxEnemies
    && 0 <= s.killsThisLevel <= s.enemiesKilled
    && LootOk(s.Loot())
  }

  /** The random draws one frame makes, one stream per update that draws. */
  datatype FrameRolls = FrameRolls(
    meleeDrops: nat -> DropRoll,
    meleeSpawns: nat -> SpawnRoll,
    enemySpawns: nat -> SpawnRoll,
    arrowDrops: nat -> DropRoll)

  // ---------------------------------------------------------------------------
  // The updates of one frame

  /** `updateCharacterState`. */
  function CharacterUpdate(s: GameState, a: Arena): (r: GameState)
    requires a.Valid() && ValidLevel(s.level)
    ensures r.level == s.level
  {
    s.(player := MoveStep(s.player, a, s.level))
  }

  /** `applyMeleeDamage`. */
  function MeleeUpdate(s: GameState, a: Arena, now: int, drops: nat -> DropRoll, spawns: nat -> SpawnRoll): (r: GameState)
    requires a.Valid() && ValidLevel(s.level)
    ensures r.level == s.level
  {
    var m := MeleeSpec(s.enemies, s.player, a, s.level, now, s.Loot(), drops, spawns);
    s.(enemies := m.enemies, mushrooms := m.loot.mushrooms, meats := m.loot.meats,
       explosions := m.loot.explosions, enemiesKilled := s.enemiesKilled + m.killed,
       killsThisLevel := s.killsThisLevel + m.killed)
  }

  /** `updateAnimationFrame`: the animation step, then the arrow it fires or the
      melee strike it makes; it also hands back the attack end it posts. */
  function AnimationUpdate(s: GameState, a: Arena, now: int, drops: nat -> DropRoll, spawns: nat -> SpawnRoll): (r: (GameState, Posted))
    requires a.Valid() && ValidLevel(s.level)
    ensures r.0.level == s.level
  {
    var o := AnimateStep(s.player, now);
    var s1 := s.(player := o.player);
    var s2 := if o.fireArrow then s1.(arrows := s1.arrows + [LaunchArrow(s1.player, a)]) else s1;
    (if o.strike then MeleeUpdate(s2, a, now, drops, spawns) else s2, o.posted)
  }

  /** `updateEnemies`. */
  function EnemiesUpdate(s: GameState, a: Arena, now: int, spawns: nat -> SpawnRoll): (r: GameState)
    requires a.Valid() && ValidLevel(s.level)
    ensures r.level == s.level
  {
    var u := UpdateEnemiesSpec(s.enemies, s.player, a, s.level, now, spawns);
    s.(enemies := u.0, player := u.1)
  }

  /** `updateArrows`: drops draw rolls from 0 onwards. */
  function ArrowsUpdate(s: GameState, a: Arena, now: int, drops: nat -> DropRoll): (r: GameState)
    requires ValidLevel(s.level)
    ensures r.level == s.level
  {
    var v := Volleys(Volley(s.enemies, [], s.Loot(), 0, 0), s.arrows, a, s.level, now, drops);
    s.(enemies := v.enemies, arrows := v.arrows, mushrooms := v.loot.mushrooms, meats := v.loot.meats,
       explosions := v.loot.explosions, enemiesKilled := s.enemiesKilled + v.kills,
       killsThisLevel := s.killsThisLevel + v.kills)
  }

  /** `updateItems`: the mushrooms the player touches heal, the meat touched gives
      the shield, and the used items are removed. */
  function ItemsUpdate(s: GameState, a: Arena): (r: GameState)
    ensures r.level == s.level
  {
    var box := PlayerBox(s.player, a);
    var m := EatMushrooms(s.mushrooms, s.player.health, box);
    var n := EatMeats(s.meats, s.player.hasShield, box);
    s.(mushrooms := Filter(m.0, IsLying), meats := Filter(n.0, IsLying),
       player := s.player.(health := m.1, hasShield := n.1))
  }

  /** `updateExplosions`. */
  function ExplosionsUpdate(s: GameState, a: Arena, now: int): (r: GameState)
    ensures r.level == s.level
  {
    var e := StepExplosions(s.explosions, s.player, a, now);
    s.(explosions := e.0, player := e.1)
  }

  /** `drawCharacter`, as far as it changes the game: a still character's frame
      index goes back to 0. */
  function DrawUpdate(s: GameState): (r: GameState)
    ensures r.level == s.level
  {
    s.(player := DrawStep(s.player))
  }

  /** The screen `onDraw` leads to: play on, the game-over screen, the victory screen
      with what it is told, or nothing more. */
  datatype Screen = Playing | GameOverScreen | VictoryScreen(gameTime: int, enemiesKilled: int, levelsCleared: int) | Halted

  datatype FrameOutcome = FrameOutcome(state: GameState, screen: Screen, posted: Posted)

  /** `onDraw` without the drawing: a player out of health ends the game; reaching
      the kill target raises the level overlay; a won game shows the victory screen;
      an ended game does nothing further; otherwise, unless the overlay is up, the
      character, its animation, the enemies, the arrows and the items are updated,
      and the explosions are updated and the character drawn in every case. */
  function FrameSpec(s: GameState, a: Arena, now: int, rolls: FrameRolls): (r: FrameOutcome)
    requires a.Valid() && ValidLevel(s.level)
  {
    if s.player.health <= 0.0 && !s.isGameOver then FrameOutcome(s.(isGameOver := true), GameOverScreen, NothingPosted)
    else
      var s1 := if !s.isGameOver && !s.isGameWon && s.killsThisLevel >= Level(s.level).killTarget && !s.isInLevelTransition
                then s.(isInLevelTransition := true) else s;
      if s1.isGameWon && !s1.isGameOver then
        var cleared := s1.level + (if s1.killsThisLevel >= Level(s1.level).killTarget then 1 else 0);
        FrameOutcome(s1, VictoryScreen(now - s1.gameStartTime, s1.enemiesKilled, cleared), NothingPosted)
      else if s1.isGameOver || s1.isGameWon then FrameOutcome(s1, Halted, NothingPosted)
      else if s1.isInLevelTransition then FrameOutcome(DrawUpdate(ExplosionsUpdate(s1, a, now)), Playing, NothingPosted)
      else
        var s2 := CharacterUpdate(s1, a);
        var s3 := AnimationUpdate(s2, a, now, rolls.meleeDrops, rolls.meleeSpawns);
        var s4 := EnemiesUpdate(s3.0, a, now, rolls.enemySpawns);
        var s5 := ArrowsUpdate(s4, a, now, rolls.arrowDrops);
        FrameOutcome(DrawUpdate(ExplosionsUpdate(ItemsUpdate(s5, a), a, now)), Playing, s3.1)
  }

  // ---------------------------------------------------------------------------
  // Each update keeps the invariant

  lemma CharacterKeepsOk(s: GameState, a: Arena)
    requires StateOk(s, a)
    ensures StateOk(CharacterUpdate(s, a), a)
  {
  }

  /** A swing keeps the game sound and counts each of its kills on both counters. */
  lemma MeleeKeepsOk(s: GameState, a: Arena, now: int, drops: nat -> DropRoll, spawns: nat -> SpawnRoll)
    requires StateOk(s, a)
    ensures var r := MeleeUpdate(s, a, now, drops, spawns);
      StateOk(r, a) && r.enemiesKilled - s.enemiesKilled == r.killsThisLevel - s.killsThisLevel
      && r.player == s.player && r.arrows == s.arrows
  {
    MeleeKeepsEnemiesSound(s.enemies, s.player, a, s.level, now, s.Loot(), drops, spawns);
    MeleeKeepsLootOk(s.enemies, s.player, a, s.level, now, s.Loot(), drops, spawns);
  }

  /** The animation step, and the arrow it may fire, keep the game sound. */
  lemma AnimateFireKeepsOk(s: GameState, a: Arena, now: int)
    requires StateOk(s, a)
    ensures var s1 := s.(player := AnimateStep(s.player, now).player);
      StateOk(s1, a) && StateOk(s1.(arrows := s1.arrows + [LaunchArrow(s1.player, a)]), a)
  {
    AnimateStepKeepsPlayerOk(s.player, a, now);
  }

  lemma AnimationKeepsOk(s: GameState, a: Arena, now: int, drops: nat -> DropRoll, spawns: nat -> SpawnRoll)
    requires StateOk(s, a)
    ensures StateOk(AnimationUpdate(s, a, now, drops, spawns).0, a)
  {
    var o := AnimateStep(s.player, now);
    AnimateFireKeepsOk(s, a, now);
    var s1 := s.(player := o.player);
    var s2 := if o.fireArrow then s1.(arrows := s1.arrows + [LaunchArrow(s1.player, a)]) else s1;
    if o.strike {
      MeleeKeepsOk(s2, a, now, drops, spawns);
    }
  }

  /** After `updateEnemies` the game is sound and the field is full: exactly the
      level's maximum of enemies, all of them alive. */
  lemma EnemiesKeepOk(s: GameState, a: Arena, now: int, spawns: nat -> SpawnRoll)
    requires StateOk(s, a)
    ensures var r := EnemiesUpdate(s, a, now, spawns);
      StateOk(r, a) && |r.enemies| == Level(s.level).maxEnemies
      && (forall k :: 0 <= k < |r.enemies| ==> IsAlive(r.enemies[k]))
  {
    UpdateEnemiesPopulation(s.enemies, s.player, a, s.level, now, spawns);
  }

  /** `updateArrows` keeps the game sound, and every enemy it kills is counted once
      on each counter. */
  lemma ArrowsKeepOk(s: GameState, a: Arena, now: int, drops: nat -> DropRoll)
    requires StateOk(s, a)
    ensures var r := ArrowsUpdate(s, a, now, drops);
      StateOk(r, a) && |r.arrows| <= |s.arrows|
      && Count(r.enemies, IsAlive) + r.enemiesKilled == Count(s.enemies, IsAlive) + s.enemiesKilled
      && r.killsThisLevel - s.killsThisLevel == r.enemiesKilled - s.enemiesKilled
  {
    var v0 := Volley(s.enemies, [], s.Loot(), 0, 0);
    VolleysSound(v0, s.arrows, a, s.level, now, drops);
    VolleysAccount(v0, s.arrows, a, s.level, now, drops);
  }

  /** `updateItems` heals the player two per mushroom touched, up to the maximum,
      and leaves them with a shield exactly if they had one or touched meat. */
  lemma ItemsEffect(s: GameState, a: Arena)
    requires s.player.health <= PlayerMaxHealth
    ensures var r := ItemsUpdate(s, a);
      var box := PlayerBox(s.player, a);
      r.player.health == Min(s.player.health + MushroomHealAmount * PickedCount(s.mushrooms, box) as real, PlayerMaxHealth)
      && r.player.hasShield == (s.player.hasShield || PickedCount(s.meats, box) > 0)
      && r.player == s.player.(health := r.player.health, hasShield := r.player.hasShield)
  {
    var box := PlayerBox(s.player, a);
    MushroomHealing(s.mushrooms, s.player.health, box);
    MeatShields(s.meats, s.player.hasShield, box);
  }

  /** `updateItems` keeps the game sound. */
  lemma ItemsKeepOk(s: GameState, a: Arena)
    requires StateOk(s, a)
    ensures StateOk(ItemsUpdate(s, a), a)
  {
    ItemsEffect(s, a);
    var r := ItemsUpdate(s, a);
    var box := PlayerBox(s.player, a);
    var h := s.player.health + MushroomHealAmount * PickedCount(s.mushrooms, box) as real;
    assert 0.0 <= h;
    assert PlayerOk(r.player, a);
    assert LootOk(r.Loot());
  }

  /** `updateExplosions` keeps the game sound and removes exactly the finished
      explosions. */
  lemma ExplosionsKeepOk(s: GameState, a: Arena, now: int)
    requires StateOk(s, a)
    ensures var r := ExplosionsUpdate(s, a, now);
      StateOk(r, a) && |r.explosions| == Count(s.explosions, Burning)
  {
    StepExplosionsKeep(s.explosions, s.player, a, now);
  }

  /** Drawing the character keeps the game sound. */
  lemma DrawKeepsOk(s: GameState, a: Arena)
    requires StateOk(s, a)
    ensures StateOk(DrawUpdate(s), a)
  {
    DrawStepKeepsPlayerOk(s.player, a);
  }

  /** Every frame keeps the game sound. */
  lemma FrameKeepsOk(s: GameState, a: Arena, now: int, rolls: FrameRolls)
    requires StateOk(s, a)
    ensures StateOk(FrameSpec(s, a, now, rolls).state, a)
  {
    if !(s.player.health <= 0.0 && !s.isGameOver) {
      var s1 := if !s.isGameOver && !s.isGameWon && s.killsThisLevel >= Level(s.level).killTarget && !s.isInLevelTransition
                then s.(isInLevelTransition := true) else s;
      assert StateOk(s1, a);
      if !(s1.isGameWon || s1.isGameOver) {
        if s1.isInLevelTransition {
          ExplosionsKeepOk(s1, a, now);
          DrawKeepsOk(ExplosionsUpdate(s1, a, now), a);
        } else {
          var s2 := CharacterUpdate(s1, a);
          CharacterKeepsOk(s1, a);
          var s3 := AnimationUpdate(s2, a, now, rolls.meleeDrops, rolls.meleeSpawns);
          AnimationKeepsOk(s2, a, now, rolls.meleeDrops, rolls.meleeSpawns);
          var s4 := EnemiesUpdate(s3.0, a, now, rolls.enemySpawns);
          EnemiesKeepOk(s3.0, a, now, rolls.enemySpawns);
          var s5 := ArrowsUpdate(s4, a, now, rolls.arrowDrops);
          ArrowsKeepOk(s4, a, now, rolls.arrowDrops);
          ItemsKeepOk(s5, a);
          ExplosionsKeepOk(ItemsUpdate(s5, a), a, now);
          DrawKeepsOk(ExplosionsUpdate(ItemsUpdate(s5, a), a, now), a);
        }
      }
    }
  }

  // ---------------------------------------------------------------------------
  // The frame's control flow

  /** A player out of health ends the game at the next frame, and an ended game stays
      as it is, frame after frame. */
  lemma GameOverIsFinal(s: GameState, a: Arena, now: int, rolls: FrameRolls)
    requires a.Valid() && ValidLevel(s.level)
    ensures s.player.health <= 0.0 && !s.isGameOver ==>
      FrameSpec(s, a, now, rolls) == FrameOutcome(s.(isGameOver := true), GameOverScreen, NothingPosted)
    ensures s.isGameOver ==> FrameSpec(s, a, now, rolls) == FrameOutcome(s, Halted, NothingPosted)
  {
  }

  /** A won game shows the victory screen with the time played, the kills and the
      levels cleared, and changes nothing. */
  lemma VictoryReport(s: GameState, a: Arena, now: int, rolls: FrameRolls)
    requires a.Valid() && ValidLevel(s.level)
    requires s.isGameWon && !s.isGameOver && s.player.health > 0.0
    ensures var r := FrameSpec(s, a, now, rolls);
      r.state == s && r.screen.VictoryScreen? && r.screen.gameTime == now - s.gameStartTime
      && r.screen.enemiesKilled == s.enemiesKilled
      && r.screen.levelsCleared == s.level + (if s.killsThisLevel >= Level(s.level).killTarget then 1 else 0)
  {
  }

  /** Reaching the kill target raises the level overlay, and while it is up the
      character, the enemies, the arrows, the items and the counters stand still;
      only the explosions go on, and they can still hurt the player, and a
      character standing still is drawn on frame 0. */
  lemma TransitionPauses(s: GameState, a: Arena, now: int, rolls: FrameRolls)
    requires StateOk(s, a)
    requires !s.isGameOver && !s.isGameWon && s.player.health > 0.0
    requires s.isInLevelTransition || s.killsThisLevel >= Level(s.level).killTarget
    ensures var r := FrameSpec(s, a, now, rolls).state;
      r == s.(isInLevelTransition := true, explosions := r.explosions,
              player := DrawStep(s.player).(health := r.player.health, hasShield := r.player.hasShield))
      && r.explosions == StepExplosions(s.explosions, s.player, a, now).0
  {
    StepExplosionsKeep(s.explosions, s.player, a, now);
  }

  /** An explosion on its damage frame next to an unshielded player hurts them even
      while the overlay is up. */
  lemma TransitionExplosionHurts(s: GameState, a: Arena, now: int, rolls: FrameRolls)
    requires a.Valid() && ValidLevel(s.level)
    requires !s.isGameOver && !s.isGameWon && s.player.health >= ExplosionDamage && s.isInLevelTransition
    requires !s.player.hasShield && !s.player.isGuarding
    requires |s.explosions| == 1 && s.explosions[0].frame == ExplosionDamageFrame
    requires !s.explosions[0].hasDealtDamage && !s.explosions[0].isFinished
    requires now - s.explosions[0].frameTimer <= ExplosionFrameDurationMs
    requires InBlast(s.explosions[0], s.player, a)
    ensures FrameSpec(s, a, now, rolls).state.player.health == s.player.health - ExplosionDamage
  {
    var e := StepExplosion(s.explosions[0], s.player, a, now);
    assert StepExplosions(s.explosions, s.player, a, now).1 == e.1;
  }

  // ---------------------------------------------------------------------------
  // Inputs

  /** `attackWarrior`, `attackArcher` (also `attack`), `attackLancer`. */
  function AttackInput(s: GameState, t: AttackType): (r: GameState)
    requires t != NoAttack
  {
    s.(player := RequestAttack(s.player, s.level, t))
  }

  /** The posted end of an attack. */
  function EndAttackInput(s: GameState, clearsMelee: bool): (r: GameState)
  {
    s.(player := EndAttack(s.player, clearsMelee))
  }

  function StartGuardingInput(s: GameState): (r: GameState)
  {
    s.(player := StartGuarding(s.player, s.level))
  }

  function StopGuardingInput(s: GameState): (r: GameState)
  {
    s.(player := s.player.(isGuarding := false))
  }

  /** `startMoving` with a direction, `stopMoving` with `Still`. */
  function MoveInput(s: GameState, h: Heading): (r: GameState)
  {
    s.(player := s.player.(heading := h))
  }

  /** A request for a skill not yet unlocked changes nothing. */
  lemma LockedInputsChangeNothing(s: GameState, t: AttackType)
    requires t != NoAttack
    ensures !IsUnlocked(s.level, SkillFor(t)) ==> AttackInput(s, t) == s
    ensures !IsUnlocked(s.level, GuardSkill) ==> StartGuardingInput(s) == s
  {
  }

  /** Every input keeps the game sound. */
  lemma InputsKeepOk(s: GameState, a: Arena, t: AttackType, clearsMelee: bool, h: Heading)
    requires StateOk(s, a) && t != NoAttack
    ensures StateOk(AttackInput(s, t), a) && StateOk(EndAttackInput(s, clearsMelee), a)
    ensures StateOk(StartGuardingInput(s), a) && StateOk(StopGuardingInput(s), a)
    ensures StateOk(MoveInput(s, h), a)
  {
    InputsKeepPlayerOk(s.player, a, s.level, t, clearsMelee);
    assert PlayerOk(s.player.(heading := h), a);
  }

  // ---------------------------------------------------------------------------
  // Lifecycle

  /** `resetStateForNewLevel`: full health and no shield, back at the start, the
      three starting enemies, and no arrows, items or explosions. */
  function ResetForLevel(s: GameState, a: Arena, spawns: nat -> SpawnRoll): (r: GameState)
    requires a.Valid() && ValidLevel(s.level)
  {
    s.(player := ResetPlayer(s.player, a), enemies := StartingEnemies(s.level, a, spawns),
       arrows := [], mushrooms := [], meats := [], explosions := [])
  }

  /** `advanceLevel`: below the last level, move to the next level with no kills,
      reset the field for it and raise the overlay; on the last level, the game is
      won. */
  function AdvanceLevelSpec(s: GameState, a: Arena, spawns: nat -> SpawnRoll): (r: GameState)
    requires a.Valid() && ValidLevel(s.level)
  {
    if s.level < |Table| - 1 then
      ResetForLevel(s.(level := s.level + 1, killsThisLevel := 0), a, spawns).(isInLevelTransition := true)
    else s.(isGameWon := true)
  }

  /** Advancing below the last level: the next level, no kills on it, full health, no
      shield, no arrows, items or explosions, the overlay up, and exactly three
      enemies, one of each kind, sound and alive. On the last level only the game is
      won. */
  lemma AdvanceLevelResets(s: GameState, a: Arena, spawns: nat -> SpawnRoll)
    requires a.Valid() && ValidLevel(s.level)
    ensures var r := AdvanceLevelSpec(s, a, spawns);
      if s.level < |Table| - 1 then
        r.level == s.level + 1 && r.killsThisLevel == 0 && r.enemiesKilled == s.enemiesKilled
        && r.player.health == PlayerMaxHealth && !r.player.hasShield
        && r.arrows == [] && r.mushrooms == [] && r.meats == [] && r.explosions == []
        && r.isInLevelTransition
        && |r.enemies| == 3 && r.enemies[0].kind == Torch && r.enemies[1].kind == Warrior && r.enemies[2].kind == Tnt
        && (forall k :: 0 <= k < 3 ==> ViewValid(r.enemies[k]) && IsAlive(r.enemies[k]))
      else r == s.(isGameWon := true)
  {
  }

  /** Advancing keeps the game sound. */
  lemma AdvanceLevelKeepsOk(s: GameState, a: Arena, spawns: nat -> SpawnRoll)
    requires StateOk(s, a)
    ensures StateOk(AdvanceLevelSpec(s, a, spawns), a)
  {
    if s.level < |Table| - 1 {
      LevelsGetHarder(s.level, s.level + 1);
    }
  }

  /** `advanceLevelByButton`: ignored once the game is won or while the overlay is up. */
  function AdvanceByButton(s: GameState, a: Arena, spawns: nat -> SpawnRoll): (r: GameState)
    requires a.Valid() && ValidLevel(s.level)
  {
    if s.isGameWon || s.isInLevelTransition then s else AdvanceLevelSpec(s, a, spawns)
  }

  /** The touch handler: while the overlay is up, a finger lifted inside its button
      advances the level if the kill target is met and closes the overlay; any touch
      is taken while the overlay is up, and none otherwise. */
  function TapSpec(s: GameState, a: Arena, button: Rect, isUp: bool, x: real, y: real,
                   spawns: nat -> SpawnRoll): (r: (GameState, bool))
    requires a.Valid() && ValidLevel(s.level)
  {
    if !s.isInLevelTransition then (s, false)
    else if isUp && Contains(button, x, y) then
      var s1 := if s.killsThisLevel >= Level(s.level).killTarget then AdvanceLevelSpec(s, a, spawns) else s;
      (s1.(isInLevelTransition := false), true)
    else (s, true)
  }

  /** The tap on the overlay's button moves to the next level exactly when the kill
      target is met below the last level, wins the game when it is met on the last
      one, and always closes the overlay. */
  lemma TapAdvancesWhenReady(s: GameState, a: Arena, button: Rect, x: real, y: real, spawns: nat -> SpawnRoll)
    requires a.Valid() && ValidLevel(s.level)
    requires s.isInLevelTransition && Contains(button, x, y)
    ensures var r := TapSpec(s, a, button, true, x, y, spawns);
      var ready := s.killsThisLevel >= Level(s.level).killTarget;
      r.1 && !r.0.isInLevelTransition
      && (r.0.level == s.level + 1 <==> ready && s.level < |Table| - 1)
      && (r.0.isGameWon <==> s.isGameWon || (ready && s.level == |Table| - 1))
      && (!ready ==> r.0 == s.(isInLevelTransition := false))
  {
  }

  /** Touches outside the overlay's button, or without the overlay, change nothing. */
  lemma TapElsewhereChangesNothing(s: GameState, a: Arena, button: Rect, isUp: bool, x: real, y: real,
                                   spawns: nat -> SpawnRoll)
    requires a.Valid() && ValidLevel(s.level)
    requires !(s.isInLevelTransition && isUp && Contains(button, x, y))
    ensures var r := TapSpec(s, a, button, isUp, x, y, spawns);
      r.0 == s && r.1 == s.isInLevelTransition
  {
  }

  /** Touches keep the game sound. */
  lemma TapKeepsOk(s: GameState, a: Arena, button: Rect, isUp: bool, x: real, y: real, spawns: nat -> SpawnRoll)
    requires StateOk(s, a)
    ensures StateOk(TapSpec(s, a, button, isUp, x, y, spawns).0, a)
  {
    AdvanceLevelKeepsOk(s, a, spawns);
  }

  /** `resetGame`: a new game on the first level from time `now`; the overlay flag is
      left as it was. */
  function ResetGameSpec(s: GameState, a: Arena, now: int, spawns: nat -> SpawnRoll): (r: GameState)
    requires a.Valid()
  {
    GameState(ResetPlayer(s.player, a), 0, 0, 0, false, false, s.isInLevelTransition, now,
              StartingEnemies(0, a, spawns), [], [], [], [])
  }

  /** The game as the view starts it (`onSizeChanged` on fresh fields). */
  function InitialState(a: Arena, now: int, spawns: nat -> SpawnRoll): (r: GameState)
    requires a.Valid()
  {
    GameState(InitialPlayer(a), 0, 0, 0, false, false, false, now, StartingEnemies(0, a, spawns), [], [], [], [])
  }

  /** A new or reset game is sound, on the first level with nothing killed. */
  lemma FreshGamesAreOk(s: GameState, a: Arena, now: int, spawns: nat -> SpawnRoll)
    requires a.Valid()
    ensures StateOk(InitialState(a, now, spawns), a) && StateOk(ResetGameSpec(s, a, now, spawns), a)
    ensures var r := ResetGameSpec(s, a, now, spawns);
      r.level == 0 && r.enemiesKilled == 0 && !r.isGameOver && !r.isGameWon && r.player.health == PlayerMaxHealth
  {
    assert LootOk(GameTypes.Loot([], [], []));
  }
}
