# Sorrow Knight — a verified model of the game core

Sorrow Knight is a small Android action game. A knight walks a single screen while
goblins attack: a torch goblin, a pawn and a TNT goblin. The knight fights with the
sword, the bow, the lance and the guard. Skills unlock as the knight clears the three
levels. A dead goblin may drop a mushroom (heals), a piece of meat (a one-hit
shield) or an explosion that hurts the knight if it stands in the blast. Each level
is won by reaching its kill target, which raises an overlay with a button that
starts the next level. After the last level a victory screen shows the time and the
kill count, saves the run on a top-ten leaderboard sorted by time, and the
leaderboard lists the saved runs.

What is modelled here:

- the per-frame game loop of the game view: movement, animation, melee, enemy AI,
  arrows, items, explosions, the level overlay, game over and victory;
- the touch and button inputs and the level and game resets;
- the enemy and monster objects;
- saving a score on the victory screen;
- binding a leaderboard row.

The game view is an imperative class, `GameWorld.World`. Its fields follow the view's
fields. Its objects are `EnemyModel.Enemy` instances that are updated in place. Every
method of `World` is proved against a pure function over a value snapshot of the
whole state: `World.State()` returns a `GameSpec.GameState`, and `ViewsOf` takes a
snapshot of the enemies. The properties of the game — invariants, kill accounting,
population bounds, damage rules — are proved as lemmas about those functions. The
loops of the view (the enemy pass, the arrow volley, the melee strike, the
top-up spawns, the explosion and the item loops) are `while` loops with invariants.

Modules, in dependency order:

| module | file | models |
|---|---|---|
| `Num`, `Seqs` | num.dfy | Kotlin `coerceIn`, truncating `/` and `%`, counting and filtering lists |
| `Geometry` | geometry.dfy | `RectF`, `RectF.intersects`, `RectF.contains` |
| `Levels` | levels.dfy | the level table and skill unlocks |
| `EnemyModel` | enemy.dfy | `Enemy` |
| `GameTypes` | game_types.dfy | constants, player, arrow, explosion, item records, hitboxes, spawning, loot drops |
| `PlayerSpec` | player_spec.dfy | damage, movement, the character animation, inputs, items |
| `EnemySpec` | enemy_spec.dfy | the enemy AI and the `updateEnemies` pass |
| `CombatSpec` | combat_spec.dfy | melee, arrows, explosions |
| `GameSpec` | game_spec.dfy | the game state, each update, the frame, inputs, level flow |
| `FrameLoops` | frame_loops.dfy | the item and explosion loops |
| `GameWorld` | world.dfy | the game view as a class |
| `MonsterModel` | monster.dfy | `Monster` |
| `ScoreFormat` | score_format.dfy | decimal strings, `%02d`, the `mm:ss` time |
| `Victory` | victory.dfy | the victory screen and `saveScore` |
| `LeaderboardAdapter` | leaderboard_adapter.dfy | the leaderboard rows |

Randomness is a parameter. `nat -> SpawnRoll` and `nat -> DropRoll` are streams of
what `random()` would return, and each operation reads the stream from position 0.
The clock is the `now` parameter.

## Model

| member | source | states |
|---|---|---|
| Levels.Level | app/src/main/java/com/duyvv/sorrow_knight/ui/GameView.kt:228-269 | each of the three levels has a positive kill target and enemy health, room for the three starting enemies, speed and drop multipliers of at least 1 and an explosion chance that is a probability |
| Levels.LevelsGetHarder | app/src/main/java/com/duyvv/sorrow_knight/ui/GameView.kt:238-269 | a later level never has fewer enemies, a lower kill target, weaker enemies or slower enemies |
| Levels.UnlockStateAt | app/src/main/java/com/duyvv/sorrow_knight/ui/GameView.kt:375-394 | the pushed state unlocks the warrior strike from the first level, the bow from the second, and the lancer and guard from the third |
| Levels.UnlocksAreMonotone | app/src/main/java/com/duyvv/sorrow_knight/ui/GameView.kt:380-383 | a skill unlocked on a level stays unlocked on every later level |
| Levels.UnlockSchedule | app/src/main/java/com/duyvv/sorrow_knight/ui/GameView.kt:375-383 | level 1 has the sword only, level 2 adds the bow, level 3 adds the lance and the guard |
| Geometry.Box | app/src/main/java/com/duyvv/sorrow_knight/ui/GameView.kt:900-905 | a box placed at a point has that point as its top-left corner, the given size and the centre half a size away |
| Geometry.IntersectsSymmetric | app/src/main/java/com/duyvv/sorrow_knight/ui/GameView.kt:918 | the overlap test used for every contact does not depend on the order of its two rectangles |
| Geometry.ContainsCornerIntersects | app/src/main/java/com/duyvv/sorrow_knight/ui/GameView.kt:477-480 | a rectangle that contains the top-left corner of a non-empty rectangle overlaps it |
| EnemyModel.Enemy.constructor | app/src/main/java/com/duyvv/sorrow_knight/model/Enemy.kt:14-47 | each field takes its argument or its declared default: moving and facing left, in the Move state, on frame 0, with no damage dealt yet |
| EnemyModel.ViewsOf | app/src/main/java/com/duyvv/sorrow_knight/ui/GameView.kt:225 | the snapshot of the enemy list has one value per enemy, in list order, each equal to that enemy's fields |
| GameTypes.EnemyColumns | app/src/main/java/com/duyvv/sorrow_knight/ui/GameView.kt:276-334 | an enemy sheet has 6 frames per row, and only an attacking enemy's sheet can have 7 |
| GameTypes.EnemyHitbox | app/src/main/java/com/duyvv/sorrow_knight/ui/GameView.kt:1415-1429 | the inset hitbox has the same centre as the enemy sprite and is non-empty |
| GameTypes.ItemHitbox | app/src/main/java/com/duyvv/sorrow_knight/ui/GameView.kt:906-917 | an item's inset hitbox is non-empty and lies inside the item's drawn square |
| GameTypes.SpawnCoordinate | app/src/main/java/com/duyvv/sorrow_knight/ui/GameView.kt:1479-1482 | a random spawn coordinate is a whole number from 0 to the bound, both included |
| GameTypes.SpawnView | app/src/main/java/com/duyvv/sorrow_knight/ui/GameView.kt:1475-1495 | a spawned enemy is sound, alive and of the requested kind; it has the level's full health, walks, is on frame 0 and has not attacked |
| GameTypes.SpawnPlacement | app/src/main/java/com/duyvv/sorrow_knight/ui/GameView.kt:1479-1489 | a spawned enemy's sprite fits in the view on each axis where it can, and its speed is the base speed times the level's multiplier |
| GameTypes.RandomSpawns | app/src/main/java/com/duyvv/sorrow_knight/ui/GameView.kt:1218-1225 | n top-up spawns give exactly n sound, living enemies, each of the kind its roll picked |
| GameTypes.StartingEnemies | app/src/main/java/com/duyvv/sorrow_knight/ui/GameView.kt:432-435 | every level starts with exactly three sound, living enemies: a torch goblin, a pawn and a TNT goblin |
| GameTypes.DropPosition | app/src/main/java/com/duyvv/sorrow_knight/ui/GameView.kt:1435-1436 | a dropped item lands inside the view, or at 0 on an axis too small for it |
| GameTypes.DropItem | app/src/main/java/com/duyvv/sorrow_knight/ui/GameView.kt:1431-1473 | each list keeps its old entries and gains at most one. A mushroom drops exactly when its roll is at most the chance times the level bonus, meat likewise, and an explosion exactly when its roll is below the level's chance. New items lie on the ground and new explosions start fresh |
| GameTypes.DropAll | app/src/main/java/com/duyvv/sorrow_knight/ui/GameView.kt:1080 | killing n enemies adds at most n items of each kind and at most n explosions |
| PlayerSpec.Mitigated | app/src/main/java/com/duyvv/sorrow_knight/ui/GameView.kt:1298-1300 | guarding scales the damage by the guard multiplier, otherwise the damage is taken in full; it never exceeds the incoming damage |
| PlayerSpec.TakeHit | app/src/main/java/com/duyvv/sorrow_knight/ui/GameView.kt:1294-1303 | a shield absorbs the hit and is used up; without one, health drops by the mitigated damage and never goes below 0 |
| PlayerSpec.GuardingSoftensHits | app/src/main/java/com/duyvv/sorrow_knight/ui/GameView.kt:1294-1303 | a guarded hit never costs more than an unguarded one, and with enough health it costs exactly the guard multiplier times the unguarded loss |
| PlayerSpec.MoveStep | app/src/main/java/com/duyvv/sorrow_knight/ui/GameView.kt:948-986 | the knight moves exactly when a direction is held; only its position, facing and moving flag change, and it stays inside the view |
| PlayerSpec.MoveStepFacing | app/src/main/java/com/duyvv/sorrow_knight/ui/GameView.kt:951-967 | walking left turns the knight left and walking right turns it right; walking up or down keeps its facing; the axis not walked along is kept when it was inside the view |
| PlayerSpec.MoveStepDistance | app/src/main/java/com/duyvv/sorrow_knight/ui/GameView.kt:951-972 | a step that stays inside the view moves the knight by exactly the base speed times the level's multiplier |
| PlayerSpec.AnimationFrames | app/src/main/java/com/duyvv/sorrow_knight/ui/GameView.kt:38-59 | the frame count of the current animation is one of the sheet sizes, positive and at most the bow's |
| PlayerSpec.AnimateStep | app/src/main/java/com/duyvv/sorrow_knight/ui/GameView.kt:988-1059 | an animation step changes only the frame, the frame timer and the per-attack flags, and keeps the frame on the sheet |
| PlayerSpec.DrawStep | app/src/main/java/com/duyvv/sorrow_knight/ui/GameView.kt:734-740 | drawing changes only the frame index: a character neither attacking, guarding nor moving goes back to frame 0, and any other is left as it is |
| PlayerSpec.DrawStepKeepsPlayerOk | app/src/main/java/com/duyvv/sorrow_knight/ui/GameView.kt:734-740 | drawing keeps the character sound |
| PlayerSpec.DrawAfterAnimateIsIdle | app/src/main/java/com/duyvv/sorrow_knight/ui/GameView.kt:1056-1058 | right after an animation step drawing changes nothing, because a still character is already on frame 0 |
| PlayerSpec.AnimateStepShots | app/src/main/java/com/duyvv/sorrow_knight/ui/GameView.kt:1010-1026 | an arrow is fired only by a bow attack that has not fired yet. A strike is made only by a sword or lance attack not yet applied, on its hit frame. Never both at once, and each sets its own flag |
| PlayerSpec.BowFiresOnFirstAdvance | app/src/main/java/com/duyvv/sorrow_knight/ui/GameView.kt:1010-1026 | a bow attack that has not fired fires on its first frame advance |
| PlayerSpec.AnimateStepPostsEnd | app/src/main/java/com/duyvv/sorrow_knight/ui/GameView.kt:1027-1054 | the end of an attack is posted only on its last frame, and it re-arms the melee flag exactly for a sword or lance attack |
| PlayerSpec.AnimateStepWaits | app/src/main/java/com/duyvv/sorrow_knight/ui/GameView.kt:998-1008 | before the frame time is up, an animating knight is left exactly as it was |
| PlayerSpec.AtMostOneShotPerAttack | app/src/main/java/com/duyvv/sorrow_knight/ui/GameView.kt:1010-1026 | however many frames one attack lasts, it fires at most one arrow and strikes at most once, and none again once it has; the attack itself is kept |
| PlayerSpec.AnimateStepKeepsPlayerOk | app/src/main/java/com/duyvv/sorrow_knight/ui/GameView.kt:988-1059 | the animation step keeps the knight's invariant |
| PlayerSpec.LaunchArrow | app/src/main/java/com/duyvv/sorrow_knight/ui/GameView.kt:1010-1024 | an arrow flies the way the knight faces at the arrow speed, vertically centred on the knight and starting at the edge it faces |
| PlayerSpec.RequestAttack | app/src/main/java/com/duyvv/sorrow_knight/ui/GameView.kt:1325-1350 | a locked skill changes nothing; an unlocked one starts that attack from frame 0 with its per-attack flag re-armed |
| PlayerSpec.EndAttack | app/src/main/java/com/duyvv/sorrow_knight/ui/GameView.kt:1027-1054 | ending an attack clears the attack and, when posted by the melee timer, re-arms the melee flag; nothing else changes |
| PlayerSpec.StartGuarding | app/src/main/java/com/duyvv/sorrow_knight/ui/GameView.kt:1352-1356 | guarding starts from frame 0 when the guard is unlocked, and changes nothing otherwise |
| PlayerSpec.InputsKeepPlayerOk | app/src/main/java/com/duyvv/sorrow_knight/ui/GameView.kt:1309-1360 | every input keeps the knight's invariant |
| PlayerSpec.ResetPlayer | app/src/main/java/com/duyvv/sorrow_knight/ui/GameView.kt:1609-1631 | a level reset gives full health and no shield, puts the knight at the left edge, vertically centred, and stops every movement and action |
| PlayerSpec.InitialPlayer | app/src/main/java/com/duyvv/sorrow_knight/ui/GameView.kt:575-578 | the knight starts facing right, standing still, at full health, inside the view |
| PlayerSpec.PickedCount | app/src/main/java/com/duyvv/sorrow_knight/ui/GameView.kt:906-923 | no more items are picked up than lie in the list |
| PlayerSpec.EatMushrooms | app/src/main/java/com/duyvv/sorrow_knight/ui/GameView.kt:906-923 | every mushroom lying under the knight is used up and the others are kept as they were |
| PlayerSpec.MushroomHealing | app/src/main/java/com/duyvv/sorrow_knight/ui/GameView.kt:906-923 | the mushrooms heal twice the number picked up, capped at maximum health |
| PlayerSpec.EatMeats | app/src/main/java/com/duyvv/sorrow_knight/ui/GameView.kt:926-944 | every piece of meat lying under the knight is used up and the others are kept as they were |
| PlayerSpec.MeatShields | app/src/main/java/com/duyvv/sorrow_knight/ui/GameView.kt:926-944 | the knight has a shield afterwards exactly when it had one or picked up meat |
| EnemySpec.Patrol | app/src/main/java/com/duyvv/sorrow_knight/ui/GameView.kt:1117-1137 | an attacking enemy stands still; any other enemy moves only horizontally and faces the way it walks |
| EnemySpec.PatrolStaysNearView | app/src/main/java/com/duyvv/sorrow_knight/ui/GameView.kt:1117-1137 | the wrap-around keeps a patrolling enemy between one sprite width left of the view and the view's right edge, and a step inside that band is exactly its speed times the level multiplier |
| EnemySpec.Engage | app/src/main/java/com/duyvv/sorrow_knight/ui/GameView.kt:1139-1164 | an enemy within reach attacks and turns toward the knight; one out of reach keeps its facing and its attack, and otherwise walks |
| EnemySpec.AnimateEnemy | app/src/main/java/com/duyvv/sorrow_knight/ui/GameView.kt:1166-1188 | before its frame time is up an enemy is unchanged; the step changes only the animation fields and the state |
| EnemySpec.AnimateEnemySwing | app/src/main/java/com/duyvv/sorrow_knight/ui/GameView.kt:1166-1188 | the animation never starts an attack and leaves a continuing swing's flags alone; the end of a swing returns to frame 0, arms the next swing and clears the dealt flag |
| EnemySpec.AnimateEnemyKeepsValid | app/src/main/java/com/duyvv/sorrow_knight/ui/GameView.kt:1166-1188 | animating keeps an enemy sound |
| EnemySpec.ContactHit | app/src/main/java/com/duyvv/sorrow_knight/ui/GameView.kt:1190-1212 | contact damage is absorbed by a shield or taken with the guard rule and restarts the hit cooldown; it never heals and costs at most the contact damage |
| EnemySpec.Contact | app/src/main/java/com/duyvv/sorrow_knight/ui/GameView.kt:1190-1212 | an enemy hurts the knight only when their boxes overlap and it is allowed to deal damage; otherwise nothing changes |
| EnemySpec.SwingHitsOnce | app/src/main/java/com/duyvv/sorrow_knight/ui/GameView.kt:1190-1212 | an attacking enemy that has hurt the knight cannot hurt it again in the same swing |
| EnemySpec.CooldownProtects | app/src/main/java/com/duyvv/sorrow_knight/ui/GameView.kt:1190-1212 | a walking enemy cannot hurt the knight within the hit cooldown |
| EnemySpec.StepEnemyKeepsValid | app/src/main/java/com/duyvv/sorrow_knight/ui/GameView.kt:1115-1213 | one enemy's turn keeps it sound |
| EnemySpec.StepEnemyShape | app/src/main/java/com/duyvv/sorrow_knight/ui/GameView.kt:1115-1213 | one enemy's turn keeps its row, kind, speed, health, destruction and patrol direction, and leaves the knight alone or deals one contact hit |
| EnemySpec.EnemyPass | app/src/main/java/com/duyvv/sorrow_knight/ui/GameView.kt:1115-1213 | the pass over the enemy list keeps one entry per enemy |
| EnemySpec.StepAllPreserves | app/src/main/java/com/duyvv/sorrow_knight/ui/GameView.kt:1115-1213 | a property every enemy step keeps holds for the whole list after the pass |
| EnemySpec.StepAllKeepsVerdict | app/src/main/java/com/duyvv/sorrow_knight/ui/GameView.kt:1115-1213 | a measure every enemy step keeps is the same for each enemy after the pass |
| EnemySpec.StepAllPlayerInvariant | app/src/main/java/com/duyvv/sorrow_knight/ui/GameView.kt:1115-1213 | a knight invariant every enemy step keeps survives the pass |
| EnemySpec.StepAllHealthBound | app/src/main/java/com/duyvv/sorrow_knight/ui/GameView.kt:1115-1213 | if each step costs at most d health, the pass costs at most d per enemy and never heals |
| EnemySpec.EnemyLoopKeepsValid | app/src/main/java/com/duyvv/sorrow_knight/ui/GameView.kt:1115-1213 | the enemy step keeps each enemy sound |
| EnemySpec.EnemyLoopKeepsAlive | app/src/main/java/com/duyvv/sorrow_knight/ui/GameView.kt:1115-1213 | the enemy step never kills or revives an enemy |
| EnemySpec.EnemyLoopHurts | app/src/main/java/com/duyvv/sorrow_knight/ui/GameView.kt:1190-1212 | the enemy step costs the knight at most the contact damage and moves nothing but its health and shield |
| EnemySpec.EnemyPassFacts | app/src/main/java/com/duyvv/sorrow_knight/ui/GameView.kt:1115-1213 | after the pass every enemy is sound, none died or revived, and the knight lost at most the contact damage per enemy |
| EnemySpec.FirstTopUp | app/src/main/java/com/duyvv/sorrow_knight/ui/GameView.kt:1097-1106 | the first top-up brings the living enemies up to three and adds nobody when there are three already |
| EnemySpec.RestockPopulation | app/src/main/java/com/duyvv/sorrow_knight/ui/GameView.kt:1215-1225 | after culling and restocking there are exactly as many enemies as the larger of the level maximum and the living before, all sound and alive |
| EnemySpec.AllSoundAndAlive | app/src/main/java/com/duyvv/sorrow_knight/ui/GameView.kt:1215-1225 | joining two lists of sound, living enemies gives such a list |
| EnemySpec.UpdateEnemiesPopulation | app/src/main/java/com/duyvv/sorrow_knight/ui/GameView.kt:1094-1227 | after `updateEnemies` there are as many enemies as the larger of the level maximum and the living ones, all sound and alive, and the knight was only hurt |
| EnemySpec.LivingAfterLoop | app/src/main/java/com/duyvv/sorrow_knight/ui/GameView.kt:1097-1217 | the pass neither kills nor revives, so after the top-up the restock target is the same as the one from the living before it, for any target of at least three |
| EnemySpec.FilterKeepsValid | app/src/main/java/com/duyvv/sorrow_knight/ui/GameView.kt:1215 | removing the dead keeps every remaining enemy sound |
| CombatSpec.MeleeRect | app/src/main/java/com/duyvv/sorrow_knight/ui/GameView.kt:1062-1068 | the melee box is 60% of the knight's width and 40% of its height, vertically centred, reaching 20% of its width beyond the side the knight faces |
| CombatSpec.MeleeRectMirror | app/src/main/java/com/duyvv/sorrow_knight/ui/GameView.kt:1062-1068 | the melee boxes facing left and facing right mirror each other about the knight's centre |
| CombatSpec.MeleeDamage | app/src/main/java/com/duyvv/sorrow_knight/ui/GameView.kt:1074-1076 | a lancer attack does 3 damage and every other melee attack does 2 |
| CombatSpec.Strike | app/src/main/java/com/duyvv/sorrow_knight/ui/GameView.kt:1069-1078 | a struck enemy loses the damage, down to 0, and nothing else changes; an enemy outside the box is untouched |
| CombatSpec.StrikeSlays | app/src/main/java/com/duyvv/sorrow_knight/ui/GameView.kt:1069-1078 | an enemy is slain by a swing exactly when the box hits it and its health is at most the damage |
| CombatSpec.Strikes | app/src/main/java/com/duyvv/sorrow_knight/ui/GameView.kt:1069-1078 | the swing strikes every enemy on its own |
| CombatSpec.MeleeKeepsEnemiesSound | app/src/main/java/com/duyvv/sorrow_knight/ui/GameView.kt:1061-1092 | after a swing every enemy is sound, the list never grows, and it stays within the level maximum when it was within it |
| CombatSpec.MeleeKeepsLootOk | app/src/main/java/com/duyvv/sorrow_knight/ui/GameView.kt:1079-1091 | the loot of a swing keeps every item and explosion well formed |
| CombatSpec.CountNoneSound | app/src/main/java/com/duyvv/sorrow_knight/ui/GameView.kt:1079 | when a swing slays nobody, every struck enemy is sound |
| CombatSpec.FilterSound | app/src/main/java/com/duyvv/sorrow_knight/ui/GameView.kt:1081 | removing the slain leaves only sound enemies |
| CombatSpec.SlainSplit | app/src/main/java/com/duyvv/sorrow_knight/ui/GameView.kt:1079-1081 | every enemy is either slain or not, so the two counts add up to the list |
| CombatSpec.MeleeKillCount | app/src/main/java/com/duyvv/sorrow_knight/ui/GameView.kt:1069-1083 | a swing kills exactly the enemies the box hits whose health is at most the damage |
| CombatSpec.MeleeWithoutKills | app/src/main/java/com/duyvv/sorrow_knight/ui/GameView.kt:1069-1079 | a swing without kills leaves the loot untouched and every enemy as struck |
| CombatSpec.DropItemKeepsLootOk | app/src/main/java/com/duyvv/sorrow_knight/ui/GameView.kt:1431-1473 | one drop keeps the loot well formed |
| CombatSpec.DropAllKeepsLootOk | app/src/main/java/com/duyvv/sorrow_knight/ui/GameView.kt:1080 | the drops of several kills keep the loot well formed |
| CombatSpec.FlyArrow | app/src/main/java/com/duyvv/sorrow_knight/ui/GameView.kt:1234-1235 | an arrow moves horizontally by its speed, the way it flies |
| CombatSpec.FirstHit | app/src/main/java/com/duyvv/sorrow_knight/ui/GameView.kt:1248-1262 | the arrow hits the first living enemy it overlaps, or none when it overlaps none |
| CombatSpec.ArrowHit | app/src/main/java/com/duyvv/sorrow_knight/ui/GameView.kt:1252-1256 | an arrow costs the enemy the bow damage, and a sound enemy is destroyed exactly when that takes its last health |
| CombatSpec.ArrowStep | app/src/main/java/com/duyvv/sorrow_knight/ui/GameView.kt:1232-1263 | one arrow keeps one entry per enemy |
| CombatSpec.ArrowStepKeeps | app/src/main/java/com/duyvv/sorrow_knight/ui/GameView.kt:1232-1263 | one arrow keeps enemies sound and of their kind; living enemies plus kills stay the same; one drop roll is used per kill; the arrow flies on or is gone |
| CombatSpec.ArrowStepFate | app/src/main/java/com/duyvv/sorrow_knight/ui/GameView.kt:1237-1262 | an arrow flies on exactly when it stays on screen and hits nobody |
| CombatSpec.Volleys | app/src/main/java/com/duyvv/sorrow_knight/ui/GameView.kt:1229-1264 | the arrow loop keeps one entry per enemy |
| CombatSpec.ArrowStepKeepsLootOk | app/src/main/java/com/duyvv/sorrow_knight/ui/GameView.kt:1252-1258 | one arrow keeps the loot well formed |
| CombatSpec.VolleysSound | app/src/main/java/com/duyvv/sorrow_knight/ui/GameView.kt:1229-1264 | the arrow loop keeps every enemy sound and the loot well formed |
| CombatSpec.VolleysAccount | app/src/main/java/com/duyvv/sorrow_knight/ui/GameView.kt:1229-1264 | the arrow loop never adds arrows; living enemies plus kills stay the same; one drop roll is used per kill; enemies keep their kind |
| CombatSpec.StepExplosion | app/src/main/java/com/duyvv/sorrow_knight/ui/GameView.kt:1271-1305 | a finished explosion is removed and only then. An explosion hurts the knight at most once: on its damage frame, with the knight in the blast |
| CombatSpec.StepExplosionKeepsOk | app/src/main/java/com/duyvv/sorrow_knight/ui/GameView.kt:1275-1305 | an explosion stays well formed, advances at most one frame per update and never hurts twice |
| CombatSpec.ExplosionFinishes | app/src/main/java/com/duyvv/sorrow_knight/ui/GameView.kt:1271-1282 | an explosion past its last frame finishes without hurting and is removed on the next update |
| CombatSpec.StepExplosions | app/src/main/java/com/duyvv/sorrow_knight/ui/GameView.kt:1266-1307 | the explosion loop never adds explosions |
| CombatSpec.StepExplosionsKeep | app/src/main/java/com/duyvv/sorrow_knight/ui/GameView.kt:1266-1307 | after the loop exactly the unfinished explosions remain, well formed; only the knight's health and shield change, and health only falls and stays non-negative |
| GameSpec.CharacterUpdate | app/src/main/java/com/duyvv/sorrow_knight/ui/GameView.kt:948-986 | moving the knight keeps the level |
| GameSpec.MeleeUpdate | app/src/main/java/com/duyvv/sorrow_knight/ui/GameView.kt:1061-1092 | a swing keeps the level |
| GameSpec.AnimationUpdate | app/src/main/java/com/duyvv/sorrow_knight/ui/GameView.kt:988-1059 | the animation update keeps the level |
| GameSpec.EnemiesUpdate | app/src/main/java/com/duyvv/sorrow_knight/ui/GameView.kt:1094-1227 | the enemy update keeps the level |
| GameSpec.ArrowsUpdate | app/src/main/java/com/duyvv/sorrow_knight/ui/GameView.kt:1229-1264 | the arrow update keeps the level |
| GameSpec.ItemsUpdate | app/src/main/java/com/duyvv/sorrow_knight/ui/GameView.kt:897-946 | the item update keeps the level |
| GameSpec.ExplosionsUpdate | app/src/main/java/com/duyvv/sorrow_knight/ui/GameView.kt:1266-1307 | the explosion update keeps the level |
| GameSpec.DrawUpdate | app/src/main/java/com/duyvv/sorrow_knight/ui/GameView.kt:687-741 | drawing the character keeps the level |
| GameSpec.DrawKeepsOk | app/src/main/java/com/duyvv/sorrow_knight/ui/GameView.kt:687-741 | drawing the character keeps the game invariant |
| GameSpec.CharacterKeepsOk | app/src/main/java/com/duyvv/sorrow_knight/ui/GameView.kt:948-986 | moving the knight keeps the game invariant |
| GameSpec.MeleeKeepsOk | app/src/main/java/com/duyvv/sorrow_knight/ui/GameView.kt:1061-1092 | a swing keeps the game invariant, raises both kill counters by the same amount and leaves the knight and the arrows alone |
| GameSpec.AnimateFireKeepsOk | app/src/main/java/com/duyvv/sorrow_knight/ui/GameView.kt:1010-1026 | animating the knight and launching an arrow keep the game invariant |
| GameSpec.AnimationKeepsOk | app/src/main/java/com/duyvv/sorrow_knight/ui/GameView.kt:988-1059 | the animation update keeps the game invariant |
| GameSpec.EnemiesKeepOk | app/src/main/java/com/duyvv/sorrow_knight/ui/GameView.kt:1094-1227 | the enemy update keeps the game invariant and leaves exactly the level maximum of enemies, all alive |
| GameSpec.ArrowsKeepOk | app/src/main/java/com/duyvv/sorrow_knight/ui/GameView.kt:1229-1264 | the arrow update keeps the game invariant and never adds arrows. Every enemy it kills is added to both kill counters |
| GameSpec.ItemsEffect | app/src/main/java/com/duyvv/sorrow_knight/ui/GameView.kt:897-946 | the item update heals twice the number of mushrooms touched, capped at maximum health, gives the shield exactly when meat was touched or it was held, and changes nothing else about the knight |
| GameSpec.ItemsKeepOk | app/src/main/java/com/duyvv/sorrow_knight/ui/GameView.kt:897-946 | the item update keeps the game invariant |
| GameSpec.ExplosionsKeepOk | app/src/main/java/com/duyvv/sorrow_knight/ui/GameView.kt:1266-1307 | the explosion update keeps the game invariant and leaves exactly the unfinished explosions |
| GameSpec.FrameKeepsOk | app/src/main/java/com/duyvv/sorrow_knight/ui/GameView.kt:495-533 | a whole frame keeps the game invariant |
| GameSpec.GameOverIsFinal | app/src/main/java/com/duyvv/sorrow_knight/ui/GameView.kt:498-515 | a knight out of health ends the game and shows the game-over screen; an ended game changes nothing more |
| GameSpec.VictoryReport | app/src/main/java/com/duyvv/sorrow_knight/ui/GameView.kt:508-511 | a won game changes nothing and shows the elapsed time, the kills and the levels cleared, counting the current level once its target is met |
| GameSpec.TransitionPauses | app/src/main/java/com/duyvv/sorrow_knight/ui/GameView.kt:505-533 | with the overlay up, or at the kill target, the frame only raises the overlay, runs the explosions and puts a still character back on frame 0 |
| GameSpec.TransitionExplosionHurts | app/src/main/java/com/duyvv/sorrow_knight/ui/GameView.kt:520-527 | an explosion still hurts the knight while the overlay is up |
| GameSpec.LockedInputsChangeNothing | app/src/main/java/com/duyvv/sorrow_knight/ui/GameView.kt:1325-1356 | an attack or a guard whose skill is locked changes nothing |
| GameSpec.InputsKeepOk | app/src/main/java/com/duyvv/sorrow_knight/ui/GameView.kt:1309-1360 | every input keeps the game invariant |
| GameSpec.AdvanceLevelResets | app/src/main/java/com/duyvv/sorrow_knight/ui/GameView.kt:1573-1633 | below the last level, advancing raises the level and clears its kills. It keeps the total kills, heals fully, removes the shield, clears the field, spawns the three starting enemies and raises the overlay. On the last level it only wins the game |
| GameSpec.AdvanceLevelKeepsOk | app/src/main/java/com/duyvv/sorrow_knight/ui/GameView.kt:1573-1607 | advancing keeps the game invariant |
| GameSpec.TapAdvancesWhenReady | app/src/main/java/com/duyvv/sorrow_knight/ui/GameView.kt:475-493 | a tap on the overlay button closes the overlay and is handled. The level rises exactly when the target is met below the last level; the game is won exactly when it was or the target is met on the last level; nothing else changes when the target is not met |
| GameSpec.TapElsewhereChangesNothing | app/src/main/java/com/duyvv/sorrow_knight/ui/GameView.kt:475-493 | any other touch changes nothing and is handled exactly while the overlay is up |
| GameSpec.TapKeepsOk | app/src/main/java/com/duyvv/sorrow_knight/ui/GameView.kt:475-493 | touches keep the game invariant |
| GameSpec.FreshGamesAreOk | app/src/main/java/com/duyvv/sorrow_knight/ui/GameView.kt:1376-1413 | a new or restarted game satisfies the game invariant and starts on the first level with no kills, at full health, neither lost nor won |
| FrameLoops.EatMushroomLoop | app/src/main/java/com/duyvv/sorrow_knight/ui/GameView.kt:906-923 | the mushroom loop computes the mushroom-eating function |
| FrameLoops.EatMeatLoop | app/src/main/java/com/duyvv/sorrow_knight/ui/GameView.kt:926-944 | the meat loop computes the meat-eating function |
| FrameLoops.AdvanceExplosion | app/src/main/java/com/duyvv/sorrow_knight/ui/GameView.kt:1271-1305 | one iteration of the explosion loop computes the explosion step |
| FrameLoops.RunExplosions | app/src/main/java/com/duyvv/sorrow_knight/ui/GameView.kt:1266-1307 | the explosion loop removes and steps explosions in list order, as the explosion function does |
| GameWorld.PatrolEnemy | app/src/main/java/com/duyvv/sorrow_knight/ui/GameView.kt:1117-1137 | updating an enemy in place gives the patrol step |
| GameWorld.EngageEnemy | app/src/main/java/com/duyvv/sorrow_knight/ui/GameView.kt:1139-1164 | updating an enemy in place gives the engage step |
| GameWorld.AnimateEnemyInPlace | app/src/main/java/com/duyvv/sorrow_knight/ui/GameView.kt:1166-1188 | updating an enemy in place gives the enemy animation step |
| GameWorld.TouchEnemy | app/src/main/java/com/duyvv/sorrow_knight/ui/GameView.kt:1190-1212 | the contact check on the object gives the contact function |
| GameWorld.StepEnemyObject | app/src/main/java/com/duyvv/sorrow_knight/ui/GameView.kt:1117-1212 | one turn of an enemy object gives the enemy step |
| GameWorld.StepOne | app/src/main/java/com/duyvv/sorrow_knight/ui/GameView.kt:1115-1213 | one loop iteration extends the pass by the next enemy and touches only that enemy |
| GameWorld.StepEnemies | app/src/main/java/com/duyvv/sorrow_knight/ui/GameView.kt:1115-1213 | the loop over the enemy objects gives the enemy pass |
| GameWorld.CountLiving | app/src/main/java/com/duyvv/sorrow_knight/ui/GameView.kt:1217 | the count of living enemies |
| GameWorld.Keep | app/src/main/java/com/duyvv/sorrow_knight/ui/GameView.kt:1215 | `removeAll` keeps exactly the enemies that pass the test, in order, without copying them |
| GameWorld.NewEnemy | app/src/main/java/com/duyvv/sorrow_knight/ui/GameView.kt:1483-1493 | the new enemy object is fresh and is the spawned enemy |
| GameWorld.StartingThree | app/src/main/java/com/duyvv/sorrow_knight/ui/GameView.kt:432-435 | the three starting enemy objects are fresh, distinct and are the starting enemies |
| GameWorld.StartingEnemiesAre | app/src/main/java/com/duyvv/sorrow_knight/ui/GameView.kt:432-435 | the three spawns in order are the starting enemies |
| GameWorld.RandomSpawnsPrefix | app/src/main/java/com/duyvv/sorrow_knight/ui/GameView.kt:1218-1225 | the first j of n top-up spawns are the top-up of j |
| GameWorld.RefillIs | app/src/main/java/com/duyvv/sorrow_knight/ui/GameView.kt:1215-1225 | culling and then spawning the shortfall is the restock |
| GameWorld.UpdateEnemiesStages | app/src/main/java/com/duyvv/sorrow_knight/ui/GameView.kt:1094-1227 | the top-up, the pass and the restock in order make up the enemy update |
| GameWorld.FindTarget | app/src/main/java/com/duyvv/sorrow_knight/ui/GameView.kt:1248-1262 | the target search finds the first enemy the arrow hits |
| GameWorld.ArrowStrike | app/src/main/java/com/duyvv/sorrow_knight/ui/GameView.kt:1252-1256 | the arrow hit changes only the target, as the arrow-damage function does, and reports whether it died |
| GameWorld.ArrowStepCases | app/src/main/java/com/duyvv/sorrow_knight/ui/GameView.kt:1237-1262 | one arrow either leaves the screen, hits the first enemy it overlaps, or flies on |
| GameWorld.StrikeEnemy | app/src/main/java/com/duyvv/sorrow_knight/ui/GameView.kt:1069-1078 | striking an enemy object changes only that enemy, as the strike function does, and reports whether it was slain |
| GameWorld.PickSlain | app/src/main/java/com/duyvv/sorrow_knight/ui/GameView.kt:1077 | the killed list is never longer than the enemy list |
| GameWorld.PickViews | app/src/main/java/com/duyvv/sorrow_knight/ui/GameView.kt:1069-1078 | the killed list holds exactly the slain enemies, in order |
| GameWorld.StrikeOne | app/src/main/java/com/duyvv/sorrow_knight/ui/GameView.kt:1069-1078 | one loop iteration strikes the next enemy and adds it to the killed list if slain |
| GameWorld.StrikeAll | app/src/main/java/com/duyvv/sorrow_knight/ui/GameView.kt:1069-1078 | the strike loop strikes every enemy and collects exactly the slain |
| GameWorld.MeleeSpecIs | app/src/main/java/com/duyvv/sorrow_knight/ui/GameView.kt:1061-1092 | the swing's outcome is the strike, the drops of the slain and their replacement |
| GameWorld.MeleeNoneDied | app/src/main/java/com/duyvv/sorrow_knight/ui/GameView.kt:1069-1079 | a swing without kills only strikes |
| GameWorld.MeleeSomeDied | app/src/main/java/com/duyvv/sorrow_knight/ui/GameView.kt:1079-1091 | a swing with kills drops loot, counts the kills and replaces the slain |
| GameWorld.MeleeUpdateIs | app/src/main/java/com/duyvv/sorrow_knight/ui/GameView.kt:1061-1092 | both outcomes of the swing together are the melee update |
| GameWorld.ArrowsUpdateIs | app/src/main/java/com/duyvv/sorrow_knight/ui/GameView.kt:1229-1264 | the arrow loop's result, with the kills counted, is the arrow update |
| GameWorld.MushroomsEaten | app/src/main/java/com/duyvv/sorrow_knight/ui/GameView.kt:906-924 | the mushroom half of the item update leaves the meat alone |
| GameWorld.MeatsEaten | app/src/main/java/com/duyvv/sorrow_knight/ui/GameView.kt:926-945 | the meat half of the item update leaves the mushrooms alone |
| GameWorld.ItemsInHalves | app/src/main/java/com/duyvv/sorrow_knight/ui/GameView.kt:897-946 | the two halves in order, against the box taken on entry, are the item update |
| GameWorld.OverlayThenSettle | app/src/main/java/com/duyvv/sorrow_knight/ui/GameView.kt:505-507 | raising the overlay before the rest of the frame does not change the frame |
| GameWorld.ResetGameIsLevelReset | app/src/main/java/com/duyvv/sorrow_knight/ui/GameView.kt:1376-1413 | restarting the game is the level reset on the first level with the counters restarted |
| GameWorld.NextLevelIs | app/src/main/java/com/duyvv/sorrow_knight/ui/GameView.kt:1573-1598 | below the last level, advancing is the level reset on the next level behind the overlay |
| GameWorld.ShortfallIs | app/src/main/java/com/duyvv/sorrow_knight/ui/GameView.kt:1218-1225 | the restock spawns the shortfall below the maximum, and nobody when there is none |
| GameWorld.World.SpawnEnemy | app/src/main/java/com/duyvv/sorrow_knight/ui/GameView.kt:1475-1495 | one fresh enemy is added at the end of the list and is the spawned enemy |
| GameWorld.World.SpawnRandom | app/src/main/java/com/duyvv/sorrow_knight/ui/GameView.kt:1218-1225 | n fresh enemies of random kinds are added at the end of the list |
| GameWorld.World.TopUpLiving | app/src/main/java/com/duyvv/sorrow_knight/ui/GameView.kt:1097-1106 | enemies are added up to three living ones |
| GameWorld.World.Cull | app/src/main/java/com/duyvv/sorrow_knight/ui/GameView.kt:1215 | the destroyed enemies are removed and the rest kept in order |
| GameWorld.World.SpawnShortfall | app/src/main/java/com/duyvv/sorrow_knight/ui/GameView.kt:1218-1225 | the missing enemies up to the level maximum are spawned |
| GameWorld.World.Refill | app/src/main/java/com/duyvv/sorrow_knight/ui/GameView.kt:1217-1225 | after the cull, the shortfall spawn gives the restock |
| GameWorld.World.CullAndRestock | app/src/main/java/com/duyvv/sorrow_knight/ui/GameView.kt:1215-1225 | the enemies become the restock of the stepped enemies |
| GameWorld.World.LoopAndRestock | app/src/main/java/com/duyvv/sorrow_knight/ui/GameView.kt:1115-1225 | the pass and the restock run in order on the enemy objects and the knight |
| GameWorld.World.RunEnemies | app/src/main/java/com/duyvv/sorrow_knight/ui/GameView.kt:1094-1227 | the enemies and the knight become what the enemy update function gives |
| GameWorld.World.UpdateEnemies | app/src/main/java/com/duyvv/sorrow_knight/ui/GameView.kt:1094-1227 | the game becomes the enemy update of its old state and keeps the invariant |
| GameWorld.World.MaybeDropItem | app/src/main/java/com/duyvv/sorrow_knight/ui/GameView.kt:1431-1473 | the item and explosion lists become the drop of the old ones |
| GameWorld.World.HitWithArrow | app/src/main/java/com/duyvv/sorrow_knight/ui/GameView.kt:1252-1258 | the hit enemy takes the bow damage; a kill is counted and drops loot |
| GameWorld.World.ShootArrow | app/src/main/java/com/duyvv/sorrow_knight/ui/GameView.kt:1232-1263 | one arrow's flight updates the enemies, loot, kills and the kept arrows as the arrow step does |
| GameWorld.World.RunArrows | app/src/main/java/com/duyvv/sorrow_knight/ui/GameView.kt:1229-1264 | the arrow loop updates the state as the volley function does |
| GameWorld.World.UpdateArrows | app/src/main/java/com/duyvv/sorrow_knight/ui/GameView.kt:1229-1264 | the game becomes the arrow update of its old state and keeps the invariant |
| GameWorld.World.DropLoot | app/src/main/java/com/duyvv/sorrow_knight/ui/GameView.kt:1080 | every killed enemy drops its loot in order |
| GameWorld.World.ReplaceSlain | app/src/main/java/com/duyvv/sorrow_knight/ui/GameView.kt:1081-1090 | the slain are removed and replaced within the level maximum |
| GameWorld.World.DropAndCount | app/src/main/java/com/duyvv/sorrow_knight/ui/GameView.kt:1080-1083 | the kills drop loot and are added to both counters |
| GameWorld.World.Slay | app/src/main/java/com/duyvv/sorrow_knight/ui/GameView.kt:1079-1091 | the kills drop loot, are counted and are replaced |
| GameWorld.World.RunMelee | app/src/main/java/com/duyvv/sorrow_knight/ui/GameView.kt:1061-1092 | the swing strikes every enemy; without kills nothing else changes, with kills the slain drop loot, are counted and replaced |
| GameWorld.World.Melee | app/src/main/java/com/duyvv/sorrow_knight/ui/GameView.kt:1061-1092 | the game becomes the melee update of its old state |
| GameWorld.World.ApplyMeleeDamage | app/src/main/java/com/duyvv/sorrow_knight/ui/GameView.kt:1061-1092 | the game becomes the melee update of its old state and keeps the invariant |
| GameWorld.World.UpdateCharacterState | app/src/main/java/com/duyvv/sorrow_knight/ui/GameView.kt:948-986 | the game becomes the movement update of its old state and keeps the invariant |
| GameWorld.World.AnimateAndFire | app/src/main/java/com/duyvv/sorrow_knight/ui/GameView.kt:998-1029 | the knight takes its animation step and an arrow is launched exactly when the step fires one |
| GameWorld.World.UpdateAnimationFrame | app/src/main/java/com/duyvv/sorrow_knight/ui/GameView.kt:988-1059 | the game and the posted callback become the animation update of the old state |
| GameWorld.World.EatMushroomsIn | app/src/main/java/com/duyvv/sorrow_knight/ui/GameView.kt:906-924 | the mushroom half of the item update |
| GameWorld.World.EatMeatsIn | app/src/main/java/com/duyvv/sorrow_knight/ui/GameView.kt:926-945 | the meat half of the item update |
| GameWorld.World.RunItems | app/src/main/java/com/duyvv/sorrow_knight/ui/GameView.kt:897-946 | the game becomes the item update of its old state |
| GameWorld.World.UpdateItems | app/src/main/java/com/duyvv/sorrow_knight/ui/GameView.kt:897-946 | the game becomes the item update of its old state and keeps the invariant |
| GameWorld.World.UpdateExplosions | app/src/main/java/com/duyvv/sorrow_knight/ui/GameView.kt:1266-1307 | the game becomes the explosion update of its old state and keeps the invariant |
| GameWorld.World.MoveAndAnimate | app/src/main/java/com/duyvv/sorrow_knight/ui/GameView.kt:520-522 | movement, then animation, as in `onDraw` |
| GameWorld.World.EnemiesAndArrows | app/src/main/java/com/duyvv/sorrow_knight/ui/GameView.kt:523-524 | the enemy update, then the arrow update |
| GameWorld.World.ItemsAndExplosions | app/src/main/java/com/duyvv/sorrow_knight/ui/GameView.kt:525-527 | the item update, then the explosion update |
| GameWorld.World.DrawCharacter | app/src/main/java/com/duyvv/sorrow_knight/ui/GameView.kt:687-741 | the game becomes the draw update of its old state and keeps the invariant |
| GameWorld.World.PlayOn | app/src/main/java/com/duyvv/sorrow_knight/ui/GameView.kt:520-533 | the six updates of a frame in play, then the character's draw, in the order `onDraw` runs them |
| GameWorld.World.Settle | app/src/main/java/com/duyvv/sorrow_knight/ui/GameView.kt:508-533 | once the overlay is settled, the frame shows victory, halts, runs only the explosions and the draw, or plays on, as the frame function says |
| GameWorld.World.Frame | app/src/main/java/com/duyvv/sorrow_knight/ui/GameView.kt:495-533 | one call of `onDraw` takes the game to the frame function's state, screen and posted callback, and keeps the invariant |
| GameWorld.World.Attack | app/src/main/java/com/duyvv/sorrow_knight/ui/GameView.kt:1317-1350 | an attack button gives the attack input and keeps the invariant |
| GameWorld.World.FinishAttack | app/src/main/java/com/duyvv/sorrow_knight/ui/GameView.kt:1027-1054 | the posted end of an attack gives the end-attack input |
| GameWorld.World.Guard | app/src/main/java/com/duyvv/sorrow_knight/ui/GameView.kt:1352-1356 | the guard button gives the guard input |
| GameWorld.World.StopGuarding | app/src/main/java/com/duyvv/sorrow_knight/ui/GameView.kt:1358-1360 | releasing the guard stops guarding and nothing else |
| GameWorld.World.StartMoving | app/src/main/java/com/duyvv/sorrow_knight/ui/GameView.kt:1309-1311 | a direction key sets the knight's heading |
| GameWorld.World.StopMoving | app/src/main/java/com/duyvv/sorrow_knight/ui/GameView.kt:1313-1315 | releasing it makes the knight stand still |
| GameWorld.World.SpawnStartingThree | app/src/main/java/com/duyvv/sorrow_knight/ui/GameView.kt:1613-1617 | the enemy list becomes the three starting enemies and nothing else changes |
| GameWorld.World.ClearField | app/src/main/java/com/duyvv/sorrow_knight/ui/GameView.kt:1610-1631 | the knight is reset and arrows, items and explosions are cleared |
| GameWorld.World.ResetStateForNewLevel | app/src/main/java/com/duyvv/sorrow_knight/ui/GameView.kt:1609-1633 | the game becomes the level reset of its old state |
| GameWorld.World.RaiseLevel | app/src/main/java/com/duyvv/sorrow_knight/ui/GameView.kt:1575-1576 | the level rises by one and its kills restart at 0 |
| GameWorld.World.ShowOverlay | app/src/main/java/com/duyvv/sorrow_knight/ui/GameView.kt:1597-1598 | only the overlay flag changes, and a sound game stays sound |
| GameWorld.World.WinGame | app/src/main/java/com/duyvv/sorrow_knight/ui/GameView.kt:1604-1606 | only the won flag is set |
| GameWorld.World.EnterNextLevel | app/src/main/java/com/duyvv/sorrow_knight/ui/GameView.kt:1573-1598 | below the last level, the game becomes the advanced level |
| GameWorld.World.AdvanceLevel | app/src/main/java/com/duyvv/sorrow_knight/ui/GameView.kt:1573-1607 | the game becomes the level advance of its old state and keeps the invariant |
| GameWorld.World.AdvanceLevelByButton | app/src/main/java/com/duyvv/sorrow_knight/ui/GameView.kt:1319-1323 | the button advances the level unless the game is won or the overlay is up, and keeps the invariant |
| GameWorld.World.PressOverlayButton | app/src/main/java/com/duyvv/sorrow_knight/ui/GameView.kt:482-486 | a tap on the button advances when the kill target is met, then closes the overlay, and keeps the invariant |
| GameWorld.World.OnTouch | app/src/main/java/com/duyvv/sorrow_knight/ui/GameView.kt:475-493 | a touch has the effect and the handled result the touch function gives, and keeps the invariant |
| GameWorld.World.RestartCounters | app/src/main/java/com/duyvv/sorrow_knight/ui/GameView.kt:1377-1384 | the flags, counters, level and start time restart and nothing else changes |
| GameWorld.World.ResetGame | app/src/main/java/com/duyvv/sorrow_knight/ui/GameView.kt:1376-1413 | the game becomes the game reset of its old state and keeps the invariant |
| GameWorld.World.constructor | app/src/main/java/com/duyvv/sorrow_knight/ui/GameView.kt:429-447 | the view starts in the initial state, which satisfies the invariant |
| MonsterModel.Monster.constructor | app/src/main/java/com/duyvv/sorrow_knight/model/Monster.kt:9-26 | every field takes its argument; the monster starts idle on frame 0 |
| MonsterModel.Monster.SetState | app/src/main/java/com/duyvv/sorrow_knight/model/Monster.kt:31-36 | the state becomes the new one, and the frame restarts exactly when the state changed |
| MonsterModel.Monster.Update | app/src/main/java/com/duyvv/sorrow_knight/model/Monster.kt:38-44 | once the frame time is up the frame advances, wrapping around the columns, and the timer restarts; before that nothing changes |
| MonsterModel.Monster.Row | app/src/main/java/com/duyvv/sorrow_knight/model/Monster.kt:47-50 | the idle state is drawn from sheet row 0 and the attack state from row 2 |
| MonsterModel.Monster.BoundingBox | app/src/main/java/com/duyvv/sorrow_knight/model/Monster.kt:69-76 | the box starts at the monster's position and has the scaled frame size |
| MonsterModel.Monster.DrawRects | app/src/main/java/com/duyvv/sorrow_knight/model/Monster.kt:46-67 | the copied cell starts at the current frame's column and the state's row, is one frame of the sheet and lies on it, and it is drawn over the bounding box at the scale |
| MonsterModel.Monster.IsNear | app/src/main/java/com/duyvv/sorrow_knight/model/Monster.kt:78-82 | a point is near exactly when its distance to the box centre is below the range |
| MonsterModel.IsNearMonotone | app/src/main/java/com/duyvv/sorrow_knight/model/Monster.kt:78-82 | a point near within a range is near within any larger one |
| MonsterModel.CentreIsNear | app/src/main/java/com/duyvv/sorrow_knight/model/Monster.kt:78-82 | the monster's own centre is near it for any non-zero range |
| ScoreFormat.NatToString | app/src/main/java/com/duyvv/sorrow_knight/ui/LeaderboardAdapter.kt:22-24 | a number is written as a non-empty string of digits, of a single digit exactly when it is below 10 |
| ScoreFormat.NatToStringRoundTrip | app/src/main/java/com/duyvv/sorrow_knight/ui/LeaderboardAdapter.kt:22-24 | reading a written number back gives the number |
| ScoreFormat.NatToStringInjective | app/src/main/java/com/duyvv/sorrow_knight/ui/LeaderboardAdapter.kt:29 | different numbers are written differently |
| ScoreFormat.LeadingZero | app/src/main/java/com/duyvv/sorrow_knight/ui/LeaderboardAdapter.kt:24 | a leading zero does not change the value read back |
| ScoreFormat.IntToString | app/src/main/java/com/duyvv/sorrow_knight/ui/LeaderboardAdapter.kt:31 | a signed number is written with a minus exactly when negative, and reads back as itself |
| ScoreFormat.Pad2 | app/src/main/java/com/duyvv/sorrow_knight/ui/LeaderboardAdapter.kt:24 | `%02d` gives at least two characters. A non-negative number reads back as itself, in exactly two digits below 100, and a negative one reads back with its minus |
| ScoreFormat.TimeParts | app/src/main/java/com/duyvv/sorrow_knight/ui/LeaderboardAdapter.kt:22-23 | for a non-negative time the minutes and the seconds from 0 to 59 are the whole seconds of the time; a negative time gives non-positive parts |
| ScoreFormat.TimeStringReadsBack | app/src/main/java/com/duyvv/sorrow_knight/ui/LeaderboardAdapter.kt:22-24 | `mm:ss` reads back as the minutes, a colon and the two-digit seconds |
| Victory.CountAtMost | app/src/main/java/com/duyvv/sorrow_knight/VictoryActivity.kt:44 | no more scores are at most a time than there are scores |
| Victory.InsertByTime | app/src/main/java/com/duyvv/sorrow_knight/VictoryActivity.kt:44 | inserting a score adds exactly one entry |
| Victory.InsertPermutes | app/src/main/java/com/duyvv/sorrow_knight/VictoryActivity.kt:44 | inserting a score adds exactly that score and loses none |
| Victory.SortByTime | app/src/main/java/com/duyvv/sorrow_knight/VictoryActivity.kt:44 | sorting keeps the number of scores and orders them by time |
| Victory.SortPermutes | app/src/main/java/com/duyvv/sorrow_knight/VictoryActivity.kt:44 | sorting is a permutation |
| Victory.Take | app/src/main/java/com/duyvv/sorrow_knight/VictoryActivity.kt:47 | `take(n)` keeps the first n scores, or all when there are fewer |
| Victory.SaveScore | app/src/main/java/com/duyvv/sorrow_knight/VictoryActivity.kt:32-55 | the saved board holds one more score, at most ten, sorted by time, all from the old board or the new score |
| Victory.SortedSplit | app/src/main/java/com/duyvv/sorrow_knight/VictoryActivity.kt:44 | on a sorted board the scores at most a time come first, and the slower ones after |
| Victory.AllAtMost | app/src/main/java/com/duyvv/sorrow_knight/VictoryActivity.kt:44 | when every score is at most a time, all of them count |
| Victory.InsertPosition | app/src/main/java/com/duyvv/sorrow_knight/VictoryActivity.kt:44 | on a sorted board a new score goes after every score with the same or a lower time |
| Victory.InsertKeepsSorted | app/src/main/java/com/duyvv/sorrow_knight/VictoryActivity.kt:44 | insertion keeps the board sorted |
| Victory.InsertCount | app/src/main/java/com/duyvv/sorrow_knight/VictoryActivity.kt:44 | inserting a score raises the count at a time by one exactly when the score is at most that time |
| Victory.SortKeepsCount | app/src/main/java/com/duyvv/sorrow_knight/VictoryActivity.kt:44 | sorting keeps how many scores are at most any time |
| Victory.SortSortedIsIdentity | app/src/main/java/com/duyvv/sorrow_knight/VictoryActivity.kt:44 | sorting a sorted board leaves it unchanged, as a stable sort does |
| Victory.SaveScorePlacement | app/src/main/java/com/duyvv/sorrow_knight/VictoryActivity.kt:41-47 | the new score lands after every saved score of the same or a lower time. Scores before it are kept; it is dropped when ten scores are at most its time |
| Victory.TakeOfInsertion | app/src/main/java/com/duyvv/sorrow_knight/VictoryActivity.kt:47 | the ten kept after inserting at a place keep the scores before it, and the inserted score when it is among the ten |
| Victory.SortedInsertion | app/src/main/java/com/duyvv/sorrow_knight/VictoryActivity.kt:41-44 | sorting a board with one score added is the sorted board with that score inserted after its equals |
| Victory.SaveIntoSortedBoard | app/src/main/java/com/duyvv/sorrow_knight/VictoryActivity.kt:41-47 | saving onto a sorted board is inserting in place and keeping the first ten |
| Victory.ExtraOrZero | app/src/main/java/com/duyvv/sorrow_knight/VictoryActivity.kt:24-25 | a missing extra reads as 0, a present one as its value |
| Victory.OnCreate | app/src/main/java/com/duyvv/sorrow_knight/VictoryActivity.kt:19-30 | the screen saves the run and shows its time and kill labels, reading missing extras as 0 |
| Victory.TimeLabelReadsBack | app/src/main/java/com/duyvv/sorrow_knight/VictoryActivity.kt:69-75 | the time label is "Time: " followed by the minutes, a colon and the two-digit seconds |
| Victory.KillCountLabelReadsBack | app/src/main/java/com/duyvv/sorrow_knight/VictoryActivity.kt:75 | the kill label is "Enemies Killed: " followed by the kill count, which reads back |
| LeaderboardAdapter.RankLabel | app/src/main/java/com/duyvv/sorrow_knight/ui/LeaderboardAdapter.kt:29 | the rank reads "#" and the 1-based position |
| LeaderboardAdapter.KillsLabel | app/src/main/java/com/duyvv/sorrow_knight/ui/LeaderboardAdapter.kt:31 | the kills text is the count followed by " kills", and the count reads back |
| LeaderboardAdapter.Bind | app/src/main/java/com/duyvv/sorrow_knight/ui/LeaderboardAdapter.kt:17-33 | a row shows the 1-based rank, the `mm:ss` time and the kills of its score |
| LeaderboardAdapter.ItemCount | app/src/main/java/com/duyvv/sorrow_knight/ui/LeaderboardAdapter.kt:49 | the list has one row per score |
| LeaderboardAdapter.OnBindViewHolder | app/src/main/java/com/duyvv/sorrow_knight/ui/LeaderboardAdapter.kt:45-47 | the row at a position binds the score at that position |
| LeaderboardAdapter.RanksAreDistinct | app/src/main/java/com/duyvv/sorrow_knight/ui/LeaderboardAdapter.kt:45-49 | no two rows show the same rank, and each rank is between 1 and the number of rows |

## Left out

- Drawing, sprites, bitmaps, sounds, logging and the scrolling background are left out. They are output only, with one exception: `drawCharacter` puts a character that is neither attacking, guarding nor moving back on frame 0. The model keeps that write as `PlayerSpec.DrawStep`, in every frame that is drawn, the overlay frames included.
- The bitmap-size guards at the start of `updateItems` and `updateArrows` are left out: the model assumes the sprites are loaded.
- `onSizeChanged` is modelled as the `World` constructor with the view size as the arena. `onDetachedFromWindow`, `initAudio`, `toggleSound` and `setArrowSpeed` are left out: they are audio set-up or unused settings.
- The clock is read once per frame, as `now`. The source reads it again in each update of the same frame.
- `Math.random()` and `random()` are streams passed in as parameters. Each update reads its stream from position 0.
- The drop position reads `enemyDstRect`, the rectangle of the last enemy drawn. The model passes that rectangle's size with each drop roll, because drawing is not modelled.
- In `advanceLevel`, the source first tops up and culls the enemies, then calls `resetStateForNewLevel`, which replaces the whole list. The model leaves out that discarded first step; it only uses up random draws.
- `applyMeleeDamage` removes the killed enemies with `removeAll(killed)`. On a data class that removes by equality. The model removes the enemies that are slain, with no health left and not destroyed. That is the same list, because a sound enemy has no health left exactly when it is destroyed.
- The timers `post` and `postDelayed` are modelled as the `FinishAttack` input, which the caller makes when the posted callback runs; the model does not schedule them.
- The game-over and victory activities are started for real in the source. The model returns them as `Screen` values. The view passes the victory screen its extras, including the levels cleared.
- `notifyUnlockState` calls a listener. The model gives the state it pushes as `Levels.UnlockStateAt`.
- The overlay button's rectangle is set while drawing, so the model takes it as a parameter of `OnTouch`.
- Floating point is modelled as exact reals. The distance tests compare squares instead of square roots.
- `shieldPulseTimer`, `lastDamageFlashAt`, `lastWallHitTime` and the wall-hit sound cooldown, `previousAliveEnemies`, `levelTransitionEndsAtMs`, `lastSpawnTime` and `spawnIntervalMs` are left out. They drive drawing or sound, or nothing reads them.
- Arrows, explosions and items are values held in sequence fields, not objects. Nothing else refers to them, so there is no aliasing to model. Item ids, which are timestamps, are left out too.
- From `Enemy`: the bitmap is left out, and `aggroUntilMs` is kept but nothing reads it.
- `Monster.draw`'s canvas call is left out; `DrawRects` gives the two rectangles it passes.
- The persistence in `VictoryActivity` is passed in as a parameter: the board that was read and the board returned are plain sequences, not SharedPreferences and JSON. `getScores` is left out as storage I/O. So are `setupButtons` (navigation), the date string of the leaderboard row and `onCreateViewHolder` (layout inflation).
- GameSpec.CharacterUpdate, GameSpec.MeleeUpdate, GameSpec.AnimationUpdate, GameSpec.EnemiesUpdate, GameSpec.ArrowsUpdate, GameSpec.ItemsUpdate, GameSpec.ExplosionsUpdate, GameSpec.DrawUpdate: each one's own contract says only that the level is kept. What each update does is proved in the `*KeepsOk` and `ItemsEffect` lemmas beside it.
- CombatSpec.MeleeKeepsEnemiesSound: bounds the enemy count by the level maximum only when it was within it before. The source does not cap it otherwise.
- GameSpec.FreshGamesAreOk: `resetGame` leaves the overlay flag as it was, as the source does.
- GameTypes.Arena.Valid and PlayerSpec.MoveStep: the model assumes the view is at least as large as the scaled knight sprite. On a smaller view the upper bound given to `coerceIn` in `updateCharacterState` is below 0 and the call throws; that crash is left out.
- ScoreFormat.Pad2 and ScoreFormat.TimeString: `String.format` writes the digits of the default Locale, while the model always writes ASCII digits.
- MonsterModel.Monster.constructor: requires positive column and row counts. Kotlin's integer division throws on a zero count, and that exception is left out. Negative counts, which Kotlin accepts, are excluded too, so that a frame lies on the sheet.
