/** The values GameView works with: its tuning constants, the player character,
    arrows, explosions, dropped items, the sizes of the view and of its sprites,
    and the random draws the game makes. */
module GameTypes {
  import opened Num
  import opened Geometry
  import opened Levels
  import opened EnemyModel

  // The player character's sprite sheets (frames per sheet) and movement.
  const RunTotalFrames: int := 6
  const ArcherTotalFrames: int := 8
  const WarriorTotalFrames: int := 4
  const LancerTotalFrames: int := 3
  const GuardTotalFrames: int := 6
  const FrameDurationMs: int := 120
  const PlayerScale: real := 0.25
  const BaseSpeed: real := 7.0

  // The player's health and the damage rules.
  const PlayerMaxHealth: real := 10.0
  const HitCooldownMs: int := 800
  const ContactDamage: real := 1.0
  const GuardDamageMultiplier: real := 0.4
  const DamageWarrior: int := 2
  const DamageLancer: int := 3
  const MeleeHitFrame: int := 1

  // Arrows.
  const ArrowScale: real := 0.5
  const ArrowSpeed: real := 18.0
  const DamageArcher: int := 1

  // Explosions.
  const ExplosionTotalFrames: int := 9
  const ExplosionScale: real := 0.5
  const ExplosionFrameDurationMs: int := 80
  const ExplosionDamageFrame: int := 3
  const ExplosionDamage: real := 2.0
  const ExplosionRadius: real := 150.0

  // Dropped items: mushrooms heal, meat grants a shield.
  const MushroomHealAmount: real := 2.0
  const MushroomDropChance: real := 0.0
  const MeatDropChance: real := 1.0
  const ItemDrawSize: real := 64.0
  const ItemHitboxInsetX: real := 0.18
  const ItemHitboxInsetY: real := 0.22

  // Enemies (the torch, pawn and TNT animation configurations).
  const EnemyScale: real := 0.5
  const EnemyHitboxInsetX: real := 0.25
  const EnemyHitboxInsetY: real := 0.30
  const AttackRangeRatio: real := 0.6
  const SpawnSpeed: real := 10.0

  /** Frames on the sheet an enemy of kind `k` plays in state `s`. */
  function EnemyColumns(k: EnemyType, s: EnemyState): (n: int)
    ensures 6 <= n <= 7
    ensures s != Attack ==> n == 6
  {
    if s == Attack && k == Tnt then 7 else 6
  }

  function EnemyFrameDurationMs(k: EnemyType): int
  {
    if k == Warrior then 110 else 120
  }

  datatype Direction = Up | Down | Left | Right

  /** `movingDirection`, which is null while no direction button is held. */
  datatype Heading = Still | Toward(direction: Direction)

  datatype AttackType = NoAttack | WarriorAttack | ArcherAttack | LancerAttack

  /** The player character's fields of GameView, grouped as one record. */
  datatype Player = Player(
    x: real,
    y: real,
    facingLeft: bool,
    heading: Heading,
    isMoving: bool,
    health: real,
    hasShield: bool,
    isGuarding: bool,
    isAttacking: bool,
    attack: AttackType,
    hasFiredArrow: bool,
    meleeDamageApplied: bool,
    frame: int,
    frameTimer: int,
    lastHitTime: int)

  datatype Arrow = Arrow(x: real, y: real, speed: real, movingLeft: bool)

  datatype Explosion = Explosion(
    x: real,
    y: real,
    frame: int,
    frameTimer: int,
    hasDealtDamage: bool,
    isFinished: bool)

  /** A mushroom or a piece of meat lying on the field (its id string is not
      modelled). */
  datatype MapItem = MapItem(x: real, y: real, isDestroyed: bool)

  /** The view's size and the pixel sizes of the sprite frames, all taken from the
      loaded bitmaps. */
  datatype Arena = Arena(
    width: int,
    height: int,
    runFrameWidth: int,
    runFrameHeight: int,
    arrowWidth: int,
    arrowHeight: int,
    explosionFrameWidth: int,
    explosionFrameHeight: int,
    torchFrameWidth: int,
    torchFrameHeight: int,
    pawnFrameWidth: int,
    pawnFrameHeight: int,
    tntFrameWidth: int,
    tntFrameHeight: int)
  {
    /** Every bitmap is non-empty and the player's sprite fits in the view, so that
        `coerceIn(0, max)` has `max >= 0`. */
    predicate Valid()
    {
      width > 0 && height > 0 && runFrameWidth > 0 && runFrameHeight > 0
      && arrowWidth > 0 && arrowHeight > 0
      && explosionFrameWidth > 0 && explosionFrameHeight > 0
      && torchFrameWidth > 0 && torchFrameHeight > 0 && pawnFrameWidth > 0
      && pawnFrameHeight > 0 && tntFrameWidth > 0 && tntFrameHeight > 0
      && PlayerMaxX() >= 0.0 && PlayerMaxY() >= 0.0
    }

    function PlayerWidth(): real { runFrameWidth as real * PlayerScale }
    function PlayerHeight(): real { runFrameHeight as real * PlayerScale }
    function PlayerMaxX(): real { width as real - PlayerWidth() }
    function PlayerMaxY(): real { height as real - PlayerHeight() }

    /** Width and height of one move frame of an enemy kind's sheet. */
    function EnemyFrameWidth(k: EnemyType): int
    {
      match k
      case Torch => torchFrameWidth
      case Warrior => pawnFrameWidth
      case Tnt => tntFrameWidth
    }

    function EnemyFrameHeight(k: EnemyType): int
    {
      match k
      case Torch => torchFrameHeight
      case Warrior => pawnFrameHeight
      case Tnt => tntFrameHeight
    }

    function EnemyWidth(k: EnemyType): real { EnemyFrameWidth(k) as real * EnemyScale }
    function EnemyHeight(k: EnemyType): real { EnemyFrameHeight(k) as real * EnemyScale }
    function ArrowWidth(): real { arrowWidth as real * ArrowScale }
    function ArrowHeight(): real { arrowHeight as real * ArrowScale }
    function ExplosionWidth(): real { explosionFrameWidth as real * ExplosionScale }
    function ExplosionHeight(): real { explosionFrameHeight as real * ExplosionScale }
  }

  /** `playerBoxRect`: the player's drawn sprite. */
  function PlayerBox(p: Player, a: Arena): Rect
  {
    Box(p.x, p.y, a.PlayerWidth(), a.PlayerHeight())
  }

  /** `getEnemyHitboxInto`: the scaled move frame, shrunk by a quarter of its width
      and 30% of its height on each side. */
  function EnemyHitbox(v: EnemyView, a: Arena): (r: Rect)
    ensures a.Valid() ==> r.left < r.right && r.top < r.bottom
    ensures r.CenterX() == v.x + a.EnemyWidth(v.kind) / 2.0
    ensures r.CenterY() == v.y + a.EnemyHeight(v.kind) / 2.0
  {
    var w := a.EnemyWidth(v.kind);
    var h := a.EnemyHeight(v.kind);
    var ix := w * EnemyHitboxInsetX;
    var iy := h * EnemyHitboxInsetY;
    Rect(v.x + ix, v.y + iy, v.x + w - ix, v.y + h - iy)
  }

  /** The hitbox of a mushroom or piece of meat drawn at 64 by 64 pixels. */
  function ItemHitbox(m: MapItem): (r: Rect)
    ensures r.left < r.right && r.top < r.bottom
    ensures m.x <= r.left && r.right <= m.x + ItemDrawSize
    ensures m.y <= r.top && r.bottom <= m.y + ItemDrawSize
  {
    var ix := ItemDrawSize * ItemHitboxInsetX;
    var iy := ItemDrawSize * ItemHitboxInsetY;
    Rect(m.x + ix, m.y + iy, m.x + ItemDrawSize - ix, m.y + ItemDrawSize - iy)
  }

  /** What one `spawnEnemy` draws at random: the picks for `(0..maxX.toInt()).random()`
      and its y counterpart, the patrol direction, and (for the random top-ups) the
      kind. */
  datatype SpawnRoll = SpawnRoll(kind: EnemyType, xPick: nat, yPick: nat, movingLeft: bool)

  /** What one `maybeDropItem` uses: its three `Math.random()` draws and the size of
      the last enemy sprite drawn (`enemyDstRect`), which the drop position reads. */
  datatype DropRoll = DropRoll(
    mushroomRoll: real,
    meatRoll: real,
    explosionRoll: real,
    rectWidth: real,
    rectHeight: real)

  /** `(0..max.toInt()).random()` for a non-negative `max`: a whole number in range. */
  function SpawnCoordinate(pick: nat, max: real): (r: real)
    requires max >= 0.0
    ensures 0.0 <= r <= max
    ensures r == r.Floor as real
  {
    (pick % (max.Floor + 1)) as real
  }

  /** An enemy is sound when its health is within bounds, it is destroyed exactly
      when its health is gone, and its frame is on the sheet of its state. */
  predicate ViewValid(v: EnemyView)
  {
    0 <= v.health <= v.maxHealth
    && (v.destroyed <==> v.health == 0)
    && 0 <= v.frame < EnemyColumns(v.kind, v.state)
  }

  predicate IsAlive(v: EnemyView) { !v.destroyed }

  /** `spawnEnemy(kind)`: a fresh enemy at a random whole-pixel position where its
      sprite fits (or at 0 when it does not), walking, at full level health. */
  function SpawnView(level: int, a: Arena, kind: EnemyType, roll: SpawnRoll): (v: EnemyView)
    requires ValidLevel(level) && a.Valid()
    ensures ViewValid(v) && IsAlive(v) && v.kind == kind
    ensures v.health == v.maxHealth == Level(level).maxHealthEnemy
    ensures v.state == Move && v.frame == 0 && !v.attackReady && !v.dealt
  {
    var maxX := Max(a.width as real - a.EnemyWidth(kind), 0.0);
    var maxY := Max(a.height as real - a.EnemyHeight(kind), 0.0);
    var hp := Level(level).maxHealthEnemy;
    EnemyView(SpawnCoordinate(roll.xPick, maxX), SpawnCoordinate(roll.yPick, maxY), kind,
              SpawnSpeed * Level(level).enemySpeedMultiplier, false, hp, hp, false,
              roll.movingLeft, true, Move, 0, 0, false)
  }

  /** Where a spawned enemy stands and how fast it walks: at a whole-pixel position
      where its sprite fits inside the view (or at 0 on an axis where it does not
      fit), at the base speed times the level's multiplier. */
  lemma SpawnPlacement(level: int, a: Arena, kind: EnemyType, roll: SpawnRoll)
    requires ValidLevel(level) && a.Valid()
    ensures var v := SpawnView(level, a, kind, roll);
      && v.speed == SpawnSpeed * Level(level).enemySpeedMultiplier
      && 0.0 <= v.x && (v.x <= a.width as real - a.EnemyWidth(kind) || v.x == 0.0)
      && 0.0 <= v.y && (v.y <= a.height as real - a.EnemyHeight(kind) || v.y == 0.0)
  {
  }

  /** `n` top-up spawns of random kinds, drawing rolls `start` to `start + n - 1`:
      each a fresh enemy of the rolled kind at full level health. */
  function RandomSpawns(level: int, a: Arena, spawns: nat -> SpawnRoll, start: nat, n: nat): (vs: seq<EnemyView>)
    requires ValidLevel(level) && a.Valid()
    ensures |vs| == n
    ensures forall k :: 0 <= k < n ==> ViewValid(vs[k]) && IsAlive(vs[k]) && vs[k].kind == spawns(start + k).kind
    decreases n
  {
    if n == 0 then []
    else RandomSpawns(level, a, spawns, start, n - 1) + [SpawnView(level, a, spawns(start + n - 1).kind, spawns(start + n - 1))]
  }

  /** The three enemies every level starts with: a torch goblin, a pawn and a TNT
      goblin, at positions from rolls 0 to 2. */
  function StartingEnemies(level: int, a: Arena, spawns: nat -> SpawnRoll): (vs: seq<EnemyView>)
    requires ValidLevel(level) && a.Valid()
    ensures |vs| == MinEnemiesAtStart
    ensures vs[0].kind == Torch && vs[1].kind == Warrior && vs[2].kind == Tnt
    ensures forall k :: 0 <= k < |vs| ==> ViewValid(vs[k]) && IsAlive(vs[k])
  {
    [SpawnView(level, a, Torch, spawns(0)), SpawnView(level, a, Warrior, spawns(1)),
     SpawnView(level, a, Tnt, spawns(2))]
  }

  /** The items and explosions an enemy's death can leave behind. */
  datatype Loot = Loot(mushrooms: seq<MapItem>, meats: seq<MapItem>, explosions: seq<Explosion>)

  /** Where a drop lands: beside the enemy, kept inside the view. */
  function DropPosition(v: EnemyView, roll: DropRoll, a: Arena): (r: (real, real))
    ensures 0.0 <= r.0 && (r.0 <= a.width as real - ItemDrawSize || r.0 == 0.0)
    ensures 0.0 <= r.1 && (r.1 <= a.height as real - ItemDrawSize || r.1 == 0.0)
  {
    (CoerceIn(v.x + roll.rectWidth * 0.5, 0.0, Max(a.width as real - ItemDrawSize, 0.0)),
     CoerceIn(v.y + roll.rectHeight * 0.5, 0.0, Max(a.height as real - ItemDrawSize, 0.0)))
  }

  /** `maybeDropItem`: a mushroom when its roll is at most the mushroom chance times
      the level's drop bonus, a piece of meat likewise, and an explosion (starting on
      frame 0 at time `now`) when its roll is below the level's explosion chance. */
  function DropItem(loot: Loot, v: EnemyView, roll: DropRoll, level: int, a: Arena, now: int): (r: Loot)
    requires ValidLevel(level)
    ensures |loot.mushrooms| <= |r.mushrooms| <= |loot.mushrooms| + 1
    ensures |loot.meats| <= |r.meats| <= |loot.meats| + 1
    ensures |loot.explosions| <= |r.explosions| <= |loot.explosions| + 1
    ensures r.mushrooms[..|loot.mushrooms|] == loot.mushrooms
    ensures r.meats[..|loot.meats|] == loot.meats
    ensures r.explosions[..|loot.explosions|] == loot.explosions
    ensures (|r.mushrooms| > |loot.mushrooms|) == (roll.mushroomRoll <= MushroomDropChance * Level(level).dropBonus)
    ensures (|r.meats| > |loot.meats|) == (roll.meatRoll <= MeatDropChance * Level(level).dropBonus)
    ensures (|r.explosions| > |loot.explosions|) == (roll.explosionRoll < Level(level).explosionChance)
    ensures forall k :: |loot.mushrooms| <= k < |r.mushrooms| ==> !r.mushrooms[k].isDestroyed
    ensures forall k :: |loot.meats| <= k < |r.meats| ==> !r.meats[k].isDestroyed
    ensures forall k :: |loot.explosions| <= k < |r.explosions| ==>
      r.explosions[k].frame == 0 && !r.explosions[k].hasDealtDamage && !r.explosions[k].isFinished
  {
    var bonus := Level(level).dropBonus;
    var pos := DropPosition(v, roll, a);
    var item := MapItem(pos.0, pos.1, false);
    var mushrooms := if roll.mushroomRoll <= MushroomDropChance * bonus then loot.mushrooms + [item] else loot.mushrooms;
    var meats := if roll.meatRoll <= MeatDropChance * bonus then loot.meats + [item] else loot.meats;
    var blast := Explosion(v.x + roll.rectWidth / 2.0 - a.ExplosionWidth() / 2.0,
                           v.y + roll.rectHeight / 2.0 - a.ExplosionHeight() / 2.0, 0, now, false, false);
    var explosions := if roll.explosionRoll < Level(level).explosionChance then loot.explosions + [blast] else loot.explosions;
    Loot(mushrooms, meats, explosions)
  }

  /** The loot of several enemies dying in order, drawing rolls `start` onwards. */
  function DropAll(loot: Loot, dead: seq<EnemyView>, drops: nat -> DropRoll, start: nat, level: int, a: Arena, now: int): (r: Loot)
    requires ValidLevel(level)
    ensures |r.mushrooms| <= |loot.mushrooms| + |dead| && |r.meats| <= |loot.meats| + |dead|
    ensures |r.explosions| <= |loot.explosions| + |dead|
    decreases |dead|
  {
    if |dead| == 0 then loot
    else
      var n := |dead| - 1;
      DropItem(DropAll(loot, dead[..n], drops, start, level, a, now), dead[n], drops(start + n), level, a, now)
  }
}
