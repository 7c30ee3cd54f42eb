/** What the player's weapons and the goblins' explosions do, as functions on enemy
    views, arrows, explosions and the player record: `applyMeleeDamage`,
    `updateArrows` and `updateExplosions`. */
module CombatSpec {
  import opened Num
  import opened Seqs
  import opened Geometry
  import opened Levels
  import opened EnemyModel
  import opened GameTypes
  import opened PlayerSpec
  import opened EnemySpec

  datatype Option<T> = None | Some(value: T)

  // ---------------------------------------------------------------------------
  // Melee (`applyMeleeDamage`)

  /** The reach of a sword or lance swing: 60% of the sprite's width and 40% of its
      height, centred vertically, reaching a fifth of its own width past the front
      edge of the sprite. */
  function MeleeRect(p: Player, a: Arena): (r: Rect)
    ensures r.right - r.left == a.PlayerWidth() * 0.6 && r.bottom - r.top == a.PlayerHeight() * 0.4
    ensures r.CenterY() == PlayerCentreY(p, a)
    ensures p.facingLeft ==> r.left == p.x - (r.right - r.left) * 0.2
    ensures !p.facingLeft ==> r.right == p.x + a.PlayerWidth() + (r.right - r.left) * 0.2
  {
    var w := a.PlayerWidth();
    var h := a.PlayerHeight();
    var mw := w * 0.6;
    var mh := h * 0.4;
    var top := p.y + (h - mh) / 2.0;
    var left := if p.facingLeft then p.x - mw * 0.2 else p.x + w - mw * 0.8;
    Rect(left, top, left + mw, top + mh)
  }

  /** Turning round mirrors the reach about the sprite's vertical centre line. */
  lemma MeleeRectMirror(p: Player, a: Arena)
    ensures var l := MeleeRect(p.(facingLeft := true), a);
      var r := MeleeRect(p.(facingLeft := false), a);
      l.left + r.right == 2.0 * PlayerCentreX(p, a) && l.right + r.left == 2.0 * PlayerCentreX(p, a)
      && l.top == r.top && l.bottom == r.bottom
  {
  }

  /** The damage of a melee swing: the lance deals 3, the sword 2. */
  function MeleeDamage(t: AttackType): (d: int)
    ensures d > 0
    ensures t == LancerAttack ==> d == 3
    ensures t != LancerAttack ==> d == 2
  {
    if t == LancerAttack then DamageLancer else DamageWarrior
  }

  /** Whether a swing reaching `rect` hits the enemy: it must be standing and its
      hitbox must overlap the reach. */
  predicate Hit(v: EnemyView, rect: Rect, a: Arena)
  {
    !v.destroyed && Intersects(rect, EnemyHitbox(v, a))
  }

  /** One enemy after a swing: a hit takes `dmg` health, stopping at 0; nothing else
      about the enemy changes. */
  function Strike(v: EnemyView, rect: Rect, a: Arena, dmg: int): (r: EnemyView)
    requires dmg > 0
    ensures r == v.(health := r.health)
    ensures Hit(v, rect, a) ==> r.health == IMax(v.health - dmg, 0)
    ensures !Hit(v, rect, a) ==> r == v
  {
    if Hit(v, rect, a) then v.(health := IMax(v.health - dmg, 0)) else v
  }

  /** An enemy the swing has just killed: its health is gone but, unlike an arrow
      kill, it is not marked destroyed. */
  predicate IsSlain(v: EnemyView) { v.health == 0 && !v.destroyed }

  predicate NotSlain(v: EnemyView) { !IsSlain(v) }

  /** A sound enemy is slain by a swing exactly when the swing hits it and its health
      is no more than the damage. */
  lemma StrikeSlays(v: EnemyView, rect: Rect, a: Arena, dmg: int)
    requires ViewValid(v) && dmg > 0
    ensures IsSlain(Strike(v, rect, a, dmg)) <==> Hit(v, rect, a) && v.health <= dmg
    ensures ViewValid(Strike(v, rect, a, dmg)) || IsSlain(Strike(v, rect, a, dmg))
  {
  }

  /** The swing applied to every enemy in turn. */
  function Strikes(vs: seq<EnemyView>, rect: Rect, a: Arena, dmg: int): (r: seq<EnemyView>)
    requires dmg > 0
    ensures |r| == |vs| && forall k :: 0 <= k < |vs| ==> r[k] == Strike(vs[k], rect, a, dmg)
  {
    seq(|vs|, k requires 0 <= k < |vs| => Strike(vs[k], rect, a, dmg))
  }

  /** What a swing leaves behind: the enemies, the dropped loot, and how many died. */
  datatype MeleeOutcome = MeleeOutcome(enemies: seq<EnemyView>, loot: Loot, killed: nat)

  /** `applyMeleeDamage`: strike every standing enemy in reach; when some died, drop
      loot for each in order, remove them, count them, and spawn replacements up to
      the level's maximum but never more than died. Drops draw rolls from 0 onwards,
      spawns likewise. */
  function MeleeSpec(vs: seq<EnemyView>, p: Player, a: Arena, level: int, now: int,
                     loot: Loot, drops: nat -> DropRoll, spawns: nat -> SpawnRoll): (r: MeleeOutcome)
    requires ValidLevel(level) && a.Valid()
  {
    var struck := Strikes(vs, MeleeRect(p, a), a, MeleeDamage(p.attack));
    var killed := Filter(struck, IsSlain);
    if |killed| == 0 then MeleeOutcome(struck, loot, 0)
    else
      MeleeOutcome(Replace(struck, a, level, spawns, |killed|), DropAll(loot, killed, drops, 0, level, a, now), |killed|)
  }

  /** The enemies left once the slain are removed, followed by as many spawns, from
      rolls 0 onwards, as fit under the level's maximum but no more than `count`. */
  function Replace(struck: seq<EnemyView>, a: Arena, level: int, spawns: nat -> SpawnRoll, count: nat): (r: seq<EnemyView>)
    requires ValidLevel(level) && a.Valid()
  {
    var rest := Filter(struck, NotSlain);
    rest + RandomSpawns(level, a, spawns, 0, IMin(IMax(Level(level).maxEnemies - |rest|, 0), count))
  }

  /** After a swing every enemy is sound and none is left slain; the replacements
      never outnumber the dead, so the list never grows, and never push it past the
      level's maximum. */
  lemma MeleeKeepsEnemiesSound(vs: seq<EnemyView>, p: Player, a: Arena, level: int, now: int,
                               loot: Loot, drops: nat -> DropRoll, spawns: nat -> SpawnRoll)
    requires ValidLevel(level) && a.Valid()
    requires forall k :: 0 <= k < |vs| ==> ViewValid(vs[k])
    ensures var r := MeleeSpec(vs, p, a, level, now, loot, drops, spawns);
      (forall k :: 0 <= k < |r.enemies| ==> ViewValid(r.enemies[k]))
      && |r.enemies| <= |vs|
      && (|vs| <= Level(level).maxEnemies ==> |r.enemies| <= Level(level).maxEnemies)
  {
    var dmg := MeleeDamage(p.attack);
    var struck := Strikes(vs, MeleeRect(p, a), a, dmg);
    forall k | 0 <= k < |struck|
      ensures ViewValid(struck[k]) || IsSlain(struck[k])
    {
      StrikeSlays(vs[k], MeleeRect(p, a), a, dmg);
    }
    var killed := Filter(struck, IsSlain);
    if |killed| == 0 {
      CountNoneSound(struck);
    } else {
      var rest := Filter(struck, NotSlain);
      FilterSound(struck);
      SlainSplit(struck);
      var n := IMin(IMax(Level(level).maxEnemies - |rest|, 0), |killed|);
      var more := RandomSpawns(level, a, spawns, 0, n);
      assert MeleeSpec(vs, p, a, level, now, loot, drops, spawns).enemies == Replace(struck, a, level, spawns, |killed|) == rest + more;
      forall k | 0 <= k < |rest + more|
        ensures ViewValid((rest + more)[k])
      {
        if k >= |rest| {
          assert (rest + more)[k] == more[k - |rest|];
        }
      }
    }
  }

  /** A swing's drops keep the loot sound. */
  lemma MeleeKeepsLootOk(vs: seq<EnemyView>, p: Player, a: Arena, level: int, now: int,
                         loot: Loot, drops: nat -> DropRoll, spawns: nat -> SpawnRoll)
    requires ValidLevel(level) && a.Valid() && LootOk(loot)
    ensures LootOk(MeleeSpec(vs, p, a, level, now, loot, drops, spawns).loot)
  {
    DropAllKeepsLootOk(loot, Filter(Strikes(vs, MeleeRect(p, a), a, MeleeDamage(p.attack)), IsSlain), drops, 0, level, a, now);
  }

  /** With nobody slain, every struck enemy is sound. */
  lemma CountNoneSound(struck: seq<EnemyView>)
    requires forall k :: 0 <= k < |struck| ==> ViewValid(struck[k]) || IsSlain(struck[k])
    requires |Filter(struck, IsSlain)| == 0
    ensures forall k :: 0 <= k < |struck| ==> ViewValid(struck[k])
  {
    forall k | 0 <= k < |struck|
      ensures ViewValid(struck[k])
    {
      if IsSlain(struck[k]) {
        CountPositive(struck, k, IsSlain);
      }
    }
  }

  /** An element satisfying `f` is counted. */
  lemma {:induction false} CountPositive(s: seq<EnemyView>, k: int, f: EnemyView -> bool)
    requires 0 <= k < |s| && f(s[k])
    ensures Count(s, f) > 0
    decreases |s|
  {
    if k < |s| - 1 {
      CountPositive(s[..|s| - 1], k, f);
    }
  }

  /** What survives the removal of the slain is sound. */
  lemma {:induction false} FilterSound(struck: seq<EnemyView>)
    requires forall k :: 0 <= k < |struck| ==> ViewValid(struck[k]) || IsSlain(struck[k])
    ensures forall k :: 0 <= k < |Filter(struck, NotSlain)| ==> ViewValid(Filter(struck, NotSlain)[k])
    decreases |struck|
  {
    if |struck| > 0 {
      var n := |struck| - 1;
      FilterSound(struck[..n]);
    }
  }

  /** Every enemy is either slain or kept. */
  lemma {:induction false} SlainSplit(s: seq<EnemyView>)
    ensures Count(s, IsSlain) + Count(s, NotSlain) == |s|
    decreases |s|
  {
    if |s| > 0 {
      SlainSplit(s[..|s| - 1]);
    }
  }

  /** The kill count of a swing is the number of standing enemies in reach whose
      health was no more than the damage. */
  lemma MeleeKillCount(vs: seq<EnemyView>, p: Player, a: Arena, level: int, now: int,
                       loot: Loot, drops: nat -> DropRoll, spawns: nat -> SpawnRoll)
    requires ValidLevel(level) && a.Valid()
    requires forall k :: 0 <= k < |vs| ==> ViewValid(vs[k])
    ensures var rect := MeleeRect(p, a);
      var dmg := MeleeDamage(p.attack);
      MeleeSpec(vs, p, a, level, now, loot, drops, spawns).killed
        == Count(vs, v => Hit(v, rect, a) && v.health <= dmg)
  {
    var rect := MeleeRect(p, a);
    var dmg := MeleeDamage(p.attack);
    var struck := Strikes(vs, rect, a, dmg);
    forall k | 0 <= k < |struck|
      ensures IsSlain(struck[k]) == (Hit(vs[k], rect, a) && vs[k].health <= dmg)
    {
      StrikeSlays(vs[k], rect, a, dmg);
    }
    CountPointwise(struck, vs, IsSlain, v => Hit(v, rect, a) && v.health <= dmg);
  }

  /** A swing that kills nobody leaves the loot alone and brings in nobody. */
  lemma MeleeWithoutKills(vs: seq<EnemyView>, p: Player, a: Arena, level: int, now: int,
                          loot: Loot, drops: nat -> DropRoll, spawns: nat -> SpawnRoll)
    requires ValidLevel(level) && a.Valid()
    requires MeleeSpec(vs, p, a, level, now, loot, drops, spawns).killed == 0
    ensures var r := MeleeSpec(vs, p, a, level, now, loot, drops, spawns);
      r.loot == loot && |r.enemies| == |vs|
      && forall k :: 0 <= k < |vs| ==> r.enemies[k] == Strike(vs[k], MeleeRect(p, a), a, MeleeDamage(p.attack))
  {
  }

  /** Dropped loot is sound: every item still lies on the field and every explosion
      is sound. */
  predicate LootOk(l: Loot)
  {
    (forall k :: 0 <= k < |l.mushrooms| ==> IsLying(l.mushrooms[k]))
    && (forall k :: 0 <= k < |l.meats| ==> IsLying(l.meats[k]))
    && (forall k :: 0 <= k < |l.explosions| ==> ExplosionOk(l.explosions[k]))
  }

  /** One drop keeps the loot sound. */
  lemma DropItemKeepsLootOk(l: Loot, v: EnemyView, roll: DropRoll, level: int, a: Arena, now: int)
    requires ValidLevel(level) && LootOk(l)
    ensures LootOk(DropItem(l, v, roll, level, a, now))
  {
    var r := DropItem(l, v, roll, level, a, now);
    forall k | 0 <= k < |r.mushrooms|
      ensures IsLying(r.mushrooms[k])
    {
      if k < |l.mushrooms| {
        assert r.mushrooms[k] == r.mushrooms[..|l.mushrooms|][k];
      }
    }
    forall k | 0 <= k < |r.meats|
      ensures IsLying(r.meats[k])
    {
      if k < |l.meats| {
        assert r.meats[k] == r.meats[..|l.meats|][k];
      }
    }
    forall k | 0 <= k < |r.explosions|
      ensures ExplosionOk(r.explosions[k])
    {
      if k < |l.explosions| {
        assert r.explosions[k] == r.explosions[..|l.explosions|][k];
      }
    }
  }

  /** The drops of several deaths keep the loot sound. */
  lemma {:induction false} DropAllKeepsLootOk(l: Loot, dead: seq<EnemyView>, drops: nat -> DropRoll, start: nat,
                                              level: int, a: Arena, now: int)
    requires ValidLevel(level) && LootOk(l)
    ensures LootOk(DropAll(l, dead, drops, start, level, a, now))
    decreases |dead|
  {
    if |dead| > 0 {
      var n := |dead| - 1;
      DropAllKeepsLootOk(l, dead[..n], drops, start, level, a, now);
      DropItemKeepsLootOk(DropAll(l, dead[..n], drops, start, level, a, now), dead[n], drops(start + n), level, a, now);
    }
  }

  // ---------------------------------------------------------------------------
  // Arrows (`updateArrows`)

  /** An arrow after one frame of flight, by its speed in its direction. */
  function FlyArrow(ar: Arrow): (r: Arrow)
    ensures r == ar.(x := r.x)
    ensures ar.movingLeft ==> r.x == ar.x - ar.speed
    ensures !ar.movingLeft ==> r.x == ar.x + ar.speed
  {
    ar.(x := if ar.movingLeft then ar.x - ar.speed else ar.x + ar.speed)
  }

  /** An arrow wholly past the left edge or starting past the right edge. */
  predicate OffScreen(ar: Arrow, a: Arena)
  {
    ar.x + a.ArrowWidth() < 0.0 || ar.x > a.width as real
  }

  /** The arrow's drawn box. */
  function ArrowRect(ar: Arrow, a: Arena): Rect
  {
    Box(ar.x, ar.y, a.ArrowWidth(), a.ArrowHeight())
  }

  /** An arrow with box `rect` can hit a standing enemy whose hitbox it overlaps. */
  predicate Struck(v: EnemyView, rect: Rect, a: Arena)
  {
    IsAlive(v) && Intersects(rect, EnemyHitbox(v, a))
  }

  /** The first enemy in list order that an arrow with box `rect` hits, if any. */
  function FirstHit(vs: seq<EnemyView>, rect: Rect, a: Arena): (r: Option<nat>)
    ensures r.Some? ==> r.value < |vs| && Struck(vs[r.value], rect, a)
                        && forall j :: 0 <= j < r.value ==> !Struck(vs[j], rect, a)
    ensures r.None? ==> forall j :: 0 <= j < |vs| ==> !Struck(vs[j], rect, a)
    decreases |vs|
  {
    if |vs| == 0 then None
    else if Struck(vs[0], rect, a) then Some(0)
    else match FirstHit(vs[1..], rect, a)
      case None => assert forall j :: 1 <= j < |vs| ==> vs[j] == vs[1..][j - 1]; None
      case Some(k) => assert forall j :: 1 <= j <= k ==> vs[j] == vs[1..][j - 1]; Some(k + 1)
  }

  /** An enemy hit by an arrow: one health less, stopping at 0, and destroyed when
      none is left. */
  function ArrowHit(v: EnemyView): (r: EnemyView)
    ensures SameKind(v, r) && r.health == IMax(v.health - DamageArcher, 0)
    ensures ViewValid(v) && IsAlive(v) ==>
              ViewValid(r) && r.health == v.health - DamageArcher && (r.destroyed <==> v.health == DamageArcher)
  {
    var h := IMax(v.health - DamageArcher, 0);
    v.(health := h, destroyed := h == 0)
  }

  /** Everything of an enemy but its health and destroyed flag. */
  predicate SameKind(v: EnemyView, w: EnemyView)
  {
    w == v.(health := w.health, destroyed := w.destroyed)
  }

  /** The state threaded through the arrow loop: the enemies, the arrows still
      flying, the loot dropped so far, the kills counted so far, and how many drop
      rolls have been used. */
  datatype Volley = Volley(enemies: seq<EnemyView>, arrows: seq<Arrow>, loot: Loot, kills: nat, rolls: nat)

  /** One arrow of `updateArrows`: it flies; off screen it is removed; otherwise the
      first standing enemy it hits loses a health point (dying, dropping loot and
      counting as a kill at 0) and the arrow is removed; an arrow that hits nothing
      flies on. */
  function ArrowStep(s: Volley, ar: Arrow, a: Arena, level: int, now: int, drops: nat -> DropRoll): (r: Volley)
    requires ValidLevel(level)
    ensures |r.enemies| == |s.enemies|
  {
    var m := FlyArrow(ar);
    if OffScreen(m, a) then s
    else match FirstHit(s.enemies, ArrowRect(m, a), a)
      case None => s.(arrows := s.arrows + [m])
      case Some(k) =>
        var v := ArrowHit(s.enemies[k]);
        if v.destroyed then
          Volley(s.enemies[k := v], s.arrows, DropItem(s.loot, v, drops(s.rolls), level, a, now),
                 s.kills + 1, s.rolls + 1)
        else s.(enemies := s.enemies[k := v])
  }

  /** An arrow keeps every enemy sound, adds at most itself to the flying arrows,
      and counts exactly the enemies it kills: the standing enemies plus the kills
      stay the same. */
  lemma ArrowStepKeeps(s: Volley, ar: Arrow, a: Arena, level: int, now: int, drops: nat -> DropRoll)
    requires ValidLevel(level)
    requires forall k :: 0 <= k < |s.enemies| ==> ViewValid(s.enemies[k])
    ensures var r := ArrowStep(s, ar, a, level, now, drops);
      |r.enemies| == |s.enemies|
      && (forall k :: 0 <= k < |r.enemies| ==> ViewValid(r.enemies[k]) && SameKind(s.enemies[k], r.enemies[k]))
      && Count(r.enemies, IsAlive) + r.kills == Count(s.enemies, IsAlive) + s.kills
      && r.rolls - s.rolls == r.kills - s.kills
      && (r.arrows == s.arrows || r.arrows == s.arrows + [FlyArrow(ar)])
  {
    var m := FlyArrow(ar);
    if !OffScreen(m, a) {
      var hit := FirstHit(s.enemies, ArrowRect(m, a), a);
      if hit.Some? {
        var k := hit.value;
        CountUpdate(s.enemies, k, ArrowHit(s.enemies[k]), IsAlive);
      }
    }
  }

  /** An arrow that hits nothing flies on, and one that hits is spent. */
  lemma ArrowStepFate(s: Volley, ar: Arrow, a: Arena, level: int, now: int, drops: nat -> DropRoll)
    requires ValidLevel(level)
    requires forall k :: 0 <= k < |s.enemies| ==> ViewValid(s.enemies[k])
    ensures var m := FlyArrow(ar);
      var r := ArrowStep(s, ar, a, level, now, drops);
      (r.arrows == s.arrows + [m]) <==> !OffScreen(m, a) && FirstHit(s.enemies, ArrowRect(m, a), a).None?
  {
  }

  /** `updateArrows`: the arrows in list order, each one seeing the enemies as the
      arrows before it left them. */
  function Volleys(s: Volley, ars: seq<Arrow>, a: Arena, level: int, now: int, drops: nat -> DropRoll): (r: Volley)
    requires ValidLevel(level)
    ensures |r.enemies| == |s.enemies|
    decreases |ars|
  {
    if |ars| == 0 then s
    else ArrowStep(Volleys(s, ars[..|ars| - 1], a, level, now, drops), ars[|ars| - 1], a, level, now, drops)
  }

  /** One arrow keeps the loot sound. */
  lemma ArrowStepKeepsLootOk(s: Volley, ar: Arrow, a: Arena, level: int, now: int, drops: nat -> DropRoll)
    requires ValidLevel(level) && LootOk(s.loot)
    ensures LootOk(ArrowStep(s, ar, a, level, now, drops).loot)
  {
    var m := FlyArrow(ar);
    if !OffScreen(m, a) {
      var hit := FirstHit(s.enemies, ArrowRect(m, a), a);
      if hit.Some? && ArrowHit(s.enemies[hit.value]).destroyed {
        DropItemKeepsLootOk(s.loot, ArrowHit(s.enemies[hit.value]), drops(s.rolls), level, a, now);
      }
    }
  }

  /** The arrow loop keeps every enemy and the loot sound. */
  lemma {:induction false} VolleysSound(s: Volley, ars: seq<Arrow>, a: Arena, level: int, now: int, drops: nat -> DropRoll)
    requires ValidLevel(level)
    requires forall k :: 0 <= k < |s.enemies| ==> ViewValid(s.enemies[k])
    ensures var r := Volleys(s, ars, a, level, now, drops);
      (forall k :: 0 <= k < |r.enemies| ==> ViewValid(r.enemies[k])) && (LootOk(s.loot) ==> LootOk(r.loot))
    decreases |ars|
  {
    if |ars| > 0 {
      var prev := Volleys(s, ars[..|ars| - 1], a, level, now, drops);
      VolleysSound(s, ars[..|ars| - 1], a, level, now, drops);
      assert forall k :: 0 <= k < |prev.enemies| ==> ViewValid(prev.enemies[k]) by {
        forall k | 0 <= k < |prev.enemies|
          ensures ViewValid(prev.enemies[k])
        {
          assert ViewValid(Volleys(s, ars[..|ars| - 1], a, level, now, drops).enemies[k]);
        }
      }
      ArrowStepKeeps(prev, ars[|ars| - 1], a, level, now, drops);
      if LootOk(s.loot) {
        ArrowStepKeepsLootOk(prev, ars[|ars| - 1], a, level, now, drops);
      }
    }
  }

  /** Over the whole arrow loop: no arrow is invented, no kill is missed or counted
      twice, one drop roll is used per kill, and every enemy keeps everything but its
      health and destroyed flag. */
  lemma {:induction false} VolleysAccount(s: Volley, ars: seq<Arrow>, a: Arena, level: int, now: int, drops: nat -> DropRoll)
    requires ValidLevel(level)
    requires forall k :: 0 <= k < |s.enemies| ==> ViewValid(s.enemies[k])
    ensures var r := Volleys(s, ars, a, level, now, drops);
      |r.arrows| <= |s.arrows| + |ars|
      && Count(r.enemies, IsAlive) + r.kills == Count(s.enemies, IsAlive) + s.kills
      && r.rolls - s.rolls == r.kills - s.kills
      && forall k :: 0 <= k < |r.enemies| ==> SameKind(s.enemies[k], r.enemies[k])
    decreases |ars|
  {
    if |ars| > 0 {
      var prev := Volleys(s, ars[..|ars| - 1], a, level, now, drops);
      VolleysAccount(s, ars[..|ars| - 1], a, level, now, drops);
      VolleysSound(s, ars[..|ars| - 1], a, level, now, drops);
      ArrowStepKeeps(prev, ars[|ars| - 1], a, level, now, drops);
    }
  }

  // ---------------------------------------------------------------------------
  // Explosions (`updateExplosions`)

  /** An explosion is sound when its frame is on the sheet or one past it, it is
      finished exactly on the frame past the sheet, and it has dealt its damage
      exactly from the damage frame on. */
  predicate ExplosionOk(e: Explosion)
  {
    0 <= e.frame <= ExplosionTotalFrames
    && (e.isFinished <==> e.frame == ExplosionTotalFrames)
    && (e.hasDealtDamage <==> e.frame >= ExplosionDamageFrame)
  }

  /** An explosion still on screen. */
  predicate Burning(e: Explosion) { !e.isFinished }

  /** The player's centre is within the blast radius of the explosion's centre
      (the source's square root comparison written on the squares). */
  predicate InBlast(e: Explosion, p: Player, a: Arena)
  {
    var dx := PlayerCentreX(p, a) - (e.x + a.ExplosionWidth() / 2.0);
    var dy := PlayerCentreY(p, a) - (e.y + a.ExplosionHeight() / 2.0);
    dx * dx + dy * dy <= ExplosionRadius * ExplosionRadius
  }

  /** One explosion of `updateExplosions`: a finished one is removed; after the frame
      duration it advances a frame and, past the last, finishes; on the damage frame
      it deals its one blast, absorbed by the shield or taken (guarded) as health. */
  function StepExplosion(e: Explosion, p: Player, a: Arena, now: int): (r: (Option<Explosion>, Player))
    ensures e.isFinished <==> r.0.None?
    ensures r.1 == p || r.1 == TakeHit(p, ExplosionDamage)
    ensures r.1 != p ==> !e.hasDealtDamage && r.0.Some? && r.0.value.hasDealtDamage
                         && r.0.value.frame == ExplosionDamageFrame && InBlast(r.0.value, p, a)
  {
    if e.isFinished then (None, p)
    else
      var due := now - e.frameTimer > ExplosionFrameDurationMs;
      var e1 := if due then e.(frame := e.frame + 1, frameTimer := now) else e;
      if due && e1.frame >= ExplosionTotalFrames then (Some(e1.(isFinished := true)), p)
      else if e1.frame == ExplosionDamageFrame && !e1.hasDealtDamage then
        (Some(e1.(hasDealtDamage := true)), if InBlast(e1, p, a) then TakeHit(p, ExplosionDamage) else p)
      else (Some(e1), p)
  }

  /** A sound explosion stays sound, and once it has dealt damage it never hurts
      again. */
  lemma StepExplosionKeepsOk(e: Explosion, p: Player, a: Arena, now: int)
    requires ExplosionOk(e)
    ensures var r := StepExplosion(e, p, a, now);
      (r.0.Some? ==> ExplosionOk(r.0.value) && r.0.value.frame - e.frame <= 1)
      && (e.hasDealtDamage ==> r.1 == p)
  {
  }

  /** An explosion on its last frame finishes once its frame time is up, and is then
      removed by the next pass. */
  lemma ExplosionFinishes(e: Explosion, p: Player, a: Arena, now: int, later: int, q: Player)
    requires ExplosionOk(e) && !e.isFinished && e.frame == ExplosionTotalFrames - 1
    requires now - e.frameTimer > ExplosionFrameDurationMs
    ensures var r := StepExplosion(e, p, a, now);
      r.0.Some? && r.0.value.isFinished && r.1 == p
      && StepExplosion(r.0.value, q, a, later).0.None?
  {
  }

  /** `updateExplosions`: every explosion in list order, the player threaded through. */
  function StepExplosions(es: seq<Explosion>, p: Player, a: Arena, now: int): (r: (seq<Explosion>, Player))
    ensures |r.0| <= |es|
    decreases |es|
  {
    if |es| == 0 then ([], p)
    else
      var prev := StepExplosions(es[..|es| - 1], p, a, now);
      var last := StepExplosion(es[|es| - 1], prev.1, a, now);
      (prev.0 + (if last.0.Some? then [last.0.value] else []), last.1)
  }

  /** The explosion pass keeps every explosion sound, removes exactly the finished
      ones, and only ever hurts the player through the shield or the health, never
      recording a hit time. */
  lemma {:induction false} StepExplosionsKeep(es: seq<Explosion>, p: Player, a: Arena, now: int)
    requires forall k :: 0 <= k < |es| ==> ExplosionOk(es[k])
    requires 0.0 <= p.health
    ensures var r := StepExplosions(es, p, a, now);
      (forall k :: 0 <= k < |r.0| ==> ExplosionOk(r.0[k]))
      && |r.0| == Count(es, Burning)
      && r.1 == p.(health := r.1.health, hasShield := r.1.hasShield)
      && 0.0 <= r.1.health <= p.health
    decreases |es|
  {
    if |es| > 0 {
      var n := |es| - 1;
      StepExplosionsKeep(es[..n], p, a, now);
      var prev := StepExplosions(es[..n], p, a, now);
      StepExplosionKeepsOk(es[n], prev.1, a, now);
      var last := StepExplosion(es[n], prev.1, a, now);
      var tail := if last.0.Some? then [last.0.value] else [];
      assert StepExplosions(es, p, a, now).0 == prev.0 + tail;
      forall k | 0 <= k < |prev.0 + tail|
        ensures ExplosionOk((prev.0 + tail)[k])
      {
        if k >= |prev.0| {
          assert (prev.0 + tail)[k] == last.0.value;
        }
      }
    }
  }
}
