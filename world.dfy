/** GameView as a class: the gameplay fields it updates in place, the enemies as
    shared `Enemy` objects, and one method per update, input and lifecycle call,
    each proved to do what the matching function of GameSpec says. */
module GameWorld {
  import opened Num
  import opened Seqs
  import opened Geometry
  import opened Levels
  import opened EnemyModel
  import opened GameTypes
  import opened PlayerSpec
  import opened EnemySpec
  import opened CombatSpec
  import opened GameSpec
  import opened FrameLoops

  // ---------------------------------------------------------------------------
  // One enemy, in place (the body of the loop in `updateEnemies`)

  /** The patrol step on the enemy object. */
  method PatrolEnemy(e: Enemy, a: Arena, mult: real)
    modifies e`x, e`facingLeft
    ensures e.View() == Patrol(old(e.View()), a, mult)
  {
    var v := e.View();
    if v.state != Attack {
      var speed := v.speed * mult;
      var x := if v.movingLeft then v.x - speed else v.x + speed;
      var spriteWidth := a.EnemyWidth(v.kind);
      var quickOffset := spriteWidth * 0.25;
      if x + spriteWidth < 0.0 {
        x := a.width as real - quickOffset;
      }
      if x > a.width as real {
        x := -spriteWidth + quickOffset;
      }
      e.x := x;
      e.facingLeft := v.movingLeft;
    }
  }

  /** The attack decision on the enemy object. */
  method EngageEnemy(e: Enemy, p: Player, a: Arena)
    modifies e`state, e`facingLeft
    ensures e.View() == Engage(old(e.View()), p, a)
  {
    var v := e.View();
    var enemyCenterX := v.x + a.EnemyWidth(v.kind) / 2.0;
    var enemyCenterY := v.y + a.EnemyHeight(v.kind) / 2.0;
    var playerCenterX := p.x + a.PlayerWidth() / 2.0;
    var playerCenterY := p.y + a.PlayerHeight() / 2.0;
    var shouldAttack := Abs(playerCenterX - enemyCenterX) < a.EnemyWidth(v.kind) * AttackRangeRatio
                        && Abs(playerCenterY - enemyCenterY) < a.EnemyHeight(v.kind) * AttackRangeRatio;
    if v.state == Attack {
      if shouldAttack {
        e.facingLeft := playerCenterX < enemyCenterX;
      }
    } else if shouldAttack {
      e.state := Attack;
      e.facingLeft := playerCenterX < enemyCenterX;
    } else {
      e.state := Move;
    }
  }

  /** The enemy animation on the enemy object. */
  method AnimateEnemyInPlace(e: Enemy, now: int)
    modifies e`currentFrame, e`frameTimerMs, e`attackReady, e`state, e`dealtDamageThisAttack
    ensures e.View() == AnimateEnemy(old(e.View()), now)
  {
    var v := e.View();
    if now - v.frameTimer > EnemyFrameDurationMs(v.kind) {
      if v.state == Attack || v.state == Move {
        var f := KRem(v.frame + 1, EnemyColumns(v.kind, v.state));
        e.currentFrame := f;
        if f == 0 {
          if v.state == Attack {
            e.attackReady := true;
            e.state := Move;
          }
          e.dealtDamageThisAttack := false;
        }
      } else {
        e.currentFrame := 0;
      }
      e.frameTimerMs := now;
    }
  }

  /** The contact check of one enemy against the player, who comes back updated. */
  method TouchEnemy(e: Enemy, p: Player, a: Arena, now: int) returns (q: Player)
    modifies e`dealtDamageThisAttack, e`attackReady
    ensures (e.View(), q) == Contact(old(e.View()), p, a, now)
  {
    q := p;
    if Intersects(PlayerBox(p, a), EnemyHitbox(e.View(), a)) {
      var canDamage := if e.state == Attack then e.attackReady && !e.dealtDamageThisAttack
                       else now - p.lastHitTime > HitCooldownMs;
      if canDamage {
        if p.hasShield {
          q := p.(hasShield := false);
        } else {
          q := TakeHit(p, ContactDamage).(lastHitTime := now);
        }
        if e.state == Attack {
          e.dealtDamageThisAttack := true;
          e.attackReady := false;
        }
      }
    }
  }

  /** The body of the `for (enemy in enemies)` loop of `updateEnemies` on one enemy:
      a destroyed enemy is skipped, any other patrols, decides, animates and touches. */
  method StepEnemyObject(e: Enemy, p: Player, a: Arena, now: int, mult: real) returns (q: Player)
    modifies e
    ensures (e.View(), q) == StepEnemy(old(e.View()), p, a, mult, now)
  {
    q := p;
    if !e.isDestroyed {
      PatrolEnemy(e, a, mult);
      EngageEnemy(e, p, a);
      AnimateEnemyInPlace(e, now);
      q := TouchEnemy(e, p, a, now);
    }
  }

  /** The loop body at position `i` of a list with no enemy listed twice: only that
      enemy changes, and the pass over the first `i + 1` views is done. */
  method StepOne(es: seq<Enemy>, i: int, p: Player, a: Arena, now: int, mult: real,
                 ghost vs: seq<EnemyView>, ghost p0: Player, ghost acc: seq<EnemyView>)
    returns (q: Player, ghost w: EnemyView)
    requires 0 <= i < |es| == |vs| && Distinct(es) && |acc| == i
    requires EnemyPass(vs[..i], p0, a, mult, now) == (acc, p) && ViewsOf(es) == acc + vs[i..]
    modifies es[i]
    ensures EnemyPass(vs[..i + 1], p0, a, mult, now) == (acc + [w], q)
    ensures ViewsOf(es) == (acc + [w]) + vs[i + 1..]
  {
    ghost var before := ViewsOf(es);
    assert es[i].View() == vs[i];
    ghost var r := StepEnemy(vs[i], p, a, mult, now);
    q := StepEnemyObject(es[i], p, a, now, mult);
    w := r.0;
    assert forall k :: 0 <= k < |es| && k != i ==> es[k].View() == before[k];
    EnemyPassStep(vs, i, p0, a, mult, now, acc, p, ViewsOf(es), r);
  }

  /** The `for (enemy in enemies)` loop of `updateEnemies`: each enemy in turn, with
      the player as the previous ones left it. */
  method StepEnemies(es: seq<Enemy>, p: Player, a: Arena, now: int, mult: real) returns (q: Player)
    requires Distinct(es)
    modifies es
    ensures (ViewsOf(es), q) == EnemyPass(old(ViewsOf(es)), p, a, mult, now)
  {
    ghost var vs := ViewsOf(es);
    ghost var acc: seq<EnemyView> := [];
    q := p;
    var i := 0;
    while i < |es|
      invariant 0 <= i <= |es| && |acc| == i
      invariant EnemyPass(vs[..i], p, a, mult, now) == (acc, q)
      invariant ViewsOf(es) == acc + vs[i..]
    {
      ghost var w;
      q, w := StepOne(es, i, q, a, now, mult, vs, p, acc);
      acc := acc + [w];
      i := i + 1;
    }
    EnemyPassDone(vs, p, a, mult, now, acc, q, i);
    assert acc + vs[i..] == acc;
  }

  /** `enemies.count { !it.isDestroyed }`. */
  method CountLiving(es: seq<Enemy>) returns (n: nat)
    ensures n == Count(ViewsOf(es), IsAlive)
  {
    ghost var vs := ViewsOf(es);
    n := 0;
    var i := 0;
    while i < |es|
      invariant 0 <= i <= |es|
      invariant n == Count(vs[..i], IsAlive)
    {
      if !es[i].isDestroyed {
        n := n + 1;
      }
      assert vs[..i + 1][..i] == vs[..i];
      i := i + 1;
    }
    assert vs[..|es|] == vs;
  }

  /** The enemies whose view satisfies `f`, in order: what `removeAll` of the others
      leaves. */
  method Keep(es: seq<Enemy>, f: EnemyView -> bool) returns (kept: seq<Enemy>)
    requires Distinct(es)
    ensures ViewsOf(kept) == Filter(ViewsOf(es), f)
    ensures Distinct(kept) && forall k :: 0 <= k < |kept| ==> kept[k] in es
  {
    ghost var vs := ViewsOf(es);
    kept := [];
    var i := 0;
    while i < |es|
      invariant 0 <= i <= |es|
      invariant ViewsOf(kept) == Filter(vs[..i], f)
      invariant Distinct(kept) && forall k :: 0 <= k < |kept| ==> kept[k] in es[..i]
    {
      assert vs[..i + 1][..i] == vs[..i];
      if f(es[i].View()) {
        ViewsOfAppend(kept, es[i]);
        assert es[i] !in es[..i];
        kept := kept + [es[i]];
      }
      assert forall e :: e in es[..i] ==> e in es[..i + 1];
      i := i + 1;
    }
    assert vs[..|es|] == vs;
    assert es[..|es|] == es;
  }

  /** The views of a list with one more enemy. */
  lemma ViewsOfAppend(es: seq<Enemy>, e: Enemy)
    ensures ViewsOf(es + [e]) == ViewsOf(es) + [e.View()]
  {
    assert forall k :: 0 <= k < |es| ==> (es + [e])[k] == es[k];
  }

  /** One more element of a prefix, for the left-to-right folds. */
  lemma StepAllNext(vs: seq<EnemyView>, i: int, p: Player, f: (EnemyView, Player) -> (EnemyView, Player))
    requires 0 <= i < |vs|
    ensures var prev := StepAll(vs[..i], p, f);
      StepAll(vs[..i + 1], p, f) == (prev.0 + [f(vs[i], prev.1).0], f(vs[i], prev.1).1)
  {
    assert vs[..i + 1][..i] == vs[..i];
  }

  /** One pass of a left-to-right fold over a list being rewritten in place: the
      prefix done so far grows by the new element, and the list now holds it. */
  lemma FoldStep(vs: seq<EnemyView>, i: int, p0: Player, f: (EnemyView, Player) -> (EnemyView, Player),
                 acc: seq<EnemyView>, p: Player, now: seq<EnemyView>, r: (EnemyView, Player))
    requires 0 <= i < |vs| && |acc| == i
    requires StepAll(vs[..i], p0, f) == (acc, p) && r == f(vs[i], p)
    requires now == (acc + vs[i..])[i := r.0]
    ensures StepAll(vs[..i + 1], p0, f) == (acc + [r.0], r.1)
    ensures now == (acc + [r.0]) + vs[i + 1..]
  {
    StepAllNext(vs, i, p0, f);
    assert vs[i..][1..] == vs[i + 1..];
  }

  /** The pass over the whole list, once the loop has reached its end. */
  lemma EnemyPassDone(vs: seq<EnemyView>, p: Player, a: Arena, mult: real, now: int, acc: seq<EnemyView>, q: Player, i: int)
    requires i == |vs| && EnemyPass(vs[..i], p, a, mult, now) == (acc, q)
    ensures EnemyPass(vs, p, a, mult, now) == (acc, q)
  {
    assert vs[..i] == vs;
  }

  /** `FoldStep` for the enemy loop of `updateEnemies`. */
  lemma EnemyPassStep(vs: seq<EnemyView>, i: int, p0: Player, a: Arena, mult: real, now: int,
                      acc: seq<EnemyView>, p: Player, cur: seq<EnemyView>, r: (EnemyView, Player))
    requires 0 <= i < |vs| && |acc| == i
    requires EnemyPass(vs[..i], p0, a, mult, now) == (acc, p) && r == StepEnemy(vs[i], p, a, mult, now)
    requires cur == (acc + vs[i..])[i := r.0]
    ensures EnemyPass(vs[..i + 1], p0, a, mult, now) == (acc + [r.0], r.1)
    ensures cur == (acc + [r.0]) + vs[i + 1..]
  {
    var f := EnemyLoop(a, mult, now);
    assert f(vs[i], p) == r;
    FoldStep(vs, i, p0, f, acc, p, cur, r);
  }

  /** The enemy object `spawnEnemy` creates: placed by the roll inside the arena, at
      the level's speed and health. */
  method NewEnemy(level: int, a: Arena, kind: EnemyType, roll: SpawnRoll) returns (e: Enemy)
    requires ValidLevel(level) && a.Valid()
    ensures fresh(e) && e.View() == SpawnView(level, a, kind, roll)
  {
    var maxX := Max(a.width as real - a.EnemyWidth(kind), 0.0);
    var maxY := Max(a.height as real - a.EnemyHeight(kind), 0.0);
    var hp := Level(level).maxHealthEnemy;
    e := new Enemy("enemy_", SpawnCoordinate(roll.xPick, maxX), SpawnCoordinate(roll.yPick, maxY), kind,
                   SpawnSpeed * Level(level).enemySpeedMultiplier, health := hp, maxHealth := hp);
    e.movingLeft := roll.movingLeft;
  }

  /** The three enemies every level opens with, a torch goblin, a pawn and a TNT
      goblin in that order, each a new object. */
  method StartingThree(level: int, a: Arena, spawns: nat -> SpawnRoll) returns (es: seq<Enemy>)
    requires ValidLevel(level) && a.Valid()
    ensures ViewsOf(es) == StartingEnemies(level, a, spawns)
    ensures Distinct(es) && fresh(set e | e in es)
  {
    var torch := NewEnemy(level, a, Torch, spawns(0));
    var warrior := NewEnemy(level, a, Warrior, spawns(1));
    var tnt := NewEnemy(level, a, Tnt, spawns(2));
    es := [torch, warrior, tnt];
    StartingEnemiesAre(level, a, spawns, ViewsOf(es));
  }

  lemma StartingEnemiesAre(level: int, a: Arena, spawns: nat -> SpawnRoll, vs: seq<EnemyView>)
    requires ValidLevel(level) && a.Valid() && |vs| == 3
    requires vs[0] == SpawnView(level, a, Torch, spawns(0)) && vs[1] == SpawnView(level, a, Warrior, spawns(1))
    requires vs[2] == SpawnView(level, a, Tnt, spawns(2))
    ensures vs == StartingEnemies(level, a, spawns)
  {
  }

  /** The first `j` of `n` spawns are the spawns of a shorter top-up. */
  lemma {:induction false} RandomSpawnsPrefix(level: int, a: Arena, spawns: nat -> SpawnRoll, start: nat, n: nat, j: nat)
    requires ValidLevel(level) && a.Valid() && j <= n
    ensures RandomSpawns(level, a, spawns, start, n)[..j] == RandomSpawns(level, a, spawns, start, j)
    decreases n
  {
    if j < n {
      RandomSpawnsPrefix(level, a, spawns, start, n - 1, j);
      assert RandomSpawns(level, a, spawns, start, n)[..n - 1] == RandomSpawns(level, a, spawns, start, n - 1);
    } else {
      assert RandomSpawns(level, a, spawns, start, n)[..j] == RandomSpawns(level, a, spawns, start, n);
    }
  }

  /** One more spawn appended to a list that already holds `j` of the `n` planned. */
  lemma RandomSpawnsNext(level: int, a: Arena, spawns: nat -> SpawnRoll, start: nat, n: nat, j: nat,
                         vs: seq<EnemyView>, views: seq<EnemyView>)
    requires ValidLevel(level) && a.Valid() && j < n
    requires views == vs + RandomSpawns(level, a, spawns, start, n)[..j]
    ensures views + [SpawnView(level, a, spawns(start + j).kind, spawns(start + j))]
            == vs + RandomSpawns(level, a, spawns, start, n)[..j + 1]
  {
    RandomSpawnsPrefix(level, a, spawns, start, n, j);
    RandomSpawnsPrefix(level, a, spawns, start, n, j + 1);
  }

  /** After the destroyed are removed, every enemy left counts as living, so the
      restock spawns the shortfall below the level's maximum. */
  lemma RefillIs(ws: seq<EnemyView>, a: Arena, level: int, spawns: nat -> SpawnRoll, start: nat,
                 living: seq<EnemyView>, alive: nat, refilled: seq<EnemyView>)
    requires ValidLevel(level) && a.Valid()
    requires living == Filter(ws, IsAlive) && alive == Count(living, IsAlive)
    requires refilled == living + RandomSpawns(level, a, spawns, start, IMax(Level(level).maxEnemies - alive, 0))
    ensures refilled == Restock(ws, a, level, spawns, start)
  {
    assert alive == |living| by {
      FilterAll(living, IsAlive);
    }
    var n := IMax(Level(level).maxEnemies - |living|, 0);
    assert Restock(ws, a, level, spawns, start) == living + RandomSpawns(level, a, spawns, start, n);
  }

  /** `updateEnemies` as its three stages: the first top-up, the loop, the restock. */
  lemma UpdateEnemiesStages(vs: seq<EnemyView>, p: Player, a: Arena, level: int, now: int, spawns: nat -> SpawnRoll,
                            first: nat, topped: seq<EnemyView>, restocked: seq<EnemyView>, hurt: Player)
    requires ValidLevel(level) && a.Valid()
    requires first == FirstTopUp(vs) && topped == vs + RandomSpawns(level, a, spawns, 0, first)
    requires var r := EnemyPass(topped, p, a, Level(level).enemySpeedMultiplier, now);
      restocked == Restock(r.0, a, level, spawns, first) && hurt == r.1
    ensures UpdateEnemiesSpec(vs, p, a, level, now, spawns) == (restocked, hurt)
  {
  }

  /** The inner `for (enemy in enemies)` of `updateArrows`: the first enemy, in list
      order, that is still standing and whose hitbox the arrow's box overlaps. */
  method FindTarget(es: seq<Enemy>, rect: Rect, a: Arena) returns (r: Option<nat>)
    ensures r == FirstHit(ViewsOf(es), rect, a)
  {
    ghost var vs := ViewsOf(es);
    var i := 0;
    while i < |es|
      invariant 0 <= i <= |es|
      invariant forall j :: 0 <= j < i ==> !Struck(vs[j], rect, a)
    {
      if !es[i].isDestroyed && Intersects(rect, EnemyHitbox(es[i].View(), a)) {
        return Some(i);
      }
      i := i + 1;
    }
    return None;
  }

  /** The arrow's damage on the enemy at `k`: `health` drops by one, not below 0, and
      at 0 the enemy is destroyed. */
  method ArrowStrike(es: seq<Enemy>, k: nat) returns (killed: bool)
    requires Distinct(es) && k < |es| && !es[k].isDestroyed
    modifies es[k]
    ensures ViewsOf(es) == old(ViewsOf(es))[k := ArrowHit(old(es[k].View()))]
    ensures killed == ArrowHit(old(es[k].View())).destroyed
  {
    ghost var before := ViewsOf(es);
    var e := es[k];
    e.health := IMax(e.health - DamageArcher, 0);
    killed := e.health == 0;
    if killed {
      e.isDestroyed := true;
    }
    assert forall j :: 0 <= j < |es| && j != k ==> es[j].View() == before[j];
  }

  /** The three outcomes of one arrow: off screen, flying on, or striking enemy `k`. */
  lemma ArrowStepCases(s: Volley, ar: Arrow, a: Arena, level: int, now: int, drops: nat -> DropRoll, hit: Option<nat>)
    requires ValidLevel(level)
    requires hit == FirstHit(s.enemies, ArrowRect(FlyArrow(ar), a), a)
    ensures var m := FlyArrow(ar); var r := ArrowStep(s, ar, a, level, now, drops);
      && (OffScreen(m, a) ==> r == s)
      && (!OffScreen(m, a) && hit.None? ==> r == s.(arrows := s.arrows + [m]))
      && (!OffScreen(m, a) && hit.Some? ==>
            var v := ArrowHit(s.enemies[hit.value]);
            r.enemies == s.enemies[hit.value := v] && r.arrows == s.arrows
            && r.loot == (if v.destroyed then DropItem(s.loot, v, drops(s.rolls), level, a, now) else s.loot)
            && r.kills == s.kills + (if v.destroyed then 1 else 0)
            && r.rolls == s.rolls + (if v.destroyed then 1 else 0))
  {
  }

  /** One enemy of the `for (enemy in enemies)` loop of `applyMeleeDamage`: a standing
      enemy whose hitbox the reach overlaps loses `dmg` health, not below 0; it is
      reported slain when none is left. */
  method StrikeEnemy(es: seq<Enemy>, i: nat, rect: Rect, a: Arena, dmg: int) returns (slain: bool)
    requires Distinct(es) && i < |es| && dmg > 0 && NotSlain(es[i].View())
    modifies es[i]
    ensures ViewsOf(es) == old(ViewsOf(es))[i := Strike(old(es[i].View()), rect, a, dmg)]
    ensures slain == IsSlain(es[i].View())
  {
    ghost var before := ViewsOf(es);
    var e := es[i];
    slain := false;
    if !e.isDestroyed && Intersects(rect, EnemyHitbox(e.View(), a)) {
      e.health := IMax(e.health - dmg, 0);
      slain := e.health == 0;
    }
    assert forall j :: 0 <= j < |es| && j != i ==> es[j].View() == before[j];
  }

  /** One more enemy of the swing. */
  lemma StrikesNext(vs: seq<EnemyView>, i: int, rect: Rect, a: Arena, dmg: int)
    requires 0 <= i < |vs| && dmg > 0
    ensures Strikes(vs[..i + 1], rect, a, dmg) == Strikes(vs[..i], rect, a, dmg) + [Strike(vs[i], rect, a, dmg)]
  {
  }

  /** The strike loop's views after one more enemy. */
  lemma StrikeStep(vs: seq<EnemyView>, i: int, rect: Rect, a: Arena, dmg: int, done: seq<EnemyView>, now: seq<EnemyView>)
    requires 0 <= i < |vs| && dmg > 0 && |done| == i
    requires now == (done + vs[i..])[i := Strike(vs[i], rect, a, dmg)]
    ensures now == (done + [Strike(vs[i], rect, a, dmg)]) + vs[i + 1..]
  {
    assert vs[i..][1..] == vs[i + 1..];
  }

  /** The objects of `es` whose matching entry of `ws` is slain, in order. */
  function PickSlain(es: seq<Enemy>, ws: seq<EnemyView>): (r: seq<Enemy>)
    requires |es| == |ws|
    ensures |r| <= |es|
  {
    if |es| == 0 then [] else
      var n := |es| - 1;
      PickSlain(es[..n], ws[..n]) + (if IsSlain(ws[n]) then [es[n]] else [])
  }

  lemma PickNext(es: seq<Enemy>, i: int, ws: seq<EnemyView>, w: EnemyView)
    requires 0 <= i < |es| && |ws| == i
    ensures PickSlain(es[..i + 1], ws + [w]) == PickSlain(es[..i], ws) + (if IsSlain(w) then [es[i]] else [])
  {
    assert es[..i + 1][..i] == es[..i];
    assert (ws + [w])[..i] == ws;
  }

  /** Picking by the enemies' own views picks exactly the slain views. */
  lemma {:induction false} PickViews(es: seq<Enemy>, ws: seq<EnemyView>)
    requires ws == ViewsOf(es)
    ensures ViewsOf(PickSlain(es, ws)) == Filter(ws, IsSlain)
    decreases |es|
  {
    if |es| > 0 {
      var n := |es| - 1;
      assert ws[..n] == ViewsOf(es[..n]);
      PickViews(es[..n], ws[..n]);
      if IsSlain(ws[n]) {
        ViewsOfAppend(PickSlain(es[..n], ws[..n]), es[n]);
      }
    }
  }

  /** The strike loop of `applyMeleeDamage` at position `i`: that enemy takes the
      swing and joins `killed` when it is left at 0 health. */
  method StrikeOne(es: seq<Enemy>, i: int, rect: Rect, a: Arena, dmg: int, killed: seq<Enemy>,
                   ghost vs: seq<EnemyView>, ghost acc: seq<EnemyView>)
    returns (killed': seq<Enemy>, ghost w: EnemyView)
    requires 0 <= i < |es| == |vs| && Distinct(es) && dmg > 0 && |acc| == i && NotSlain(vs[i])
    requires Strikes(vs[..i], rect, a, dmg) == acc && ViewsOf(es) == acc + vs[i..]
    requires killed == PickSlain(es[..i], acc)
    modifies es[i]
    ensures Strikes(vs[..i + 1], rect, a, dmg) == acc + [w] && ViewsOf(es) == (acc + [w]) + vs[i + 1..]
    ensures killed' == PickSlain(es[..i + 1], acc + [w])
  {
    StrikesNext(vs, i, rect, a, dmg);
    assert es[i].View() == vs[i];
    var slain := StrikeEnemy(es, i, rect, a, dmg);
    StrikeStep(vs, i, rect, a, dmg, acc, ViewsOf(es));
    w := Strike(vs[i], rect, a, dmg);
    PickNext(es, i, acc, w);
    killed' := killed;
    if slain {
      killed' := killed + [es[i]];
    }
  }

  /** The strike loop of `applyMeleeDamage`: every enemy in turn takes the swing,
      and the ones it leaves at 0 health are collected, in list order. */
  method StrikeAll(es: seq<Enemy>, rect: Rect, a: Arena, dmg: int) returns (killed: seq<Enemy>)
    requires Distinct(es) && dmg > 0
    requires forall k :: 0 <= k < |es| ==> NotSlain(es[k].View())
    modifies es
    ensures ViewsOf(es) == Strikes(old(ViewsOf(es)), rect, a, dmg)
    ensures ViewsOf(killed) == Filter(ViewsOf(es), IsSlain)
  {
    ghost var vs := ViewsOf(es);
    assert forall k :: 0 <= k < |vs| ==> NotSlain(vs[k]);
    ghost var acc: seq<EnemyView> := [];
    killed := [];
    var i := 0;
    while i < |es|
      invariant 0 <= i <= |es| && |acc| == i
      invariant Strikes(vs[..i], rect, a, dmg) == acc
      invariant ViewsOf(es) == acc + vs[i..]
      invariant killed == PickSlain(es[..i], acc)
    {
      ghost var w;
      killed, w := StrikeOne(es, i, rect, a, dmg, killed, vs, acc);
      acc := acc + [w];
      i := i + 1;
    }
    assert acc + vs[i..] == acc;
    StrikeAllDone(es, vs, acc, killed, i, rect, a, dmg);
  }

  /** The strike loop once it has reached the end of the list. */
  lemma StrikeAllDone(es: seq<Enemy>, vs: seq<EnemyView>, acc: seq<EnemyView>, killed: seq<Enemy>, i: int,
                      rect: Rect, a: Arena, dmg: int)
    requires i == |es| == |vs| == |acc| && acc == ViewsOf(es) && dmg > 0
    requires Strikes(vs[..i], rect, a, dmg) == acc && killed == PickSlain(es[..i], acc)
    ensures Strikes(vs, rect, a, dmg) == acc && ViewsOf(killed) == Filter(acc, IsSlain)
  {
    assert vs[..i] == vs && es[..i] == es;
    PickViews(es, acc);
  }

  /** A list of enemies that drops the loot of `dead`, one after the other. */
  lemma DropAllNext(loot: Loot, dead: seq<EnemyView>, j: int, drops: nat -> DropRoll, level: int, a: Arena, now: int)
    requires ValidLevel(level) && 0 <= j < |dead|
    ensures DropAll(loot, dead[..j + 1], drops, 0, level, a, now)
            == DropItem(DropAll(loot, dead[..j], drops, 0, level, a, now), dead[j], drops(j), level, a, now)
  {
    assert dead[..j + 1][..j] == dead[..j];
  }

  /** `Replace` on the list without the slain and the number of spawns. */
  lemma ReplaceIs(struck: seq<EnemyView>, a: Arena, level: int, spawns: nat -> SpawnRoll, count: nat, rest: seq<EnemyView>, n: nat)
    requires ValidLevel(level) && a.Valid()
    requires rest == Filter(struck, NotSlain) && n == IMin(IMax(Level(level).maxEnemies - |rest|, 0), count)
    ensures Replace(struck, a, level, spawns, count) == rest + RandomSpawns(level, a, spawns, 0, n)
  {
  }

  /** The outcome of a swing, by whether anybody died. */
  lemma MeleeSpecIs(s0: GameState, a: Arena, now: int, drops: nat -> DropRoll, spawns: nat -> SpawnRoll,
                    struck: seq<EnemyView>, dead: seq<EnemyView>)
    requires a.Valid() && ValidLevel(s0.level)
    requires struck == Strikes(s0.enemies, MeleeRect(s0.player, a), a, MeleeDamage(s0.player.attack))
    requires dead == Filter(struck, IsSlain)
    ensures var m := MeleeSpec(s0.enemies, s0.player, a, s0.level, now, s0.Loot(), drops, spawns);
      m.killed == |dead|
      && (|dead| == 0 ==> m.enemies == struck && m.loot == s0.Loot())
      && (|dead| > 0 ==> m.enemies == Replace(struck, a, s0.level, spawns, |dead|)
                         && m.loot == DropAll(s0.Loot(), dead, drops, 0, s0.level, a, now))
  {
  }

  /** A state that differs from `s0` only in its enemies, its loot and its two kill
      counters (both raised by `n`) is that update of `s0`. */
  lemma SwingFields(s0: GameState, s: GameState, vs: seq<EnemyView>, l: Loot, n: int)
    requires s.enemies == vs && s.Loot() == l
    requires s.enemiesKilled == s0.enemiesKilled + n && s.killsThisLevel == s0.killsThisLevel + n
    requires s.player == s0.player && s.level == s0.level && s.isGameOver == s0.isGameOver
      && s.isGameWon == s0.isGameWon && s.isInLevelTransition == s0.isInLevelTransition
      && s.gameStartTime == s0.gameStartTime && s.arrows == s0.arrows
    ensures s == s0.(enemies := vs, mushrooms := l.mushrooms, meats := l.meats, explosions := l.explosions,
                     enemiesKilled := s0.enemiesKilled + n, killsThisLevel := s0.killsThisLevel + n)
  {
  }

  /** A swing that kills nobody only leaves the struck enemies behind. */
  lemma MeleeNoneDied(s0: GameState, a: Arena, now: int, drops: nat -> DropRoll, spawns: nat -> SpawnRoll,
                      struck: seq<EnemyView>)
    requires a.Valid() && ValidLevel(s0.level)
    requires struck == Strikes(s0.enemies, MeleeRect(s0.player, a), a, MeleeDamage(s0.player.attack))
    requires |Filter(struck, IsSlain)| == 0
    ensures MeleeUpdate(s0, a, now, drops, spawns) == s0.(enemies := struck)
  {
    MeleeSpecIs(s0, a, now, drops, spawns, struck, Filter(struck, IsSlain));
  }

  /** A swing that kills: the dead drop their loot, are counted, removed and replaced. */
  lemma MeleeSomeDied(s0: GameState, a: Arena, now: int, drops: nat -> DropRoll, spawns: nat -> SpawnRoll,
                      struck: seq<EnemyView>, dead: seq<EnemyView>)
    requires a.Valid() && ValidLevel(s0.level)
    requires struck == Strikes(s0.enemies, MeleeRect(s0.player, a), a, MeleeDamage(s0.player.attack))
    requires dead == Filter(struck, IsSlain) && |dead| > 0
    ensures var l := DropAll(s0.Loot(), dead, drops, 0, s0.level, a, now);
      MeleeUpdate(s0, a, now, drops, spawns)
      == s0.(enemies := Replace(struck, a, s0.level, spawns, |dead|),
             mushrooms := l.mushrooms, meats := l.meats, explosions := l.explosions,
             enemiesKilled := s0.enemiesKilled + |dead|, killsThisLevel := s0.killsThisLevel + |dead|)
  {
    MeleeSpecIs(s0, a, now, drops, spawns, struck, dead);
  }

  /** `MeleeUpdateIs` when some died. */
  lemma SomeDiedState(s0: GameState, a: Arena, now: int, drops: nat -> DropRoll, spawns: nat -> SpawnRoll,
                      struck: seq<EnemyView>, dead: seq<EnemyView>, s: GameState)
    requires a.Valid() && ValidLevel(s0.level)
    requires struck == Strikes(s0.enemies, MeleeRect(s0.player, a), a, MeleeDamage(s0.player.attack))
    requires dead == Filter(struck, IsSlain) && |dead| > 0
    requires s.enemies == Replace(struck, a, s0.level, spawns, |dead|)
      && s.Loot() == DropAll(s0.Loot(), dead, drops, 0, s0.level, a, now)
      && s.enemiesKilled == s0.enemiesKilled + |dead| && s.killsThisLevel == s0.killsThisLevel + |dead|
    requires s.player == s0.player && s.level == s0.level && s.isGameOver == s0.isGameOver
      && s.isGameWon == s0.isGameWon && s.isInLevelTransition == s0.isInLevelTransition
      && s.gameStartTime == s0.gameStartTime && s.arrows == s0.arrows
    ensures s == MeleeUpdate(s0, a, now, drops, spawns)
  {
    MeleeSomeDied(s0, a, now, drops, spawns, struck, dead);
    SwingFields(s0, s, Replace(struck, a, s0.level, spawns, |dead|),
                DropAll(s0.Loot(), dead, drops, 0, s0.level, a, now), |dead|);
  }

  /** The state after a swing, field by field, is `MeleeUpdate`: nobody died, or the
      dead dropped their loot, were removed, counted and replaced. */
  lemma MeleeUpdateIs(s0: GameState, a: Arena, now: int, drops: nat -> DropRoll, spawns: nat -> SpawnRoll,
                      struck: seq<EnemyView>, dead: seq<EnemyView>, s: GameState)
    requires a.Valid() && ValidLevel(s0.level)
    requires struck == Strikes(s0.enemies, MeleeRect(s0.player, a), a, MeleeDamage(s0.player.attack))
    requires dead == Filter(struck, IsSlain)
    requires |dead| == 0 ==> (s.enemies == struck && s.Loot() == s0.Loot()
      && s.enemiesKilled == s0.enemiesKilled && s.killsThisLevel == s0.killsThisLevel)
    requires |dead| > 0 ==> (s.enemies == Replace(struck, a, s0.level, spawns, |dead|)
      && s.Loot() == DropAll(s0.Loot(), dead, drops, 0, s0.level, a, now)
      && s.enemiesKilled == s0.enemiesKilled + |dead| && s.killsThisLevel == s0.killsThisLevel + |dead|)
    requires s.player == s0.player && s.level == s0.level && s.isGameOver == s0.isGameOver
      && s.isGameWon == s0.isGameWon && s.isInLevelTransition == s0.isInLevelTransition
      && s.gameStartTime == s0.gameStartTime && s.arrows == s0.arrows
    ensures s == MeleeUpdate(s0, a, now, drops, spawns)
  {
    if |dead| == 0 {
      MeleeNoneDied(s0, a, now, drops, spawns, struck);
      SwingFields(s0, s, struck, s0.Loot(), 0);
    } else {
      SomeDiedState(s0, a, now, drops, spawns, struck, dead, s);
    }
  }

  /** One more arrow of the arrow loop. */
  lemma VolleysNext(v0: Volley, ars: seq<Arrow>, i: int, a: Arena, level: int, now: int, drops: nat -> DropRoll)
    requires ValidLevel(level) && 0 <= i < |ars|
    ensures Volleys(v0, ars[..i + 1], a, level, now, drops)
            == ArrowStep(Volleys(v0, ars[..i], a, level, now, drops), ars[i], a, level, now, drops)
  {
    assert ars[..i + 1][..i] == ars[..i];
  }

  /** The state after the arrow loop, field by field, is `ArrowsUpdate`. */
  lemma ArrowsUpdateIs(s0: GameState, a: Arena, now: int, drops: nat -> DropRoll, s: GameState)
    requires ValidLevel(s0.level)
    requires var v := Volleys(Volley(s0.enemies, [], s0.Loot(), 0, 0), s0.arrows, a, s0.level, now, drops);
      && s.enemies == v.enemies && s.arrows == v.arrows && Loot(s.mushrooms, s.meats, s.explosions) == v.loot
      && s.enemiesKilled == s0.enemiesKilled + v.kills && s.killsThisLevel == s0.killsThisLevel + v.kills
      && s.player == s0.player && s.level == s0.level && s.isGameOver == s0.isGameOver
      && s.isGameWon == s0.isGameWon && s.isInLevelTransition == s0.isInLevelTransition
      && s.gameStartTime == s0.gameStartTime
    ensures s == ArrowsUpdate(s0, a, now, drops)
  {
  }

  /** The mushroom half of `updateItems`, against a box fixed on entry. */
  function MushroomsEaten(s: GameState, box: Rect): (r: GameState)
    ensures r.meats == s.meats && r.level == s.level
  {
    var m := EatMushrooms(s.mushrooms, s.player.health, box);
    s.(mushrooms := Filter(m.0, IsLying), player := s.player.(health := m.1))
  }

  /** The meat half of `updateItems`. */
  function MeatsEaten(s: GameState, box: Rect): (r: GameState)
    ensures r.mushrooms == s.mushrooms && r.level == s.level
  {
    var n := EatMeats(s.meats, s.player.hasShield, box);
    s.(meats := Filter(n.0, IsLying), player := s.player.(hasShield := n.1))
  }

  /** The two halves, run one after the other against the player's box on entry,
      are `updateItems`: using up mushrooms leaves the shield and the box alone. */
  lemma ItemsInHalves(s: GameState, a: Arena)
    ensures MeatsEaten(MushroomsEaten(s, PlayerBox(s.player, a)), PlayerBox(s.player, a)) == ItemsUpdate(s, a)
  {
  }

  /** Raising the overlay first, then settling from there, is the frame `onDraw` makes. */
  lemma OverlayThenSettle(s0: GameState, s1: GameState, a: Arena, now: int, rolls: FrameRolls)
    requires a.Valid() && ValidLevel(s0.level)
    requires s0.player.health > 0.0 || s0.isGameOver
    requires s1 == if !s0.isGameOver && !s0.isGameWon && s0.killsThisLevel >= Level(s0.level).killTarget && !s0.isInLevelTransition
                   then s0.(isInLevelTransition := true) else s0
    ensures FrameSpec(s1, a, now, rolls) == FrameSpec(s0, a, now, rolls)
  {
  }

  /** `resetGame` is the level reset, on the first level with the counters and
      flags restarted. */
  lemma ResetGameIsLevelReset(s0: GameState, a: Arena, now: int, spawns: nat -> SpawnRoll)
    requires a.Valid()
    ensures ResetForLevel(s0.(isGameOver := false, isGameWon := false, enemiesKilled := 0, level := 0,
                              killsThisLevel := 0, gameStartTime := now), a, spawns)
            == ResetGameSpec(s0, a, now, spawns)
  {
  }

  /** Below the last level, `advanceLevel` is the level reset on the next level,
      with no kills on it, behind the overlay. */
  lemma NextLevelIs(s0: GameState, a: Arena, spawns: nat -> SpawnRoll)
    requires a.Valid() && ValidLevel(s0.level) && s0.level < |Table| - 1
    ensures ResetForLevel(s0.(level := s0.level + 1, killsThisLevel := 0), a, spawns).(isInLevelTransition := true)
            == AdvanceLevelSpec(s0, a, spawns)
  {
  }

  /** The shortfall below the level's maximum, and the spawns for none. */
  lemma ShortfallIs(level: int, a: Arena, spawns: nat -> SpawnRoll, start: nat, alive: nat)
    requires ValidLevel(level) && a.Valid()
    ensures var n := IMax(Level(level).maxEnemies - alive, 0);
      (alive < Level(level).maxEnemies ==> n == Level(level).maxEnemies - alive)
      && (alive >= Level(level).maxEnemies ==> RandomSpawns(level, a, spawns, start, n) == [])
  {
  }

  class World {
    const arena: Arena
    var player: Player
    var level: int
    var killsThisLevel: int
    var enemiesKilled: int
    var isGameOver: bool
    var isGameWon: bool
    var isInLevelTransition: bool
    var gameStartTime: int
    var enemies: seq<Enemy>
    var arrows: seq<Arrow>
    var explosions: seq<Explosion>
    var mushrooms: seq<MapItem>
    var meats: seq<MapItem>

    /** The fields as a GameSpec state. */
    ghost function State(): GameState
      reads this, enemies
    {
      GameState(player, level, killsThisLevel, enemiesKilled, isGameOver, isGameWon, isInLevelTransition,
                gameStartTime, ViewsOf(enemies), arrows, explosions, mushrooms, meats)
    }

    /** The dropped items and the explosions. */
    ghost function LootNow(): Loot
      reads this
    {
      GameTypes.Loot(mushrooms, meats, explosions)
    }

    /** The class invariant: a sound game, and no enemy object listed twice. */
    ghost predicate Valid()
      reads this, enemies
    {
      StateOk(State(), arena) && Distinct(enemies)
    }

    /** `spawnEnemy`: a new enemy object at the end of the list. */
    method SpawnEnemy(kind: EnemyType, roll: SpawnRoll) returns (ghost e: Enemy)
      requires ValidLevel(level) && arena.Valid() && Distinct(enemies)
      modifies this`enemies
      ensures enemies == old(enemies) + [e] && fresh(e) && Distinct(enemies)
      ensures ViewsOf(enemies) == old(ViewsOf(enemies)) + [SpawnView(level, arena, kind, roll)]
    {
      var spawned := NewEnemy(level, arena, kind, roll);
      ViewsOfAppend(enemies, spawned);
      enemies := enemies + [spawned];
      e := spawned;
    }

    /** `repeat(n) { spawnEnemy(types.random()) }`, drawing rolls from `start`. */
    method SpawnRandom(spawns: nat -> SpawnRoll, start: nat, n: nat) returns (ghost added: seq<Enemy>)
      requires ValidLevel(level) && arena.Valid() && Distinct(enemies)
      modifies this`enemies
      ensures ViewsOf(enemies) == old(ViewsOf(enemies)) + RandomSpawns(level, arena, spawns, start, n)
      ensures Distinct(enemies)
      ensures enemies == old(enemies) + added && forall k :: 0 <= k < |added| ==> fresh(added[k])
      ensures fresh(set e | e in enemies && e !in old(enemies))
    {
      ghost var vs := ViewsOf(enemies);
      ghost var es := enemies;
      ghost var target := RandomSpawns(level, arena, spawns, start, n);
      added := [];
      var j := 0;
      while j < n
        invariant 0 <= j <= n
        invariant enemies == es + added && forall k :: 0 <= k < |added| ==> fresh(added[k])
        invariant Distinct(enemies)
        invariant ViewsOf(enemies) == vs + target[..j]
      {
        ghost var views := ViewsOf(enemies);
        var e := SpawnEnemy(spawns(start + j).kind, spawns(start + j));
        RandomSpawnsNext(level, arena, spawns, start, n, j, vs, views);
        added := added + [e];
        j := j + 1;
      }
      assert target[..n] == target;
    }

    /** The opening of `updateEnemies`: spawn enough enemies to bring the living up to
        three, drawing rolls from 0. */
    method TopUpLiving(spawns: nat -> SpawnRoll) returns (first: nat, ghost added: seq<Enemy>)
      requires ValidLevel(level) && arena.Valid() && Distinct(enemies)
      modifies this`enemies
      ensures first == FirstTopUp(old(ViewsOf(enemies)))
      ensures ViewsOf(enemies) == old(ViewsOf(enemies)) + RandomSpawns(level, arena, spawns, 0, first)
      ensures Distinct(enemies)
      ensures enemies == old(enemies) + added && forall k :: 0 <= k < |added| ==> fresh(added[k])
    {
      var alive := CountLiving(enemies);
      first := 0;
      if alive < MinEnemiesAtStart {
        first := MinEnemiesAtStart - alive;
      }
      added := SpawnRandom(spawns, 0, first);
    }

    /** `removeAll { it.isDestroyed }` at the close of `updateEnemies`. */
    method Cull()
      requires Distinct(enemies)
      modifies this`enemies
      ensures ViewsOf(enemies) == Filter(old(ViewsOf(enemies)), IsAlive)
      ensures Distinct(enemies)
      ensures fresh(set e | e in enemies && e !in old(enemies))
    {
      enemies := Keep(enemies, IsAlive);
    }

    /** `if (aliveAfter < effectiveMaxEnemies()) repeat(toSpawn) { spawnEnemy(...) }`:
        spawn the shortfall below the level's maximum, drawing rolls from `start`. */
    method SpawnShortfall(spawns: nat -> SpawnRoll, start: nat, aliveAfter: nat)
      requires ValidLevel(level) && arena.Valid() && Distinct(enemies)
      modifies this`enemies
      ensures ViewsOf(enemies) == old(ViewsOf(enemies))
        + RandomSpawns(level, arena, spawns, start, IMax(Level(level).maxEnemies - aliveAfter, 0))
      ensures Distinct(enemies)
      ensures fresh(set e | e in enemies && e !in old(enemies))
    {
      var maxEnemies := Level(level).maxEnemies;
      ShortfallIs(level, arena, spawns, start, aliveAfter);
      if aliveAfter < maxEnemies {
        var shortfall := maxEnemies - aliveAfter;
        ghost var added := SpawnRandom(spawns, start, shortfall);
      }
    }

    /** The close of `updateEnemies` once the destroyed are removed from `stepped`:
        count the living and spawn up to the level's maximum. */
    method Refill(spawns: nat -> SpawnRoll, start: nat, ghost stepped: seq<EnemyView>)
      requires ValidLevel(level) && arena.Valid() && Distinct(enemies)
      requires ViewsOf(enemies) == Filter(stepped, IsAlive)
      modifies this`enemies
      ensures ViewsOf(enemies) == Restock(stepped, arena, level, spawns, start)
      ensures Distinct(enemies)
      ensures fresh(set e | e in enemies && e !in old(enemies))
    {
      ghost var living := ViewsOf(enemies);
      var aliveAfter := CountLiving(enemies);
      SpawnShortfall(spawns, start, aliveAfter);
      RefillIs(stepped, arena, level, spawns, start, living, aliveAfter, ViewsOf(enemies));
    }

    /** The close of `updateEnemies`: `removeAll { it.isDestroyed }`, then spawn up to
        the level's maximum, drawing rolls from `start`. */
    method CullAndRestock(spawns: nat -> SpawnRoll, start: nat)
      requires ValidLevel(level) && arena.Valid() && Distinct(enemies)
      modifies this`enemies
      ensures ViewsOf(enemies) == Restock(old(ViewsOf(enemies)), arena, level, spawns, start)
      ensures Distinct(enemies)
      ensures fresh(set e | e in enemies && e !in old(enemies))
    {
      ghost var stepped := ViewsOf(enemies);
      Cull();
      Refill(spawns, start, stepped);
    }

    /** The loop of `updateEnemies` and its close. */
    method LoopAndRestock(now: int, mult: real, spawns: nat -> SpawnRoll, start: nat)
      requires ValidLevel(level) && arena.Valid() && Distinct(enemies)
      modifies this`player, this`enemies, enemies
      ensures var r := EnemyPass(old(ViewsOf(enemies)), old(player), arena, mult, now);
        ViewsOf(enemies) == Restock(r.0, arena, level, spawns, start) && player == r.1
      ensures Distinct(enemies)
      ensures fresh(set e | e in enemies && e !in old(enemies))
    {
      var hurt := StepEnemies(enemies, player, arena, now, mult);
      player := hurt;
      CullAndRestock(spawns, start);
    }

    /** The three stages of `updateEnemies` on the enemy list and the player. */
    method RunEnemies(now: int, spawns: nat -> SpawnRoll)
      requires ValidLevel(level) && arena.Valid() && Distinct(enemies)
      modifies this`player, this`enemies, enemies
      ensures (ViewsOf(enemies), player) == UpdateEnemiesSpec(old(ViewsOf(enemies)), old(player), arena, level, now, spawns)
      ensures Distinct(enemies)
      ensures fresh(set e | e in enemies && e !in old(enemies))
    {
      ghost var vs0 := ViewsOf(enemies);
      ghost var p0 := player;
      var mult := Level(level).enemySpeedMultiplier;
      var first, added := TopUpLiving(spawns);
      ghost var topped := ViewsOf(enemies);
      LoopAndRestock(now, mult, spawns, first);
      UpdateEnemiesStages(vs0, p0, arena, level, now, spawns, first, topped, ViewsOf(enemies), player);
    }

    /** `updateEnemies`. */
    method UpdateEnemies(now: int, spawns: nat -> SpawnRoll)
      requires Valid()
      modifies this`player, this`enemies, enemies
      ensures State() == EnemiesUpdate(old(State()), arena, now, spawns)
      ensures Valid()
      ensures fresh(set e | e in enemies && e !in old(enemies))
    {
      ghost var s0 := State();
      RunEnemies(now, spawns);
      EnemiesKeepOk(s0, arena, now, spawns);
    }

    // -------------------------------------------------------------------------
    // Arrows

    /** `maybeDropItem`: the three rolls decide whether a mushroom, a piece of meat and
        an explosion appear where the enemy died. */
    method MaybeDropItem(v: EnemyView, roll: DropRoll, now: int)
      requires ValidLevel(level)
      modifies this`mushrooms, this`meats, this`explosions
      ensures LootNow() == DropItem(old(LootNow()), v, roll, level, arena, now)
    {
      var bonus := Level(level).dropBonus;
      if roll.mushroomRoll <= MushroomDropChance * bonus {
        var pos := DropPosition(v, roll, arena);
        mushrooms := mushrooms + [MapItem(pos.0, pos.1, false)];
      }
      if roll.meatRoll <= MeatDropChance * bonus {
        var pos := DropPosition(v, roll, arena);
        meats := meats + [MapItem(pos.0, pos.1, false)];
      }
      if roll.explosionRoll < Level(level).explosionChance {
        var x := v.x + roll.rectWidth / 2.0 - arena.ExplosionWidth() / 2.0;
        var y := v.y + roll.rectHeight / 2.0 - arena.ExplosionHeight() / 2.0;
        explosions := explosions + [Explosion(x, y, 0, now, false, false)];
      }
    }

    /** An arrow hitting the standing enemy at `k`: one health point less, and at 0 the
        enemy is destroyed, drops loot with roll `drops(rolls)` and counts as a kill. */
    method HitWithArrow(k: nat, rolls: nat, now: int, drops: nat -> DropRoll) returns (killed: bool)
      requires ValidLevel(level) && Distinct(enemies) && k < |enemies| && !enemies[k].isDestroyed
      modifies enemies[k], this`mushrooms, this`meats, this`explosions, this`enemiesKilled, this`killsThisLevel
      ensures var v := ArrowHit(old(enemies[k].View()));
        && ViewsOf(enemies) == old(ViewsOf(enemies))[k := v] && killed == v.destroyed
        && LootNow() == (if killed then DropItem(old(LootNow()), v, drops(rolls), level, arena, now) else old(LootNow()))
        && enemiesKilled == old(enemiesKilled) + (if killed then 1 else 0)
        && killsThisLevel == old(killsThisLevel) + (if killed then 1 else 0)
    {
      killed := ArrowStrike(enemies, k);
      if killed {
        MaybeDropItem(enemies[k].View(), drops(rolls), now);
        enemiesKilled := enemiesKilled + 1;
        killsThisLevel := killsThisLevel + 1;
      }
    }

    /** One pass of the arrow loop of `updateArrows`, continuing the volley `s` whose
        flying arrows, kills and used rolls are passed in. */
    method ShootArrow(ar: Arrow, flying: seq<Arrow>, ghost kills: nat, rolls: nat, now: int, drops: nat -> DropRoll)
      returns (flying': seq<Arrow>, ghost kills': nat, rolls': nat)
      requires ValidLevel(level) && Distinct(enemies)
      modifies enemies, this`mushrooms, this`meats, this`explosions, this`enemiesKilled, this`killsThisLevel
      ensures var r := ArrowStep(Volley(old(ViewsOf(enemies)), flying, old(LootNow()), kills, rolls),
                                 ar, arena, level, now, drops);
        && ViewsOf(enemies) == r.enemies && LootNow() == r.loot
        && flying' == r.arrows && kills' == r.kills && rolls' == r.rolls
        && enemiesKilled == old(enemiesKilled) + (kills' - kills)
        && killsThisLevel == old(killsThisLevel) + (kills' - kills)
    {
      ghost var s := Volley(ViewsOf(enemies), flying, LootNow(), kills, rolls);
      flying', kills', rolls' := flying, kills, rolls;
      var dx := if ar.movingLeft then -ar.speed else ar.speed;
      var m := ar.(x := ar.x + dx);
      assert m == FlyArrow(ar);
      if m.x + arena.ArrowWidth() < 0.0 || m.x > arena.width as real {
        ArrowStepCases(s, ar, arena, level, now, drops, FirstHit(s.enemies, ArrowRect(m, arena), arena));
      } else {
        var hit := FindTarget(enemies, ArrowRect(m, arena), arena);
        ArrowStepCases(s, ar, arena, level, now, drops, hit);
        match hit
        case None =>
          flying' := flying + [m];
        case Some(k) =>
          var killed := HitWithArrow(k, rolls, now, drops);
          if killed {
            kills', rolls' := kills + 1, rolls + 1;
          }
      }
    }

    /** The arrow loop of `updateArrows` on the enemies, the arrows, the loot and the
        counters. */
    method RunArrows(now: int, drops: nat -> DropRoll)
      requires ValidLevel(level) && Distinct(enemies)
      modifies this`arrows, enemies, this`mushrooms, this`meats, this`explosions, this`enemiesKilled, this`killsThisLevel
      ensures var r := Volleys(Volley(old(ViewsOf(enemies)), [], old(LootNow()), 0, 0), old(arrows), arena, level, now, drops);
        && ViewsOf(enemies) == r.enemies && arrows == r.arrows && LootNow() == r.loot
        && enemiesKilled == old(enemiesKilled) + r.kills && killsThisLevel == old(killsThisLevel) + r.kills
    {
      ghost var v0 := Volley(ViewsOf(enemies), [], LootNow(), 0, 0);
      var ars := arrows;
      var flying: seq<Arrow> := [];
      ghost var kills: nat := 0;
      var rolls: nat := 0;
      var i := 0;
      while i < |ars|
        invariant 0 <= i <= |ars| && enemies == old(enemies)
        invariant Volley(ViewsOf(enemies), flying, LootNow(), kills, rolls) == Volleys(v0, ars[..i], arena, level, now, drops)
        invariant enemiesKilled == old(enemiesKilled) + kills && killsThisLevel == old(killsThisLevel) + kills
      {
        VolleysNext(v0, ars, i, arena, level, now, drops);
        flying, kills, rolls := ShootArrow(ars[i], flying, kills, rolls, now, drops);
        i := i + 1;
      }
      assert ars[..i] == ars;
      arrows := flying;
    }

    /** `updateArrows`. */
    method UpdateArrows(now: int, drops: nat -> DropRoll)
      requires Valid()
      modifies this`arrows, enemies, this`mushrooms, this`meats, this`explosions, this`enemiesKilled, this`killsThisLevel
      ensures State() == ArrowsUpdate(old(State()), arena, now, drops)
      ensures Valid()
    {
      ghost var s0 := State();
      assert s0.Loot() == LootNow();
      RunArrows(now, drops);
      ArrowsUpdateIs(s0, arena, now, drops, State());
      ArrowsKeepOk(s0, arena, now, drops);
    }

    // -------------------------------------------------------------------------
    // Melee

    /** `killed.forEach { maybeDropItem(it) }`: the loot of each dead enemy in turn,
        drawing rolls from 0 onwards. */
    method DropLoot(killed: seq<Enemy>, drops: nat -> DropRoll, now: int)
      requires ValidLevel(level)
      modifies this`mushrooms, this`meats, this`explosions
      ensures LootNow() == DropAll(old(LootNow()), ViewsOf(killed), drops, 0, level, arena, now)
    {
      ghost var dead := ViewsOf(killed);
      var j := 0;
      while j < |killed|
        invariant 0 <= j <= |killed|
        invariant LootNow() == DropAll(old(LootNow()), dead[..j], drops, 0, level, arena, now)
      {
        DropAllNext(old(LootNow()), dead, j, drops, level, arena, now);
        MaybeDropItem(killed[j].View(), drops(j), now);
        j := j + 1;
      }
      assert dead[..j] == dead;
    }

    /** `enemies.removeAll(killed)` and the replacements of `applyMeleeDamage`, once the
        dead have dropped their loot: the slain leave the list, and as many new
        enemies spawn as fit under the level's maximum, but no more than the `count`
        that died. */
    method ReplaceSlain(count: nat, spawns: nat -> SpawnRoll)
      requires ValidLevel(level) && arena.Valid() && Distinct(enemies)
      modifies this`enemies
      ensures ViewsOf(enemies) == Replace(old(ViewsOf(enemies)), arena, level, spawns, count)
      ensures Distinct(enemies)
      ensures fresh(set e | e in enemies && e !in old(enemies))
    {
      ghost var struck := ViewsOf(enemies);
      var kept := Keep(enemies, NotSlain);
      ghost var rest := ViewsOf(kept);
      assert rest == Filter(struck, NotSlain);
      enemies := kept;
      assert ViewsOf(enemies) == rest;
      var maxEnemies := Level(level).maxEnemies;
      var toSpawn := IMin(IMax(maxEnemies - |enemies|, 0), count);
      ReplaceIs(struck, arena, level, spawns, count, rest, toSpawn);
      ghost var added := SpawnRandom(spawns, 0, toSpawn);
      assert ViewsOf(enemies) == rest + RandomSpawns(level, arena, spawns, 0, toSpawn);
    }

    /** The loot and the tally of the `if (killed.isNotEmpty())` block of
        `applyMeleeDamage`: each dead enemy may drop items, and both kill counters
        grow by the number that died. */
    method DropAndCount(killed: seq<Enemy>, ghost dead: seq<EnemyView>, now: int, drops: nat -> DropRoll)
      requires ValidLevel(level) && dead == ViewsOf(killed)
      modifies this`mushrooms, this`meats, this`explosions, this`enemiesKilled, this`killsThisLevel
      ensures LootNow() == DropAll(old(LootNow()), dead, drops, 0, level, arena, now)
      ensures enemiesKilled == old(enemiesKilled) + |killed| && killsThisLevel == old(killsThisLevel) + |killed|
    {
      DropLoot(killed, drops, now);
      enemiesKilled := enemiesKilled + |killed|;
      killsThisLevel := killsThisLevel + |killed|;
    }

    /** The `if (killed.isNotEmpty())` block of `applyMeleeDamage`: the dead drop their
        loot, are counted and leave the list, and replacements spawn. */
    method Slay(killed: seq<Enemy>, ghost dead: seq<EnemyView>, now: int, drops: nat -> DropRoll, spawns: nat -> SpawnRoll)
      requires ValidLevel(level) && arena.Valid() && Distinct(enemies) && dead == ViewsOf(killed)
      modifies this`enemies, this`mushrooms, this`meats, this`explosions, this`enemiesKilled, this`killsThisLevel
      ensures LootNow() == DropAll(old(LootNow()), dead, drops, 0, level, arena, now)
      ensures ViewsOf(enemies) == Replace(old(ViewsOf(enemies)), arena, level, spawns, |killed|)
      ensures enemiesKilled == old(enemiesKilled) + |killed| && killsThisLevel == old(killsThisLevel) + |killed|
      ensures Distinct(enemies)
      ensures fresh(set e | e in enemies && e !in old(enemies))
    {
      DropAndCount(killed, dead, now, drops);
      ReplaceSlain(|killed|, spawns);
    }

    /** `applyMeleeDamage` on the enemies, the loot and the counters: the swing leaves
        the views `struck`, of which `dead` were slain; these are resolved as the
        source does when some died, and left as they are when none did. */
    method RunMelee(now: int, drops: nat -> DropRoll, spawns: nat -> SpawnRoll)
      returns (ghost struck: seq<EnemyView>, ghost dead: seq<EnemyView>)
      requires ValidLevel(level) && arena.Valid() && Distinct(enemies)
      requires forall k :: 0 <= k < |enemies| ==> NotSlain(enemies[k].View())
      modifies this`enemies, enemies, this`mushrooms, this`meats, this`explosions, this`enemiesKilled, this`killsThisLevel
      ensures struck == Strikes(old(ViewsOf(enemies)), MeleeRect(player, arena), arena, MeleeDamage(player.attack))
      ensures dead == Filter(struck, IsSlain)
      ensures |dead| == 0 ==> (ViewsOf(enemies) == struck && LootNow() == old(LootNow())
        && enemiesKilled == old(enemiesKilled) && killsThisLevel == old(killsThisLevel))
      ensures |dead| > 0 ==> (ViewsOf(enemies) == Replace(struck, arena, level, spawns, |dead|)
        && LootNow() == DropAll(old(LootNow()), dead, drops, 0, level, arena, now)
        && enemiesKilled == old(enemiesKilled) + |dead| && killsThisLevel == old(killsThisLevel) + |dead|)
      ensures Distinct(enemies)
      ensures fresh(set e | e in enemies && e !in old(enemies))
    {
      var rect := MeleeRect(player, arena);
      var dmg := if player.attack == LancerAttack then DamageLancer else DamageWarrior;
      var killed := StrikeAll(enemies, rect, arena, dmg);
      struck := ViewsOf(enemies);
      dead := ViewsOf(killed);
      if |killed| > 0 {
        Slay(killed, dead, now, drops, spawns);
      }
    }

    /** A swing, stated as one step of the game state. */
    method Melee(now: int, drops: nat -> DropRoll, spawns: nat -> SpawnRoll)
      requires ValidLevel(level) && arena.Valid() && Distinct(enemies)
      requires forall k :: 0 <= k < |enemies| ==> NotSlain(enemies[k].View())
      modifies this`enemies, enemies, this`mushrooms, this`meats, this`explosions, this`enemiesKilled, this`killsThisLevel
      ensures State() == MeleeUpdate(old(State()), arena, now, drops, spawns)
      ensures Distinct(enemies)
      ensures fresh(set e | e in enemies && e !in old(enemies))
    {
      ghost var s0 := State();
      ghost var struck, dead := RunMelee(now, drops, spawns);
      MeleeUpdateIs(s0, arena, now, drops, spawns, struck, dead, State());
    }

    /** `applyMeleeDamage`. */
    method ApplyMeleeDamage(now: int, drops: nat -> DropRoll, spawns: nat -> SpawnRoll)
      requires Valid()
      modifies this`enemies, enemies, this`mushrooms, this`meats, this`explosions, this`enemiesKilled, this`killsThisLevel
      ensures State() == MeleeUpdate(old(State()), arena, now, drops, spawns)
      ensures Valid()
      ensures fresh(set e | e in enemies && e !in old(enemies))
    {
      ghost var s0 := State();
      assert forall k :: 0 <= k < |enemies| ==> ViewValid(s0.enemies[k]) && s0.enemies[k] == enemies[k].View();
      Melee(now, drops, spawns);
      MeleeKeepsOk(s0, arena, now, drops, spawns);
    }

    // -------------------------------------------------------------------------
    // The other updates of a frame

    /** `updateCharacterState`. */
    method UpdateCharacterState()
      requires Valid()
      modifies this`player
      ensures State() == CharacterUpdate(old(State()), arena)
      ensures Valid()
    {
      ghost var s0 := State();
      player := MoveStep(player, arena, level);
      CharacterKeepsOk(s0, arena);
    }

    /** The animation step of `updateAnimationFrame` and the arrow it may fire. */
    method AnimateAndFire(now: int) returns (strike: bool, posted: Posted)
      requires Valid()
      modifies this`player, this`arrows
      ensures var o := AnimateStep(old(player), now);
        var s1 := old(State()).(player := o.player);
        State() == (if o.fireArrow then s1.(arrows := s1.arrows + [LaunchArrow(s1.player, arena)]) else s1)
        && strike == o.strike && posted == o.posted
      ensures Valid()
    {
      ghost var s0 := State();
      var o := AnimateStep(player, now);
      player := o.player;
      if o.fireArrow {
        arrows := arrows + [LaunchArrow(player, arena)];
      }
      AnimateFireKeepsOk(s0, arena, now);
      strike := o.strike;
      posted := o.posted;
    }

    /** `updateAnimationFrame`: it hands back the attack end it posts. */
    method UpdateAnimationFrame(now: int, drops: nat -> DropRoll, spawns: nat -> SpawnRoll) returns (posted: Posted)
      requires Valid()
      modifies this`player, this`arrows, this`enemies, enemies, this`mushrooms, this`meats, this`explosions,
               this`enemiesKilled, this`killsThisLevel
      ensures (State(), posted) == AnimationUpdate(old(State()), arena, now, drops, spawns)
      ensures Valid()
      ensures fresh(set e | e in enemies && e !in old(enemies))
    {
      var strike;
      strike, posted := AnimateAndFire(now);
      if strike {
        ApplyMeleeDamage(now, drops, spawns);
      }
    }

    /** The mushroom half of `updateItems`. */
    method EatMushroomsIn(box: Rect)
      modifies this`player, this`mushrooms
      ensures State() == MushroomsEaten(old(State()), box)
    {
      var used, health := EatMushroomLoop(mushrooms, player.health, box);
      player, mushrooms := player.(health := health), Filter(used, IsLying);
    }

    /** The meat half of `updateItems`. */
    method EatMeatsIn(box: Rect)
      modifies this`player, this`meats
      ensures State() == MeatsEaten(old(State()), box)
    {
      var eaten, shield := EatMeatLoop(meats, player.hasShield, box);
      player, meats := player.(hasShield := shield), Filter(eaten, IsLying);
    }

    method RunItems()
      modifies this`player, this`mushrooms, this`meats
      ensures State() == ItemsUpdate(old(State()), arena)
    {
      ghost var s0 := State();
      var box := PlayerBox(player, arena);
      EatMushroomsIn(box);
      EatMeatsIn(box);
      ItemsInHalves(s0, arena);
    }

    /** `updateItems`. */
    method UpdateItems()
      requires Valid()
      modifies this`player, this`mushrooms, this`meats
      ensures State() == ItemsUpdate(old(State()), arena)
      ensures Valid()
    {
      ghost var s0 := State();
      RunItems();
      ItemsKeepOk(s0, arena);
    }

    /** `updateExplosions`. */
    method UpdateExplosions(now: int)
      requires Valid()
      modifies this`player, this`explosions
      ensures State() == ExplosionsUpdate(old(State()), arena, now)
      ensures Valid()
    {
      ghost var s0 := State();
      var burning, hurt := RunExplosions(explosions, player, arena, now);
      explosions := burning;
      player := hurt;
      ExplosionsKeepOk(s0, arena, now);
    }

    // -------------------------------------------------------------------------
    // One frame (`onDraw` without the drawing)

    /** `updateCharacterState` then `updateAnimationFrame`. */
    method MoveAndAnimate(now: int, rolls: FrameRolls) returns (posted: Posted)
      requires Valid()
      modifies this, enemies
      ensures (State(), posted) == AnimationUpdate(CharacterUpdate(old(State()), arena), arena, now, rolls.meleeDrops, rolls.meleeSpawns)
      ensures Valid()
      ensures fresh(set e | e in enemies && e !in old(enemies))
    {
      UpdateCharacterState();
      posted := UpdateAnimationFrame(now, rolls.meleeDrops, rolls.meleeSpawns);
    }

    /** `updateEnemies` then `updateArrows`. */
    method EnemiesAndArrows(now: int, rolls: FrameRolls)
      requires Valid()
      modifies this, enemies
      ensures State() == ArrowsUpdate(EnemiesUpdate(old(State()), arena, now, rolls.enemySpawns), arena, now, rolls.arrowDrops)
      ensures Valid()
      ensures fresh(set e | e in enemies && e !in old(enemies))
    {
      UpdateEnemies(now, rolls.enemySpawns);
      UpdateArrows(now, rolls.arrowDrops);
    }

    /** `updateItems` then `updateExplosions`. */
    method ItemsAndExplosions(now: int)
      requires Valid()
      modifies this`player, this`mushrooms, this`meats, this`explosions
      ensures State() == ExplosionsUpdate(ItemsUpdate(old(State()), arena), arena, now)
      ensures Valid()
    {
      UpdateItems();
      UpdateExplosions(now);
    }

    /** What `drawCharacter` writes back: a still character's frame index. */
    method DrawCharacter()
      requires Valid()
      modifies this`player
      ensures State() == DrawUpdate(old(State()))
      ensures Valid()
    {
      ghost var s0 := State();
      player := DrawStep(player);
      DrawKeepsOk(s0, arena);
    }

    /** The updates of a frame with no overlay up, in the order `onDraw` makes them. */
    method PlayOn(now: int, rolls: FrameRolls) returns (posted: Posted)
      requires Valid()
      modifies this, enemies
      ensures var s3 := AnimationUpdate(CharacterUpdate(old(State()), arena), arena, now, rolls.meleeDrops, rolls.meleeSpawns);
        var s5 := ArrowsUpdate(EnemiesUpdate(s3.0, arena, now, rolls.enemySpawns), arena, now, rolls.arrowDrops);
        State() == DrawUpdate(ExplosionsUpdate(ItemsUpdate(s5, arena), arena, now)) && posted == s3.1
      ensures Valid()
    {
      posted := MoveAndAnimate(now, rolls);
      EnemiesAndArrows(now, rolls);
      ItemsAndExplosions(now);
      DrawCharacter();
    }

    /** The rest of `onDraw` once the overlay check is done: the victory screen, an
        ended game, the paused overlay, or a frame of play. */
    method Settle(now: int, rolls: FrameRolls) returns (screen: Screen, posted: Posted)
      requires Valid()
      requires player.health > 0.0 || isGameOver
      requires isGameOver || isGameWon || killsThisLevel < Level(level).killTarget || isInLevelTransition
      modifies this, enemies
      ensures FrameOutcome(State(), screen, posted) == FrameSpec(old(State()), arena, now, rolls)
      ensures Valid()
    {
      posted := NothingPosted;
      if isGameWon && !isGameOver {
        var cleared := level + (if killsThisLevel >= Level(level).killTarget then 1 else 0);
        screen := VictoryScreen(now - gameStartTime, enemiesKilled, cleared);
      } else if isGameOver || isGameWon {
        screen := Halted;
      } else if isInLevelTransition {
        UpdateExplosions(now);
        DrawCharacter();
        screen := Playing;
      } else {
        posted := PlayOn(now, rolls);
        screen := Playing;
      }
    }

    /** `onDraw`: one frame of the game, with one clock reading `now`. */
    method Frame(now: int, rolls: FrameRolls) returns (screen: Screen, posted: Posted)
      requires Valid()
      modifies this, enemies
      ensures FrameOutcome(State(), screen, posted) == FrameSpec(old(State()), arena, now, rolls)
      ensures Valid()
    {
      if player.health <= 0.0 && !isGameOver {
        ghost var s0 := State();
        isGameOver := true;
        screen, posted := GameOverScreen, NothingPosted;
        FrameKeepsOk(s0, arena, now, rolls);
        return;
      }
      ghost var s0 := State();
      if !isGameOver && !isGameWon && killsThisLevel >= Level(level).killTarget && !isInLevelTransition {
        isInLevelTransition := true;
      }
      ghost var s1 := State();
      screen, posted := Settle(now, rolls);
      OverlayThenSettle(s0, s1, arena, now, rolls);
    }

    // -------------------------------------------------------------------------
    // Inputs

    /** `attackWarrior`, `attackArcher` (and `attack`), `attackLancer`. */
    method Attack(t: AttackType)
      requires Valid() && t != NoAttack
      modifies this`player
      ensures State() == AttackInput(old(State()), t)
      ensures Valid()
    {
      ghost var s0 := State();
      player := RequestAttack(player, level, t);
      InputsKeepOk(s0, arena, t, false, Still);
    }

    /** The callback an attack posts, run later by the view. */
    method FinishAttack(clearsMelee: bool)
      requires Valid()
      modifies this`player
      ensures State() == EndAttackInput(old(State()), clearsMelee)
      ensures Valid()
    {
      ghost var s0 := State();
      player := EndAttack(player, clearsMelee);
      InputsKeepOk(s0, arena, ArcherAttack, clearsMelee, Still);
    }

    /** `startGuarding`. */
    method Guard()
      requires Valid()
      modifies this`player
      ensures State() == StartGuardingInput(old(State()))
      ensures Valid()
    {
      ghost var s0 := State();
      player := StartGuarding(player, level);
      InputsKeepOk(s0, arena, ArcherAttack, false, Still);
    }

    /** `stopGuarding`. */
    method StopGuarding()
      requires Valid()
      modifies this`player
      ensures State() == StopGuardingInput(old(State()))
      ensures Valid()
    {
      ghost var s0 := State();
      player := player.(isGuarding := false);
      InputsKeepOk(s0, arena, ArcherAttack, false, Still);
    }

    /** `startMoving`. */
    method StartMoving(d: Direction)
      requires Valid()
      modifies this`player
      ensures State() == MoveInput(old(State()), Toward(d))
      ensures Valid()
    {
      ghost var s0 := State();
      player := player.(heading := Toward(d));
      InputsKeepOk(s0, arena, ArcherAttack, false, Toward(d));
    }

    /** `stopMoving`. */
    method StopMoving()
      requires Valid()
      modifies this`player
      ensures State() == MoveInput(old(State()), Still)
      ensures Valid()
    {
      ghost var s0 := State();
      player := player.(heading := Still);
      InputsKeepOk(s0, arena, ArcherAttack, false, Still);
    }

    // -------------------------------------------------------------------------
    // Lifecycle

    /** `enemies.clear()` and the three `spawnEnemy` calls that open every level. */
    method SpawnStartingThree(spawns: nat -> SpawnRoll)
      requires ValidLevel(level) && arena.Valid()
      modifies this`enemies
      ensures State() == old(State()).(enemies := StartingEnemies(level, arena, spawns))
      ensures Distinct(enemies)
    {
      enemies := StartingThree(level, arena, spawns);
    }

    /** What `resetStateForNewLevel` and `resetGame` do to the player and the lists
        other than the enemies. */
    method ClearField()
      requires arena.Valid()
      modifies this`player, this`arrows, this`mushrooms, this`meats, this`explosions
      ensures State() == old(State()).(player := ResetPlayer(old(player), arena), arrows := [], mushrooms := [],
                                       meats := [], explosions := [])
    {
      player, arrows, mushrooms, meats, explosions := ResetPlayer(player, arena), [], [], [], [];
    }

    /** `resetStateForNewLevel`. */
    method ResetStateForNewLevel(spawns: nat -> SpawnRoll)
      requires ValidLevel(level) && arena.Valid()
      modifies this`player, this`enemies, this`arrows, this`mushrooms, this`meats, this`explosions
      ensures State() == ResetForLevel(old(State()), arena, spawns)
      ensures Distinct(enemies)
    {
      ClearField();
      SpawnStartingThree(spawns);
    }

    /** `currentLevelIndex += 1; killsThisLevel = 0`. */
    method RaiseLevel()
      modifies this`level, this`killsThisLevel
      ensures State() == old(State()).(level := old(level) + 1, killsThisLevel := 0)
    {
      level, killsThisLevel := level + 1, 0;
    }

    /** Raise or close the level overlay. */
    method ShowOverlay(on: bool)
      modifies this`isInLevelTransition
      ensures State() == old(State()).(isInLevelTransition := on)
      ensures old(Valid()) ==> Valid()
    {
      isInLevelTransition := on;
    }

    /** `isGameWon = true`. */
    method WinGame()
      modifies this`isGameWon
      ensures State() == old(State()).(isGameWon := true)
    {
      isGameWon := true;
    }

    /** The first branch of `advanceLevel`: the next level, reset, behind the overlay. */
    method EnterNextLevel(spawns: nat -> SpawnRoll)
      requires ValidLevel(level) && level < |Table| - 1 && arena.Valid()
      modifies this`level, this`killsThisLevel, this`isInLevelTransition,
               this`player, this`enemies, this`arrows, this`mushrooms, this`meats, this`explosions
      ensures State() == AdvanceLevelSpec(old(State()), arena, spawns)
      ensures Distinct(enemies)
    {
      ghost var s0 := State();
      NextLevelIs(s0, arena, spawns);
      RaiseLevel();
      ResetStateForNewLevel(spawns);
      ShowOverlay(true);
    }

    /** `advanceLevel`. */
    method AdvanceLevel(spawns: nat -> SpawnRoll)
      requires Valid()
      modifies this`level, this`killsThisLevel, this`isGameWon, this`isInLevelTransition,
               this`player, this`enemies, this`arrows, this`mushrooms, this`meats, this`explosions
      ensures State() == AdvanceLevelSpec(old(State()), arena, spawns)
      ensures Valid()
    {
      ghost var s0 := State();
      AdvanceLevelKeepsOk(s0, arena, spawns);
      if level < |Table| - 1 {
        EnterNextLevel(spawns);
      } else {
        WinGame();
      }
    }

    /** `advanceLevelByButton`. */
    method AdvanceLevelByButton(spawns: nat -> SpawnRoll)
      requires Valid()
      modifies this`level, this`killsThisLevel, this`isGameWon, this`isInLevelTransition,
               this`player, this`enemies, this`arrows, this`mushrooms, this`meats, this`explosions
      ensures State() == AdvanceByButton(old(State()), arena, spawns)
      ensures Valid()
    {
      if isGameWon || isInLevelTransition {
        return;
      }
      AdvanceLevel(spawns);
    }

    /** A lifted finger on the overlay's button: advance if the kill target is met,
        then close the overlay. */
    method PressOverlayButton(spawns: nat -> SpawnRoll)
      requires Valid()
      modifies this`level, this`killsThisLevel, this`isGameWon, this`isInLevelTransition,
               this`player, this`enemies, this`arrows, this`mushrooms, this`meats, this`explosions
      ensures var s0 := old(State());
        State() == (if s0.killsThisLevel >= Level(s0.level).killTarget then AdvanceLevelSpec(s0, arena, spawns) else s0)
                   .(isInLevelTransition := false)
      ensures Valid()
    {
      if killsThisLevel >= Level(level).killTarget {
        AdvanceLevel(spawns);
      }
      ShowOverlay(false);
    }

    /** `onTouchEvent`: a touch at (`x`, `y`), `isUp` for a lifted finger, against the
        overlay's button; the result says whether the touch was taken. */
    method OnTouch(button: Rect, isUp: bool, x: real, y: real, spawns: nat -> SpawnRoll) returns (handled: bool)
      requires Valid()
      modifies this`level, this`killsThisLevel, this`isGameWon, this`isInLevelTransition,
               this`player, this`enemies, this`arrows, this`mushrooms, this`meats, this`explosions
      ensures (State(), handled) == TapSpec(old(State()), arena, button, isUp, x, y, spawns)
      ensures Valid()
    {
      ghost var s0 := State();
      TapKeepsOk(s0, arena, button, isUp, x, y, spawns);
      if !isInLevelTransition {
        return false;
      }
      if isUp && Contains(button, x, y) {
        PressOverlayButton(spawns);
      }
      return true;
    }

    /** The counters and flags `resetGame` restarts, from time `now`. */
    method RestartCounters(now: int)
      modifies this`isGameOver, this`isGameWon, this`enemiesKilled, this`level, this`killsThisLevel, this`gameStartTime
      ensures State() == old(State()).(isGameOver := false, isGameWon := false, enemiesKilled := 0, level := 0,
                                       killsThisLevel := 0, gameStartTime := now)
    {
      isGameOver, isGameWon := false, false;
      enemiesKilled, level, killsThisLevel := 0, 0, 0;
      gameStartTime := now;
    }

    /** `resetGame`, from time `now`. */
    method ResetGame(now: int, spawns: nat -> SpawnRoll)
      requires Valid()
      modifies this`isGameOver, this`isGameWon, this`enemiesKilled, this`level, this`killsThisLevel, this`gameStartTime,
               this`player, this`enemies, this`arrows, this`mushrooms, this`meats, this`explosions
      ensures State() == ResetGameSpec(old(State()), arena, now, spawns)
      ensures Valid()
    {
      ghost var s0 := State();
      RestartCounters(now);
      ResetStateForNewLevel(spawns);
      ResetGameIsLevelReset(s0, arena, now, spawns);
      FreshGamesAreOk(s0, arena, now, spawns);
    }

    /** The view as it is created and first sized (`onSizeChanged`): the game starts at
        time `now` on an arena of `a`'s size. */
    constructor (a: Arena, now: int, spawns: nat -> SpawnRoll)
      requires a.Valid()
      ensures State() == InitialState(a, now, spawns)
      ensures Valid()
    {
      arena := a;
      player := InitialPlayer(a);
      level, killsThisLevel, enemiesKilled := 0, 0, 0;
      isGameOver, isGameWon, isInLevelTransition := false, false, false;
      gameStartTime := now;
      enemies := [];
      arrows, explosions, mushrooms, meats := [], [], [], [];
      new;
      SpawnStartingThree(spawns);
      FreshGamesAreOk(State(), a, now, spawns);
    }
  }
}
