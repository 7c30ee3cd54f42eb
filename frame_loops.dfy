/** The loops of `updateItems` and `updateExplosions`, statement by statement, each
    proved to compute the matching function of PlayerSpec or CombatSpec. */
module FrameLoops {
  import opened Num
  import opened Geometry
  import opened GameTypes
  import opened PlayerSpec
  import opened CombatSpec

  // ---------------------------------------------------------------------------
  // Items

  lemma EatMushroomsNext(ms: seq<MapItem>, i: nat, health: real, box: Rect)
    requires i < |ms|
    ensures var prev := EatMushrooms(ms[..i], health, box);
      EatMushrooms(ms[..i + 1], health, box)
      == (prev.0 + [MarkPicked(ms[i], box)],
          if Pickable(ms[i], box) then Min(prev.1 + MushroomHealAmount, PlayerMaxHealth) else prev.1)
  {
    assert ms[..i + 1][..i] == ms[..i];
  }

  /** The mushroom loop of `updateItems`: every mushroom still lying that the
      player's box touches is used up and heals, capped at the maximum. */
  method EatMushroomLoop(ms: seq<MapItem>, health: real, box: Rect) returns (out: seq<MapItem>, h: real)
    ensures (out, h) == EatMushrooms(ms, health, box)
  {
    out := ms;
    h := health;
    var i := 0;
    while i < |ms|
      invariant 0 <= i <= |ms| && |out| == |ms|
      invariant out[i..] == ms[i..]
      invariant (out[..i], h) == EatMushrooms(ms[..i], health, box)
    {
      EatMushroomsNext(ms, i, health, box);
      var m := out[i];
      assert m == ms[i];
      if !m.isDestroyed && Intersects(box, ItemHitbox(m)) {
        out := out[i := m.(isDestroyed := true)];
        h := Min(h + MushroomHealAmount, PlayerMaxHealth);
      }
      assert out[..i + 1] == out[..i] + [MarkPicked(ms[i], box)];
      i := i + 1;
    }
    assert out[..i] == out && ms[..i] == ms;
  }

  lemma EatMeatsNext(ms: seq<MapItem>, i: nat, shield: bool, box: Rect)
    requires i < |ms|
    ensures var prev := EatMeats(ms[..i], shield, box);
      EatMeats(ms[..i + 1], shield, box) == (prev.0 + [MarkPicked(ms[i], box)], prev.1 || Pickable(ms[i], box))
  {
    assert ms[..i + 1][..i] == ms[..i];
  }

  /** The meat loop of `updateItems`: every piece still lying that the player's box
      touches is used up and gives the shield. */
  method EatMeatLoop(ms: seq<MapItem>, shield: bool, box: Rect) returns (out: seq<MapItem>, s: bool)
    ensures (out, s) == EatMeats(ms, shield, box)
  {
    out := ms;
    s := shield;
    var i := 0;
    while i < |ms|
      invariant 0 <= i <= |ms| && |out| == |ms|
      invariant out[i..] == ms[i..]
      invariant (out[..i], s) == EatMeats(ms[..i], shield, box)
    {
      EatMeatsNext(ms, i, shield, box);
      var m := out[i];
      assert m == ms[i];
      if !m.isDestroyed && Intersects(box, ItemHitbox(m)) {
        out := out[i := m.(isDestroyed := true)];
        s := true;
      }
      assert out[..i + 1] == out[..i] + [MarkPicked(ms[i], box)];
      i := i + 1;
    }
    assert out[..i] == out && ms[..i] == ms;
  }

  // ---------------------------------------------------------------------------
  // Explosions

  /** One pass of the explosion loop: a finished explosion is dropped; once its frame
      time is up it advances a frame and, past the last, finishes; on the damage
      frame it deals its blast once. */
  method AdvanceExplosion(e: Explosion, p: Player, a: Arena, now: int) returns (kept: Option<Explosion>, q: Player)
    ensures (kept, q) == StepExplosion(e, p, a, now)
  {
    q := p;
    if e.isFinished {
      kept := None;
      return;
    }
    var x := e;
    if now - x.frameTimer > ExplosionFrameDurationMs {
      x := x.(frame := x.frame + 1, frameTimer := now);
      if x.frame >= ExplosionTotalFrames {
        kept := Some(x.(isFinished := true));
        return;
      }
    }
    if x.frame == ExplosionDamageFrame && !x.hasDealtDamage {
      if InBlast(x, p, a) {
        q := TakeHit(p, ExplosionDamage);
      }
      x := x.(hasDealtDamage := true);
    }
    kept := Some(x);
  }

  lemma StepExplosionsNext(es: seq<Explosion>, i: nat, p: Player, a: Arena, now: int)
    requires i < |es|
    ensures var prev := StepExplosions(es[..i], p, a, now);
      var last := StepExplosion(es[i], prev.1, a, now);
      StepExplosions(es[..i + 1], p, a, now) == (prev.0 + (if last.0.Some? then [last.0.value] else []), last.1)
  {
    assert es[..i + 1][..i] == es[..i];
  }

  /** The loop of `updateExplosions`: the iterator removes the finished explosions and
      steps the others, the player threaded through in list order. */
  method RunExplosions(es: seq<Explosion>, p: Player, a: Arena, now: int) returns (out: seq<Explosion>, q: Player)
    ensures (out, q) == StepExplosions(es, p, a, now)
  {
    out := [];
    q := p;
    var i := 0;
    while i < |es|
      invariant 0 <= i <= |es|
      invariant (out, q) == StepExplosions(es[..i], p, a, now)
    {
      StepExplosionsNext(es, i, p, a, now);
      var kept, hurt := AdvanceExplosion(es[i], q, a, now);
      out := out + (if kept.Some? then [kept.value] else []);
      q := hurt;
      i := i + 1;
    }
    assert es[..i] == es;
  }
}
