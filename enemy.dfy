/** The runtime record of one enemy: position, patrol direction, animation,
    health and the attack hand-shake flags. The game mutates it in place. */
module EnemyModel {

  datatype EnemyState = Idle | Move | Attack

  datatype EnemyType = Torch | Warrior | Tnt

  /** The gameplay fields of an enemy at one instant, as a value. */
  datatype EnemyView = EnemyView(
    x: real,
    y: real,
    kind: EnemyType,
    speed: real,
    destroyed: bool,
    health: int,
    maxHealth: int,
    attackReady: bool,
    movingLeft: bool,
    facingLeft: bool,
    state: EnemyState,
    frame: int,
    frameTimer: int,
    dealt: bool)

  class Enemy {
    const id: string
    var x: real
    var y: real
    var kind: EnemyType
    var speedPxPerFrame: real
    var isDestroyed: bool
    var attackDamage: int
    var canDealDamage: bool
    var health: int
    var maxHealth: int
    var attackReady: bool
    /** The patrol direction. */
    var movingLeft: bool
    /** The direction the sprite faces. */
    var facingLeft: bool
    var state: EnemyState
    var currentFrame: int
    var frameTimerMs: int
    /** Set once the current attack swing has hurt the player. */
    var dealtDamageThisAttack: bool
    /** Timestamp until which the enemy would chase the player; nothing reads it. */
    var aggroUntilMs: int

    /** The record's constructor with its default values; a new enemy patrols to the
        left in the walking state, on frame 0, with no attack swing pending. */
    constructor (id: string, x: real, y: real, kind: EnemyType := Torch,
                 speedPxPerFrame: real := 3.0, isDestroyed: bool := false,
                 attackDamage: int := 1, canDealDamage: bool := true,
                 health: int := 3, maxHealth: int := 3, attackReady: bool := false)
      ensures this.id == id && this.x == x && this.y == y && this.kind == kind
      ensures this.speedPxPerFrame == speedPxPerFrame && this.isDestroyed == isDestroyed
      ensures this.attackDamage == attackDamage && this.canDealDamage == canDealDamage
      ensures this.health == health && this.maxHealth == maxHealth && this.attackReady == attackReady
      ensures movingLeft && facingLeft && state == Move
      ensures currentFrame == 0 && frameTimerMs == 0 && !dealtDamageThisAttack && aggroUntilMs == 0
    {
      this.id := id;
      this.x := x;
      this.y := y;
      this.kind := kind;
      this.speedPxPerFrame := speedPxPerFrame;
      this.isDestroyed := isDestroyed;
      this.attackDamage := attackDamage;
      this.canDealDamage := canDealDamage;
      this.health := health;
      this.maxHealth := maxHealth;
      this.attackReady := attackReady;
      movingLeft := true;
      facingLeft := true;
      state := Move;
      currentFrame := 0;
      frameTimerMs := 0;
      dealtDamageThisAttack := false;
      aggroUntilMs := 0;
    }

    function View(): EnemyView
      reads this
    {
      EnemyView(x, y, kind, speedPxPerFrame, isDestroyed, health, maxHealth, attackReady,
                movingLeft, facingLeft, state, currentFrame, frameTimerMs, dealtDamageThisAttack)
    }
  }

  /** The views of a list of enemies, in order. */
  function ViewsOf(es: seq<Enemy>): (vs: seq<EnemyView>)
    reads es
    ensures |vs| == |es| && forall k :: 0 <= k < |es| ==> vs[k] == es[k].View()
  {
    seq(|es|, k requires 0 <= k < |es| reads es => es[k].View())
  }

  /** No enemy object appears twice in the list. */
  predicate Distinct(es: seq<Enemy>)
  {
    forall i, j :: 0 <= i < j < |es| ==> es[i] != es[j]
  }
}
