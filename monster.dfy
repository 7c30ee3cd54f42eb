/** The Monster sprite: a fixed position on screen, a two-state animation over a
    sprite sheet of `cols` by `rows` cells, and a proximity test. */
module MonsterModel {
  import opened Geometry

  datatype MonsterState = Idle | Attack

  /** How long one animation frame stays on screen, in milliseconds. */
  const FrameDurationMs: int := 150

  /** An integer rectangle of the sprite sheet (android.graphics.Rect). */
  datatype Cell = Cell(left: int, top: int, right: int, bottom: int)

  lemma MulMono(a: int, b: int, c: int)
    ensures a <= b && c >= 0 ==> a * c <= b * c
  {
  }

  class Monster {
    const id: string
    const sheetWidth: nat
    const sheetHeight: nat
    const x: real
    const y: real
    const cols: int
    const rows: int
    const scale: real
    const frameWidth: int
    const frameHeight: int

    var state: MonsterState
    var currentFrame: int
    var frameTimer: int

    ghost predicate Valid()
      reads this
    {
      cols > 0 && rows > 0
      && frameWidth == sheetWidth / cols && frameHeight == sheetHeight / rows
      && 0 <= currentFrame < cols
    }

    /** The sheet is cut into `cols` by `rows` cells; Kotlin's integer division by a
        zero count would throw, so both counts are positive. */
    constructor (id: string, sheetWidth: nat, sheetHeight: nat, x: real, y: real,
                 cols: int, rows: int, scale: real := 2.5)
      requires cols > 0 && rows > 0
      ensures Valid()
      ensures this.id == id && this.x == x && this.y == y && this.scale == scale
      ensures this.cols == cols && this.rows == rows
      ensures this.sheetWidth == sheetWidth && this.sheetHeight == sheetHeight
      ensures state == Idle && currentFrame == 0 && frameTimer == 0
    {
      this.id := id;
      this.sheetWidth := sheetWidth;
      this.sheetHeight := sheetHeight;
      this.x := x;
      this.y := y;
      this.cols := cols;
      this.rows := rows;
      this.scale := scale;
      frameWidth := sheetWidth / cols;
      frameHeight := sheetHeight / rows;
      state := Idle;
      currentFrame := 0;
      frameTimer := 0;
    }

    /** Switching to another state restarts its animation; asking for the current
        state changes nothing. */
    method SetState(newState: MonsterState)
      requires Valid()
      modifies this`state, this`currentFrame
      ensures Valid()
      ensures state == newState
      ensures old(state) == newState ==> currentFrame == old(currentFrame)
      ensures old(state) != newState ==> currentFrame == 0
    {
      if state != newState {
        state := newState;
        currentFrame := 0;
      }
    }

    /** Advances the animation by one cell, wrapping at the end of the row, once more
        than a frame duration has passed since the last advance. */
    method Update(now: int)
      requires Valid()
      modifies this`currentFrame, this`frameTimer
      ensures Valid()
      ensures now - old(frameTimer) > FrameDurationMs ==>
        currentFrame == (old(currentFrame) + 1) % cols && frameTimer == now
      ensures now - old(frameTimer) <= FrameDurationMs ==>
        currentFrame == old(currentFrame) && frameTimer == old(frameTimer)
    {
      if now - frameTimer > FrameDurationMs {
        currentFrame := (currentFrame + 1) % cols;
        frameTimer := now;
      }
    }

    /** The sheet row of the current state: idle on the first row, attack on the third. */
    function Row(): (r: int)
      reads this
      ensures r == 0 || r == 2
      ensures state == Idle ==> r == 0
      ensures state == Attack ==> r == 2
    {
      match state
      case Idle => 0
      case Attack => 2
    }

    /** The on-screen rectangle of the sprite. */
    function BoundingBox(): (r: Rect)
      reads this
      ensures r.left == x && r.top == y
      ensures r.right - r.left == frameWidth as real * scale
      ensures r.bottom - r.top == frameHeight as real * scale
    {
      Box(x, y, frameWidth as real * scale, frameHeight as real * scale)
    }

    /** What `draw` copies: the current cell of the sheet, onto the bounding box,
        which is that cell scaled by `scale`. A state's row lies inside the sheet
        whenever the sheet has that many rows. */
    function DrawRects(): (r: (Cell, Rect))
      requires Valid()
      reads this
      ensures r.1 == BoundingBox()
      ensures r.0.left == currentFrame * frameWidth && r.0.top == Row() * frameHeight
      ensures r.0.right - r.0.left == frameWidth && r.0.bottom - r.0.top == frameHeight
      ensures (r.1.right - r.1.left) == (r.0.right - r.0.left) as real * scale
      ensures 0 <= r.0.left && r.0.right <= sheetWidth && 0 <= r.0.top
      ensures Row() < rows ==> r.0.bottom <= sheetHeight
    {
      MulMono(currentFrame + 1, cols, frameWidth);
      MulMono(Row() + 1, rows, frameHeight);
      var cell := Cell(currentFrame * frameWidth, Row() * frameHeight,
                       (currentFrame + 1) * frameWidth, (Row() + 1) * frameHeight);
      (cell, BoundingBox())
    }

    /** Whether the point is strictly closer than `range` to the centre of the
        bounding box (compared on squares, so the sign of `range` does not matter). */
    function IsNear(px: real, py: real, range: real): (b: bool)
      reads this
      ensures var c := BoundingBox();
        b == ((px - c.CenterX()) * (px - c.CenterX()) + (py - c.CenterY()) * (py - c.CenterY()) < range * range)
    {
      var dx := px - (x + frameWidth as real * scale / 2.0);
      var dy := py - (y + frameHeight as real * scale / 2.0);
      dx * dx + dy * dy < range * range
    }
  }

  /** A wider range never loses a point that a narrower one accepts. */
  lemma IsNearMonotone(m: Monster, px: real, py: real, r1: real, r2: real)
    requires 0.0 <= r1 <= r2 && m.IsNear(px, py, r1)
    ensures m.IsNear(px, py, r2)
  {
    assert r1 * r1 <= r2 * r2;
  }

  /** The centre of the monster is near it for any non-zero range. */
  lemma CentreIsNear(m: Monster, range: real)
    requires range != 0.0
    ensures m.IsNear(m.BoundingBox().CenterX(), m.BoundingBox().CenterY(), range)
  {
  }
}
