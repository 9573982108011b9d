/** Constants of the play area and the entities of the game: balls, blocks, power-ups. */
module World {
  const WIDTH: int := 900
  const HEIGHT: int := 700

  const PADDLE_WIDTH: int := 120
  const PADDLE_HEIGHT: int := 16
  const PADDLE_SPEED: int := 8
  /** The paddle's fixed top edge: it is created at `HEIGHT - 60` and only moves sideways. */
  const PADDLE_TOP: int := HEIGHT - 60

  const BALL_RADIUS: int := 8

  const BLOCK_WIDTH: int := 70
  const BLOCK_HEIGHT: int := 25
  const BLOCK_PADDING: int := 6
  const TOP_OFFSET: int := 80

  const POWERUP_SIZE: int := 18
  const POWERUP_SPEED: int := 3

  /** Number of entries in the block colour palette. */
  const PALETTE_SIZE: int := 6

  /** A 2-D vector with exact real components (the source uses floats). */
  datatype Vec = Vec(x: real, y: real)

  /** An axis-aligned integer rectangle: left, top, width, height. */
  datatype Rect = Rect(x: int, y: int, w: int, h: int) {
    function Right(): int { x + w }
    function Bottom(): int { y + h }
    function CenterX(): int { x + w / 2 }
    function CenterY(): int { y + h / 2 }
  }

  /** Strict interior overlap of two rectangles of positive size (touching edges do not collide). */
  predicate Overlaps(a: Rect, b: Rect) {
    a.x < b.Right() && b.x < a.Right() && a.y < b.Bottom() && b.y < a.Bottom()
  }

  function Abs(r: real): (a: real)
    ensures a >= 0.0 && (a == r || a == -r)
  {
    if r < 0.0 then -r else r
  }

  datatype Option<T> = None | Some(value: T)

  datatype Ball = Ball(pos: Vec, vel: Vec)

  /** A block's rectangle, its palette slot and whether it is still alive. */
  datatype Block = Block(rect: Rect, colour: int, alive: bool)

  /**
   * A falling power-up, by its centre. It is created at a block's integer
   * centre and falls by an integer step, so its coordinates stay integers.
   */
  datatype PowerUp = PowerUp(x: int, y: int)

  /** The paddle's rectangle for a given left edge. */
  function PaddleRect(x: int): Rect {
    Rect(x, PADDLE_TOP, PADDLE_WIDTH, PADDLE_HEIGHT)
  }
}
