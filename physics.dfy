/**
 * Ball physics of one frame: free flight with the wall checks, loss below
 * the play area, the paddle bounce, and the block collision resolver that
 * lets each ball destroy at most one block.
 */
module Physics {
  import opened World

  const R: real := BALL_RADIUS as real
  const RIGHT_LIMIT: real := (WIDTH - BALL_RADIUS) as real
  const LOST_LIMIT: real := (HEIGHT + BALL_RADIUS) as real

  // ---------------------------------------------------------------------
  // Flight, walls and loss

  /**
   * One frame of flight: the ball moves by its velocity, then the left,
   * right and top walls are checked in that order.
   */
  function Move(b: Ball): Ball {
    var (x, vx) := SideWalls(b.pos.x + b.vel.x, b.vel.x);
    var (y, vy) := TopWall(b.pos.y + b.vel.y, b.vel.y);
    Ball(Vec(x, y), Vec(vx, vy))
  }

  /** The left wall, then the right wall, for a horizontal position and velocity. */
  function SideWalls(x: real, vx: real): (real, real) {
    var (x1, vx1) := if x <= R then (R, Abs(vx)) else (x, vx);
    if x1 >= RIGHT_LIMIT then (RIGHT_LIMIT, -Abs(vx1)) else (x1, vx1)
  }

  /** The top wall, for a vertical position and velocity. */
  function TopWall(y: real, vy: real): (real, real) {
    if y <= R then (R, Abs(vy)) else (y, vy)
  }

  /**
   * After a move the ball is between the side walls and below the top wall;
   * a ball whose move reaches a wall is put on it and sent away from it (or
   * along it); speeds per axis are kept; a ball that reached no wall has
   * simply moved by its velocity.
   */
  lemma MoveWalls(b: Ball)
    ensures var m := Move(b);
      R <= m.pos.x <= RIGHT_LIMIT && R <= m.pos.y &&
      (m.pos.x == R ==> m.vel.x >= 0.0) &&
      (m.pos.x == RIGHT_LIMIT ==> m.vel.x <= 0.0) &&
      (m.pos.y == R ==> m.vel.y >= 0.0) &&
      Abs(m.vel.x) == Abs(b.vel.x) && Abs(m.vel.y) == Abs(b.vel.y) &&
      (b.pos.x + b.vel.x <= R ==> m.pos.x == R && m.vel.x == Abs(b.vel.x)) &&
      (b.pos.x + b.vel.x >= RIGHT_LIMIT ==> m.pos.x == RIGHT_LIMIT && m.vel.x == -Abs(b.vel.x)) &&
      (R < b.pos.x + b.vel.x < RIGHT_LIMIT ==> m.pos.x == b.pos.x + b.vel.x && m.vel.x == b.vel.x) &&
      (R < b.pos.y + b.vel.y ==> m.pos.y == b.pos.y + b.vel.y && m.vel.y == b.vel.y) &&
      (b.pos.y + b.vel.y <= R ==> m.pos.y == R && m.vel.y == Abs(b.vel.y))
  {
  }

  /** A ball is lost once its centre is more than a radius below the play area. */
  predicate Lost(b: Ball) {
    b.pos.y > LOST_LIMIT
  }

  /** Inside the walls, and not lost. */
  predicate InPlay(b: Ball) {
    R <= b.pos.x <= RIGHT_LIMIT && R <= b.pos.y <= LOST_LIMIT
  }

  /** The balls that remain after one frame of flight, in their original order. */
  function Survivors(bs: seq<Ball>): (r: seq<Ball>)
    ensures |r| <= |bs|
  {
    if |bs| == 0 then []
    else
      var n := |bs| - 1;
      var m := Move(bs[n]);
      var prev := Survivors(bs[..n]);
      if Lost(m) then prev else prev + [m]
  }

  /** The survivors grow ball by ball, as the update loop visits the balls. */
  lemma SurvivorsStep(bs: seq<Ball>, i: int)
    requires 0 <= i < |bs|
    ensures Survivors(bs[..i + 1]) == Survivors(bs[..i]) + (if Lost(Move(bs[i])) then [] else [Move(bs[i])])
  {
    assert bs[..i + 1][..i] == bs[..i];
  }

  /**
   * A ball survives the frame exactly when its moved position is not lost:
   * every survivor is a moved ball of the list and inside the play area, and
   * every moved ball that is not lost is among the survivors.
   */
  lemma {:induction false} SurvivorsExactly(bs: seq<Ball>)
    ensures forall b :: b in Survivors(bs) ==> InPlay(b)
    ensures forall i :: 0 <= i < |bs| && !Lost(Move(bs[i])) ==> Move(bs[i]) in Survivors(bs)
    ensures forall b :: b in Survivors(bs) ==> exists i :: 0 <= i < |bs| && b == Move(bs[i])
  {
    if |bs| > 0 {
      var n := |bs| - 1;
      SurvivorsExactly(bs[..n]);
      MoveWalls(bs[n]);
      assert forall i :: 0 <= i < n ==> bs[..n][i] == bs[i];
    }
  }

  // ---------------------------------------------------------------------
  // Block collisions

  /** The ball's collision box (pygame truncates the float corner; the model takes the floor). */
  function BallBox(b: Ball): Rect {
    Rect((b.pos.x - R).Floor, (b.pos.y - R).Floor, 2 * BALL_RADIUS, 2 * BALL_RADIUS)
  }

  datatype Side = Left | Right | Top | Bottom

  /** Tie-break rank of a side: left first, then right, top, bottom. */
  function Rank(s: Side): nat {
    match s
    case Left => 0
    case Right => 1
    case Top => 2
    case Bottom => 3
  }

  /** How far `box` has entered `block` across the given side of the block. */
  function Depth(box: Rect, block: Rect, s: Side): int {
    match s
    case Left => box.Right() - block.x
    case Right => block.Right() - box.x
    case Top => box.Bottom() - block.y
    case Bottom => block.Bottom() - box.y
  }

  function Min(a: int, b: int): int {
    if a <= b then a else b
  }

  /**
   * The side the ball is taken to have hit: the one of least penetration;
   * among equal depths the first of left, right, top, bottom.
   */
  function ChooseSide(box: Rect, block: Rect): (s: Side)
    ensures forall t: Side :: Depth(box, block, s) <= Depth(box, block, t)
    ensures forall t: Side :: Rank(t) < Rank(s) ==> Depth(box, block, t) > Depth(box, block, s)
  {
    var left, right := Depth(box, block, Left), Depth(box, block, Right);
    var top, bottom := Depth(box, block, Top), Depth(box, block, Bottom);
    var least := Min(Min(Min(left, right), top), bottom);
    if least == left then Left
    else if least == right then Right
    else if least == top then Top
    else Bottom
  }

  /** The velocity after hitting a block on side `s`: the crossing component points away from the block. */
  function Deflect(v: Vec, s: Side): (w: Vec)
    ensures Abs(w.x) == Abs(v.x) && Abs(w.y) == Abs(v.y)
    ensures s == Left ==> w.x <= 0.0 && w.y == v.y
    ensures s == Right ==> w.x >= 0.0 && w.y == v.y
    ensures s == Top ==> w.y <= 0.0 && w.x == v.x
    ensures s == Bottom ==> w.y >= 0.0 && w.x == v.x
  {
    match s
    case Left => v.(x := -Abs(v.x))
    case Right => v.(x := Abs(v.x))
    case Top => v.(y := -Abs(v.y))
    case Bottom => v.(y := Abs(v.y))
  }

  /** A live block that the box overlaps. */
  predicate Hits(box: Rect, b: Block) {
    b.alive && Overlaps(box, b.rect)
  }

  /** Index of the first live block the box overlaps, if any. */
  function FirstHit(box: Rect, blocks: seq<Block>): (h: Option<nat>)
    ensures h.Some? ==> h.value < |blocks| && Hits(box, blocks[h.value])
    ensures h.Some? ==> forall k :: 0 <= k < h.value ==> !Hits(box, blocks[k])
    ensures h.None? ==> forall k :: 0 <= k < |blocks| ==> !Hits(box, blocks[k])
  {
    if |blocks| == 0 then None
    else if Hits(box, blocks[0]) then Some(0)
    else
      match FirstHit(box, blocks[1..])
      case None => None
      case Some(j) => Some(j + 1)
  }

  /**
   * The ball after the paddle check: on overlap it takes the bounce velocity
   * and is put just above the paddle, its box resting on the paddle's top
   * edge and clear of the paddle, so the same contact is not seen again.
   */
  function PaddleBounce(b: Ball, box: Rect, paddleX: int, bounce: Vec): (r: Ball)
    ensures Overlaps(box, PaddleRect(paddleX)) ==>
      r.pos.x == b.pos.x && r.pos.y == (PADDLE_TOP - BALL_RADIUS) as real && r.vel == bounce &&
      BallBox(r).Bottom() == PADDLE_TOP && BallBox(r).x == BallBox(b).x &&
      !Overlaps(BallBox(r), PaddleRect(paddleX))
    ensures !Overlaps(box, PaddleRect(paddleX)) ==> r == b
  {
    if Overlaps(box, PaddleRect(paddleX)) then Ball(b.pos.(y := (PADDLE_TOP - BALL_RADIUS) as real), bounce) else b
  }

  /**
   * One ball's collisions: the paddle check, then the first live block its
   * box (taken before the paddle moved it) overlaps, if any. On a block hit
   * the velocity left by the paddle check keeps both magnitudes and the
   * component crossing the chosen side is turned away from the block.
   */
  function CollideBall(b: Ball, blocks: seq<Block>, paddleX: int, bounce: Vec): (r: (Ball, Option<nat>))
    ensures r.1 == FirstHit(BallBox(b), blocks)
    ensures r.1.Some? ==>
      r.1.value < |blocks| && blocks[r.1.value].alive && Overlaps(BallBox(b), blocks[r.1.value].rect)
    ensures Overlaps(BallBox(b), PaddleRect(paddleX)) ==>
      r.0.pos == Vec(b.pos.x, (PADDLE_TOP - BALL_RADIUS) as real)
    ensures !Overlaps(BallBox(b), PaddleRect(paddleX)) ==> r.0.pos == b.pos
    ensures r.1.None? ==>
      r.0.vel == (if Overlaps(BallBox(b), PaddleRect(paddleX)) then bounce else b.vel)
    ensures r.1.Some? ==>
      var v := if Overlaps(BallBox(b), PaddleRect(paddleX)) then bounce else b.vel;
      var s := ChooseSide(BallBox(b), blocks[r.1.value].rect);
      Abs(r.0.vel.x) == Abs(v.x) && Abs(r.0.vel.y) == Abs(v.y) &&
      (s == Left ==> r.0.vel.x <= 0.0 && r.0.vel.y == v.y) &&
      (s == Right ==> r.0.vel.x >= 0.0 && r.0.vel.y == v.y) &&
      (s == Top ==> r.0.vel.y <= 0.0 && r.0.vel.x == v.x) &&
      (s == Bottom ==> r.0.vel.y >= 0.0 && r.0.vel.x == v.x)
  {
    var box := BallBox(b);
    var b1 := PaddleBounce(b, box, paddleX, bounce);
    match FirstHit(box, blocks)
    case None => (b1, None)
    case Some(j) => (b1.(vel := Deflect(b1.vel, ChooseSide(box, blocks[j].rect))), Some(j))
  }

  /** The power-up a destroyed block may drop, at the block's centre. */
  function DropAt(rect: Rect): (p: PowerUp)
    ensures 0 < rect.w ==> rect.x <= p.x < rect.Right() && p.x - rect.x == rect.w / 2
    ensures 0 < rect.h ==> rect.y <= p.y < rect.Bottom() && p.y - rect.y == rect.h / 2
  {
    PowerUp(rect.CenterX(), rect.CenterY())
  }

  /** Number of live blocks. */
  function LiveCount(s: seq<Block>): (n: nat)
    ensures n <= |s|
  {
    if |s| == 0 then 0 else (if s[0].alive then 1 else 0) + LiveCount(s[1..])
  }

  /** The live blocks, in their original order. */
  function Alive(s: seq<Block>): (r: seq<Block>)
    ensures |r| == LiveCount(s)
    ensures forall i :: 0 <= i < |r| ==> r[i].alive
  {
    if |s| == 0 then []
    else (if s[0].alive then [s[0]] else []) + Alive(s[1..])
  }

  /** The outcome of resolving block collisions for a list of balls. */
  datatype Sweep = Sweep(balls: seq<Ball>, blocks: seq<Block>, kills: nat, drops: seq<PowerUp>)

  /** `after` is `before` with some blocks marked dead and nothing else changed. */
  predicate OnlyKilled(before: seq<Block>, after: seq<Block>) {
    |after| == |before| &&
    forall j :: 0 <= j < |before| ==>
      after[j].rect == before[j].rect && after[j].colour == before[j].colour &&
      (after[j].alive ==> before[j].alive)
  }

  /**
   * Block collisions for the balls in order, each ball seeing the blocks the
   * earlier balls left alive. A hit kills the block and, if the ball's drop
   * roll `drop(i)` comes up, drops a power-up at the block's centre.
   */
  function SweepBalls(bs: seq<Ball>, blocks: seq<Block>, paddleX: int,
                      bounce: nat -> Vec, drop: nat -> bool): (r: Sweep)
    ensures |r.balls| == |bs|
    ensures |r.blocks| == |blocks|
    ensures r.kills <= |bs|
    ensures LiveCount(r.blocks) + r.kills == LiveCount(blocks)
    ensures |r.drops| <= r.kills
  {
    if |bs| == 0 then Sweep([], blocks, 0, [])
    else
      var n := |bs| - 1;
      var prev := SweepBalls(bs[..n], blocks, paddleX, bounce, drop);
      var (ball, hit) := CollideBall(bs[n], prev.blocks, paddleX, bounce(n));
      match hit
      case None => Sweep(prev.balls + [ball], prev.blocks, prev.kills, prev.drops)
      case Some(j) =>
        var blocks' := prev.blocks[j := prev.blocks[j].(alive := false)];
        LiveCountKill(prev.blocks, j);
        Sweep(prev.balls + [ball], blocks', prev.kills + 1,
              prev.drops + (if drop(n) then [DropAt(prev.blocks[j].rect)] else []))
  }

  // ---------------------------------------------------------------------
  // Lemmas

  /** Killing one live block lowers the live count by exactly one. */
  lemma {:induction false} LiveCountKill(s: seq<Block>, j: int)
    requires 0 <= j < |s| && s[j].alive
    ensures LiveCount(s[j := s[j].(alive := false)]) == LiveCount(s) - 1
  {
    var t := s[j := s[j].(alive := false)];
    if j > 0 {
      assert t[1..] == s[1..][j - 1 := s[j].(alive := false)];
      LiveCountKill(s[1..], j - 1);
    } else {
      assert t[1..] == s[1..];
    }
  }

  /** Pruning keeps exactly the live blocks: every kept block is a live block of the list, and every live block is kept. */
  lemma {:induction false} AliveExactly(s: seq<Block>)
    ensures forall b :: b in Alive(s) ==> b.alive && b in s
    ensures forall i :: 0 <= i < |s| && s[i].alive ==> s[i] in Alive(s)
  {
    if |s| > 0 {
      AliveExactly(s[1..]);
      assert forall i :: 1 <= i < |s| ==> s[i] == s[1..][i - 1];
    }
  }

  /** A sweep only marks blocks dead: positions, colours and order stay, and no dead block revives. */
  lemma {:induction false} SweepOnlyKills(bs: seq<Ball>, blocks: seq<Block>, paddleX: int,
                                          bounce: nat -> Vec, drop: nat -> bool)
    ensures OnlyKilled(blocks, SweepBalls(bs, blocks, paddleX, bounce, drop).blocks)
  {
    if |bs| > 0 {
      SweepOnlyKills(bs[..|bs| - 1], blocks, paddleX, bounce, drop);
    }
  }

  /** Filtering distributes over concatenation, so it keeps the relative order of the survivors. */
  lemma {:induction false} AliveAppend(s: seq<Block>, t: seq<Block>)
    ensures Alive(s + t) == Alive(s) + Alive(t)
  {
    if |s| > 0 {
      assert (s + t)[1..] == s[1..] + t;
      AliveAppend(s[1..], t);
    } else {
      assert s + t == t;
    }
  }

  /** A list of live blocks is its own filter. */
  lemma {:induction false} AliveOfLive(s: seq<Block>)
    requires forall i :: 0 <= i < |s| ==> s[i].alive
    ensures Alive(s) == s && LiveCount(s) == |s|
  {
    if |s| > 0 {
      AliveOfLive(s[1..]);
    }
  }

  /**
   * Starting from live blocks only, the blocks left after pruning number
   * exactly the blocks there were minus the blocks killed, and no more
   * blocks are killed than there are balls.
   */
  lemma SweepPrunes(bs: seq<Ball>, blocks: seq<Block>, paddleX: int, bounce: nat -> Vec, drop: nat -> bool)
    requires forall i :: 0 <= i < |blocks| ==> blocks[i].alive
    ensures var r := SweepBalls(bs, blocks, paddleX, bounce, drop);
      |Alive(r.blocks)| == |blocks| - r.kills && r.kills <= |bs|
  {
    AliveOfLive(blocks);
  }

  /** The sweep grows one ball at a time, as the collision loop visits the balls. */
  lemma SweepStep(bs: seq<Ball>, i: int, blocks: seq<Block>, paddleX: int, bounce: nat -> Vec, drop: nat -> bool)
    requires 0 <= i < |bs|
    ensures var prev := SweepBalls(bs[..i], blocks, paddleX, bounce, drop);
      var r := SweepBalls(bs[..i + 1], blocks, paddleX, bounce, drop);
      var c := CollideBall(bs[i], prev.blocks, paddleX, bounce(i));
      r.balls == prev.balls + [c.0] &&
      (c.1.None? ==> r.blocks == prev.blocks && r.kills == prev.kills && r.drops == prev.drops) &&
      (c.1.Some? ==>
        r.blocks == prev.blocks[c.1.value := prev.blocks[c.1.value].(alive := false)] &&
        r.kills == prev.kills + 1 &&
        r.drops == prev.drops + (if drop(i) then [DropAt(prev.blocks[c.1.value].rect)] else []))
  {
    assert bs[..i + 1][..i] == bs[..i];
  }
}
