/**
 * The game state and its per-frame operations. The state is one object
 * whose fields the operations update in place; each operation is specified
 * by the pure functions of Levels, Physics and PowerUps.
 */
module Game {
  import opened World
  import opened Levels
  import opened Physics
  import opened PowerUps

  const START_LIVES: int := 3
  const BLOCK_SCORE: int := 100
  /** A fresh ball starts this far above the paddle's top edge. */
  const LAUNCH_HEIGHT: int := 30

  /** The keys held down during a frame. */
  datatype Keys = Keys(left: bool, right: bool, restart: bool)

  /** `v` limited to the range `[lo, hi]`. */
  function Clamp(lo: int, hi: int, v: int): (r: int)
    requires lo <= hi
    ensures lo <= r <= hi
    ensures lo <= v <= hi ==> r == v
    ensures v < lo ==> r == lo
    ensures v > hi ==> r == hi
  {
    if v < lo then lo else if v > hi then hi else v
  }

  /** The paddle's left edge after the arrow keys: moved left, then right, then kept on screen. */
  function SteerPaddle(x: int, keys: Keys): (r: int)
    ensures 0 <= r <= WIDTH - PADDLE_WIDTH
    ensures keys.left == keys.right && 0 <= x <= WIDTH - PADDLE_WIDTH ==> r == x
    ensures keys.left && !keys.right && 0 <= x - PADDLE_SPEED <= WIDTH - PADDLE_WIDTH ==> r == x - PADDLE_SPEED
    ensures keys.right && !keys.left && 0 <= x + PADDLE_SPEED <= WIDTH - PADDLE_WIDTH ==> r == x + PADDLE_SPEED
    ensures keys.left && !keys.right && x - PADDLE_SPEED < 0 ==> r == 0
    ensures keys.right && !keys.left && x + PADDLE_SPEED > WIDTH - PADDLE_WIDTH ==> r == WIDTH - PADDLE_WIDTH
  {
    var x1 := if keys.left then x - PADDLE_SPEED else x;
    var x2 := if keys.right then x1 + PADDLE_SPEED else x1;
    Clamp(0, WIDTH - PADDLE_WIDTH, x2)
  }

  /** A new ball above the paddle's centre, launched with velocity `launch`. */
  function FreshBall(paddleX: int, launch: Vec): Ball {
    Ball(Vec(PaddleRect(paddleX).CenterX() as real, (PADDLE_TOP - LAUNCH_HEIGHT) as real), launch)
  }

  class BlockBreaker {
    var levelIndex: int
    var score: int
    var lives: int
    var paddleX: int
    var balls: seq<Ball>
    var powerups: seq<PowerUp>
    var blocks: seq<Block>

    /** The invariant kept by every operation. */
    ghost predicate Valid()
      reads this
    {
      0 <= levelIndex && 0 <= score && lives <= START_LIVES &&
      0 <= paddleX <= WIDTH - PADDLE_WIDTH &&
      (forall i :: 0 <= i < |blocks| ==> blocks[i].alive) &&
      (lives > 0 ==> |balls| > 0)
    }

    /** The invariant between frames: in addition, some block is left. */
    ghost predicate Ready()
      reads this
    {
      Valid() && |blocks| > 0
    }

    constructor (launch: Vec)
      ensures Ready()
      ensures levelIndex == 0 && score == 0 && lives == START_LIVES
      ensures paddleX == (WIDTH - PADDLE_WIDTH) / 2
      ensures balls == [FreshBall(paddleX, launch)] && powerups == [] && blocks == LevelBlocks(levelIndex)
    {
      levelIndex, score, lives := 0, 0, START_LIVES;
      paddleX := (WIDTH - PADDLE_WIDTH) / 2;
      balls, powerups, blocks := [], [], [];
      new;
      ResetBalls(launch);
      LoadLevel(levelIndex);
    }

    /** Replaces all balls by one fresh ball above the paddle. */
    method ResetBalls(launch: Vec)
      modifies this`balls
      ensures balls == [FreshBall(paddleX, launch)]
    {
      balls := [FreshBall(paddleX, launch)];
    }

    /** Discards the blocks and appends, row by row and column by column, one block per non-'0' cell of the layout. */
    method LoadLevel(index: int)
      modifies this`blocks
      ensures blocks == LevelBlocks(index)
      ensures |blocks| > 0 && forall i :: 0 <= i < |blocks| ==> blocks[i].alive
    {
      var layout := Layout(index);
      var startX := StartX(layout);
      var acc: seq<Block> := [];
      var r := 0;
      while r < |layout|
        invariant 0 <= r <= |layout|
        invariant acc == GridBlocks(startX, layout[..r])
      {
        var row := layout[r];
        var c := 0;
        while c < |row|
          invariant 0 <= c <= |row|
          invariant acc == GridBlocks(startX, layout[..r]) + RowBlocks(startX, r, row[..c])
        {
          RowStep(startX, r, row, c);
          if row[c] != '0' {
            acc := acc + [CellBlock(startX, r, c, row[c])];
          }
          c := c + 1;
        }
        assert row[..c] == row;
        GridStep(startX, layout, r);
        r := r + 1;
      }
      assert layout[..r] == layout;
      blocks := acc;
      LevelLive(index);
    }

    /**
     * Moves every ball and applies the walls, removes the lost ones, and
     * when none is left takes a life and, if lives remain, launches a new
     * ball with velocity `launch`.
     */
    method UpdateBalls(launch: Vec)
      requires Valid()
      modifies this`balls, this`lives
      ensures Valid()
      ensures Survivors(old(balls)) != [] ==> balls == Survivors(old(balls)) && lives == old(lives)
      ensures Survivors(old(balls)) == [] ==>
        lives == old(lives) - 1 && balls == (if lives > 0 then [FreshBall(paddleX, launch)] else [])
      ensures forall b :: b in balls ==> InPlay(b)
    {
      var live := MoveBalls(balls);
      SurvivorsExactly(balls);
      balls := live;
      if |balls| == 0 {
        lives := lives - 1;
        if lives > 0 {
          ResetBalls(launch);
        }
      }
    }

    /**
     * For each ball in turn: the paddle check, then the first live block the
     * ball's box overlaps is hit (the ball's velocity turns away from the side
     * of least penetration), killed, scored and may drop a power-up; then the
     * dead blocks are pruned. `bounce(i)` is the velocity ball `i` takes off
     * the paddle and `drop(i)` the drop roll for the block it hits.
     */
    method HandleCollisions(bounce: nat -> Vec, drop: nat -> bool)
      requires Valid()
      modifies this`balls, this`blocks, this`score, this`powerups
      ensures Valid()
      ensures var sw := SweepBalls(old(balls), old(blocks), paddleX, bounce, drop);
        balls == sw.balls && blocks == Alive(sw.blocks) &&
        score == old(score) + BLOCK_SCORE * sw.kills && powerups == old(powerups) + sw.drops
      ensures |balls| == |old(balls)|
      ensures |old(blocks)| - |blocks| <= |old(balls)|
      ensures score == old(score) + BLOCK_SCORE * (|old(blocks)| - |blocks|)
    {
      var sw := CollideAll(balls, blocks, paddleX, bounce, drop);
      SweepPrunes(balls, blocks, paddleX, bounce, drop);
      balls, blocks := sw.balls, Alive(sw.blocks);
      score := score + BLOCK_SCORE * sw.kills;
      powerups := powerups + sw.drops;
    }

    /**
     * Moves every power-up down; one overlapping the paddle is consumed and
     * splits the first ball (if there is one), one below the play area is
     * discarded. `split(i)` gives the two new velocities for power-up `i`.
     */
    method UpdatePowerUps(split: nat -> (Vec, Vec))
      requires Valid()
      modifies this`powerups, this`balls
      ensures Valid()
      ensures powerups == StillFalling(old(powerups), paddleX)
      ensures balls == old(balls) +
        (if old(balls) == [] then [] else Offspring(old(powerups), paddleX, old(balls)[0].pos, split))
      ensures old(balls) != [] ==> |balls| == |old(balls)| + 2 * CountFate(old(powerups), paddleX, Caught)
    {
      if balls != [] {
        FateCounts(powerups, paddleX, balls[0].pos, split);
      }
      var falling, all := FallAll(powerups, paddleX, balls, split);
      powerups, balls := falling, all;
    }

    /** When no block is left: the next level is loaded and a single fresh ball is launched. */
    method AdvanceLevel(launch: Vec)
      requires Valid()
      modifies this`levelIndex, this`blocks, this`balls
      ensures Ready()
      ensures old(blocks) != [] ==> levelIndex == old(levelIndex) && blocks == old(blocks) && balls == old(balls)
      ensures old(blocks) == [] ==>
        levelIndex == old(levelIndex) + 1 && blocks == LevelBlocks(levelIndex) &&
        balls == [FreshBall(paddleX, launch)]
    {
      if |blocks| == 0 {
        levelIndex := levelIndex + 1;
        LoadLevel(levelIndex);
        ResetBalls(launch);
      }
    }

    /**
     * One frame. The paddle follows the arrow keys and is kept on screen.
     * With no lives left the game is over: the restart key starts again from
     * level 0, otherwise nothing else changes. Otherwise the balls move, the
     * collisions are resolved, the power-ups fall and the level advances if
     * it is cleared. `launch` and `nextLaunch` are the launch velocities of
     * a ball after a lost life or a restart and after a cleared level.
     */
    method Step(keys: Keys, launch: Vec, nextLaunch: Vec,
                bounce: nat -> Vec, drop: nat -> bool, split: nat -> (Vec, Vec))
      requires Ready()
      modifies this
      ensures Ready()
      ensures paddleX == SteerPaddle(old(paddleX), keys)
      ensures old(lives) <= 0 && keys.restart ==>
        levelIndex == 0 && score == 0 && lives == START_LIVES && powerups == [] &&
        blocks == LevelBlocks(levelIndex) && balls == [FreshBall(paddleX, launch)]
      ensures old(lives) <= 0 && !keys.restart ==>
        levelIndex == old(levelIndex) && score == old(score) && lives == old(lives) &&
        blocks == old(blocks) && balls == old(balls) && powerups == old(powerups)
      ensures old(lives) > 0 ==>
        old(score) <= score && old(lives) - 1 <= lives <= old(lives) &&
        old(levelIndex) <= levelIndex <= old(levelIndex) + 1
    {
      paddleX := SteerPaddle(paddleX, keys);
      if lives <= 0 {
        if keys.restart {
          levelIndex, score, lives := 0, 0, START_LIVES;
          powerups := [];
          LoadLevel(levelIndex);
          ResetBalls(launch);
        }
        return;
      }
      UpdateBalls(launch);
      HandleCollisions(bounce, drop);
      UpdatePowerUps(split);
      AdvanceLevel(nextLaunch);
    }
  }

  /**
   * Moves every ball in turn and keeps those that are not lost, in their
   * order; the effect of removing each lost ball from the list as it is seen.
   */
  method MoveBalls(snapshot: seq<Ball>) returns (live: seq<Ball>)
    ensures live == Survivors(snapshot)
  {
    live := [];
    var i := 0;
    while i < |snapshot|
      invariant 0 <= i <= |snapshot|
      invariant live == Survivors(snapshot[..i])
    {
      SurvivorsStep(snapshot, i);
      var ball := Move(snapshot[i]);
      if !Lost(ball) {
        live := live + [ball];
      }
      i := i + 1;
    }
    assert snapshot[..i] == snapshot;
  }

  /** Scans the blocks in order, skipping dead ones, and stops at the first one the box overlaps. */
  method FindHit(box: Rect, blocks: seq<Block>) returns (hit: Option<nat>)
    ensures hit == FirstHit(box, blocks)
  {
    var j := 0;
    while j < |blocks|
      invariant 0 <= j <= |blocks|
      invariant forall k :: 0 <= k < j ==> !Hits(box, blocks[k])
    {
      if !blocks[j].alive {
        j := j + 1;
        continue;
      }
      if Overlaps(box, blocks[j].rect) {
        FirstHitUnique(box, blocks, Some(j));
        return Some(j);
      }
      j := j + 1;
    }
    FirstHitUnique(box, blocks, None);
    return None;
  }

  /**
   * Resolves the collisions of each ball in turn against the blocks the
   * earlier balls left: the paddle check, then at most one block hit, which
   * deflects the ball, kills the block and may drop a power-up.
   */
  method CollideAll(snapshot: seq<Ball>, start: seq<Block>, paddleX: int,
                    bounce: nat -> Vec, drop: nat -> bool) returns (sw: Sweep)
    ensures sw == SweepBalls(snapshot, start, paddleX, bounce, drop)
  {
    var balls, blocks, kills, drops := [], start, 0, [];
    var i := 0;
    while i < |snapshot|
      invariant 0 <= i <= |snapshot|
      invariant Sweep(balls, blocks, kills, drops) == SweepBalls(snapshot[..i], start, paddleX, bounce, drop)
    {
      SweepStep(snapshot, i, start, paddleX, bounce, drop);
      ghost var next := SweepBalls(snapshot[..i + 1], start, paddleX, bounce, drop);
      ghost var c := CollideBall(snapshot[i], blocks, paddleX, bounce(i));
      var ball := snapshot[i];
      var box := BallBox(ball);
      if Overlaps(box, PaddleRect(paddleX)) {
        ball := Ball(ball.pos.(y := (PADDLE_TOP - BALL_RADIUS) as real), bounce(i));
      }
      var hit := FindHit(box, blocks);
      if hit.Some? {
        var j := hit.value;
        ball := ball.(vel := Deflect(ball.vel, ChooseSide(box, blocks[j].rect)));
        if drop(i) {
          drops := drops + [DropAt(blocks[j].rect)];
        }
        blocks := blocks[j := blocks[j].(alive := false)];
        kills := kills + 1;
      }
      assert ball == c.0;
      balls := balls + [ball];
      assert Sweep(balls, blocks, kills, drops) == next;
      i := i + 1;
    }
    assert snapshot[..i] == snapshot;
    sw := Sweep(balls, blocks, kills, drops);
  }

  /**
   * Moves every power-up down, removing a caught or missed one from the list
   * as soon as it is seen; each catch appends two balls at the first ball's
   * position when there is a ball.
   */
  method FallAll(snapshot: seq<PowerUp>, paddleX: int, balls0: seq<Ball>, split: nat -> (Vec, Vec))
    returns (ps: seq<PowerUp>, balls: seq<Ball>)
    ensures ps == StillFalling(snapshot, paddleX)
    ensures balls == balls0 + (if balls0 == [] then [] else Offspring(snapshot, paddleX, balls0[0].pos, split))
  {
    ps, balls := [], balls0;
    var i := 0;
    while i < |snapshot|
      invariant 0 <= i <= |snapshot|
      invariant ps == StillFalling(snapshot[..i], paddleX)
      invariant balls0 == [] ==> balls == []
      invariant balls0 != [] ==> balls == balls0 + Offspring(snapshot[..i], paddleX, balls0[0].pos, split)
    {
      StillFallingStep(snapshot, paddleX, i);
      if balls0 != [] {
        OffspringStep(snapshot, paddleX, balls0[0].pos, split, i);
      }
      var p := Fall(snapshot[i]);
      if Overlaps(PowerUpBox(p), PaddleRect(paddleX)) {
        assert FateOf(p, paddleX) == Caught;
        if |balls| > 0 {
          var first := balls[0];
          assert first == balls0[0];
          balls := balls + [Ball(first.pos, split(i).0)];
          balls := balls + [Ball(first.pos, split(i).1)];
          assert balls == balls0 + Offspring(snapshot[..i + 1], paddleX, balls0[0].pos, split);
        }
      } else if p.y <= HEIGHT + POWERUP_SIZE {
        assert FateOf(p, paddleX) == Falling;
        ps := ps + [p];
      } else {
        assert FateOf(p, paddleX) == Missed;
      }
      i := i + 1;
    }
    assert snapshot[..i] == snapshot;
  }

  /** The first-hit index is determined by "hit, and nothing earlier hit". */
  lemma FirstHitUnique(box: Rect, blocks: seq<Block>, hit: Option<nat>)
    requires hit.Some? ==> hit.value < |blocks| && Hits(box, blocks[hit.value]) &&
                           forall k :: 0 <= k < hit.value ==> !Hits(box, blocks[k])
    requires hit.None? ==> forall k :: 0 <= k < |blocks| ==> !Hits(box, blocks[k])
    ensures FirstHit(box, blocks) == hit
  {
  }
}
