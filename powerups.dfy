/**
 * Falling power-ups: each frame a power-up falls by a fixed step; it is
 * caught when its box overlaps the paddle, missed once it is below the play
 * area, and otherwise keeps falling. A catch adds two balls at the first
 * ball's position.
 */
module PowerUps {
  import opened World

  /** One frame of falling. */
  function Fall(p: PowerUp): PowerUp {
    p.(y := p.y + POWERUP_SPEED)
  }

  /** The power-up's square box around its centre. */
  function PowerUpBox(p: PowerUp): Rect {
    Rect(p.x - POWERUP_SIZE / 2, p.y - POWERUP_SIZE / 2, POWERUP_SIZE, POWERUP_SIZE)
  }

  datatype Fate = Caught | Missed | Falling

  /** What becomes of a power-up that has just fallen: the paddle is checked before the floor. */
  function FateOf(p: PowerUp, paddleX: int): (f: Fate)
    ensures f == Caught <==> Overlaps(PowerUpBox(p), PaddleRect(paddleX))
    ensures f == Missed <==> !Overlaps(PowerUpBox(p), PaddleRect(paddleX)) && p.y > HEIGHT + POWERUP_SIZE
    ensures f == Caught ==> p.y <= HEIGHT + POWERUP_SIZE
    ensures f == Missed <==> p.y > HEIGHT + POWERUP_SIZE
  {
    if Overlaps(PowerUpBox(p), PaddleRect(paddleX)) then Caught
    else if p.y > HEIGHT + POWERUP_SIZE then Missed
    else Falling
  }

  /** How many of the power-ups meet fate `f` in this frame. */
  function CountFate(ps: seq<PowerUp>, paddleX: int, f: Fate): (n: nat)
    ensures n <= |ps|
  {
    if |ps| == 0 then 0
    else CountFate(ps[..|ps| - 1], paddleX, f) + (if FateOf(Fall(ps[|ps| - 1]), paddleX) == f then 1 else 0)
  }

  /** The power-ups still falling after this frame, moved, in their original order. */
  function StillFalling(ps: seq<PowerUp>, paddleX: int): seq<PowerUp>
  {
    if |ps| == 0 then []
    else
      var n := |ps| - 1;
      var prev := StillFalling(ps[..n], paddleX);
      if FateOf(Fall(ps[n]), paddleX) == Falling then prev + [Fall(ps[n])] else prev
  }

  /**
   * A power-up is kept exactly when, after falling, it is neither caught nor
   * missed: every kept power-up is a fallen power-up of the list that is
   * still above the floor limit, and every fallen power-up whose fate is to
   * keep falling is kept.
   */
  lemma {:induction false} StillFallingExactly(ps: seq<PowerUp>, paddleX: int)
    ensures forall q :: q in StillFalling(ps, paddleX) ==> FateOf(q, paddleX) == Falling && q.y <= HEIGHT + POWERUP_SIZE
    ensures forall i :: 0 <= i < |ps| && FateOf(Fall(ps[i]), paddleX) == Falling ==> Fall(ps[i]) in StillFalling(ps, paddleX)
    ensures forall q :: q in StillFalling(ps, paddleX) ==> exists i :: 0 <= i < |ps| && q == Fall(ps[i])
  {
    if |ps| > 0 {
      var n := |ps| - 1;
      StillFallingExactly(ps[..n], paddleX);
      assert forall i :: 0 <= i < n ==> ps[..n][i] == ps[i];
    }
  }

  /**
   * The balls added by the catches of this frame, all at `origin`: two per
   * caught power-up, with the velocities `split(i)` gives for power-up `i`.
   */
  function Offspring(ps: seq<PowerUp>, paddleX: int, origin: Vec, split: nat -> (Vec, Vec)): seq<Ball>
  {
    if |ps| == 0 then []
    else
      var n := |ps| - 1;
      Offspring(ps[..n], paddleX, origin, split) +
        (if FateOf(Fall(ps[n]), paddleX) == Caught then [Ball(origin, split(n).0), Ball(origin, split(n).1)] else [])
  }

  /** Every ball a catch adds starts at `origin`. */
  lemma {:induction false} OffspringAt(ps: seq<PowerUp>, paddleX: int, origin: Vec, split: nat -> (Vec, Vec))
    ensures forall b :: b in Offspring(ps, paddleX, origin, split) ==> b.pos == origin
  {
    if |ps| > 0 {
      OffspringAt(ps[..|ps| - 1], paddleX, origin, split);
    }
  }

  /** The surviving power-ups grow one power-up at a time, as the update loop visits them. */
  lemma StillFallingStep(ps: seq<PowerUp>, paddleX: int, i: int)
    requires 0 <= i < |ps|
    ensures StillFalling(ps[..i + 1], paddleX) ==
      StillFalling(ps[..i], paddleX) + (if FateOf(Fall(ps[i]), paddleX) == Falling then [Fall(ps[i])] else [])
  {
    assert ps[..i + 1][..i] == ps[..i];
  }

  /** The offspring grow by two balls per catch, as the update loop visits the power-ups. */
  lemma OffspringStep(ps: seq<PowerUp>, paddleX: int, origin: Vec, split: nat -> (Vec, Vec), i: int)
    requires 0 <= i < |ps|
    ensures Offspring(ps[..i + 1], paddleX, origin, split) ==
      Offspring(ps[..i], paddleX, origin, split) +
      (if FateOf(Fall(ps[i]), paddleX) == Caught then [Ball(origin, split(i).0), Ball(origin, split(i).1)] else [])
  {
    assert ps[..i + 1][..i] == ps[..i];
  }

  /**
   * Every power-up has exactly one fate; the falling ones are the ones kept,
   * and each caught one adds two balls.
   */
  lemma {:induction false} FateCounts(ps: seq<PowerUp>, paddleX: int, origin: Vec, split: nat -> (Vec, Vec))
    ensures CountFate(ps, paddleX, Caught) + CountFate(ps, paddleX, Missed) + CountFate(ps, paddleX, Falling) == |ps|
    ensures |StillFalling(ps, paddleX)| == CountFate(ps, paddleX, Falling)
    ensures |Offspring(ps, paddleX, origin, split)| == 2 * CountFate(ps, paddleX, Caught)
  {
    if |ps| > 0 {
      FateCounts(ps[..|ps| - 1], paddleX, origin, split);
    }
  }
}
