# Block Breaker — a verified model of the game logic

This project models the game logic of `blockbreaker.py`, a single-file
brick-breaker game. The player steers a paddle along the bottom of a
900×700 play area. Balls bounce off the side and top walls and off the
paddle. A ball that falls below the play area is lost. Each ball destroys
at most one block per frame, and each destroyed block is worth 100 points.
A destroyed block may drop a power-up. Catching a power-up with the paddle
splits the first ball into two more. When the last ball is lost the player
loses a life and, if any lives remain, a new ball is launched. When every
block of a level is gone the next of three fixed layouts is loaded. With no
lives left the game freezes until the restart key is pressed.

The game state is the class `Game.BlockBreaker`. Its fields are the level
index, score, lives, the paddle's left edge, and the lists of balls,
power-ups and blocks. Each of the game's per-frame operations is a method
that updates these fields in place. Each method is proved against pure
specification functions:
- `World` holds the constants, the entities and rectangle overlap.
- `Levels` holds the layout table and the block grid a layout expands to.
- `Physics` covers ball flight and walls, ball loss, the paddle bounce and
  the block collision resolver.
- `PowerUps` covers falling, catching and missing power-ups.

The loops that walk the ball, block and power-up lists are module-level
methods of `Game`. The class methods call them and then assign their fields.

Randomness and floating-point trigonometry are inputs of the model:
- `launch` is the launch velocity of a new ball.
- `bounce(i)` is the velocity ball `i` takes off the paddle.
- `drop(i)` is the drop roll for the block ball `i` destroys.
- `split(i)` gives the two velocities of the balls a catch of power-up `i`
  adds.

Ball positions and velocities are exact reals. Rectangles are integers, as
in the source. Power-up positions are integers too: the source stores them
as float vectors, but they always hold whole numbers.

Three behaviours of the code are easy to misread:
- At a wall the code forces the sign of the velocity component
  (`abs` / `-abs`). It does not simply invert that component.
- A paddle bounce gives the ball speed `max(speed, BALL_SPEED)`, not its
  current speed. This speed is part of the `bounce` input.
- All balls move first, then all collisions are resolved, then the
  power-ups fall. The steps are not interleaved ball by ball.

## Model

| member | source | states |
|---|---|---|
| Levels.LayoutWraps | blockbreaker.py:123 | the layout of a level index wraps around the table of three layouts |
| Levels.MaxLenIsMax | blockbreaker.py:124 | the column count is the longest row length: it bounds every row and is some row's length |
| Levels.ColourIndex | blockbreaker.py:132-133 | the palette slot `(digit - 1) mod 6` lies in `[0, 6)`; it is `digit - 1` for '1'..'6' and `digit - 7` for '7'..'9' |
| Levels.GridCount | blockbreaker.py:128-137 | the loader makes exactly one block per non-'0' cell of the layout |
| Levels.GridComplete | blockbreaker.py:128-137 | every non-'0' cell at row r, column c yields its block at x = startX + 76c, y = 80 + 31r, 70×25, with its palette slot |
| Levels.GridSound | blockbreaker.py:128-137 | every loaded block is the block of some non-'0' cell |
| Levels.GridPlacement | blockbreaker.py:128-137 | the blocks are appended in row-major order, each row below the rows before it |
| Levels.GridShape | blockbreaker.py:121-137 | count, row-major order, soundness and completeness of the loaded grid together |
| Levels.GridWellFormed | blockbreaker.py:133-137 | every loaded block is alive, 70 by 25, with a palette slot in range |
| Levels.LevelStartX | blockbreaker.py:39-66 | every layout row is ten cells wide, so the grid starts at x = (900 - (10·70 + 9·6)) // 2 = 73 |
| Levels.LevelNonEmpty | blockbreaker.py:39-66 | every layout has a block in its top-left cell, so every level loads at least one block |
| Levels.LevelLive | blockbreaker.py:121-137 | every level loads a non-empty list of live blocks |
| Physics.MoveWalls | blockbreaker.py:218-228 | after a move the ball is within R ≤ x ≤ 900 - R and y ≥ R; a move reaching the left wall puts the ball on it with vx = |vx|, one reaching the right wall puts it on that wall with vx = -|vx|, one reaching the top wall puts it on y = R with vy = |vy|; a ball resting on a wall moves away from it or along it; both speed components keep their magnitude; away from the walls the ball has simply moved by its velocity |
| Physics.SurvivorsExactly | blockbreaker.py:216-231 | a ball is kept exactly when its moved y is not below HEIGHT + R; every kept ball is inside the walls |
| Physics.ChooseSide | blockbreaker.py:176-191 | the side chosen has the least penetration depth; every side earlier than the chosen one in the order left, right, top, bottom has a strictly greater depth, so ties go to the earlier side |
| Physics.Deflect | blockbreaker.py:184-191 | left sets vx ≤ 0, right vx ≥ 0, top vy ≤ 0, bottom vy ≥ 0; the other component is unchanged and both magnitudes are kept |
| Physics.FirstHit | blockbreaker.py:172-175 | the found index is a live block the ball's box overlaps and no earlier block is such; when nothing is found, no block is |
| Physics.PaddleBounce | blockbreaker.py:165-170 | on overlap with the paddle the ball takes the bounce velocity, keeps x, and is lifted to y = paddle.top - R = 632 exactly, so that its box rests on the paddle's top edge and no longer overlaps the paddle; otherwise it is unchanged |
| Physics.CollideBall | blockbreaker.py:157-196 | the block hit is the first live block the pre-bounce box overlaps, if any; the ball is lifted onto the paddle on contact and otherwise stays put; with no block hit its velocity is the paddle-checked one, and on a hit both magnitudes of that velocity are kept, the component crossing the chosen side points away from the block and the other is unchanged |
| Physics.Alive | blockbreaker.py:198 | the prune keeps as many blocks as are alive, and all of them are alive |
| Physics.AliveExactly | blockbreaker.py:198 | the prune keeps exactly the live blocks |
| Physics.AliveAppend | blockbreaker.py:198 | the prune distributes over concatenation, so it keeps the relative order of the survivors |
| Physics.DropAt | blockbreaker.py:139-143 | a dropped power-up appears at the destroyed block's centre: inside the block, half its width (rounded down) from its left edge and half its height from its top |
| Physics.SweepBalls | blockbreaker.py:157-196 | over all balls: the ball count is kept, no more blocks die than there are balls, the live count falls by exactly the number of kills, and at most one power-up drops per kill |
| Physics.SweepOnlyKills | blockbreaker.py:193 | the sweep only marks blocks dead: rectangles, colours and order stay and no dead block revives |
| Physics.LiveCountKill | blockbreaker.py:193 | killing one live block lowers the live count by exactly one |
| Physics.SweepPrunes | blockbreaker.py:193-198 | starting from live blocks, the pruned list has exactly the old count minus the kills |
| PowerUps.FateOf | blockbreaker.py:209-214 | a fallen power-up is caught exactly when it overlaps the paddle; a caught one is never below the floor limit, so it is missed exactly when below HEIGHT + POWERUP_SIZE and checking the paddle first changes no fate |
| PowerUps.StillFallingExactly | blockbreaker.py:200-214 | the kept power-ups are exactly the fallen ones neither caught nor missed, and all of them are above the floor limit |
| PowerUps.OffspringAt | blockbreaker.py:145-154 | every ball a catch adds starts at the first ball's position |
| PowerUps.FateCounts | blockbreaker.py:200-214 | every power-up has exactly one fate; the kept ones number the falling ones; each catch adds exactly two balls |
| Game.Clamp | blockbreaker.py:323 | the result lies in `[lo, hi]`, equals v inside the range and the nearer bound outside it |
| Game.SteerPaddle | blockbreaker.py:319-323 | the paddle stays on screen; with no key or both keys held it stays put, with one key it moves 8 pixels that way when that stays on screen, and otherwise stops at the screen edge on that side |
| Game.BlockBreaker.constructor | blockbreaker.py:96-111 | a new game is at level 0 with score 0 and 3 lives, the paddle centred, one fresh ball, no power-ups and the blocks of level 0 |
| Game.BlockBreaker.ResetBalls | blockbreaker.py:113-119 | the balls become exactly one new ball above the paddle centre, 30 pixels above its top |
| Game.BlockBreaker.LoadLevel | blockbreaker.py:121-137 | the old blocks are discarded and the blocks become the grid of the wrapped layout, which is non-empty and all alive |
| Game.MoveBalls | blockbreaker.py:217-231 | the loop keeps exactly the survivors of the moved balls, in order |
| Game.BlockBreaker.UpdateBalls | blockbreaker.py:216-236 | if some ball survives, the balls are the survivors and lives are unchanged; otherwise lives drop by exactly one and there is one fresh ball if lives remain, none if not; every ball left is in play, inside the walls |
| Game.FindHit | blockbreaker.py:172-175 | the scan that skips dead blocks and stops at the first overlap finds the first live block hit |
| Game.CollideAll | blockbreaker.py:157-196 | the loop over the balls computes the sweep, including blocks killed by earlier balls being skipped by later ones |
| Game.BlockBreaker.HandleCollisions | blockbreaker.py:156-198 | the ball count is kept, the blocks are the surviving blocks of the sweep, the score rises by exactly 100 per block removed, at most one block is removed per ball, and the drops, each at its destroyed block's centre, are appended to the power-ups |
| Game.FallAll | blockbreaker.py:200-214 | the loop keeps exactly the still-falling power-ups and appends two balls at the first ball per catch, only when there is a ball |
| Game.BlockBreaker.UpdatePowerUps | blockbreaker.py:200-214 | the power-ups become the still-falling ones; with a ball present, the balls grow by exactly two per catch |
| Game.BlockBreaker.AdvanceLevel | blockbreaker.py:238-242 | with blocks left nothing changes; otherwise the level index rises by one, its non-empty block list is loaded and exactly one fresh ball is launched |
| Game.BlockBreaker.Step | blockbreaker.py:318-339 | after a frame the paddle is the steered, clamped one and the state invariant holds; with no lives, the restart key restarts at level 0 with score 0, 3 lives, no power-ups and one ball, and without it nothing else changes; in play the score never falls, lives fall by at most one and the level rises by at most one |

## Left out

- Rendering, fonts, the window, the clock and event polling are left out; they are I/O. This also covers `draw`, `draw_hud`, `show_game_over` and the quit keys.
- The random draws are inputs: the launch angle, the drop chance and the split angle. Their distributions are not modelled.
- The float rotation and renormalisation for the paddle bounce and `split_ball` are not computed. The resulting velocities are the inputs `bounce` and `split`, so no speed bound is proved.
- Ball arithmetic is exact real arithmetic. Float rounding is not modelled.
- Physics.BallBox: takes the floor of `pos - R`, where pygame truncates the float. Balls reach the collision step only in play (`Game.BlockBreaker.UpdateBalls` ensures every ball it leaves is inside the walls: survivors by `Physics.MoveWalls`, and a fresh ball sits above the paddle), where `pos - R >= 0`, so the two agree.
- `colliderect` is modelled as strict interior overlap. The two agree for rectangles of positive size, and every rectangle here has positive size.
- Block colours are stored as palette slots rather than RGB triples.
- Power-up positions are integers. A power-up is created at a block's integer centre and falls by 3 pixels, so the float values the source stores are always whole numbers.
- The list loops build their result lists instead of calling `list.remove` on the live list while iterating over a copy. The result is the same:
  - A removed ball or power-up is removed at its own position.
  - Every value-equal item earlier in the list would have met the same fate, so it is already gone.
- Game.BlockBreaker.Step: for a frame in play the contract gives only the cross-frame bounds (score never falls, lives fall by at most one, level rises by at most one). The new balls, blocks, power-ups and lives are the composition of UpdateBalls, HandleCollisions, UpdatePowerUps and AdvanceLevel, whose contracts each state their new state in full; Step does not restate that composition.
- Game.BlockBreaker.HandleCollisions: accumulates the score and the dropped power-ups over the loop and adds them to the fields once at the end. The source adds to the fields at each hit. The final values are the same, and nothing reads those fields during the loop.
