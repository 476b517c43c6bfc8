# Happy Humblebee: a verified model of the game tick

Happy Humblebee (`happy_humblebee.py`) is a Flappy-Bird-style pygame game. The player
keeps a bee in the air by clicking and flies it through gaps between pairs of pipes
that scroll in from the right. This project models one pass through the game's
`while run` loop: the bee's physics, jump debounce and animation; the score latch; the
pipe, ceiling and ground checks; the restart; the pipe spawner; pipe and ground
scrolling; and the start of flight on a button-down event. It then proves what the loop
guarantees about these.

Layout:

- `geometry.dfy`, module `Geometry`: pygame's integer `Rect`, `inflate`, `colliderect`,
  and rounding toward zero (`TruncHalf`).
- `sprites.dfy`, module `Sprites`: the bee (`Humblebee.__init__`, `update`, `get_rect`)
  and the pipes (`Pipe.__init__`, `Pipe.update`, the pipe group as a sequence of
  well-formed pairs).
- `game.dfy`, module `Game`: the world's value (`Snapshot`), one function per block of
  the loop body in source order, their composition `Step`, the invariant `Inv`, and
  runs of ticks.
- `properties.dfy`, module `Properties`: lemmas about `Step` and about runs.
- `flight.dfy`, module `Flight`: class `World`. Its fields are the module globals, the
  bee's fields and the pipe group. It has one method per loop block and `Tick`. Every
  method changes the fields in place. Each method is proved to match its phase
  function, so `Tick` computes exactly `Step`.

Modelling choices:

- The bee's velocity is stored in half-pixels per tick. The source's `vel` only moves
  in steps of 0.5 from 0 or -10, so twice it is an integer. `int(self.vel)` (line 91)
  truncates toward zero. It is written out as `TruncHalf`, because Dafny's `/` rounds
  down. pygame's C `inflate` halves its argument the same way.
- Every tick input is explicit:
  - the left button's state, which is one value for the whole tick (it is refreshed
    only by the event pump at line 252);
  - whether a button-down event and a quit event were queued;
  - the clock (`pygame.time.get_ticks`);
  - the value `random.randint(-100, 100)` returns. Its range is a precondition of `Tick`.
- The sprite sizes come from the image files (`img/bee1.png`, `img/pipe.png`). The
  model fixes them as constants: bee 51x36 and pipe 78x560.
- The sound cues are outputs of the tick (`Effects`):
  - `flap`: the fly cue, line 98;
  - `crash`: how many times the game-over cue plays, lines 214 and 219;
  - `run`: the new value of the loop flag.
- Both restart blocks (lines 223-227 and 247-250) are modelled as written.
  `SecondRestartInert` proves the second one never changes anything.

Some behaviour a reader might expect that the code does not have:

- The ground does not clamp the bee. Vertical movement stops once `rect.bottom >= 768`,
  and the bee can end up to 7 px below that line.
- A restart does not reset the velocity. It sets the bee's top-left corner to
  (100, 468). The constructor sets the bee's centre there instead.
- Pipe collisions test the full sprite rectangle. The inset hitbox is used only for
  scoring.
- There is one global pass latch, not one per pipe.
- The ground offset stays in [-32, 0], not within a tile width above 0.
- The jump branch also runs before flight starts. Gravity runs only while flying.
- A pipe or ceiling hit ends the game but does not stop flight; only the ground stops
  flight. A restart therefore resumes flight within the restart tick only if the bee was
  still flying, or if a button-down event arrives in that same tick.

## Model

| member | source | states |
|---|---|---|
| `Geometry.TruncHalf` | happy_humblebee.py:91 | the result is v/2 rounded toward zero: for v >= 0, 2q <= v < 2q+2; for v < 0, 2q-2 < v <= 2q |
| `Geometry.TruncHalfOdd` | happy_humblebee.py:91 | truncation is symmetric: TruncHalf(-v) == -TruncHalf(v) |
| `Geometry.Inflate` | happy_humblebee.py:122 | inflating grows the width and height by dx and dy, and keeps the centre when dx and dy are even |
| `Geometry.CollideIffSharedPixel` | happy_humblebee.py:212 | for rectangles with positive sizes, `colliderect` holds exactly when they share a pixel (both directions) |
| `Sprites.CentredAt` | happy_humblebee.py:79-80 | the rectangle has the bee's size, and pygame's centre of it is the given point |
| `Sprites.NewBee` | happy_humblebee.py:70-82 | a new bee is centred on (x, y) with velocity 0, not clicked, counter 0, frame 0 |
| `Sprites.UpdateBeeSpec` | happy_humblebee.py:84-111 | fly cue iff not game over, pressed and not clicked; cue implies velocity -10; otherwise velocity is min(v+0.5, 8) while flying and unchanged when not; clicked follows the button unless game over; y moves by the truncated velocity only while flying and above the ground line; x and size never change; while not game over the counter steps through 0..5 cyclically and each wrap advances the frame cyclically through 0..2; animation frozen when game over |
| `Sprites.UpdateBeeKeepsBeeOk` | happy_humblebee.py:84-111 | the update keeps velocity in [-10, 8], counter in [0, 5], frame in [0, 3), and the bee's bottom edge less than 8 px below the ground line |
| `Sprites.Hitbox` | happy_humblebee.py:119-123 | the hitbox is the sprite rectangle shrunk by exactly 10 px on every side |
| `Sprites.NewPipe` | happy_humblebee.py:128-138 | a top pipe's bottom edge is half a gap above y; a bottom pipe's top edge is half a gap below y; both at x; any other position leaves the rectangle at the origin |
| `Sprites.SpawnPairOk` | happy_humblebee.py:231-237 | a spawned pair shares x = 864; bottom top minus top bottom is exactly 150; the gap is centred on 468 + offset and lies inside the playfield |
| `Sprites.ScrollPipesConcat` | happy_humblebee.py:140-143 | moving the pipe group keeps the relative order: it distributes over concatenation |
| `Sprites.ScrollPipesMembers` | happy_humblebee.py:140-143 | a pipe survives the update iff it is an old pipe moved left by exactly 4 whose right edge is not below 0 (both directions) |
| `Sprites.ScrollPipesLength` | happy_humblebee.py:140-143 | no pipe is created; when none leaves the screen, every pipe is kept and moved by exactly 4 |
| `Sprites.PairedAppend` | happy_humblebee.py:236-237 | appending a well-formed bottom-then-top pair keeps the group a sequence of pairs |
| `Sprites.ScrollPipesPaired` | happy_humblebee.py:140-143 | both pipes of a pair leave the screen on the same tick, so the group stays a sequence of well-formed pairs |
| `Game.Initial` | happy_humblebee.py:37-46 | the game starts with no pipes, not flying, not over, score and high score 0, ground offset 0, the latch clear, the bee as built at line 172, and the spawn timer 1500 ms in the past |
| `Game.ResetGame` | happy_humblebee.py:60-65 | a reset empties the pipes, puts the bee's top-left corner at (100, 468) and zeroes the score; velocity, debounce, animation, latch, timer, flags and high score are untouched |
| `Properties.InitialInv` | happy_humblebee.py:37-46 | the initial state satisfies the tick invariant |
| `Properties.StepKeepsInv` | happy_humblebee.py:180-258 | every tick keeps velocity in [-10, 8], keeps the ground scroll a multiple of 4 in [-32, 0], keeps the pipes well-formed pairs, keeps 0 <= score <= high score, and keeps the score check settled (nothing left to latch or score) whenever the game is over |
| `Properties.ScrollPhaseInv` | happy_humblebee.py:229-244 | spawning and scrolling keep the invariant for offsets in [-100, 100] |
| `Properties.RunKeepsInv` | happy_humblebee.py:180-258 | over any run of ticks the invariant holds and the high score never decreases |
| `Properties.FlapIsEdgeTriggered` | happy_humblebee.py:93-100 | across the whole tick: fly cue iff not game over, pressed and not previously clicked; the cue sets velocity -10; clicked afterwards is the button state, or unchanged when game over |
| `Properties.GravityWithoutFlap` | happy_humblebee.py:85-89 | on a tick without a jump, a flying bee's velocity becomes min(v + 0.5, 8) and a bee that is not flying keeps its velocity |
| `Properties.HeldButtonFlapsOnce` | happy_humblebee.py:95-100 | holding the button over N ticks plays the fly cue at most once, never if already held; the first tick jumps if it is not game over and the button was up |
| `Properties.ScoreStep` | happy_humblebee.py:194-204 | the score stays, grows by exactly 1, or drops to 0; growth requires a pipe, the latch set or set this tick, and the hitbox's left edge past the first pipe's right edge; the latch is then clear; with the button up, the tick's score, high score and latch are those of the score check |
| `Properties.ScorePhaseScores` | happy_humblebee.py:194-204 | both ways: a hitbox inside the first pipe's columns sets the latch; a latched (or just latched) hitbox past that pipe's right edge scores exactly 1, clears the latch and raises the high score to the score if below; otherwise score, high score and latch stay; nothing else changes, and the result is settled |
| `Properties.SettledScoreIsFixed` | happy_humblebee.py:194-204 | on a settled state the score check changes nothing |
| `Properties.HighScoreNeverDrops` | happy_humblebee.py:201-204 | a tick never lowers the high score |
| `Properties.CrashCueOnTransition` | happy_humblebee.py:212-221 | the game-over cue plays at most once per tick, exactly when the game was not over and the full bee rectangle hits a pipe, the ceiling or the ground line; with the button up it is the false-to-true transition of the game-over flag, which then stays set |
| `Properties.CrashCueOncePerRun` | happy_humblebee.py:212-221 | over any run with the button up, the game-over cue plays at most once, and never if the game was already over |
| `Properties.RestartOnPress` | happy_humblebee.py:223-227 | a press while game over leaves score 0, the game not over, the bee's top-left corner at (100, 468), velocity not reset, the high score not lowered, no cue, and no pipes except one fresh pair if still flying |
| `Properties.RestartKeepsHighScore` | happy_humblebee.py:223-227 | under the invariant, a press while game over keeps the high score exactly |
| `Properties.RestartWithEventFlies` | happy_humblebee.py:223-256 | a press while game over on a landed bee, with a button-down event in the same tick, restarts the game and starts flight in that tick |
| `Properties.SecondRestartInert` | happy_humblebee.py:247-250 | the second restart block never changes the state |
| `Properties.SpawnAppendsPair` | happy_humblebee.py:231-238 | a spawn appends exactly the new pair, bottom pipe first and moved once, after the scrolled old pipes, and sets the timer to now |
| `Properties.ScrollPhaseTimer` | happy_humblebee.py:229-238 | the spawner moves the timer only to now and only after more than 1500 ms; otherwise it adds no pipe |
| `Properties.SpawnOnlyAfterInterval` | happy_humblebee.py:229-238 | across a tick, the spawn timer changes only to the current time after more than 1500 ms; within 1500 ms the pipe count cannot grow |
| `Properties.ScrollPhaseMoves` | happy_humblebee.py:229-244 | while flying and not over, the pipes become the scrolled old pipes followed, only after more than 1500 ms, by the fresh pair moved once; the ground steps by -4 from 0 to -32 and wraps from -32 to 0, so it changes on every such tick |
| `Properties.FlyingTickScrolls` | happy_humblebee.py:180-258 | a whole tick (button up or down) that starts flying and not over, with no pipe, ceiling or ground contact after the bee moves, scrolls the pipes (spawning after 1500 ms), steps the ground by 4 with the wrap at -32, and moves the timer to now exactly on a spawn |
| `Properties.NothingScrollsUnlessFlying` | happy_humblebee.py:229-244 | a tick that starts not flying leaves the ground offset and timer alone, and its pipes are unchanged or emptied by a restart |
| `Properties.GameOverFreezesWorld` | happy_humblebee.py:180-258 | while the game is over and the button is up, pipes, ground, timer, the game-over flag, debounce and animation stay and no cue plays; a bee that is not flying does not move; the flying flag stays unless the falling bee reaches the ground line, which clears it |
| `Properties.GameOverKeepsScore` | happy_humblebee.py:194-204 | under the invariant, while the game is over and the button is up, score, high score and latch stay |
| `Properties.EventStartsFlight` | happy_humblebee.py:252-256 | a button-down event sets the flying flag exactly when the game is neither flying nor over, and changes nothing else |
| `Properties.FlyingTransitions` | happy_humblebee.py:217-221 | flying starts only on a button-down event and then the game is not over; it stops only when the bee's bottom edge reaches the ground line, and that always stops it unless an event follows; an event while neither flying nor over, with no pipe or ceiling hit where the bee rests, starts it |
| `Properties.FirstClickTwoTicks` | happy_humblebee.py:252-256 | an ordinary click on a fresh game: the tick with the event and the button still read as up starts flight without a cue; the next tick, with the button read as down, jumps (velocity -10, fly cue) and the game is not over |
| `Properties.FirstPressStartsFlight` | happy_humblebee.py:252-256 | on a fresh game, a tick that reads the button as down and also sees a button-down event jumps (velocity -10, fly cue) and starts flight |
| `Flight.World.constructor` | happy_humblebee.py:37-46 | the new world is the initial state and satisfies the invariant |
| `Flight.World.UpdateBee` | happy_humblebee.py:84-111 | the in-place bee update is exactly the bee phase, including the fly cue |
| `Flight.World.CheckScore` | happy_humblebee.py:194-204 | the in-place latch and score update is exactly the score phase |
| `Flight.World.HitsPipe` | happy_humblebee.py:212 | the scan over the pipe group returns exactly `Game.HitsAnyPipe`: the bee's rectangle collides with some pipe |
| `Flight.World.CheckCollision` | happy_humblebee.py:212-215 | sets game over on a pipe or ceiling hit and plays the cue once on the transition |
| `Flight.World.CheckGround` | happy_humblebee.py:217-221 | sets game over and clears flying on ground contact, with the cue once on the transition |
| `Flight.World.ResetGame` | happy_humblebee.py:60-65 | empties the pipes, moves the bee's top-left corner to (100, 468) and returns the new score 0 |
| `Flight.World.RestartIfRequested` | happy_humblebee.py:223-227 | restarts iff game over and pressed, and reports whether it did |
| `Flight.World.UpdatePipes` | happy_humblebee.py:140-143 | the in-place group update leaves exactly the scrolled survivors, in order, and nothing else changes |
| `Flight.World.SpawnAndScroll` | happy_humblebee.py:229-244 | spawning, pipe movement and ground scroll are exactly the scroll phase |
| `Flight.World.HandleEvents` | happy_humblebee.py:252-256 | run becomes false on quit; a button-down event starts flight when neither flying nor over |
| `Flight.World.Tick` | happy_humblebee.py:180-258 | one loop pass keeps the invariant and produces exactly the state and cues of `Game.Step` |

## Left out

- Drawing is not modelled: `screen.blit`, `draw_text`, font sizing and
  `pygame.display.update`. None of them changes game state.
- `pygame.transform.rotate` and `flip` are not modelled. They are cosmetic image
  transforms (with float angles) and never change a `rect`.
- Music and sound playback (lines 8-18) are not modelled. The cues at lines 98, 214 and
  219 appear only as the `Effects` of a tick.
- Frame pacing (`clock.tick`) is not modelled. `pygame.time.get_ticks` and
  `random.randint` are tick inputs rather than calls.
- Image loading is not modelled. The sprite sizes are assumed constants, so the
  animation frame is only an index.
- The event queue is reduced to two flags: "a button-down event was queued" and "a quit
  event was queued". Events of other kinds are ignored, as the loop ignores them.
- The `Button` class (lines 146-166) is left out. It is built at line 177, but its
  `draw` is never called.
- `financial_data_visualization.py` and `streamlit_financial_data_visualizer.py` are not
  part of this model. They download and plot data through external libraries. Their one
  piece of logic, reading NASDAQ symbols from a file, sits behind file I/O.
- `Geometry.Collide`: pygame's zero-size rule is kept. The test for rectangles with
  negative sizes is not modelled, because no rectangle in the game has one.
- Exact scoring over a whole run (one point per pair cleared) is not proved, because it
  does not hold for every sequence of clock readings. The latch is tested only against
  the first pipe of the group, which stays first until it has left the screen. When
  consecutive clock readings are more than 1500 ms apart, a pair spawns on every tick,
  4 px behind the previous one; later pairs then pass the bee while an earlier pipe is
  still first, and score nothing. A whole-run theorem needs a frame-rate assumption the
  model does not make. What is proved is the score check of one tick, both ways
  (`ScorePhaseScores`), and its place in the tick (`ScoreStep`, `GameOverKeepsScore`).
- The button state and the button-down event are independent inputs of a tick. In
  pygame both come from the one event pump at line 252, so some combinations and
  sequences of inputs cannot occur. Every property is proved for all of them, so this
  over-approximates the program's behaviour.
