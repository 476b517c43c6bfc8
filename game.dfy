/**
  One tick of the Happy Humblebee main loop as a function of the world's
  state. Each phase below is one block of the loop body, in source order; Step
  composes them. Drawing, sound playback and frame pacing are not state: the
  sound cues come back as Effects, and the clock reading and the random pipe
  offset are part of the tick's input.
 */
module Game {
  import opened Geometry
  import opened Sprites

  // Game variables (lines 42, 60-63, 172), the ground wrap (line 243) and the pipe offset range (line 233).
  const PIPE_FREQUENCY := 1500
  const SPAWN_X := 100
  const SPAWN_Y := SCREEN_HEIGHT / 2
  const GROUND_WRAP := 35
  const MAX_OFFSET := 100

  /** The module globals of lines 37-46 (except the constants), the bee and the pipe group in insertion order. */
  datatype Snapshot = Snapshot(
    bee: Bee,
    pipes: seq<Rect>,
    groundScroll: int,
    isFlying: bool,
    isGameOver: bool,
    lastPipe: int,
    score: int,
    highScore: int,
    pipePassed: bool)

  /**
    What one tick reads from outside: the left mouse button's state (one value
    for the whole tick), whether a button-down and a quit event were queued,
    the clock in milliseconds and the value `random.randint(-100, 100)` would
    return if a pipe pair is spawned.
   */
  datatype TickInput = TickInput(
    mousePressed: bool,
    mouseDownEvent: bool,
    quit: bool,
    timeNow: int,
    offset: int)

  predicate ValidInput(i: TickInput) {
    -MAX_OFFSET <= i.offset <= MAX_OFFSET
  }

  /** The fly cue (line 98), how many times the game-over cue plays (lines 214, 219), and the loop flag `run`. */
  datatype Effects = Effects(flap: bool, crash: nat, run: bool)

  /** The state before the first tick: lines 37-46 and the bee built at line 172. */
  function Initial(startTime: int): (s: Snapshot)
    ensures s.pipes == [] && !s.isFlying && !s.isGameOver && s.score == 0 && s.highScore == 0
    ensures startTime - s.lastPipe == PIPE_FREQUENCY
    ensures s.groundScroll == 0 && !s.pipePassed && s.bee == NewBee(SPAWN_X, SPAWN_Y)
  {
    Snapshot(NewBee(SPAWN_X, SPAWN_Y), [], 0, false, false, startTime - PIPE_FREQUENCY, 0, 0, false)
  }

  // ------------------------------------------------------------- the phases

  /** Line 188: `bee_group.update()`. */
  function BeePhase(s: Snapshot, pressed: bool): (Snapshot, bool) {
    var (b, flap) := UpdateBee(s.bee, s.isFlying, s.isGameOver, pressed);
    (s.(bee := b), flap)
  }

  /**
    Lines 194-204: the pass latch is set while the hitbox is strictly inside
    the first pipe's columns, and a latched pass scores once the hitbox's left
    edge is past that pipe's right edge.
   */
  function ScorePhase(s: Snapshot): Snapshot {
    if |s.pipes| > 0 then
      var hb := Hitbox(s.bee.rect);
      var first := s.pipes[0];
      var passed := if hb.Left() > first.Left() && hb.Right() < first.Right() && !s.pipePassed
                    then true else s.pipePassed;
      if passed && hb.Left() > first.Right() then
        var score := s.score + 1;
        s.(score := score, pipePassed := false,
           highScore := if score > s.highScore then score else s.highScore)
      else
        s.(pipePassed := passed)
    else
      s
  }

  /** `pygame.sprite.groupcollide(bee_group, pipe_group, ...)`: the bee's full rectangle hits some pipe. */
  predicate HitsAnyPipe(r: Rect, ps: seq<Rect>) {
    exists k :: 0 <= k < |ps| && Collide(r, ps[k])
  }

  /** Lines 212-215: a pipe hit or the ceiling ends the game but leaves the bee flying. */
  function PipeHitPhase(s: Snapshot): (Snapshot, nat) {
    if HitsAnyPipe(s.bee.rect, s.pipes) || s.bee.rect.Top() < 0 then
      (s.(isGameOver := true), if s.isGameOver then 0 else 1)
    else
      (s, 0)
  }

  /** Lines 217-221: reaching the ground line ends the game and stops flying. */
  function GroundPhase(s: Snapshot): (Snapshot, nat) {
    if s.bee.rect.Bottom() >= GROUND_Y then
      (s.(isGameOver := true, isFlying := false), if s.isGameOver then 0 else 1)
    else
      (s, 0)
  }

  /** `reset_game` (lines 60-65): empty the pipes, put the bee's top-left corner at (100, 468), score 0. */
  function ResetGame(s: Snapshot): (r: Snapshot)
    ensures r.pipes == [] && r.score == 0
    ensures r.bee.rect.Left() == SPAWN_X && r.bee.rect.Top() == SPAWN_Y
    ensures r.bee.rect.w == s.bee.rect.w && r.bee.rect.h == s.bee.rect.h
    ensures r.bee.vel == s.bee.vel && r.bee.clicked == s.bee.clicked
    ensures r.bee.counter == s.bee.counter && r.bee.index == s.bee.index
    ensures r.highScore == s.highScore && r.pipePassed == s.pipePassed && r.lastPipe == s.lastPipe
    ensures r.isFlying == s.isFlying && r.isGameOver == s.isGameOver && r.groundScroll == s.groundScroll
  {
    s.(pipes := [], bee := s.bee.(rect := s.bee.rect.(x := SPAWN_X, y := SPAWN_Y)), score := 0)
  }

  /** Lines 223-227, and again lines 247-250: a press while the game is over restarts it. */
  function RestartPhase(s: Snapshot, pressed: bool): Snapshot {
    if s.isGameOver && pressed then ResetGame(s.(isGameOver := false)) else s
  }

  /**
    Lines 229-244: while flying and not over, spawn a pair once more than
    1500 ms have passed since the last one, move every pipe, and scroll the
    ground, wrapping it to 0 once it is more than 35 px out.
   */
  function ScrollPhase(s: Snapshot, timeNow: int, offset: int): Snapshot {
    if s.isFlying && !s.isGameOver then
      var spawn := timeNow - s.lastPipe > PIPE_FREQUENCY;
      var (bottom, top) := SpawnPair(offset);
      var pipes := if spawn then s.pipes + [bottom, top] else s.pipes;
      var lastPipe := if spawn then timeNow else s.lastPipe;
      var ground := s.groundScroll - SCROLL_SPEED;
      var ground' := if ground > GROUND_WRAP || ground < -GROUND_WRAP then 0 else ground;
      s.(pipes := ScrollPipes(pipes), lastPipe := lastPipe, groundScroll := ground')
    else
      s
  }

  /** Lines 252-256: a button-down event while neither flying nor over starts the flight. */
  function EventPhase(s: Snapshot, mouseDownEvent: bool): Snapshot {
    if mouseDownEvent && !s.isFlying && !s.isGameOver then s.(isFlying := true) else s
  }

  /** The state just before the second restart block (line 247). */
  function BeforeSecondRestart(s: Snapshot, i: TickInput): (Snapshot, bool, nat) {
    var (s1, flap) := BeePhase(s, i.mousePressed);
    var s2 := ScorePhase(s1);
    var (s3, hit) := PipeHitPhase(s2);
    var (s4, ground) := GroundPhase(s3);
    var s5 := RestartPhase(s4, i.mousePressed);
    var s6 := ScrollPhase(s5, i.timeNow, i.offset);
    (s6, flap, hit + ground)
  }

  /** One pass through the body of the `while run` loop (lines 180-258). */
  function Step(s: Snapshot, i: TickInput): (Snapshot, Effects) {
    var (s6, flap, crash) := BeforeSecondRestart(s, i);
    var s7 := RestartPhase(s6, i.mousePressed);
    var s8 := EventPhase(s7, i.mouseDownEvent);
    (s8, Effects(flap, crash, !i.quit))
  }

  // -------------------------------------------------------- the invariant

  /**
    The score check of lines 194-204 has nothing left to do: a hitbox strictly
    inside the first pipe's columns has already set the latch, and a latched
    pass is not yet past that pipe.
   */
  predicate ScoreSettled(s: Snapshot) {
    |s.pipes| > 0 ==>
      var hb := Hitbox(s.bee.rect);
      var first := s.pipes[0];
      && (hb.Left() > first.Left() && hb.Right() < first.Right() ==> s.pipePassed)
      && !(s.pipePassed && hb.Left() > first.Right())
  }

  /** What holds between ticks. */
  predicate Inv(s: Snapshot) {
    BeeOk(s.bee) &&
    Paired(s.pipes) &&
    -(GROUND_WRAP / SCROLL_SPEED) * SCROLL_SPEED <= s.groundScroll <= 0 &&
    s.groundScroll % SCROLL_SPEED == 0 &&
    0 <= s.score <= s.highScore &&
    (s.isGameOver ==> ScoreSettled(s))
  }

  // ------------------------------------------------------------------ runs

  /** The state after a sequence of ticks. */
  function Run(s: Snapshot, inputs: seq<TickInput>): Snapshot
    decreases |inputs|
  {
    if inputs == [] then s else Run(Step(s, inputs[0]).0, inputs[1..])
  }

  /** How many times the fly cue plays over a sequence of ticks. */
  function FlapCount(s: Snapshot, inputs: seq<TickInput>): nat
    decreases |inputs|
  {
    if inputs == [] then 0
    else
      var (s', e) := Step(s, inputs[0]);
      (if e.flap then 1 else 0) + FlapCount(s', inputs[1..])
  }

  /** How many times the game-over cue plays over a sequence of ticks. */
  function CrashCount(s: Snapshot, inputs: seq<TickInput>): nat
    decreases |inputs|
  {
    if inputs == [] then 0
    else
      var (s', e) := Step(s, inputs[0]);
      e.crash + CrashCount(s', inputs[1..])
  }
}
