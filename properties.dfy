/**
  What the main loop promises about one tick and about runs of ticks, proved
  of Game.Step.
 */
module Properties {
  import opened Geometry
  import opened Sprites
  import opened Game

  // ------------------------------------------------------ the invariant

  lemma InitialInv(startTime: int)
    ensures Inv(Initial(startTime))
  {
  }

  /** The first four phases touch neither the pipes, the ground, the spawn timer nor the high score's lower bound. */
  lemma EarlyPhasesFrame(s: Snapshot, pressed: bool)
    ensures var s4 := GroundPhase(PipeHitPhase(ScorePhase(BeePhase(s, pressed).0)).0).0;
      && s4.pipes == s.pipes && s4.lastPipe == s.lastPipe && s4.groundScroll == s.groundScroll
      && s4.highScore >= s.highScore
  {
    var s1 := BeePhase(s, pressed).0;
    ScorePhaseFrame(s1);
    CollisionPhasesFrame(ScorePhase(s1));
  }

  /** The score check changes only the score, the high score (never down) and the latch. */
  lemma ScorePhaseFrame(s: Snapshot)
    ensures var c := ScorePhase(s);
      c == s.(score := c.score, highScore := c.highScore, pipePassed := c.pipePassed) && c.highScore >= s.highScore
  {
  }

  /** The pipe, ceiling and ground checks change only the two flags; once over, the game stays over. */
  lemma CollisionPhasesFrame(s: Snapshot)
    ensures var c := GroundPhase(PipeHitPhase(s).0).0;
      && c == s.(isGameOver := c.isGameOver, isFlying := c.isFlying)
      && (c.isFlying <==> s.isFlying && s.bee.rect.Bottom() < GROUND_Y)
      && (s.isGameOver ==> c.isGameOver)
  {
  }

  /** The intermediate states of one tick, named in the order the loop body produces them. */
  lemma StepUnfolds(s: Snapshot, i: TickInput)
    ensures var s1 := BeePhase(s, i.mousePressed).0;
      var s4 := GroundPhase(PipeHitPhase(ScorePhase(s1)).0).0;
      var s6 := ScrollPhase(RestartPhase(s4, i.mousePressed), i.timeNow, i.offset);
      && BeforeSecondRestart(s, i).0 == s6
      && Step(s, i).0 == EventPhase(RestartPhase(s6, i.mousePressed), i.mouseDownEvent)
      && Step(s, i).1 == Effects(BeePhase(s, i.mousePressed).1,
                                 PipeHitPhase(ScorePhase(s1)).1 + GroundPhase(PipeHitPhase(ScorePhase(s1)).0).1,
                                 !i.quit)
  {
  }

  /** After the bee update the rest of the tick changes the bee only by a restart, and then only its position. */
  lemma LaterPhasesKeepBee(s: Snapshot, i: TickInput)
    ensures var (s1, flap) := BeePhase(s, i.mousePressed);
      var (s', e) := Step(s, i);
      s'.bee == s1.bee.(rect := s'.bee.rect) && e.flap == flap
  {
    StepUnfolds(s, i);
    var s1 := BeePhase(s, i.mousePressed).0;
    var s2 := ScorePhase(s1);
    assert s2.bee == s1.bee;
    var s4 := GroundPhase(PipeHitPhase(s2).0).0;
    assert s4.bee == s1.bee;
    var s5 := RestartPhase(s4, i.mousePressed);
    assert s5.bee == s1.bee.(rect := s5.bee.rect);
    var s6 := ScrollPhase(s5, i.timeNow, i.offset);
    assert s6.bee == s5.bee;
  }

  lemma ScorePhaseInv(s: Snapshot)
    requires Inv(s)
    ensures Inv(ScorePhase(s))
  {
    ScorePhaseScores(s);
  }

  /** The collision checks set the game-over flag; the score check just before them has left the score settled. */
  lemma CollisionPhasesInv(s: Snapshot)
    requires Inv(s) && ScoreSettled(s)
    ensures Inv(GroundPhase(PipeHitPhase(s).0).0)
  {
  }

  lemma RestartPhaseInv(s: Snapshot, pressed: bool)
    requires Inv(s)
    ensures Inv(RestartPhase(s, pressed))
  {
  }

  lemma ScrollPhaseInv(s: Snapshot, timeNow: int, offset: int)
    requires Inv(s) && -MAX_OFFSET <= offset <= MAX_OFFSET
    ensures Inv(ScrollPhase(s, timeNow, offset))
  {
    if s.isFlying && !s.isGameOver {
      var (bottom, top) := SpawnPair(offset);
      SpawnPairOk(offset);
      PairedAppend(s.pipes, bottom, top);
      ScrollPipesPaired(s.pipes + [bottom, top]);
      ScrollPipesPaired(s.pipes);
    }
  }

  /** Every tick keeps the invariant: velocity in [-10, 8], ground scroll a multiple of 4 in [-32, 0], well-formed pipe pairs, 0 <= score <= high score. */
  lemma StepKeepsInv(s: Snapshot, i: TickInput)
    requires Inv(s) && ValidInput(i)
    ensures Inv(Step(s, i).0)
  {
    StepUnfolds(s, i);
    var s1 := BeePhase(s, i.mousePressed).0;
    UpdateBeeKeepsBeeOk(s.bee, s.isFlying, s.isGameOver, i.mousePressed);
    var s2 := ScorePhase(s1);
    ScorePhaseInv(s1);
    ScorePhaseScores(s1);
    var s4 := GroundPhase(PipeHitPhase(s2).0).0;
    CollisionPhasesInv(s2);
    var s5 := RestartPhase(s4, i.mousePressed);
    RestartPhaseInv(s4, i.mousePressed);
    var s6 := ScrollPhase(s5, i.timeNow, i.offset);
    ScrollPhaseInv(s5, i.timeNow, i.offset);
    var s7 := RestartPhase(s6, i.mousePressed);
    RestartPhaseInv(s6, i.mousePressed);
    assert Inv(EventPhase(s7, i.mouseDownEvent));
  }

  lemma {:induction false} RunKeepsInv(s: Snapshot, inputs: seq<TickInput>)
    requires Inv(s) && forall k :: 0 <= k < |inputs| ==> ValidInput(inputs[k])
    ensures Inv(Run(s, inputs))
    ensures Run(s, inputs).highScore >= s.highScore
    decreases |inputs|
  {
    if inputs != [] {
      StepKeepsInv(s, inputs[0]);
      HighScoreNeverDrops(s, inputs[0]);
      RunKeepsInv(Step(s, inputs[0]).0, inputs[1..]);
    }
  }

  // ----------------------------------------------------------- the jump

  /**
    The jump is edge-triggered: the fly cue plays exactly when the game is not
    over, the button is down and it was not down before; the debounce flag
    then follows the button, and clears only on a tick with it released.
   */
  lemma FlapIsEdgeTriggered(s: Snapshot, i: TickInput)
    ensures var (s', e) := Step(s, i);
      && (e.flap <==> !s.isGameOver && i.mousePressed && !s.bee.clicked)
      && (e.flap ==> s'.bee.vel == JUMP_VEL)
      && s'.bee.clicked == (if s.isGameOver then s.bee.clicked else i.mousePressed)
  {
    LaterPhasesKeepBee(s, i);
    UpdateBeeSpec(s.bee, s.isFlying, s.isGameOver, i.mousePressed);
  }

  /** Without a jump, a flying bee's velocity grows by 0.5 per tick up to 8; a bee that is not flying keeps its velocity. */
  lemma GravityWithoutFlap(s: Snapshot, i: TickInput)
    ensures var (s', e) := Step(s, i);
      !e.flap ==> s'.bee.vel == if s.isFlying then Min(s.bee.vel + GRAVITY, TERMINAL_VEL) else s.bee.vel
  {
    LaterPhasesKeepBee(s, i);
    UpdateBeeSpec(s.bee, s.isFlying, s.isGameOver, i.mousePressed);
  }

  /**
    Holding the button down over any number of ticks plays the fly cue at most
    once, and not at all if it was already held; if the first tick is not
    game over and the button was up before, that first tick is the jump.
   */
  lemma {:induction false} HeldButtonFlapsOnce(s: Snapshot, inputs: seq<TickInput>)
    requires forall k :: 0 <= k < |inputs| ==> inputs[k].mousePressed
    ensures FlapCount(s, inputs) <= 1
    ensures s.bee.clicked ==> FlapCount(s, inputs) == 0
    ensures |inputs| > 0 && !s.isGameOver && !s.bee.clicked ==>
      Step(s, inputs[0]).1.flap && Step(s, inputs[0]).0.bee.vel == JUMP_VEL && FlapCount(s, inputs) == 1
    decreases |inputs|
  {
    if inputs != [] {
      var (s', e) := Step(s, inputs[0]);
      FlapIsEdgeTriggered(s, inputs[0]);
      HeldButtonFlapsOnce(s', inputs[1..]);
    }
  }

  // ---------------------------------------------------------- the score

  /**
    Score moves by at most one per tick (or drops to 0 on a restart); it grows
    only when the latch is set, or set this tick, and the hitbox's left edge
    is past the first pipe's right edge, and the latch is then clear. With
    the button up no restart follows, and the tick scores exactly as the
    score check does (ScorePhaseScores).
   */
  lemma ScoreStep(s: Snapshot, i: TickInput)
    ensures var s' := Step(s, i).0;
      var m := BeePhase(s, i.mousePressed).0;
      var hb := Hitbox(m.bee.rect);
      && (s'.score == s.score || s'.score == s.score + 1 || s'.score == 0)
      && (s'.score == s.score + 1 && s.score >= 0 ==>
            && |m.pipes| > 0
            && (m.pipePassed || (hb.Left() > m.pipes[0].Left() && hb.Right() < m.pipes[0].Right()))
            && hb.Left() > m.pipes[0].Right()
            && !s'.pipePassed)
      // without a press no restart can follow, so the tick scores as the score check does
      && (!i.mousePressed ==>
            var c := ScorePhase(m);
            s'.score == c.score && s'.highScore == c.highScore && s'.pipePassed == c.pipePassed)
  {
    StepUnfolds(s, i);
  }

  /**
    The score check itself (lines 194-204), both ways. A hitbox strictly inside
    the first pipe's columns sets the latch; a latched pass (or one latched
    this tick) whose hitbox's left edge is past that pipe's right edge scores
    exactly one, clears the latch and lifts the high score to the score if it
    was below it; in every other case the score, the high score and the latch
    stay. Only those three fields change, and afterwards nothing is left to do.
   */
  lemma ScorePhaseScores(s: Snapshot)
    requires s.bee.rect.w >= HITBOX_SHRINK
    ensures var s' := ScorePhase(s);
      && s' == s.(score := s'.score, highScore := s'.highScore, pipePassed := s'.pipePassed)
      && (|s.pipes| == 0 ==> s' == s)
      && (|s.pipes| > 0 ==>
            var hb := Hitbox(s.bee.rect);
            var first := s.pipes[0];
            var inside := hb.Left() > first.Left() && hb.Right() < first.Right();
            var scores := (s.pipePassed || inside) && hb.Left() > first.Right();
            && (scores ==>
                  && s'.score == s.score + 1 && !s'.pipePassed
                  && s'.highScore >= s.highScore && s'.highScore >= s'.score
                  && (s'.highScore == s.highScore || s'.highScore == s'.score))
            && (inside ==> s'.pipePassed && s'.score == s.score)
            && (!scores ==>
                  s'.score == s.score && s'.highScore == s.highScore && s'.pipePassed == (s.pipePassed || inside)))
      && ScoreSettled(s')
  {
  }

  /** On a settled state the score check changes nothing. */
  lemma SettledScoreIsFixed(s: Snapshot)
    requires ScoreSettled(s)
    ensures ScorePhase(s) == s
  {
  }

  /** The high score never decreases; a restart zeroes the score only. */
  lemma HighScoreNeverDrops(s: Snapshot, i: TickInput)
    ensures Step(s, i).0.highScore >= s.highScore
  {
    StepUnfolds(s, i);
    EarlyPhasesFrame(s, i.mousePressed);
    var s4 := GroundPhase(PipeHitPhase(ScorePhase(BeePhase(s, i.mousePressed).0)).0).0;
    var s6 := ScrollPhase(RestartPhase(s4, i.mousePressed), i.timeNow, i.offset);
    assert s6.highScore == s4.highScore;
  }

  // --------------------------------------------------- game over and restart

  /**
    The game-over cue plays at most once per tick, and exactly when the game
    was not over and the bee hits a pipe with its full rectangle, the ceiling
    or the ground line. Without a press, it is the false-to-true transition of
    the game-over flag, which then stays set.
   */
  lemma CrashCueOnTransition(s: Snapshot, i: TickInput)
    ensures var (s', e) := Step(s, i);
      var m := BeePhase(s, i.mousePressed).0;
      && e.crash <= 1
      && (e.crash == 1 <==>
            !s.isGameOver &&
            (HitsAnyPipe(m.bee.rect, m.pipes) || m.bee.rect.Top() < 0 || m.bee.rect.Bottom() >= GROUND_Y))
      && (!i.mousePressed ==> (e.crash == 1 <==> !s.isGameOver && s'.isGameOver))
      && (!i.mousePressed && s.isGameOver ==> s'.isGameOver)
  {
  }

  /** With the button up, a run of ticks plays the game-over cue at most once, however long the bee overlaps a pipe. */
  lemma {:induction false} CrashCueOncePerRun(s: Snapshot, inputs: seq<TickInput>)
    requires forall k :: 0 <= k < |inputs| ==> !inputs[k].mousePressed
    ensures CrashCount(s, inputs) <= if s.isGameOver then 0 else 1
    decreases |inputs|
  {
    if inputs != [] {
      var (s', e) := Step(s, inputs[0]);
      CrashCueOnTransition(s, inputs[0]);
      CrashCueOncePerRun(s', inputs[1..]);
    }
  }

  /**
    A press while the game is over restarts it within the tick: score 0, the
    bee's top-left corner at (100, 468), velocity untouched, the game no
    longer over and the high score kept. The pipes are emptied; if the bee was
    still flying, the spawner may add one fresh pair in the same tick.
   */
  lemma RestartOnPress(s: Snapshot, i: TickInput)
    requires s.isGameOver && i.mousePressed
    ensures var (s', e) := Step(s, i);
      && s'.score == 0 && !s'.isGameOver && s'.highScore >= s.highScore
      && s'.bee.rect.Left() == SPAWN_X && s'.bee.rect.Top() == SPAWN_Y
      && s'.bee.vel == (if s.isFlying then Min(s.bee.vel + GRAVITY, TERMINAL_VEL) else s.bee.vel)
      && !e.flap && e.crash == 0
      && (s'.pipes == [] || (s'.isFlying && |s'.pipes| == 2 && s'.lastPipe == i.timeNow))
  {
    StepUnfolds(s, i);
    EarlyPhasesFrame(s, i.mousePressed);
    UpdateBeeSpec(s.bee, s.isFlying, s.isGameOver, i.mousePressed);
    var s1 := BeePhase(s, i.mousePressed).0;
    var s4 := GroundPhase(PipeHitPhase(ScorePhase(s1)).0).0;
    assert s4.isGameOver && s4.bee.vel == s1.bee.vel;
    var s5 := RestartPhase(s4, i.mousePressed);
    assert s5 == ResetGame(s4.(isGameOver := false));
    var s6 := ScrollPhase(s5, i.timeNow, i.offset);
    var (bottom, top) := SpawnPair(i.offset);
    if s6.pipes != [] {
      assert [] + [bottom, top] == [bottom, top];
      ScrollPipesLength([bottom, top]);
    }
  }

  /** Under the invariant a restart keeps the high score exactly: the score check has nothing to add on a game-over state. */
  lemma RestartKeepsHighScore(s: Snapshot, i: TickInput)
    requires Inv(s) && s.isGameOver && i.mousePressed
    ensures Step(s, i).0.highScore == s.highScore
  {
    StepUnfolds(s, i);
    var m := BeePhase(s, i.mousePressed).0;
    assert m.pipes == s.pipes && m.pipePassed == s.pipePassed;
    assert Hitbox(m.bee.rect).Left() == Hitbox(s.bee.rect).Left();
    assert Hitbox(m.bee.rect).Right() == Hitbox(s.bee.rect).Right();
    SettledScoreIsFixed(m);
    EarlyPhasesFrame(s, i.mousePressed);
  }

  /**
    A restart tick that also sees a button-down event starts the flight in
    that same tick, even if the bee had landed: the restart clears the
    game-over flag before the events are read (lines 223-227, 252-256).
   */
  lemma RestartWithEventFlies(s: Snapshot, i: TickInput)
    requires s.isGameOver && !s.isFlying && i.mousePressed && i.mouseDownEvent
    ensures var s' := Step(s, i).0;
      s'.isFlying && !s'.isGameOver && s'.score == 0
  {
    StepUnfolds(s, i);
  }

  /** The second restart block (lines 247-250) never changes anything: whenever it could fire, the first block already has. */
  lemma SecondRestartInert(s: Snapshot, i: TickInput)
    ensures var s6 := BeforeSecondRestart(s, i).0;
      RestartPhase(s6, i.mousePressed) == s6
  {
  }

  // ---------------------------------------------------- spawning and scrolling

  /**
    A spawn appends exactly the new pair, bottom pipe first, behind the
    scrolled old pipes, and restarts the spawn timer.
   */
  lemma SpawnAppendsPair(s: Snapshot, timeNow: int, offset: int)
    requires s.isFlying && !s.isGameOver && timeNow - s.lastPipe > PIPE_FREQUENCY
    ensures var s' := ScrollPhase(s, timeNow, offset);
      var (bottom, top) := SpawnPair(offset);
      && s'.pipes == ScrollPipes(s.pipes) + [MovePipe(bottom), MovePipe(top)]
      && s'.lastPipe == timeNow
  {
    var (bottom, top) := SpawnPair(offset);
    ScrollPipesConcat(s.pipes, [bottom, top]);
    ScrollPipesLength([bottom, top]);
  }

  /**
    The spawn timer moves only to the current time and only after more than
    1500 ms; until then no tick adds a pipe.
   */
  lemma SpawnOnlyAfterInterval(s: Snapshot, i: TickInput)
    ensures var s' := Step(s, i).0;
      && (s'.lastPipe != s.lastPipe ==> s'.lastPipe == i.timeNow && i.timeNow - s.lastPipe > PIPE_FREQUENCY)
      && (i.timeNow - s.lastPipe <= PIPE_FREQUENCY ==> s'.lastPipe == s.lastPipe && |s'.pipes| <= |s.pipes|)
  {
    StepUnfolds(s, i);
    EarlyPhasesFrame(s, i.mousePressed);
    var s4 := GroundPhase(PipeHitPhase(ScorePhase(BeePhase(s, i.mousePressed).0)).0).0;
    var s5 := RestartPhase(s4, i.mousePressed);
    assert s5.lastPipe == s.lastPipe && |s5.pipes| <= |s.pipes|;
    ScrollPhaseTimer(s5, i.timeNow, i.offset);
    var s6 := ScrollPhase(s5, i.timeNow, i.offset);
    var s7 := RestartPhase(s6, i.mousePressed);
    assert s7.lastPipe == s6.lastPipe && |s7.pipes| <= |s6.pipes|;
  }

  lemma ScrollPhaseTimer(s: Snapshot, timeNow: int, offset: int)
    ensures var s' := ScrollPhase(s, timeNow, offset);
      && (s'.lastPipe != s.lastPipe ==> s'.lastPipe == timeNow && timeNow - s.lastPipe > PIPE_FREQUENCY)
      && (timeNow - s.lastPipe <= PIPE_FREQUENCY ==> s'.lastPipe == s.lastPipe && |s'.pipes| <= |s.pipes|)
  {
    ScrollPipesLength(s.pipes);
  }

  /**
    A flying tick of the spawner and scroller (lines 229-244): every pipe moves
    left by 4 and those off screen are dropped, with a fresh pair, moved once,
    behind them only when more than 1500 ms have passed; the ground steps
    through 0, -4, ..., -32 and back to 0.
   */
  lemma ScrollPhaseMoves(s: Snapshot, timeNow: int, offset: int)
    requires s.isFlying && !s.isGameOver
    requires -(GROUND_WRAP / SCROLL_SPEED) * SCROLL_SPEED <= s.groundScroll <= 0 && s.groundScroll % SCROLL_SPEED == 0
    ensures var s' := ScrollPhase(s, timeNow, offset);
      var (bottom, top) := SpawnPair(offset);
      var spawn := timeNow - s.lastPipe > PIPE_FREQUENCY;
      && s'.pipes == ScrollPipes(s.pipes) + (if spawn then [MovePipe(bottom), MovePipe(top)] else [])
      && s'.groundScroll == (if s.groundScroll == -(GROUND_WRAP / SCROLL_SPEED) * SCROLL_SPEED then 0 else s.groundScroll - SCROLL_SPEED)
      && s'.groundScroll != s.groundScroll
  {
    var (bottom, top) := SpawnPair(offset);
    ScrollPipesConcat(s.pipes, [bottom, top]);
    ScrollPipesLength([bottom, top]);
    assert ScrollPipes(s.pipes) + [] == ScrollPipes(s.pipes);
  }

  /**
    A whole tick while flying, with no pipe, ceiling or ground contact after
    the bee moves (so no restart can fire, whatever the button does): the pipes scroll (and a pair spawns
    after 1500 ms) and the ground steps by 4, wrapping from -32 to 0.
   */
  lemma FlyingTickScrolls(s: Snapshot, i: TickInput)
    requires Inv(s) && s.isFlying && !s.isGameOver
    requires var m := BeePhase(s, i.mousePressed).0;
      !HitsAnyPipe(m.bee.rect, m.pipes) && m.bee.rect.Top() >= 0 && m.bee.rect.Bottom() < GROUND_Y
    ensures var s' := Step(s, i).0;
      var (bottom, top) := SpawnPair(i.offset);
      var spawn := i.timeNow - s.lastPipe > PIPE_FREQUENCY;
      && s'.pipes == ScrollPipes(s.pipes) + (if spawn then [MovePipe(bottom), MovePipe(top)] else [])
      && s'.groundScroll == (if s.groundScroll == -(GROUND_WRAP / SCROLL_SPEED) * SCROLL_SPEED then 0 else s.groundScroll - SCROLL_SPEED)
      && s'.lastPipe == (if spawn then i.timeNow else s.lastPipe)
  {
    StepUnfolds(s, i);
    EarlyPhasesFrame(s, i.mousePressed);
    var s1 := BeePhase(s, i.mousePressed).0;
    ScorePhaseFrame(s1);
    CollisionPhasesFrame(ScorePhase(s1));
    var s4 := GroundPhase(PipeHitPhase(ScorePhase(s1)).0).0;
    assert s4.isFlying && !s4.isGameOver;
    ScrollPhaseMoves(s4, i.timeNow, i.offset);
  }

  /**
    Nothing scrolls unless the bee is flying: a tick that starts with the bee
    not flying leaves the ground and the spawn timer alone, and its pipes
    stay put (a restart may empty them).
   */
  lemma NothingScrollsUnlessFlying(s: Snapshot, i: TickInput)
    requires !s.isFlying
    ensures var s' := Step(s, i).0;
      && s'.groundScroll == s.groundScroll && s'.lastPipe == s.lastPipe
      && (s'.pipes == s.pipes || s'.pipes == [])
  {
    StepUnfolds(s, i);
    EarlyPhasesFrame(s, i.mousePressed);
    var s1 := BeePhase(s, i.mousePressed).0;
    CollisionPhasesFrame(ScorePhase(s1));
  }

  /**
    Once the game is over and the button stays up, the world is frozen: pipes,
    ground and timer stay, the game stays over, no cue plays and the bee's
    animation and debounce flag stay. Only the bee keeps falling if it was
    flying, and the flying flag clears once it reaches the ground line (line 221).
   */
  lemma GameOverFreezesWorld(s: Snapshot, i: TickInput)
    requires s.isGameOver && !i.mousePressed
    ensures var (s', e) := Step(s, i);
      && s'.pipes == s.pipes && s'.groundScroll == s.groundScroll && s'.lastPipe == s.lastPipe
      && s'.isGameOver && s'.bee.clicked == s.bee.clicked
      && s'.bee.counter == s.bee.counter && s'.bee.index == s.bee.index
      && !e.flap && e.crash == 0
      && (!s.isFlying ==> s'.bee == s.bee)
      && s'.isFlying == (s.isFlying && BeePhase(s, i.mousePressed).0.bee.rect.Bottom() < GROUND_Y)
  {
  }

  /**
    While the game is over and the button stays up, the score, the high score
    and the latch stay too: nothing moves sideways, and the invariant keeps the
    score check settled on every game-over state.
   */
  lemma GameOverKeepsScore(s: Snapshot, i: TickInput)
    requires Inv(s) && s.isGameOver && !i.mousePressed
    ensures var s' := Step(s, i).0;
      s'.score == s.score && s'.highScore == s.highScore && s'.pipePassed == s.pipePassed
  {
    StepUnfolds(s, i);
    var m := BeePhase(s, i.mousePressed).0;
    assert m.pipes == s.pipes && m.pipePassed == s.pipePassed;
    assert Hitbox(m.bee.rect).Left() == Hitbox(s.bee.rect).Left();
    assert Hitbox(m.bee.rect).Right() == Hitbox(s.bee.rect).Right();
    SettledScoreIsFixed(m);
  }

  // -------------------------------------------------------- start of flight

  /**
    The start-of-flight block (lines 252-256) on its own: a button-down event
    sets the flying flag exactly when the game is neither flying nor over, and
    it changes nothing else.
   */
  lemma EventStartsFlight(s: Snapshot, mouseDownEvent: bool)
    ensures var s' := EventPhase(s, mouseDownEvent);
      && (s'.isFlying <==> s.isFlying || (mouseDownEvent && !s.isGameOver))
      && s' == s.(isFlying := s'.isFlying)
  {
  }

  /**
    How a tick moves the flying flag. It rises only on a button-down event,
    and then the game is not over; it falls only when the bee's bottom edge,
    after this tick's fall, is on or below the ground line, and that always
    stops the flight unless an event restarts it. Conversely an event while
    neither flying nor over starts the flight, unless the bee where it rests
    already hits a pipe or the ceiling.
   */
  lemma FlyingTransitions(s: Snapshot, i: TickInput)
    ensures var s' := Step(s, i).0;
      var m := BeePhase(s, i.mousePressed).0;
      && (!s.isFlying && s'.isFlying ==> i.mouseDownEvent && !s'.isGameOver)
      && (s.isFlying && !s'.isFlying ==> m.bee.rect.Bottom() >= GROUND_Y)
      && (m.bee.rect.Bottom() >= GROUND_Y && !i.mouseDownEvent ==> !s'.isFlying)
      && (i.mouseDownEvent && !s.isFlying && !s.isGameOver &&
          !HitsAnyPipe(s.bee.rect, s.pipes) && s.bee.rect.Top() >= 0 && s.bee.rect.Bottom() < GROUND_Y ==>
            s'.isFlying && !s'.isGameOver)
  {
    StepUnfolds(s, i);
    var s1 := BeePhase(s, i.mousePressed).0;
    ScorePhaseFrame(s1);
    CollisionPhasesFrame(ScorePhase(s1));
  }

  /**
    An ordinary click on a fresh game takes two ticks. The event pump at
    line 252 both delivers the button-down event and refreshes the button
    state, so the tick that sees the event still reads the button as up: it
    starts the flight without a jump. The next tick reads the button as down
    and jumps.
   */
  lemma FirstClickTwoTicks(startTime: int, i1: TickInput, i2: TickInput)
    requires !i1.mousePressed && i1.mouseDownEvent && i2.mousePressed
    ensures var (s1, e1) := Step(Initial(startTime), i1);
      var (s2, e2) := Step(s1, i2);
      && s1.isFlying && !s1.isGameOver && !e1.flap && e1.crash == 0
      && s2.isFlying && !s2.isGameOver && e2.flap && e2.crash == 0 && s2.bee.vel == JUMP_VEL
  {
  }

  /**
    A tick that reads the button as down and also sees a button-down event
    (the button went up and down again between two event pumps) starts a fresh
    game flying and jumps in that same tick.
   */
  lemma FirstPressStartsFlight(startTime: int, i: TickInput)
    requires i.mousePressed && i.mouseDownEvent
    ensures var (s', e) := Step(Initial(startTime), i);
      s'.isFlying && !s'.isGameOver && s'.bee.vel == JUMP_VEL && e.flap && e.crash == 0
  {
  }
}
