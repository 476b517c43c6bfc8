/**
  The running game: one World object whose fields are the module globals of
  happy_humblebee.py, the humblebee sprite's fields and the pipe group. Each
  method is one block of the main loop and changes the fields in place; each
  is proved to do what the matching phase function of module Game says, so
  that everything proved of Game.Step holds of Tick.
 */
module Flight {
  import opened Geometry
  import opened Sprites
  import opened Game
  import Properties

  class World {
    // The humblebee sprite (lines 68-123); vel is in half-pixels per tick.
    var beeRect: Rect
    var vel: int
    var clicked: bool
    var counter: int
    var index: int

    // pipe_group, in insertion order.
    var pipes: seq<Rect>

    // Game variables (lines 37-46).
    var groundScroll: int
    var isFlying: bool
    var isGameOver: bool
    var lastPipe: int
    var score: int
    var highScore: int
    var pipePassed: bool

    /** The world's value. */
    function Snap(): Snapshot
      reads this
    {
      Snapshot(Bee(beeRect, vel, clicked, counter, index), pipes, groundScroll,
               isFlying, isGameOver, lastPipe, score, highScore, pipePassed)
    }

    ghost predicate Valid()
      reads this
    {
      Inv(Snap())
    }

    /** Lines 37-46 and 169-172, with the clock read at start-up passed in. */
    constructor (startTime: int)
      ensures Valid() && Snap() == Initial(startTime)
    {
      beeRect := CentredAt(SPAWN_X, SPAWN_Y);
      vel, clicked, counter, index := 0, false, 0, 0;
      pipes := [];
      groundScroll := 0;
      isFlying, isGameOver := false, false;
      lastPipe := startTime - PIPE_FREQUENCY;
      score, highScore := 0, 0;
      pipePassed := false;
      Properties.InitialInv(startTime);
    }

    /** `Humblebee.update` (lines 84-111); returns whether the fly cue plays. */
    method UpdateBee(pressed: bool) returns (flap: bool)
      modifies this
      ensures (Snap(), flap) == BeePhase(old(Snap()), pressed)
    {
      if isFlying {
        vel := vel + GRAVITY;
        if vel > TERMINAL_VEL {
          vel := TERMINAL_VEL;
        }
        if beeRect.Bottom() < GROUND_Y {
          beeRect := beeRect.(y := beeRect.y + TruncHalf(vel));
        }
      }
      flap := false;
      if !isGameOver {
        if pressed && !clicked {
          clicked := true;
          vel := JUMP_VEL;
          flap := true;
        }
        if !pressed {
          clicked := false;
        }
        counter := counter + 1;
        if counter > FLAP_COOLDOWN {
          counter := 0;
          index := index + 1;
          if index >= FRAME_COUNT {
            index := 0;
          }
        }
      }
    }

    /** Lines 194-204: the pass latch and the score. */
    method CheckScore()
      modifies this
      ensures Snap() == ScorePhase(old(Snap()))
    {
      if |pipes| > 0 {
        var hb := Hitbox(beeRect);
        if hb.Left() > pipes[0].Left() && hb.Right() < pipes[0].Right() && !pipePassed {
          pipePassed := true;
        }
        if pipePassed {
          if hb.Left() > pipes[0].Right() {
            score := score + 1;
            pipePassed := false;
            if score > highScore {
              highScore := score;
            }
          }
        }
      }
    }

    /** `groupcollide(bee_group, pipe_group, False, False)`: does the bee's rectangle hit any pipe? */
    method HitsPipe() returns (hit: bool)
      ensures hit == HitsAnyPipe(beeRect, pipes)
    {
      hit := false;
      var k := 0;
      while k < |pipes|
        invariant 0 <= k <= |pipes|
        invariant hit <==> exists j :: 0 <= j < k && Collide(beeRect, pipes[j])
      {
        if Collide(beeRect, pipes[k]) {
          hit := true;
        }
        k := k + 1;
      }
    }

    /** Lines 212-215; returns how many times the game-over cue plays. */
    method CheckCollision() returns (crash: nat)
      modifies this
      ensures (Snap(), crash) == PipeHitPhase(old(Snap()))
    {
      crash := 0;
      var hit := HitsPipe();
      if hit || beeRect.Top() < 0 {
        if !isGameOver {
          crash := 1;
        }
        isGameOver := true;
      }
    }

    /** Lines 217-221; returns how many times the game-over cue plays. */
    method CheckGround() returns (crash: nat)
      modifies this
      ensures (Snap(), crash) == GroundPhase(old(Snap()))
    {
      crash := 0;
      if beeRect.Bottom() >= GROUND_Y {
        if !isGameOver {
          crash := 1;
        }
        isGameOver := true;
        isFlying := false;
      }
    }

    /** `reset_game` (lines 60-65): returns the new score, which the caller stores. */
    method ResetGame() returns (newScore: int)
      modifies this
      ensures newScore == 0
      ensures Snap() == Game.ResetGame(old(Snap())).(score := old(score))
    {
      pipes := [];
      beeRect := beeRect.(x := SPAWN_X, y := SPAWN_Y);
      newScore := 0;
    }

    /** Lines 223-227 (and 247-250): restart on a press while the game is over. */
    method RestartIfRequested(pressed: bool) returns (restarted: bool)
      modifies this
      ensures restarted == (old(isGameOver) && pressed)
      ensures Snap() == RestartPhase(old(Snap()), pressed)
    {
      restarted := false;
      if isGameOver {
        if pressed {
          isGameOver := false;
          score := ResetGame();
          restarted := true;
        }
      }
    }

    /** `pipe_group.update()`: move every pipe left and kill those whose right edge is off screen. */
    method UpdatePipes()
      modifies this
      ensures Snap() == old(Snap()).(pipes := ScrollPipes(old(pipes)))
    {
      var group := pipes;
      var kept: seq<Rect> := [];
      var k := 0;
      while k < |group|
        invariant 0 <= k <= |group|
        invariant kept == ScrollPipes(group[..k])
        invariant unchanged(this)
      {
        var p := MovePipe(group[k]);
        if p.Right() >= 0 {
          kept := kept + [p];
        }
        ScrollPipesConcat(group[..k], [group[k]]);
        assert group[..k + 1] == group[..k] + [group[k]];
        k := k + 1;
      }
      assert group[..k] == group;
      pipes := kept;
    }

    /** Lines 229-244: spawn, move the pipes and scroll the ground while flying. */
    method SpawnAndScroll(timeNow: int, offset: int)
      modifies this
      ensures Snap() == ScrollPhase(old(Snap()), timeNow, offset)
    {
      if isFlying && !isGameOver {
        if timeNow - lastPipe > PIPE_FREQUENCY {
          var (bottom, top) := SpawnPair(offset);
          pipes := pipes + [bottom];
          pipes := pipes + [top];
          assert pipes == old(pipes) + [bottom, top];
          lastPipe := timeNow;
        }
        UpdatePipes();
        groundScroll := groundScroll - SCROLL_SPEED;
        if groundScroll > GROUND_WRAP || groundScroll < -GROUND_WRAP {
          groundScroll := 0;
        }
      }
    }

    /** Lines 252-256: the event queue; returns the new value of `run`. */
    method HandleEvents(mouseDownEvent: bool, quit: bool) returns (run: bool)
      modifies this
      ensures run == !quit
      ensures Snap() == EventPhase(old(Snap()), mouseDownEvent)
    {
      run := true;
      if quit {
        run := false;
      }
      if mouseDownEvent && !isFlying && !isGameOver {
        isFlying := true;
      }
    }

    /** One pass through the `while run` loop body (lines 180-258). */
    method Tick(input: TickInput) returns (effects: Effects)
      requires Valid() && ValidInput(input)
      modifies this
      ensures Valid()
      ensures (Snap(), effects) == Step(old(Snap()), input)
    {
      ghost var s := Snap();
      Properties.StepUnfolds(s, input);
      Properties.StepKeepsInv(s, input);
      Properties.SecondRestartInert(s, input);
      var flap := UpdateBee(input.mousePressed);
      ghost var s1 := Snap();
      CheckScore();
      ghost var s2 := Snap();
      var hit := CheckCollision();
      ghost var s3 := Snap();
      var ground := CheckGround();
      ghost var s4 := Snap();
      assert s4 == GroundPhase(PipeHitPhase(ScorePhase(s1)).0).0;
      var _ := RestartIfRequested(input.mousePressed);
      SpawnAndScroll(input.timeNow, input.offset);
      ghost var s6 := Snap();
      assert s6 == BeforeSecondRestart(s, input).0;
      var again := RestartIfRequested(input.mousePressed);
      assert !again;
      var run := HandleEvents(input.mouseDownEvent, input.quit);
      effects := Effects(flap, hit + ground, run);
    }
  }
}
