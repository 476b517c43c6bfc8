/**
  The two kinds of sprite of Happy Humblebee: the bee the player steers and
  the pipes it flies between. Each sprite's per-tick rule is a function here;
  the world that owns them is in module Flight.

  Velocities are kept in half-pixels per tick: the source's velocity only ever
  moves in steps of 0.5 from 0 or -10, so twice it is always an integer.
 */
module Sprites {
  import opened Geometry

  // Playfield (lines 23-24; the ground line 768 is written out at lines 90, 191, 217).
  const SCREEN_WIDTH := 864
  const SCREEN_HEIGHT := 936
  const GROUND_Y := 768

  // Sprite sizes come from the image files; these are the sizes assumed here.
  const BEE_WIDTH := 51
  const BEE_HEIGHT := 36
  const PIPE_WIDTH := 78
  const PIPE_HEIGHT := 560

  // Bee physics in half-pixels per tick (lines 87-89, 97) and animation (lines 75, 103).
  const GRAVITY := 1
  const TERMINAL_VEL := 16
  const JUMP_VEL := -20
  const FRAME_COUNT := 3
  const FLAP_COOLDOWN := 5

  // The bee hitbox shrinks the sprite rectangle by this much in each direction (line 122).
  const HITBOX_SHRINK := 20

  // Pipes (lines 38, 41).
  const PIPE_GAP := 150
  const SCROLL_SPEED := 4

  function Min(a: int, b: int): int { if a < b then a else b }

  // ---------------------------------------------------------------- the bee

  /** The bee's state: its sprite rectangle, velocity, jump debounce and animation. */
  datatype Bee = Bee(rect: Rect, vel: int, clicked: bool, counter: int, index: int)

  /** `Rect.center = [cx, cy]` for a rectangle of the bee's size. */
  function CentredAt(cx: int, cy: int): (r: Rect)
    ensures r.w == BEE_WIDTH && r.h == BEE_HEIGHT
    ensures r.Left() + r.w / 2 == cx && r.Top() + r.h / 2 == cy
  {
    Rect(cx - BEE_WIDTH / 2, cy - BEE_HEIGHT / 2, BEE_WIDTH, BEE_HEIGHT)
  }

  /** `Humblebee.__init__`: at rest, centred on (x, y), first frame. */
  function NewBee(x: int, y: int): (b: Bee)
    ensures b.rect == CentredAt(x, y)
    ensures b.vel == 0 && !b.clicked && b.counter == 0 && b.index == 0
  {
    Bee(CentredAt(x, y), 0, false, 0, 0)
  }

  /**
    The gravity half of `Humblebee.update`, run only while flying: velocity
    grows by 0.5 up to 8, and the bee moves by the truncated velocity unless
    its bottom edge has already reached the ground line.
   */
  function Fall(b: Bee): Bee {
    var v := if b.vel + GRAVITY > TERMINAL_VEL then TERMINAL_VEL else b.vel + GRAVITY;
    var y := if b.rect.Bottom() < GROUND_Y then b.rect.y + TruncHalf(v) else b.rect.y;
    b.(vel := v, rect := b.rect.(y := y))
  }

  /**
    The jump-and-animate half of `Humblebee.update`, run only while the game
    is not over. Returns the bee and whether the fly cue plays.
   */
  function Flap(b: Bee, pressed: bool): (Bee, bool) {
    var jump := pressed && !b.clicked;
    var clicked := if jump then true else b.clicked;
    var clicked' := if !pressed then false else clicked;
    var vel := if jump then JUMP_VEL else b.vel;
    var counter := b.counter + 1;
    var counter', index :=
      if counter > FLAP_COOLDOWN then 0 else counter,
      if counter > FLAP_COOLDOWN then (if b.index + 1 >= FRAME_COUNT then 0 else b.index + 1) else b.index;
    (b.(vel := vel, clicked := clicked', counter := counter', index := index), jump)
  }

  /** `Humblebee.update`: gravity while flying, then jump and animation unless the game is over. */
  function UpdateBee(b: Bee, isFlying: bool, isGameOver: bool, pressed: bool): (Bee, bool) {
    var fallen := if isFlying then Fall(b) else b;
    if isGameOver then (fallen, false) else Flap(fallen, pressed)
  }

  /** What the bee update promises, clause by clause. */
  lemma UpdateBeeSpec(b: Bee, isFlying: bool, isGameOver: bool, pressed: bool)
    ensures var (b', flap) := UpdateBee(b, isFlying, isGameOver, pressed);
      var fallVel := Min(b.vel + GRAVITY, TERMINAL_VEL);
      // the jump is edge-triggered on the button and sets the jump velocity
      && (flap <==> !isGameOver && pressed && !b.clicked)
      && (flap ==> b'.vel == JUMP_VEL)
      && (!flap ==> b'.vel == if isFlying then fallVel else b.vel)
      // the debounce flag follows the button, and only while the game is not over
      && b'.clicked == (if isGameOver then b.clicked else pressed)
      // the bee moves only vertically, only while flying and above the ground line
      && b'.rect.x == b.rect.x && b'.rect.w == b.rect.w && b'.rect.h == b.rect.h
      && b'.rect.y == b.rect.y + (if isFlying && b.rect.Bottom() < GROUND_Y then TruncHalf(fallVel) else 0)
      // while the game is not over the counter counts ticks and resets after 5,
      // and each reset moves to the next of the three frames, cyclically
      && (!isGameOver ==> b'.counter == if b.counter + 1 > FLAP_COOLDOWN then 0 else b.counter + 1)
      && (!isGameOver && 0 <= b.counter <= FLAP_COOLDOWN && 0 <= b.index < FRAME_COUNT ==>
            && b'.counter == (b.counter + 1) % (FLAP_COOLDOWN + 1)
            && b'.index == if b'.counter == 0 then (b.index + 1) % FRAME_COUNT else b.index)
      // the animation is frozen once the game is over
      && (isGameOver ==> b'.counter == b.counter && b'.index == b.index)
  {
  }

  /** The bee's invariant: velocity in [-10, 8] px, animation in range, never more than 8 px below the ground line. */
  predicate BeeOk(b: Bee) {
    JUMP_VEL <= b.vel <= TERMINAL_VEL &&
    0 <= b.counter <= FLAP_COOLDOWN && 0 <= b.index < FRAME_COUNT &&
    b.rect.w == BEE_WIDTH && b.rect.h == BEE_HEIGHT &&
    b.rect.Bottom() < GROUND_Y + TruncHalf(TERMINAL_VEL)
  }

  lemma UpdateBeeKeepsBeeOk(b: Bee, isFlying: bool, isGameOver: bool, pressed: bool)
    requires BeeOk(b)
    ensures BeeOk(UpdateBee(b, isFlying, isGameOver, pressed).0)
  {
  }

  /**
    `Humblebee.get_rect`: the hitbox used for scoring, the sprite rectangle
    shrunk by 10 pixels on every side.
   */
  function Hitbox(r: Rect): (hb: Rect)
    ensures hb.Left() == r.Left() + HITBOX_SHRINK / 2 && hb.Right() == r.Right() - HITBOX_SHRINK / 2
    ensures hb.Top() == r.Top() + HITBOX_SHRINK / 2 && hb.Bottom() == r.Bottom() - HITBOX_SHRINK / 2
  {
    Inflate(r, -HITBOX_SHRINK, -HITBOX_SHRINK)
  }

  // -------------------------------------------------------------- the pipes

  /**
    `Pipe.__init__`: position 1 hangs from the top with its bottom edge half a
    gap above y, position -1 stands on the bottom with its top edge half a gap
    below y; any other position leaves the image rectangle at the origin.
   */
  function NewPipe(x: int, y: int, position: int): (p: Rect)
    ensures p.w == PIPE_WIDTH && p.h == PIPE_HEIGHT
    ensures position == 1 ==> p.Left() == x && p.Bottom() == y - PIPE_GAP / 2
    ensures position == -1 ==> p.Left() == x && p.Top() == y + PIPE_GAP / 2
    ensures position != 1 && position != -1 ==> p.Left() == 0 && p.Top() == 0
  {
    if position == 1 then Rect(x, y - PIPE_GAP / 2 - PIPE_HEIGHT, PIPE_WIDTH, PIPE_HEIGHT)
    else if position == -1 then Rect(x, y + PIPE_GAP / 2, PIPE_WIDTH, PIPE_HEIGHT)
    else Rect(0, 0, PIPE_WIDTH, PIPE_HEIGHT)
  }

  /** The pair the spawner creates at lines 234-235: bottom pipe first, then the top pipe. */
  function SpawnPair(offset: int): (Rect, Rect) {
    (NewPipe(SCREEN_WIDTH, SCREEN_HEIGHT / 2 + offset, -1),
     NewPipe(SCREEN_WIDTH, SCREEN_HEIGHT / 2 + offset, 1))
  }

  /**
    A well-formed pair, bottom pipe then top pipe: one x, the pipe image size,
    exactly one gap between them, the gap centred within 100 px of mid-screen,
    and still (partly) on screen.
   */
  predicate PairOk(bottom: Rect, top: Rect) {
    bottom.x == top.x &&
    bottom.w == PIPE_WIDTH && bottom.h == PIPE_HEIGHT &&
    top.w == PIPE_WIDTH && top.h == PIPE_HEIGHT &&
    bottom.Top() - top.Bottom() == PIPE_GAP &&
    SCREEN_HEIGHT / 2 - 100 <= top.Bottom() + PIPE_GAP / 2 <= SCREEN_HEIGHT / 2 + 100 &&
    bottom.Right() >= 0 && bottom.Left() <= SCREEN_WIDTH
  }

  /** The gap invariant: a spawned pair is well formed and its gap lies inside the playfield. */
  lemma SpawnPairOk(offset: int)
    requires -100 <= offset <= 100
    ensures var (bottom, top) := SpawnPair(offset);
      && PairOk(bottom, top)
      && bottom.x == SCREEN_WIDTH
      && top.Bottom() + PIPE_GAP / 2 == SCREEN_HEIGHT / 2 + offset
      && 0 < top.Bottom() && bottom.Top() < GROUND_Y
  {
  }

  /** `Pipe.update`'s move: left by the scroll speed. */
  function MovePipe(p: Rect): Rect {
    p.(x := p.x - SCROLL_SPEED)
  }

  /** `Pipe.update` on every pipe of the group in order: each moves left and is killed once its right edge is off screen. */
  function ScrollPipes(ps: seq<Rect>): seq<Rect> {
    if ps == [] then []
    else
      var q := MovePipe(ps[0]);
      (if q.Right() < 0 then [] else [q]) + ScrollPipes(ps[1..])
  }

  /** Scrolling keeps the relative order: it distributes over concatenation. */
  lemma {:induction false} ScrollPipesConcat(a: seq<Rect>, b: seq<Rect>)
    ensures ScrollPipes(a + b) == ScrollPipes(a) + ScrollPipes(b)
  {
    if a == [] {
      assert a + b == b;
    } else {
      assert (a + b)[1..] == a[1..] + b;
      ScrollPipesConcat(a[1..], b);
    }
  }

  /** The survivors are exactly the moved pipes that are still on screen. */
  lemma {:induction false} ScrollPipesMembers(ps: seq<Rect>, q: Rect)
    ensures q in ScrollPipes(ps) <==> exists p :: p in ps && q == MovePipe(p) && q.Right() >= 0
  {
    if ps != [] {
      ScrollPipesMembers(ps[1..], q);
      if q in ScrollPipes(ps[1..]) {
        var p :| p in ps[1..] && q == MovePipe(p) && q.Right() >= 0;
        assert p in ps;
      }
      if exists p :: p in ps && q == MovePipe(p) && q.Right() >= 0 {
        var p :| p in ps && q == MovePipe(p) && q.Right() >= 0;
        if p != ps[0] {
          assert p in ps[1..];
        }
      }
    }
  }

  /** No pipe is created by scrolling, and when none leaves the screen all of them move by exactly the scroll speed. */
  lemma {:induction false} ScrollPipesLength(ps: seq<Rect>)
    ensures |ScrollPipes(ps)| <= |ps|
    ensures (forall k :: 0 <= k < |ps| ==> ps[k].Right() >= SCROLL_SPEED) ==>
      |ScrollPipes(ps)| == |ps| && forall k :: 0 <= k < |ps| ==> ScrollPipes(ps)[k] == MovePipe(ps[k])
  {
    if ps != [] {
      ScrollPipesLength(ps[1..]);
      if forall k :: 0 <= k < |ps| ==> ps[k].Right() >= SCROLL_SPEED {
        assert forall k :: 0 <= k < |ps| - 1 ==> ps[1..][k].Right() >= SCROLL_SPEED;
        assert ScrollPipes(ps) == [MovePipe(ps[0])] + ScrollPipes(ps[1..]);
      }
    }
  }

  /** The pipe group as a sequence of well-formed pairs, bottom pipe first, in spawn order. */
  predicate Paired(ps: seq<Rect>) {
    if |ps| == 0 then true
    else |ps| >= 2 && PairOk(ps[0], ps[1]) && Paired(ps[2..])
  }

  lemma {:induction false} PairedAppend(ps: seq<Rect>, bottom: Rect, top: Rect)
    requires Paired(ps) && PairOk(bottom, top)
    ensures Paired(ps + [bottom, top])
    decreases |ps|
  {
    if ps == [] {
      assert [bottom, top][2..] == [];
    } else {
      assert (ps + [bottom, top])[2..] == ps[2..] + [bottom, top];
      PairedAppend(ps[2..], bottom, top);
    }
  }

  /** Both pipes of a pair leave the screen on the same tick, so scrolling keeps the group paired. */
  lemma {:induction false} ScrollPipesPaired(ps: seq<Rect>)
    requires Paired(ps)
    ensures Paired(ScrollPipes(ps))
    decreases |ps|
  {
    if ps != [] {
      var b, t := ps[0], ps[1];
      assert ps == [b, t] + ps[2..];
      ScrollPipesConcat([b, t], ps[2..]);
      assert [b, t][1..] == [t];
      assert ScrollPipes([b, t]) == (if MovePipe(b).Right() < 0 then [] else [MovePipe(b), MovePipe(t)]);
      ScrollPipesPaired(ps[2..]);
      var rest := ScrollPipes(ps[2..]);
      if MovePipe(b).Right() >= 0 {
        assert ([MovePipe(b), MovePipe(t)] + rest)[2..] == rest;
      } else {
        assert ScrollPipes(ps) == rest;
      }
    }
  }
}
