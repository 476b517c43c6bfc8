/**
  Integer rectangles as the game uses them (pygame's `Rect`): a top-left
  corner, a width and a height, with the derived edges. Also the integer
  rounding the game relies on: `int()` of a half-integer and C's `/`, both
  truncating toward zero.
 */
module Geometry {

  datatype Rect = Rect(x: int, y: int, w: int, h: int) {
    function Left(): int { x }
    function Right(): int { x + w }
    function Top(): int { y }
    function Bottom(): int { y + h }
  }

  /** A pixel (px, py) lies inside r. */
  predicate Covers(r: Rect, px: int, py: int) {
    r.Left() <= px < r.Right() && r.Top() <= py < r.Bottom()
  }

  /**
    v / 2 rounded toward zero. This is Python's `int(v / 2)` and C's integer
    `v / 2`; Dafny's own `/` rounds toward negative infinity here.
   */
  function TruncHalf(v: int): (q: int)
    ensures v >= 0 ==> 0 <= 2 * q <= v < 2 * q + 2
    ensures v < 0 ==> 2 * q - 2 < v <= 2 * q <= 0
  {
    if v >= 0 then v / 2 else -((-v) / 2)
  }

  /** Truncation is symmetric about zero, which floor division is not. */
  lemma TruncHalfOdd(v: int)
    ensures TruncHalf(-v) == -TruncHalf(v)
  {
  }

  /**
    `Rect.inflate(dx, dy)`: grows the rectangle by dx and dy, moving the corner
    by half of each (halves truncated toward zero, as pygame's C code does).
   */
  function Inflate(r: Rect, dx: int, dy: int): (r': Rect)
    ensures r'.w == r.w + dx && r'.h == r.h + dy
    ensures dx % 2 == 0 ==> r'.Left() + r'.Right() == r.Left() + r.Right()
    ensures dy % 2 == 0 ==> r'.Top() + r'.Bottom() == r.Top() + r.Bottom()
  {
    Rect(r.x - TruncHalf(dx), r.y - TruncHalf(dy), r.w + dx, r.h + dy)
  }

  /**
    `Rect.colliderect`: the rectangles overlap. An empty rectangle collides
    with nothing; for the rectangles of this game (positive sizes) the rest is
    the four strict edge comparisons.
   */
  predicate Collide(a: Rect, b: Rect) {
    a.w != 0 && a.h != 0 && b.w != 0 && b.h != 0 &&
    a.Left() < b.Right() && a.Top() < b.Bottom() &&
    a.Right() > b.Left() && a.Bottom() > b.Top()
  }

  /** For rectangles with positive sizes, colliding means sharing a pixel. */
  lemma CollideIffSharedPixel(a: Rect, b: Rect)
    requires a.w > 0 && a.h > 0 && b.w > 0 && b.h > 0
    ensures Collide(a, b) <==> exists px, py :: Covers(a, px, py) && Covers(b, px, py)
  {
    if Collide(a, b) {
      var px := if a.x < b.x then b.x else a.x;
      var py := if a.y < b.y then b.y else a.y;
      assert Covers(a, px, py) && Covers(b, px, py);
    }
  }
}
