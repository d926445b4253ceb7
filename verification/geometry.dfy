/**
 Integer stand-ins for the renderer's floating-point geometry: points, sizes
 and axis-aligned rectangles given by an origin and a non-negative size.
 */
module Geometry {

  datatype Point = Point(x: int, y: int)

  /** A direction vector; the blur factories only ever build unit axis vectors. */
  type Vector2 = Point

  datatype Size = Size(width: nat, height: nat)

  datatype Rect = Rect(origin: Point, size: Size) {

    function Left(): int { origin.x }
    function Top(): int { origin.y }
    function Right(): int { origin.x + size.width }
    function Bottom(): int { origin.y + size.height }

    /** A rectangle with a position but no pixels. */
    predicate IsEmpty() {
      size.width == 0 || size.height == 0
    }
  }

  function Min(a: int, b: int): int { if a <= b then a else b }

  function Max(a: int, b: int): int { if a <= b then b else a }

  /** A rectangle from its four edges. */
  function MakeLTRB(left: int, top: int, right: int, bottom: int): (r: Rect)
    requires left <= right && top <= bottom
    ensures r.Left() == left && r.Top() == top
    ensures r.Right() == right && r.Bottom() == bottom
  {
    Rect(Point(left, top), Size(right - left, bottom - top))
  }

  /** A rectangle at the origin with the given size. */
  function MakeSize(size: Size): (r: Rect)
    ensures r.origin == Point(0, 0) && r.size == size
  {
    Rect(Point(0, 0), size)
  }

  /** Every point of `inner` lies in `outer`. */
  predicate Contains(outer: Rect, inner: Rect) {
    && outer.Left() <= inner.Left()
    && outer.Top() <= inner.Top()
    && inner.Right() <= outer.Right()
    && inner.Bottom() <= outer.Bottom()
  }

  /** The smallest rectangle holding both arguments. */
  function Union(a: Rect, b: Rect): (r: Rect)
    ensures Contains(r, a) && Contains(r, b)
    ensures forall c :: Contains(c, a) && Contains(c, b) ==> Contains(c, r)
  {
    MakeLTRB(Min(a.Left(), b.Left()), Min(a.Top(), b.Top()),
             Max(a.Right(), b.Right()), Max(a.Bottom(), b.Bottom()))
  }

  /** A translation by `offset`. */
  function Translate(r: Rect, offset: Point): (t: Rect)
    ensures t.size == r.size
    ensures t.Left() - r.Left() == offset.x && t.Top() - r.Top() == offset.y
  {
    Rect(Point(r.origin.x + offset.x, r.origin.y + offset.y), r.size)
  }

  lemma ContainsReflexive(a: Rect)
    ensures Contains(a, a)
  {
  }

  lemma ContainsTransitive(a: Rect, b: Rect, c: Rect)
    requires Contains(a, b) && Contains(b, c)
    ensures Contains(a, c)
  {
  }

  /** The union of a rectangle with itself is that rectangle. */
  lemma UnionIdempotent(a: Rect)
    ensures Union(a, a) == a
  {
  }
}
