/** The drawing primitives the firmware borrows from its graphics library:
    points with signed 32-bit coordinates, sizes and axis-aligned
    rectangles given by their top-left corner and size.  Only the
    operations the core calls are modelled: building a rectangle from two
    corners, resizing while keeping the top-left corner fixed, and the
    signed-to-unsigned coordinate cast. */
module Geometry {
  import opened Prelude

  datatype Point = Point(x: i32, y: i32)

  /** Width and height (unsigned in the library). */
  datatype Size = Size(width: nat, height: nat)

  datatype Rectangle = Rectangle(topLeft: Point, size: Size)

  const Origin: Point := Point(0, 0)

  /** The pixel `p` lies in `r`; the right and bottom edges are exclusive. */
  predicate Contains(r: Rectangle, p: Point) {
    && r.topLeft.x <= p.x < r.topLeft.x + r.size.width
    && r.topLeft.y <= p.y < r.topLeft.y + r.size.height
  }

  function Area(r: Rectangle): nat {
    r.size.width * r.size.height
  }

  function Min(a: i32, b: i32): i32 { if a <= b then a else b }
  function Max(a: i32, b: i32): i32 { if a <= b then b else a }

  /** `Rectangle::with_corners`: the smallest rectangle holding both corners
      (corners are inclusive). */
  function WithCorners(a: Point, b: Point): (r: Rectangle)
    ensures Contains(r, a) && Contains(r, b)
    ensures forall p: Point :: Contains(r, p) <==>
      Min(a.x, b.x) <= p.x <= Max(a.x, b.x) && Min(a.y, b.y) <= p.y <= Max(a.y, b.y)
  {
    Rectangle(Point(Min(a.x, b.x), Min(a.y, b.y)),
              Size(Max(a.x, b.x) - Min(a.x, b.x) + 1, Max(a.y, b.y) - Min(a.y, b.y) + 1))
  }

  /** `Rectangle::resized(size, AnchorPoint::TopLeft)`: the top-left corner
      stays where it is and the rectangle takes the new size, so it covers
      exactly the `s.width` by `s.height` points right of and below that
      corner, whatever the old size was. */
  function ResizedTopLeft(r: Rectangle, s: Size): (q: Rectangle)
    ensures q.topLeft == r.topLeft && q.size == s
    ensures Contains(q, r.topLeft) <==> s.width > 0 && s.height > 0
    ensures Area(q) == s.width * s.height
    ensures forall p: Point :: Contains(q, p) <==>
              && r.topLeft.x <= p.x < r.topLeft.x + s.width
              && r.topLeft.y <= p.y < r.topLeft.y + s.height
  {
    Rectangle(r.topLeft, s)
  }

  /** `v as u32` for a signed 32-bit `v`: the two's-complement bit pattern
      read as unsigned, so negative values wrap to the top of the range. */
  function AsU32(v: i32): (r: u32)
    ensures 0 <= v ==> r == v
    ensures v < 0 ==> r == v + U32_LIMIT
  {
    v % U32_LIMIT
  }
}
