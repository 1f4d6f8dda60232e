/** Rectangles and the collision test every entity of the game shares. */
module Geometry {

  /** An axis-aligned rectangle: (x, y) is the top-left corner and y grows downwards. */
  datatype Rect = Rect(x: real, y: real, width: real, height: real)

  /** Strict overlap on both axes: a rectangle that only touches another along an edge does not collide with it. */
  predicate IsColliding(a: Rect, b: Rect)
  {
    && a.x < b.x + b.width
    && a.x + a.width > b.x
    && a.y < b.y + b.height
    && a.y + a.height > b.y
  }

  /** The point (px, py) lies strictly inside r. */
  predicate Inside(r: Rect, px: real, py: real)
  {
    r.x < px < r.x + r.width && r.y < py < r.y + r.height
  }

  function Max(a: real, b: real): real { if a < b then b else a }

  function Min(a: real, b: real): real { if a < b then a else b }

  /** The order of the arguments does not matter. */
  lemma CollisionSymmetric(a: Rect, b: Rect)
    ensures IsColliding(a, b) <==> IsColliding(b, a)
  {
  }

  /** Two rectangles that share only a vertical or a horizontal edge do not collide, in either order. */
  lemma EdgeContactIsNotCollision(a: Rect, b: Rect)
    requires a.x + a.width == b.x || a.y + a.height == b.y
    ensures !IsColliding(a, b) && !IsColliding(b, a)
  {
  }

  /**
   * Reference reading of the test: two rectangles of positive size collide exactly when some
   * point lies strictly inside both of them.
   */
  lemma CollidingIffCommonInteriorPoint(a: Rect, b: Rect)
    requires a.width > 0.0 && a.height > 0.0 && b.width > 0.0 && b.height > 0.0
    ensures IsColliding(a, b) <==> exists px: real, py: real :: Inside(a, px, py) && Inside(b, px, py)
  {
    if IsColliding(a, b) {
      var px := (Max(a.x, b.x) + Min(a.x + a.width, b.x + b.width)) / 2.0;
      var py := (Max(a.y, b.y) + Min(a.y + a.height, b.y + b.height)) / 2.0;
      assert Inside(a, px, py) && Inside(b, px, py);
    }
  }
}
