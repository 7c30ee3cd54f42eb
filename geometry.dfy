/** The part of android.graphics.RectF the game relies on. */
module Geometry {

  datatype Rect = Rect(left: real, top: real, right: real, bottom: real)
  {
    function CenterX(): real { (left + right) / 2.0 }
    function CenterY(): real { (top + bottom) / 2.0 }
  }

  /** The rectangle with top-left corner (x, y), width w and height h. */
  function Box(x: real, y: real, w: real, h: real): (r: Rect)
    ensures r.left == x && r.top == y
    ensures r.right - r.left == w && r.bottom - r.top == h
    ensures r.CenterX() == x + w / 2.0 && r.CenterY() == y + h / 2.0
  {
    Rect(x, y, x + w, y + h)
  }

  /** `RectF.intersects(a, b)`: the two rectangles overlap with positive area
      (touching edges do not count). */
  predicate Intersects(a: Rect, b: Rect)
  {
    a.left < b.right && b.left < a.right && a.top < b.bottom && b.top < a.bottom
  }

  /** `RectF.contains(x, y)`: a non-empty rectangle holding the point, left and top
      edges included, right and bottom edges excluded. */
  predicate Contains(r: Rect, x: real, y: real)
  {
    r.left < r.right && r.top < r.bottom && r.left <= x < r.right && r.top <= y < r.bottom
  }

  lemma IntersectsSymmetric(a: Rect, b: Rect)
    ensures Intersects(a, b) == Intersects(b, a)
  {
  }

  /** A rectangle that contains a point of another non-empty rectangle's interior
      overlaps it. */
  lemma ContainsCornerIntersects(a: Rect, b: Rect)
    requires Contains(a, b.left, b.top) && b.left < b.right && b.top < b.bottom
    ensures Intersects(a, b)
  {
  }
}
