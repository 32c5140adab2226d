/** The part of pygame.Rect the simulation relies on: an axis-aligned
    rectangle with integer corner and non-negative integer size, its edge
    and centre attributes, the attribute assignments that move it, and
    colliderect. */
module Rects {

  datatype Rect = Rect(x: int, y: int, w: nat, h: nat) {

    function Left(): int { x }
    function Right(): int { x + w }
    function Top(): int { y }
    function Bottom(): int { y + h }
    function CenterX(): int { x + w / 2 }
    function CenterY(): int { y + h / 2 }

    /** rect.move(dx, dy): the same size, translated. */
    function Move(dx: int, dy: int): (r: Rect)
      ensures r.x == x + dx && r.y == y + dy
      ensures r.w == w && r.h == h
    {
      Rect(x + dx, y + dy, w, h)
    }

    /** Assigning rect.left: x moves, size and y stay. */
    function WithLeft(v: int): (r: Rect)
      ensures r.Left() == v && r.Right() == v + w
      ensures r.y == y && r.w == w && r.h == h
    {
      this.(x := v)
    }

    /** Assigning rect.right: the left edge follows so that the width stays. */
    function WithRight(v: int): (r: Rect)
      ensures r.Right() == v && r.Left() == v - w
      ensures r.y == y && r.w == w && r.h == h
    {
      this.(x := v - w)
    }

    /** Assigning rect.top: y moves, size and x stay. */
    function WithTop(v: int): (r: Rect)
      ensures r.Top() == v && r.Bottom() == v + h
      ensures r.x == x && r.w == w && r.h == h
    {
      this.(y := v)
    }

    /** Assigning rect.bottom: the top edge follows so that the height stays. */
    function WithBottom(v: int): (r: Rect)
      ensures r.Bottom() == v && r.Top() == v - h
      ensures r.x == x && r.w == w && r.h == h
    {
      this.(y := v - h)
    }
  }

  /** get_rect(center=(cx, cy)) for an image of size w by h. */
  function CenteredAt(cx: int, cy: int, w: nat, h: nat): (r: Rect)
    ensures r.CenterX() == cx && r.CenterY() == cy
    ensures r.w == w && r.h == h
  {
    Rect(cx - w / 2, cy - h / 2, w, h)
  }

  /** colliderect as pygame 2 computes it for non-negative sizes: a rectangle
      of zero width or height collides with nothing; otherwise the two
      rectangles must overlap strictly on both axes (touching edges do not
      collide). */
  predicate Collides(a: Rect, b: Rect)
  {
    a.w > 0 && a.h > 0 && b.w > 0 && b.h > 0 &&
    a.Left() < b.Right() && b.Left() < a.Right() &&
    a.Top() < b.Bottom() && b.Top() < a.Bottom()
  }

  lemma CollidesSymmetric(a: Rect, b: Rect)
    ensures Collides(a, b) <==> Collides(b, a)
  {
  }

  /** A rectangle whose right edge is placed on b's left edge, or whose left
      edge is placed on b's right edge, no longer collides with b; likewise
      on the vertical axis. */
  lemma SnappedApart(a: Rect, b: Rect)
    ensures !Collides(a.WithRight(b.Left()), b)
    ensures !Collides(a.WithLeft(b.Right()), b)
    ensures !Collides(a.WithBottom(b.Top()), b)
    ensures !Collides(a.WithTop(b.Bottom()), b)
  {
  }

  /** Python's int() of a float: truncation toward zero. pygame applies it
      when a fractional value is assigned to a rectangle coordinate. */
  function Trunc(v: real): (n: int)
    ensures v >= 0.0 ==> 0 <= n && n as real <= v < n as real + 1.0
    ensures v < 0.0 ==> n <= 0 && n as real - 1.0 < v <= n as real
  {
    if v >= 0.0 then v.Floor else -((-v).Floor)
  }

  lemma TruncOfInt(n: int)
    ensures Trunc(n as real) == n
  {
  }

  /** Truncation never reverses an order, so moving an integer coordinate by
      a non-negative (non-positive) amount never moves it back. */
  lemma TruncMonotone(a: real, b: real)
    requires a <= b
    ensures Trunc(a) <= Trunc(b)
  {
  }
}
