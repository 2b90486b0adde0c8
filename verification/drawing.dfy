/** The System.Drawing value types the detectors use, and the numeric
    conversions of C# that matter to them. */
module Drawing {

  datatype Point = Point(x: int, y: int)

  datatype Size = Size(width: int, height: int)

  /** System.Drawing.Rectangle: `Right` and `Bottom` are exclusive edges
      computed as `X + Width` and `Y + Height`. */
  datatype Rectangle = Rectangle(x: int, y: int, width: int, height: int) {
    function Left(): int { x }
    function Top(): int { y }
    function Right(): int { x + width }
    function Bottom(): int { y + height }
    function Area(): int { width * height }
  }

  /** The box from corner `(x1, y1)` to corner `(x2, y2)`: width and height
      are the corner differences. */
  function CornerBox(x1: int, y1: int, x2: int, y2: int): (b: Rectangle)
    ensures b.Left() == x1 && b.Top() == y1 && b.Right() == x2 && b.Bottom() == y2
  {
    Rectangle(x1, y1, x2 - x1, y2 - y1)
  }

  function Min(a: int, b: int): int { if a <= b then a else b }

  function Max(a: int, b: int): int { if a >= b then a else b }

  function MinReal(a: real, b: real): real { if a <= b then a else b }

  function MaxReal(a: real, b: real): real { if a >= b then a else b }

  /** The C# `(int)` cast of a floating-point value: truncation toward zero. */
  function Trunc(v: real): (r: int)
    ensures v >= 0.0 ==> r >= 0 && r as real <= v < r as real + 1.0
    ensures v < 0.0 ==> r <= 0 && r as real - 1.0 < v <= r as real
  {
    if v >= 0.0 then v.Floor else -((-v).Floor)
  }

  lemma TruncOfInt(n: int)
    ensures Trunc(n as real) == n
  {
  }

  /** Truncation is monotone: it never reorders two values. */
  lemma TruncMonotone(a: real, b: real)
    requires a <= b
    ensures Trunc(a) <= Trunc(b)
  {
    if a >= 0.0 {
      assert a.Floor <= b.Floor;
    } else if b < 0.0 {
      assert (-b).Floor <= (-a).Floor;
    }
  }

  /** Scaling by a non-negative factor keeps the order. */
  lemma ScaleMonotone(a: real, b: real, c: real)
    requires a <= b && c >= 0.0
    ensures a * c <= b * c
  {
    assert b * c - a * c == (b - a) * c;
  }
}
