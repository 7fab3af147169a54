/** Two-component vectors (MonoGame's Vector2), with float components modelled as reals. */
module Vectors {

  datatype Vec2 = Vec2(x: real, y: real) {

    function Plus(other: Vec2): Vec2 {
      Vec2(x + other.x, y + other.y)
    }

    function Minus(other: Vec2): Vec2 {
      Vec2(x - other.x, y - other.y)
    }

    function Negated(): Vec2 {
      Vec2(-x, -y)
    }

    function Times(k: real): Vec2 {
      Vec2(x * k, y * k)
    }

    function DividedBy(k: real): Vec2
      requires k != 0.0
    {
      Vec2(x / k, y / k)
    }
  }

  const Zero := Vec2(0.0, 0.0)

  /** An axis-aligned rectangle given by its top-left corner and its size (RectangleF). */
  datatype Rect = Rect(x: real, y: real, width: real, height: real)

  /** A vector whose components are whole numbers (`new Vector2(intX, intY)`). */
  function OfInts(x: int, y: int): Vec2 {
    Vec2(x as real, y as real)
  }
}
