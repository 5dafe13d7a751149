/**
 * Minimal stand-ins for the vector and box types the image class is built on
 * (`vec2i`, `vec2f`, `bb2i`, `bb2f`). Only what the image constructors use is
 * modelled. Single-precision floats are modelled as exact reals; every float
 * value the modelled constructors produce is integer-valued.
 */
module Geometry {

  /** An integer pixel coordinate or size (`vec2i`). */
  datatype Vec2i = Vec2i(x: int, y: int)

  /** A floating-point coordinate (`vec2f`). */
  datatype Vec2f = Vec2f(x: real, y: real)

  /** An integer box from corner `minv` to corner `maxv` (`bb2i`). */
  datatype Box2i = Box2i(minv: Vec2i, maxv: Vec2i)

  /** A floating-point box from corner `minv` to corner `maxv` (`bb2f`). */
  datatype Box2f = Box2f(minv: Vec2f, maxv: Vec2f)

  const Origin: Vec2i := Vec2i(0, 0)

  /** Integer-to-float conversion of a vector. */
  function ToVec2f(v: Vec2i): Vec2f {
    Vec2f(v.x as real, v.y as real)
  }

  /** Integer-to-float conversion of a box, corner by corner (`bb2f( bb2i )`). */
  function ToBox2f(b: Box2i): Box2f {
    Box2f(ToVec2f(b.minv), ToVec2f(b.maxv))
  }

  /** `v - 1.0f`: the float vector one unit below `v` in both axes. */
  function MinusOne(v: Vec2i): Vec2f {
    Vec2f(v.x as real - 1.0, v.y as real - 1.0)
  }
}
