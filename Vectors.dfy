/** The float vectors of GameCore/Vectors.h (not part of this model) as tuples of reals. */
module Vectors {

  datatype Vec2 = Vec2(x: real, y: real)

  function Add(a: Vec2, b: Vec2): Vec2 {
    Vec2(a.x + b.x, a.y + b.y)
  }

  function Scale(a: Vec2, k: real): Vec2 {
    Vec2(a.x * k, a.y * k)
  }

  datatype Vec4 = Vec4(x: real, y: real, z: real, w: real)

  /** vec4f::zero(). */
  const Vec4Zero: Vec4 := Vec4(0.0, 0.0, 0.0, 0.0)
}
