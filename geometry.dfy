/**
 * Plane vectors over exact reals. The Euclidean norm is not computable over
 * `real`; it is a parameter of the planner (see `CostModel.Params`).
 */
module Geometry {
  datatype Vec2 = Vec2(x: real, y: real)

  function Sub(a: Vec2, b: Vec2): (r: Vec2)
    ensures Add(b, r) == a
  {
    Vec2(a.x - b.x, a.y - b.y)
  }

  function Add(a: Vec2, b: Vec2): Vec2 {
    Vec2(a.x + b.x, a.y + b.y)
  }

  function Dot(a: Vec2, b: Vec2): real {
    a.x * b.x + a.y * b.y
  }

  /** The dot product changes sign when the movement is reversed. */
  lemma DotAntisymmetric(d: Vec2, a: Vec2, b: Vec2)
    ensures Dot(d, Sub(b, a)) == -Dot(d, Sub(a, b))
  {
  }
}
