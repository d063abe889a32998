/** Plane vectors for positions and velocities. The game uses single-precision
    floats; here the components are exact reals, and nothing that needs
    trigonometry or square roots is computed. */
module Geometry {

  datatype Vec = Vec(x: real, y: real)

  const Zero: Vec := Vec(0.0, 0.0)

  function Plus(a: Vec, b: Vec): Vec
  {
    Vec(a.x + b.x, a.y + b.y)
  }

  function Times(v: Vec, k: real): Vec
  {
    Vec(v.x * k, v.y * k)
  }
}
