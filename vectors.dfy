/** Two-component vectors of the engine, with every float modelled as a `real`. */
module Vectors {

  datatype Vector2 = Vector2(x: real, y: real)

  /** `v2(0.0, 0.0)` */
  const Zero2: Vector2 := Vector2(0.0, 0.0)

  function Abs(a: real): (r: real)
    ensures r >= 0.0 && (r == a || r == -a)
  {
    if a < 0.0 then -a else a
  }
}
