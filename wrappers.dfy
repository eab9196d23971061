/** Option and Outcome datatypes used for the source's None values and raised exceptions. */
module Wrappers {

  datatype Option<+T> = None | Some(value: T)

  /** Pass, or Fail carrying the exception the Python code raises. */
  datatype Outcome<+E> = Pass | Fail(error: E)

  /** A value, or the exception raised instead of returning it. */
  datatype Result<+T, +E> = Ok(value: T) | Err(error: E)
}

/**
 * Integer 2-D vectors (positions in the simulator's world space) and the
 * state of a simulated object that the presets move around.
 */
module Geometry {

  datatype Vec = Vec(x: int, y: int)

  /**
   * An object's pose and motion. Angles are kept in degrees: the source
   * converts them to radians (a float) when it stores them.
   */
  datatype Body = Body(position: Vec, angleDegrees: int, velocity: Vec, angularVelocity: int)

  /** A spawn entry [position, rotation in degrees]. */
  datatype Spawn = Spawn(position: Vec, rotationDegrees: int)

  const Zero := Vec(0, 0)

  function Add(a: Vec, b: Vec): Vec
  {
    Vec(a.x + b.x, a.y + b.y)
  }

  function Sub(a: Vec, b: Vec): Vec
  {
    Vec(a.x - b.x, a.y - b.y)
  }

  function Scale(a: Vec, k: int): Vec
  {
    Vec(a.x * k, a.y * k)
  }

  /** The squared length of a vector. */
  function Norm2(v: Vec): int
  {
    v.x * v.x + v.y * v.y
  }

  /** Rotation by a number of quarter turns (90 degrees each), counter-clockwise. */
  function RotateQuarter(v: Vec, quarterTurns: int): Vec
  {
    match quarterTurns % 4
    case 0 => v
    case 1 => Vec(-v.y, v.x)
    case 2 => Vec(-v.x, -v.y)
    case _ => Vec(v.y, -v.x)
  }

}
