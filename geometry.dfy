/** Points of the plane and the little vector algebra the outline code needs. */
module Geometry {

  datatype Point = Point(x: real, y: real)

  const Origin := Point(0.0, 0.0)

  function Add(p: Point, q: Point): Point { Point(p.x + q.x, p.y + q.y) }

  function Sub(p: Point, q: Point): Point { Point(p.x - q.x, p.y - q.y) }

  function Mul(k: real, p: Point): Point { Point(k * p.x, k * p.y) }

  function Dot(u: Point, v: Point): real { u.x * v.x + u.y * v.y }

  /** z-component of (u.x, u.y, 0) x (v.x, v.y, 0). */
  function Cross(u: Point, v: Point): real { u.x * v.y - u.y * v.x }

  /** Squared Euclidean length. */
  function Norm2(u: Point): real { Dot(u, u) }

  /** Squared Euclidean distance; it orders points exactly as the distance does. */
  function Dist2(p: Point, q: Point): real { Norm2(Sub(p, q)) }

  /** b raised to a natural power. */
  function Pow(b: real, k: nat): real
  {
    if k == 0 then 1.0 else b * Pow(b, k - 1)
  }
}
