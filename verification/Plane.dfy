/** Points of the plane. */
module Plane {
  datatype Point = Point(x: real, y: real)

  function SquaredDistance(p: Point, q: Point): real {
    (p.x - q.x) * (p.x - q.x) + (p.y - q.y) * (p.y - q.y)
  }
}
