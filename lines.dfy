/**
 * Vectors and line segments as the collision core sees them.
 *
 * Vec.h and Line.h are not part of this model: coordinates are exact reals,
 * Vec_add/Vec_subtract/Vec_multiply are plain vector arithmetic, the derived
 * fields top_left/bottom_right are the componentwise minimum/maximum of the two
 * endpoints, relative_vector is p2 - p1, and compareLines orders lines by id.
 */
module Lines {

  datatype Vec = Vec(x: real, y: real)

  function Add(a: Vec, b: Vec): Vec { Vec(a.x + b.x, a.y + b.y) }

  function Subtract(a: Vec, b: Vec): Vec { Vec(a.x - b.x, a.y - b.y) }

  function Multiply(a: Vec, s: real): Vec { Vec(a.x * s, a.y * s) }

  /** The MIN/MAX macros: `(a) < (b) ? (a) : (b)` and `(a) > (b) ? (a) : (b)`. */
  function Min(a: real, b: real): real { if a < b then a else b }

  function Max(a: real, b: real): real { if a > b then a else b }

  /** A moving segment: endpoints, velocity per unit time and a unique id. */
  datatype Line = Line(p1: Vec, p2: Vec, velocity: Vec, id: int)

  function TopLeft(l: Line): Vec { Vec(Min(l.p1.x, l.p2.x), Min(l.p1.y, l.p2.y)) }

  function BottomRight(l: Line): Vec { Vec(Max(l.p1.x, l.p2.x), Max(l.p1.y, l.p2.y)) }

  function RelativeVector(l: Line): Vec { Subtract(l.p2, l.p1) }

  /** compareLines: negative, zero or positive as l1's id is below, equal to or above l2's. */
  function CompareLines(l1: Line, l2: Line): int
  {
    if l1.id < l2.id then -1 else if l1.id == l2.id then 0 else 1
  }
}
