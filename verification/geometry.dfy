/**
 * Angles, arcs and the polar to cartesian conversion of the rings package.
 *
 * The trigonometric functions and the numeric value of a complete turn are
 * not part of this model: they are fixed but unknown constants, so that no
 * property proved here depends on a particular choice of angle unit.
 */
module Geometry {

  /** An angle; the unit is whatever makes `Complete` one full revolution. */
  type Angle = real

  type PositiveReal = r: real | r > 0.0 witness 1.0

  /** One full revolution, a positive constant whose value is left open. */
  const Complete: PositiveReal

  /** Direction signs: an arc's extent is a magnitude multiplied by one of these. */
  const Clockwise: Angle := -1.0
  const CounterClockwise: Angle := 1.0

  /** The cosine and sine of an angle, left uninterpreted. */
  const Cos: Angle -> real
  const Sin: Angle -> real

  /** A cartesian point (also used as a displacement). */
  datatype Point = Point(x: real, y: real)

  /** The point `p` displaced by `q`. */
  function Add(p: Point, q: Point): Point {
    Point(p.x + q.x, p.y + q.y)
  }

  /**
   * The cartesian point at `radius` along the ray at `angle` from the origin.
   * Radius zero gives the origin whatever the angle.
   */
  function Rectangular(angle: Angle, radius: real): (p: Point)
    ensures radius == 0.0 ==> p == Point(0.0, 0.0)
  {
    Point(radius * Cos(angle), radius * Sin(angle))
  }

  /** An angular span: start angle `theta` and signed extent `phi`. */
  datatype Arc = Arc(theta: Angle, phi: Angle)

  /** True when `phi` is a whole turn in either direction, i.e. the arc is a closed ring. */
  predicate IsFullTurn(phi: Angle) {
    phi == Clockwise * Complete || phi == CounterClockwise * Complete
  }
}
