/**
 * Exact stand-ins for QVector2D and QVector3D. Components are reals, so
 * no step of the model rounds; `normal` keeps the cross product and drops
 * the final normalisation.
 */
module Geometry {

  datatype Vec2 = Vec2(x: real, y: real)
  datatype Vec3 = Vec3(x: real, y: real, z: real)

  /** `QVector3D(0, 0, 0)`, the value `resize` fills the position and normal vectors with. */
  const Zero: Vec3 := Vec3(0.0, 0.0, 0.0)

  function Add(a: Vec3, b: Vec3): Vec3 {
    Vec3(a.x + b.x, a.y + b.y, a.z + b.z)
  }

  function Sub(a: Vec3, b: Vec3): Vec3 {
    Vec3(a.x - b.x, a.y - b.y, a.z - b.z)
  }

  function Dot(a: Vec3, b: Vec3): real {
    a.x * b.x + a.y * b.y + a.z * b.z
  }

  function Cross(a: Vec3, b: Vec3): Vec3 {
    Vec3(a.y * b.z - a.z * b.y, a.z * b.x - a.x * b.z, a.x * b.y - a.y * b.x)
  }

  function Scale(k: real, a: Vec3): Vec3 {
    Vec3(k * a.x, k * a.y, k * a.z)
  }

  /** `QVector3D::operator/=(float)`: every component divided by d. */
  function Div(a: Vec3, d: real): (r: Vec3)
    requires d != 0.0
    ensures Vec3(r.x * d, r.y * d, r.z * d) == a
  {
    Vec3(a.x / d, a.y / d, a.z / d)
  }

  /**
   * `QVector3D::normal(a, b, c)` without its normalisation: the cross product
   * of the edge a->b with the edge a->c.
   */
  function Normal(a: Vec3, b: Vec3, c: Vec3): Vec3 {
    Cross(Sub(b, a), Sub(c, a))
  }

  /**
   * The normal is perpendicular to both edges, it is zero for a triangle with
   * two coincident corners, and a triangle lying in a plane z = const has a
   * normal along the z axis.
   */
  lemma NormalProperties(a: Vec3, b: Vec3, c: Vec3)
    ensures var n := Normal(a, b, c);
      && Dot(n, Sub(b, a)) == 0.0 && Dot(n, Sub(c, a)) == 0.0
      && (a == b || b == c || a == c ==> n == Zero)
      && (a.z == b.z == c.z ==> n.x == 0.0 && n.y == 0.0)
  {
  }
}
