/**
 * The vector and matrix arithmetic the bookkeeping needs, over exact reals. A length test
 * `|v| < 1e-4` is stated on the squared length (`|v|^2 < 1e-8`), which is equivalent because
 * the square root is monotone; no square root is ever taken.
 */
module Geometry {

  datatype Vec3 = Vec3(x: real, y: real, z: real)

  function Add(a: Vec3, b: Vec3): Vec3
  {
    Vec3(a.x + b.x, a.y + b.y, a.z + b.z)
  }

  function Sub(a: Vec3, b: Vec3): Vec3
  {
    Vec3(a.x - b.x, a.y - b.y, a.z - b.z)
  }

  function Scale(v: Vec3, k: real): Vec3
  {
    Vec3(v.x * k, v.y * k, v.z * k)
  }

  function LengthSq(v: Vec3): (r: real)
    ensures r >= 0.0
  {
    v.x * v.x + v.y * v.y + v.z * v.z
  }

  /** The closeness tolerance 1e-4, squared. */
  const ToleranceSq: real := 0.00000001

  /** `(a - b).length < 1e-4`. */
  predicate CloserThanTolerance(a: Vec3, b: Vec3)
  {
    LengthSq(Sub(a, b)) < ToleranceSq
  }

  /** `(a - b).length <= 1e-4`. */
  predicate WithinTolerance(a: Vec3, b: Vec3)
  {
    LengthSq(Sub(a, b)) <= ToleranceSq
  }

  datatype Vec4 = Vec4(x: real, y: real, z: real, w: real)

  /** A 4x4 affine matrix, stored by columns. */
  datatype Mat4 = Mat4(c0: Vec4, c1: Vec4, c2: Vec4, c3: Vec4)

  const Identity: Mat4 :=
    Mat4(Vec4(1.0, 0.0, 0.0, 0.0), Vec4(0.0, 1.0, 0.0, 0.0), Vec4(0.0, 0.0, 1.0, 0.0), Vec4(0.0, 0.0, 0.0, 1.0))

  function Translation(v: Vec3): Mat4
  {
    Mat4(Vec4(1.0, 0.0, 0.0, 0.0), Vec4(0.0, 1.0, 0.0, 0.0), Vec4(0.0, 0.0, 1.0, 0.0), Vec4(v.x, v.y, v.z, 1.0))
  }

  /** Matrix times column vector. */
  function MulVec(m: Mat4, v: Vec4): Vec4
  {
    Vec4(m.c0.x * v.x + m.c1.x * v.y + m.c2.x * v.z + m.c3.x * v.w,
         m.c0.y * v.x + m.c1.y * v.y + m.c2.y * v.z + m.c3.y * v.w,
         m.c0.z * v.x + m.c1.z * v.y + m.c2.z * v.z + m.c3.z * v.w,
         m.c0.w * v.x + m.c1.w * v.y + m.c2.w * v.z + m.c3.w * v.w)
  }

  /** Matrix product `a * b`: column k of the product is `a` applied to column k of `b`. */
  function Mul(a: Mat4, b: Mat4): Mat4
  {
    Mat4(MulVec(a, b.c0), MulVec(a, b.c1), MulVec(a, b.c2), MulVec(a, b.c3))
  }

  /** The first three components of a 4-vector. */
  function Xyz(v: Vec4): Vec3
  {
    Vec3(v.x, v.y, v.z)
  }

  /** `matrix * point`: the point is extended with w = 1. */
  function ApplyPoint(m: Mat4, p: Vec3): Vec3
  {
    Xyz(MulVec(m, Vec4(p.x, p.y, p.z, 1.0)))
  }

  /** `matrix.to_3x3() * direction`: the translation column has no effect. */
  function ApplyDirection(m: Mat4, d: Vec3): Vec3
  {
    Xyz(MulVec(m, Vec4(d.x, d.y, d.z, 0.0)))
  }

  /**
   * What a bone transform does: how it moves a point (`matrix * point`) and how it turns a
   * direction (`matrix.to_3x3() * direction`).
   */
  datatype Transform = Transform(point: Vec3 -> Vec3, direction: Vec3 -> Vec3)

  /** The transform given by a matrix. */
  function MatrixTransform(m: Mat4): (r: Transform)
    ensures forall p :: r.point(p) == ApplyPoint(m, p)
    ensures forall d :: r.direction(d) == ApplyDirection(m, d)
  {
    Transform(p => ApplyPoint(m, p), d => ApplyDirection(m, d))
  }

  /** Moving along the local Y axis by `length` moves the origin column by `length` times the Y column. */
  lemma TranslateAlongY(t: Mat4, length: real)
    ensures Xyz(Mul(t, Translation(Vec3(0.0, length, 0.0))).c3) == Add(Xyz(t.c3), Scale(Xyz(t.c1), length))
  {
  }

  /** Multiplying by a matrix that does not translate leaves the origin column where it was. */
  lemma MulKeepsOrigin(a: Mat4, b: Mat4)
    requires b.c3 == Vec4(0.0, 0.0, 0.0, 1.0)
    ensures Mul(a, b).c3 == a.c3
  {
  }
}
