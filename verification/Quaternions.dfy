/** Vectors, quaternions and rotation matrices over the real numbers. */
module Quaternions {
  datatype Vector = Vector(x: real, y: real, z: real)

  datatype Quaternion = Quaternion(w: real, x: real, y: real, z: real)

  // Row by row.
  datatype Matrix = Matrix(m00: real, m01: real, m02: real,
                           m10: real, m11: real, m12: real,
                           m20: real, m21: real, m22: real)

  function Apply(m: Matrix, v: Vector): Vector {
    Vector(m.m00 * v.x + m.m01 * v.y + m.m02 * v.z,
           m.m10 * v.x + m.m11 * v.y + m.m12 * v.z,
           m.m20 * v.x + m.m21 * v.y + m.m22 * v.z)
  }

  function Difference(a: Vector, b: Vector): Vector {
    Vector(a.x - b.x, a.y - b.y, a.z - b.z)
  }

  // From a forward-left-up to a forward-right-down vector.
  function FluToFrd(v: Vector): Vector {
    Vector(v.x, -v.y, -v.z)
  }

  function SquaredNorm(q: Quaternion): real {
    q.w * q.w + q.x * q.x + q.y * q.y + q.z * q.z
  }

  function Scale(t: real, q: Quaternion): Quaternion {
    Quaternion(t * q.w, t * q.x, t * q.y, t * q.z)
  }

  function Conjugate(q: Quaternion): Quaternion {
    Quaternion(q.w, -q.x, -q.y, -q.z)
  }

  // A product under a name, so that a proof can keep it whole.
  function Times(a: real, b: real): real {
    a * b
  }

  /** The Hamilton product. */
  function Product(p: Quaternion, q: Quaternion): Quaternion {
    Quaternion(p.w * q.w - p.x * q.x - p.y * q.y - p.z * q.z,
               p.w * q.x + p.x * q.w + p.y * q.z - p.z * q.y,
               p.w * q.y - p.x * q.z + p.y * q.w + p.z * q.x,
               p.w * q.z + p.x * q.y - p.y * q.x + p.z * q.w)
  }

  function Pure(v: Vector): Quaternion {
    Quaternion(0.0, v.x, v.y, v.z)
  }

  function VectorPart(q: Quaternion): Vector {
    Vector(q.x, q.y, q.z)
  }

  /** A vector turned by a quaternion: q v q*. */
  function Rotate(q: Quaternion, v: Vector): Vector {
    VectorPart(Product(Product(q, Pure(v)), Conjugate(q)))
  }

  /** The matrix of the rotation a unit quaternion stands for. */
  function RotationMatrix(q: Quaternion): Matrix {
    Matrix(1.0 - 2.0 * (q.y * q.y + q.z * q.z), 2.0 * (q.x * q.y - q.z * q.w), 2.0 * (q.x * q.z + q.y * q.w),
           2.0 * (q.x * q.y + q.z * q.w), 1.0 - 2.0 * (q.x * q.x + q.z * q.z), 2.0 * (q.y * q.z - q.x * q.w),
           2.0 * (q.x * q.z - q.y * q.w), 2.0 * (q.y * q.z + q.x * q.w), 1.0 - 2.0 * (q.x * q.x + q.y * q.y))
  }

  // A square root, as the runtime library promises it: exact on the non-negative reals here.
  ghost predicate SquareRoot(root: real -> real) {
    forall a: real :: a >= 0.0 ==> root(a) >= 0.0 && root(a) * root(a) == a
  }

  // The matrix of v -> q v q* for any quaternion, unit or not.
  function ConjugationMatrix(q: Quaternion): Matrix {
    Matrix(q.w * q.w + q.x * q.x - q.y * q.y - q.z * q.z,
           2.0 * (q.x * q.y - q.z * q.w), 2.0 * (q.x * q.z + q.y * q.w),
           2.0 * (q.x * q.y + q.z * q.w),
           q.w * q.w - q.x * q.x + q.y * q.y - q.z * q.z, 2.0 * (q.y * q.z - q.x * q.w),
           2.0 * (q.x * q.z - q.y * q.w), 2.0 * (q.y * q.z + q.x * q.w),
           q.w * q.w - q.x * q.x - q.y * q.y + q.z * q.z)
  }

  lemma RotateCoordinates(q: Quaternion, v: Vector)
    ensures var r := Rotate(q, v);
            && r.x == (q.w * q.w + q.x * q.x - q.y * q.y - q.z * q.z) * v.x
                      + 2.0 * (q.x * q.y - q.z * q.w) * v.y + 2.0 * (q.x * q.z + q.y * q.w) * v.z
            && r.y == 2.0 * (q.x * q.y + q.z * q.w) * v.x
                      + (q.w * q.w - q.x * q.x + q.y * q.y - q.z * q.z) * v.y + 2.0 * (q.y * q.z - q.x * q.w) * v.z
            && r.z == 2.0 * (q.x * q.z - q.y * q.w) * v.x + 2.0 * (q.y * q.z + q.x * q.w) * v.y
                      + (q.w * q.w - q.x * q.x - q.y * q.y + q.z * q.z) * v.z
  {
  }

  lemma ConjugationCoordinates(q: Quaternion, v: Vector)
    ensures var r := Apply(ConjugationMatrix(q), v);
            && r.x == (q.w * q.w + q.x * q.x - q.y * q.y - q.z * q.z) * v.x
                      + 2.0 * (q.x * q.y - q.z * q.w) * v.y + 2.0 * (q.x * q.z + q.y * q.w) * v.z
            && r.y == 2.0 * (q.x * q.y + q.z * q.w) * v.x
                      + (q.w * q.w - q.x * q.x + q.y * q.y - q.z * q.z) * v.y + 2.0 * (q.y * q.z - q.x * q.w) * v.z
            && r.z == 2.0 * (q.x * q.z - q.y * q.w) * v.x + 2.0 * (q.y * q.z + q.x * q.w) * v.y
                      + (q.w * q.w - q.x * q.x - q.y * q.y + q.z * q.z) * v.z
  {
  }

  lemma ConjugationIsLinear(q: Quaternion, v: Vector)
    ensures Rotate(q, v) == Apply(ConjugationMatrix(q), v)
  {
    hide *;
    RotateCoordinates(q, v);
    ConjugationCoordinates(q, v);
  }

  lemma UnitMatrices(q: Quaternion)
    requires SquaredNorm(q) == 1.0
    ensures ConjugationMatrix(q) == RotationMatrix(q)
  {
  }

  /** The matrix does what conjugating by the quaternion does. */
  lemma MatrixRotates(q: Quaternion, v: Vector)
    requires SquaredNorm(q) == 1.0
    ensures Apply(RotationMatrix(q), v) == Rotate(q, v)
  {
    hide *;
    ConjugationIsLinear(q, v);
    UnitMatrices(q);
  }
}
