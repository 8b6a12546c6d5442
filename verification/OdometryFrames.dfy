/** The attitude half of the odometry converter: from the pose of a forward-left-up body in an east-north-up
    world to that of a forward-right-down body in a north-east-down world. */
module OdometryFrames {
  import opened Quaternions

  const ZERO := Quaternion(0.0, 0.0, 0.0, 0.0)

  const ENU_TO_NED := Matrix(0.0, 1.0, 0.0, 1.0, 0.0, 0.0, 0.0, 0.0, -1.0)
  const FRD_TO_FLU := Matrix(1.0, 0.0, 0.0, 0.0, -1.0, 0.0, 0.0, 0.0, -1.0)

  // The entries of m, written out as the source writes them.
  function BasisChanged(r: Matrix): Matrix {
    Matrix(r.m10, -r.m11, -r.m12, r.m00, -r.m01, -r.m02, -r.m20, r.m21, r.m22)
  }

  // The component a branch of the extraction takes its square root for.
  datatype Branch = ByW | ByX | ByY | ByZ

  function Firing(m: Matrix): Branch {
    if m.m00 + m.m11 + m.m22 > 0.0 then ByW
    else if m.m00 > m.m11 && m.m00 > m.m22 then ByX
    else if m.m11 > m.m22 then ByY
    else ByZ
  }

  function Radicand(m: Matrix, branch: Branch): real {
    match branch
    case ByW => m.m00 + m.m11 + m.m22 + 1.0
    case ByX => 1.0 + m.m00 - m.m11 - m.m22
    case ByY => 1.0 + m.m11 - m.m00 - m.m22
    case ByZ => 1.0 + m.m22 - m.m00 - m.m11
  }

  /** Whatever the matrix, the branch that fires takes the square root of at least 1. */
  lemma FiringRadicand(m: Matrix)
    ensures Radicand(m, Firing(m)) >= 1.0
  {
    assert Radicand(m, ByW) + Radicand(m, ByX) + Radicand(m, ByY) + Radicand(m, ByZ) == 4.0;
  }

  // The divisor s of the branch that fires.
  function Divisor(root: real -> real, m: Matrix): (s: real)
    requires SquareRoot(root)
    ensures s >= 2.0
  {
    FiringRadicand(m);
    RootAtLeastOne(root, Radicand(m, Firing(m)));
    root(Radicand(m, Firing(m))) * 2.0
  }

  function FromMatrix(root: real -> real, m: Matrix): Quaternion
    requires SquareRoot(root)
  {
    var s := Divisor(root, m);
    match Firing(m)
    case ByW => Quaternion(0.25 * s, (m.m21 - m.m12) / s, (m.m02 - m.m20) / s, (m.m10 - m.m01) / s)
    case ByX => Quaternion((m.m21 - m.m12) / s, 0.25 * s, (m.m01 + m.m10) / s, (m.m02 + m.m20) / s)
    case ByY => Quaternion((m.m02 - m.m20) / s, (m.m01 + m.m10) / s, 0.25 * s, (m.m12 + m.m21) / s)
    case ByZ => Quaternion((m.m10 - m.m01) / s, (m.m02 + m.m20) / s, (m.m12 + m.m21) / s, 0.25 * s)
  }

  function Normalised(root: real -> real, q: Quaternion): Quaternion
    requires root(SquaredNorm(q)) != 0.0
  {
    var norm := root(SquaredNorm(q));
    Quaternion(q.w / norm, q.x / norm, q.y / norm, q.z / norm)
  }

  function EnuFluToNedFrdQuaternion(root: real -> real, q: Quaternion): Quaternion
    requires SquareRoot(root)
  {
    if root(SquaredNorm(q)) == 0.0 then ZERO
    else FromMatrix(root, BasisChanged(RotationMatrix(Normalised(root, q))))
  }

  // ---- Square roots and quotients ----

  lemma RootAtLeastOne(root: real -> real, a: real)
    requires SquareRoot(root) && a >= 1.0
    ensures root(a) >= 1.0
  {
    BelowOne(root(a));
    assert root(a) * root(a) == a;
  }

  lemma BelowOne(h: real)
    requires h >= 0.0
    ensures h < 1.0 ==> h * h < 1.0
  {
    if h < 1.0 {
      assert h * h <= h * 1.0;
    }
  }

  lemma ProductIsZero(a: real, b: real)
    requires a * b == 0.0
    ensures a == 0.0 || b == 0.0
  {
  }

  lemma SameRoot(a: real, b: real)
    requires a >= 0.0 && b >= 0.0 && a * a == b * b
    ensures a == b
  {
    ProductIsZero(a - b, a + b);
  }

  lemma Quotient(p: real, s: real, r: real)
    requires s != 0.0 && p == r * s
    ensures p / s == r
  {
  }

  lemma ScaleSquares(t: real, a: real, b: real)
    ensures (t * a) * (t * b) == (t * t) * (a * b)
  {
  }

  // ---- The closed form ----

  // The square root of one half, with a sign.
  function HalfRoot(root: real -> real, negative: bool): real {
    if negative then -root(0.5) else root(0.5)
  }

  function Sums(u: Quaternion): Quaternion {
    Quaternion(u.w + u.z, u.x + u.y, u.x - u.y, u.w - u.z)
  }

  // Every combination of entries the extraction reads is twice a product of two of four numbers.
  predicate Factored(m: Matrix, v: Quaternion) {
    && Radicand(m, ByW) == 2.0 * Times(v.w, v.w) && Radicand(m, ByX) == 2.0 * Times(v.x, v.x)
    && Radicand(m, ByY) == 2.0 * Times(v.y, v.y) && Radicand(m, ByZ) == 2.0 * Times(v.z, v.z)
    && m.m21 - m.m12 == 2.0 * Times(v.w, v.x) && m.m02 - m.m20 == 2.0 * Times(v.w, v.y)
    && m.m10 - m.m01 == 2.0 * Times(v.w, v.z) && m.m01 + m.m10 == 2.0 * Times(v.x, v.y)
    && m.m02 + m.m20 == 2.0 * Times(v.x, v.z) && m.m12 + m.m21 == 2.0 * Times(v.y, v.z)
  }

  // The ten products of components of a quaternion.
  datatype Products = Products(ww: real, xx: real, yy: real, zz: real,
                               wx: real, wy: real, wz: real, xy: real, xz: real, yz: real)

  function ProductsOf(q: Quaternion): Products {
    Products(Times(q.w, q.w), Times(q.x, q.x), Times(q.y, q.y), Times(q.z, q.z),
             Times(q.w, q.x), Times(q.w, q.y), Times(q.w, q.z), Times(q.x, q.y), Times(q.x, q.z), Times(q.y, q.z))
  }

  function Halved(p: Products): Products {
    Products(0.5 * p.ww, 0.5 * p.xx, 0.5 * p.yy, 0.5 * p.zz,
             0.5 * p.wx, 0.5 * p.wy, 0.5 * p.wz, 0.5 * p.xy, 0.5 * p.xz, 0.5 * p.yz)
  }

  function MatrixOf(p: Products): Matrix {
    Matrix(1.0 - 2.0 * (p.yy + p.zz), 2.0 * (p.xy - p.wz), 2.0 * (p.xz + p.wy),
           2.0 * (p.xy + p.wz), 1.0 - 2.0 * (p.xx + p.zz), 2.0 * (p.yz - p.wx),
           2.0 * (p.xz - p.wy), 2.0 * (p.yz + p.wx), 1.0 - 2.0 * (p.xx + p.yy))
  }

  lemma ByProducts(q: Quaternion)
    ensures RotationMatrix(q) == MatrixOf(ProductsOf(q))
    ensures SquaredNorm(q) == ProductsOf(q).ww + ProductsOf(q).xx + ProductsOf(q).yy + ProductsOf(q).zz
  {
  }

  lemma SquaresOfSums(a: real, b: real)
    ensures Times(a + b, a + b) == Times(a, a) + 2.0 * Times(a, b) + Times(b, b)
    ensures Times(a - b, a - b) == Times(a, a) - 2.0 * Times(a, b) + Times(b, b)
    ensures Times(a + b, a - b) == Times(a, a) - Times(b, b)
  {
  }

  lemma CrossProducts(w: real, z: real, x: real, y: real)
    ensures Times(w + z, x + y) == Times(w, x) + Times(w, y) + Times(x, z) + Times(y, z)
    ensures Times(w + z, x - y) == Times(w, x) - Times(w, y) + Times(x, z) - Times(y, z)
    ensures Times(x + y, w - z) == Times(w, x) + Times(w, y) - Times(x, z) - Times(y, z)
    ensures Times(x - y, w - z) == Times(w, x) - Times(w, y) - Times(x, z) + Times(y, z)
  {
  }

  lemma EntriesAreProducts(u: Quaternion)
    requires SquaredNorm(u) == 1.0
    ensures Factored(BasisChanged(RotationMatrix(u)), Sums(u))
  {
    hide Times, SquaredNorm, RotationMatrix;
    ByProducts(u);
    SquaresOfSums(u.w, u.z);
    SquaresOfSums(u.x, u.y);
    CrossProducts(u.w, u.z, u.x, u.y);
  }

  // With h the root of 2 a^2: a quarter of the divisor 2 h is t a, and 2 a b over the divisor is t b.
  lemma Extract(root: real -> real, a: real)
    requires SquareRoot(root) && a != 0.0
    ensures var s, t := root(2.0 * Times(a, a)) * 2.0, HalfRoot(root, a < 0.0);
            s == 4.0 * Times(t, a) && s != 0.0 && Times(t, t) == 0.5
  {
    var h, t := root(2.0 * (a * a)), HalfRoot(root, a < 0.0);
    assert h * h == 2.0 * (a * a) && t * t == 0.5;
    assert t * a >= 0.0;
    ScaleSquares(t, a, a);
    assert (2.0 * (t * a)) * (2.0 * (t * a)) == 4.0 * ((t * a) * (t * a));
    SameRoot(h, 2.0 * (t * a));
    assert a * a > 0.0;
  }

  lemma ExtractOther(t: real, a: real, b: real, s: real, p: real)
    requires Times(t, t) == 0.5 && s == 4.0 * Times(t, a) && s != 0.0 && (p == 2.0 * Times(a, b) || p == 2.0 * Times(b, a))
    ensures p / s == Times(t, b)
  {
    ScaleSquares(t, b, a);
    assert (t * b) * s == 4.0 * ((t * b) * (t * a));
    Quotient(p, s, t * b);
  }

  function Pick(v: Quaternion, branch: Branch): real {
    match branch case ByW => v.w case ByX => v.x case ByY => v.y case ByZ => v.z
  }

  lemma PivotNonzero(m: Matrix, v: Quaternion)
    requires Factored(m, v)
    ensures Pick(v, Firing(m)) != 0.0
    ensures Radicand(m, Firing(m)) == 2.0 * Times(Pick(v, Firing(m)), Pick(v, Firing(m)))
  {
    hide Radicand, Firing;
    FiringRadicand(m);
  }

  lemma ExtractByW(root: real -> real, m: Matrix, v: Quaternion)
    requires SquareRoot(root) && Factored(m, v) && Firing(m) == ByW && v.w != 0.0
    requires Radicand(m, ByW) == 2.0 * Times(v.w, v.w)
    ensures var t := HalfRoot(root, v.w < 0.0);
            FromMatrix(root, m) == Quaternion(Times(t, v.w), Times(t, v.x), Times(t, v.y), Times(t, v.z))
  {
    hide SquareRoot, HalfRoot, Firing, Radicand, Times;
    Extract(root, v.w);
    var t, s := HalfRoot(root, v.w < 0.0), Divisor(root, m);
    ExtractOther(t, v.w, v.x, s, m.m21 - m.m12);
    ExtractOther(t, v.w, v.y, s, m.m02 - m.m20);
    ExtractOther(t, v.w, v.z, s, m.m10 - m.m01);
  }

  lemma ExtractByX(root: real -> real, m: Matrix, v: Quaternion)
    requires SquareRoot(root) && Factored(m, v) && Firing(m) == ByX && v.x != 0.0
    requires Radicand(m, ByX) == 2.0 * Times(v.x, v.x)
    ensures var t := HalfRoot(root, v.x < 0.0);
            FromMatrix(root, m) == Quaternion(Times(t, v.w), Times(t, v.x), Times(t, v.y), Times(t, v.z))
  {
    hide SquareRoot, HalfRoot, Firing, Radicand, Times;
    Extract(root, v.x);
    var t, s := HalfRoot(root, v.x < 0.0), Divisor(root, m);
    ExtractOther(t, v.x, v.w, s, m.m21 - m.m12);
    ExtractOther(t, v.x, v.y, s, m.m01 + m.m10);
    ExtractOther(t, v.x, v.z, s, m.m02 + m.m20);
  }

  lemma ExtractByY(root: real -> real, m: Matrix, v: Quaternion)
    requires SquareRoot(root) && Factored(m, v) && Firing(m) == ByY && v.y != 0.0
    requires Radicand(m, ByY) == 2.0 * Times(v.y, v.y)
    ensures var t := HalfRoot(root, v.y < 0.0);
            FromMatrix(root, m) == Quaternion(Times(t, v.w), Times(t, v.x), Times(t, v.y), Times(t, v.z))
  {
    hide SquareRoot, HalfRoot, Firing, Radicand, Times;
    Extract(root, v.y);
    var t, s := HalfRoot(root, v.y < 0.0), Divisor(root, m);
    ExtractOther(t, v.y, v.w, s, m.m02 - m.m20);
    ExtractOther(t, v.y, v.x, s, m.m01 + m.m10);
    ExtractOther(t, v.y, v.z, s, m.m12 + m.m21);
  }

  lemma ExtractByZ(root: real -> real, m: Matrix, v: Quaternion)
    requires SquareRoot(root) && Factored(m, v) && Firing(m) == ByZ && v.z != 0.0
    requires Radicand(m, ByZ) == 2.0 * Times(v.z, v.z)
    ensures var t := HalfRoot(root, v.z < 0.0);
            FromMatrix(root, m) == Quaternion(Times(t, v.w), Times(t, v.x), Times(t, v.y), Times(t, v.z))
  {
    hide SquareRoot, HalfRoot, Firing, Radicand, Times;
    Extract(root, v.z);
    var t, s := HalfRoot(root, v.z < 0.0), Divisor(root, m);
    ExtractOther(t, v.z, v.w, s, m.m10 - m.m01);
    ExtractOther(t, v.z, v.x, s, m.m02 + m.m20);
    ExtractOther(t, v.z, v.y, s, m.m12 + m.m21);
  }

  lemma ScaleTimes(t: real, v: Quaternion)
    ensures Scale(t, v) == Quaternion(Times(t, v.w), Times(t, v.x), Times(t, v.y), Times(t, v.z))
  {
  }

  lemma FiringComponent(root: real -> real, m: Matrix)
    requires SquareRoot(root)
    ensures Pick(FromMatrix(root, m), Firing(m)) > 0.0
  {
    hide Radicand, SquareRoot, Firing;
  }

  lemma ExtractFactored(root: real -> real, m: Matrix, v: Quaternion)
    requires SquareRoot(root) && Factored(m, v)
    ensures var pivot := Pick(v, Firing(m));
            pivot != 0.0 && FromMatrix(root, m) == Scale(HalfRoot(root, pivot < 0.0), v)
  {
    hide SquareRoot, HalfRoot, Firing, Radicand, Times, Scale, Factored, FromMatrix;
    PivotNonzero(m, v);
    ScaleTimes(HalfRoot(root, Pick(v, Firing(m)) < 0.0), v);
    match Firing(m) {
      case ByW => ExtractByW(root, m, v);
      case ByX => ExtractByX(root, m, v);
      case ByY => ExtractByY(root, m, v);
      case ByZ => ExtractByZ(root, m, v);
    }
  }

  /** Whichever branch fires, the result is (w + z, x + y, x - y, w - z) over the square root of 2, with the
      sign that makes the firing branch's component positive. */
  lemma ClosedForm(root: real -> real, u: Quaternion)
    requires SquareRoot(root) && SquaredNorm(u) == 1.0
    ensures var m := BasisChanged(RotationMatrix(u));
            var pivot := Pick(Sums(u), Firing(m));
            && pivot != 0.0
            && FromMatrix(root, m) == Scale(HalfRoot(root, pivot < 0.0), Sums(u))
            && Pick(FromMatrix(root, m), Firing(m)) > 0.0
  {
    hide *;
    EntriesAreProducts(u);
    FiringComponent(root, BasisChanged(RotationMatrix(u)));
    ExtractFactored(root, BasisChanged(RotationMatrix(u)), Sums(u));
  }

  // ---- What the result stands for ----

  // Both signs of the root square to one half.
  lemma HalfRootSquares(root: real -> real, negative: bool)
    requires SquareRoot(root)
    ensures Times(HalfRoot(root, negative), HalfRoot(root, negative)) == 0.5
  {
    assert root(0.5) * root(0.5) == 0.5;
  }

  lemma ScaledProduct(t: real, a: real, b: real)
    requires Times(t, t) == 0.5
    ensures Times(Times(t, a), Times(t, b)) == 0.5 * Times(a, b)
  {
    ScaleSquares(t, a, b);
  }

  lemma ScaledProducts(t: real, v: Quaternion)
    requires Times(t, t) == 0.5
    ensures ProductsOf(Scale(t, v)) == Halved(ProductsOf(v))
  {
    hide Times, Scale;
    ScaleTimes(t, v);
    ScaledProduct(t, v.w, v.w);
    ScaledProduct(t, v.x, v.x);
    ScaledProduct(t, v.y, v.y);
    ScaledProduct(t, v.z, v.z);
    ScaledProduct(t, v.w, v.x);
    ScaledProduct(t, v.w, v.y);
    ScaledProduct(t, v.w, v.z);
    ScaledProduct(t, v.x, v.y);
    ScaledProduct(t, v.x, v.z);
    ScaledProduct(t, v.y, v.z);
  }

  lemma SumsProducts(u: Quaternion)
    requires SquaredNorm(u) == 1.0
    ensures var p := Halved(ProductsOf(Sums(u)));
            p.ww + p.xx + p.yy + p.zz == 1.0 && MatrixOf(p) == BasisChanged(RotationMatrix(u))
  {
    hide Times, SquaredNorm, RotationMatrix;
    ByProducts(u);
    SquaresOfSums(u.w, u.z);
    SquaresOfSums(u.x, u.y);
    CrossProducts(u.w, u.z, u.x, u.y);
  }

  /** Both signs of the closed form are unit quaternions whose rotation matrix is the basis-changed one. */
  lemma ClosedFormRotates(root: real -> real, negative: bool, u: Quaternion)
    requires SquareRoot(root) && SquaredNorm(u) == 1.0
    ensures var out := Scale(HalfRoot(root, negative), Sums(u));
            SquaredNorm(out) == 1.0 && RotationMatrix(out) == BasisChanged(RotationMatrix(u))
  {
    hide *;
    HalfRootSquares(root, negative);
    ScaledProducts(HalfRoot(root, negative), Sums(u));
    ByProducts(Scale(HalfRoot(root, negative), Sums(u)));
    SumsProducts(u);
  }

  lemma ApplyBasisChanged(r: Matrix, v: Vector)
    ensures Apply(BasisChanged(r), v) == Apply(ENU_TO_NED, Apply(r, Apply(FRD_TO_FLU, v)))
  {
  }

  lemma SquareIsZero(a: real)
    ensures Times(a, a) >= 0.0
    ensures Times(a, a) == 0.0 <==> a == 0.0
  {
    if Times(a, a) == 0.0 { ProductIsZero(a, a); }
  }

  lemma DividedSquare(a: real, n: real)
    requires n != 0.0
    ensures Times(n, n) != 0.0 && Times(a / n, a / n) == Times(a, a) / Times(n, n)
  {
    var r := a / n;
    assert r * n == a;
    SquareIsZero(n);
    assert Times(r, r) * Times(n, n) == (r * n) * (r * n);
    Quotient(Times(a, a), Times(n, n), Times(r, r));
  }

  lemma SumOver(a: real, b: real, c: real, d: real, n: real)
    requires a + b + c + d == n && n != 0.0
    ensures a / n + b / n + c / n + d / n == 1.0
  {
    assert (a + b + c + d) / n == 1.0;
  }

  lemma NormalisedIsUnit(root: real -> real, q: Quaternion)
    requires SquareRoot(root) && root(SquaredNorm(q)) != 0.0
    ensures SquaredNorm(Normalised(root, q)) == 1.0
  {
    hide SquaredNorm, Times;
    var norm := root(SquaredNorm(q));
    ByProducts(q);
    ByProducts(Normalised(root, q));
    NormSquared(root, q);
    DividedSquare(q.w, norm);
    DividedSquare(q.x, norm);
    DividedSquare(q.y, norm);
    DividedSquare(q.z, norm);
    SumOver(Times(q.w, q.w), Times(q.x, q.x), Times(q.y, q.y), Times(q.z, q.z), Times(norm, norm));
  }

  lemma NormSquared(root: real -> real, q: Quaternion)
    requires SquareRoot(root)
    ensures Times(root(SquaredNorm(q)), root(SquaredNorm(q))) == SquaredNorm(q) >= 0.0
  {
    var n := SquaredNorm(q);
    assert n >= 0.0 by {
      ByProducts(q);
      SquareIsZero(q.w);
      SquareIsZero(q.x);
      SquareIsZero(q.y);
      SquareIsZero(q.z);
    }
    assert root(n) * root(n) == n;
  }

  lemma NormIsZero(root: real -> real, q: Quaternion)
    requires SquareRoot(root)
    ensures root(SquaredNorm(q)) == 0.0 <==> q == ZERO
  {
    hide SquareRoot, SquaredNorm, Times;
    NormSquared(root, q);
    ByProducts(q);
    SquareIsZero(q.w);
    SquareIsZero(q.x);
    SquareIsZero(q.y);
    SquareIsZero(q.z);
    SquareIsZero(root(SquaredNorm(q)));
  }

  /** Every nonzero attitude comes out as the unit quaternion (w + z, x + y, x - y, w - z) / sqrt(2) of its
      normalised value, up to sign, whose rotation matrix is exactly the basis-changed one; zero comes out as
      zero. */
  lemma ConvertedAttitude(root: real -> real, q: Quaternion)
    requires SquareRoot(root)
    ensures var out := EnuFluToNedFrdQuaternion(root, q);
            && (q == ZERO <==> out == ZERO)
            && (q != ZERO ==>
                  && root(SquaredNorm(q)) != 0.0
                  && SquaredNorm(out) == 1.0
                  && var u := Normalised(root, q);
                  && (out == Scale(HalfRoot(root, false), Sums(u)) || out == Scale(HalfRoot(root, true), Sums(u)))
                  && RotationMatrix(out) == BasisChanged(RotationMatrix(u)))
  {
    NormIsZero(root, q);
    if q != ZERO {
      hide SquareRoot, RotationMatrix, BasisChanged, Sums, HalfRoot, Scale, FromMatrix, Normalised, Pick;
      var u := Normalised(root, q);
      NormalisedIsUnit(root, q);
      ClosedForm(root, u);
      ClosedFormRotates(root, false, u);
      ClosedFormRotates(root, true, u);
    }
  }

  /** Turning a body vector with the converted attitude, in north-east-down terms, is turning it with the
      attitude that came in, in east-north-up terms. */
  lemma ConvertedAttitudeCarriesVectors(root: real -> real, q: Quaternion, v: Vector)
    requires SquareRoot(root) && q != ZERO
    ensures root(SquaredNorm(q)) != 0.0
    ensures Rotate(EnuFluToNedFrdQuaternion(root, q), v)
         == Apply(ENU_TO_NED, Rotate(Normalised(root, q), Apply(FRD_TO_FLU, v)))
  {
    hide *;
    ConvertedAttitude(root, q);
    var u, out := Normalised(root, q), EnuFluToNedFrdQuaternion(root, q);
    NormalisedIsUnit(root, q);
    MatrixRotates(out, v);
    MatrixRotates(u, Apply(FRD_TO_FLU, v));
    ApplyBasisChanged(RotationMatrix(u), v);
  }
}
