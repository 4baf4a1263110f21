/**
 Vectors and small matrices over exact reals: the vec2, vec4, mat4 and mat24
 values the spline program multiplies, and the squared distance it uses for
 picking. A mat4 is stored by rows; a mat24 is stored by its four columns,
 each a 2D point, which is how the program builds a segment's geometry.
 */
module Geometry {

  datatype Vec2 = Vec2(x: real, y: real)

  datatype Vec4 = Vec4(x: real, y: real, z: real, w: real)

  /** A 4x4 matrix given by its rows. */
  datatype Mat4 = Mat4(r0: Vec4, r1: Vec4, r2: Vec4, r3: Vec4)

  /** A 2x4 matrix given by its columns. */
  datatype Mat24 = Mat24(c0: Vec2, c1: Vec2, c2: Vec2, c3: Vec2)

  function Add(a: Vec2, b: Vec2): Vec2 {
    Vec2(a.x + b.x, a.y + b.y)
  }

  function Scale(k: real, v: Vec2): Vec2 {
    Vec2(k * v.x, k * v.y)
  }

  function AddVec4(a: Vec4, b: Vec4): Vec4 {
    Vec4(a.x + b.x, a.y + b.y, a.z + b.z, a.w + b.w)
  }

  function Sum(v: Vec4): real {
    v.x + v.y + v.z + v.w
  }

  function Dot(a: Vec4, b: Vec4): real {
    a.x * b.x + a.y * b.y + a.z * b.z + a.w * b.w
  }

  function Transpose(m: Mat4): Mat4 {
    Mat4(Vec4(m.r0.x, m.r1.x, m.r2.x, m.r3.x),
         Vec4(m.r0.y, m.r1.y, m.r2.y, m.r3.y),
         Vec4(m.r0.z, m.r1.z, m.r2.z, m.r3.z),
         Vec4(m.r0.w, m.r1.w, m.r2.w, m.r3.w))
  }

  /** The matrix-vector product m * v. */
  function MulVec(m: Mat4, v: Vec4): Vec4 {
    Vec4(Dot(m.r0, v), Dot(m.r1, v), Dot(m.r2, v), Dot(m.r3, v))
  }

  /** The product g * v of a 2x4 matrix and a 4-vector: the columns of g
      weighted by the entries of v. */
  function Apply(g: Mat24, v: Vec4): Vec2 {
    Vec2(g.c0.x * v.x + g.c1.x * v.y + g.c2.x * v.z + g.c3.x * v.w,
         g.c0.y * v.x + g.c1.y * v.y + g.c2.y * v.z + g.c3.y * v.w)
  }

  /** The matrix product g * m: column j is g applied to column j of m. */
  function MulMat(g: Mat24, m: Mat4): Mat24 {
    var t := Transpose(m);
    Mat24(Apply(g, t.r0), Apply(g, t.r1), Apply(g, t.r2), Apply(g, t.r3))
  }

  /** The last column of m. */
  function LastColumn(m: Mat4): Vec4 {
    Transpose(m).r3
  }

  /** The vector of the four row sums of m. */
  function RowSums(m: Mat4): Vec4 {
    Vec4(Sum(m.r0), Sum(m.r1), Sum(m.r2), Sum(m.r3))
  }

  /** The vector of the four column sums of m. */
  function ColumnSums(m: Mat4): Vec4 {
    AddVec4(AddVec4(m.r0, m.r1), AddVec4(m.r2, m.r3))
  }

  /** Squared Euclidean distance: never negative, and zero from a point to itself. */
  function Dist2(a: Vec2, b: Vec2): (d: real)
    ensures d >= 0.0
    ensures a == b ==> d == 0.0
  {
    var dx := a.x - b.x;
    var dy := a.y - b.y;
    SquareNonNegative(dx);
    SquareNonNegative(dy);
    dx * dx + dy * dy
  }

  lemma SquareNonNegative(r: real)
    ensures r * r >= 0.0
  {
    if r < 0.0 {
      var p := -r;
      assert p * p > 0.0;
      assert r * r == p * p;
    }
  }

  /** Multiplying by a 2x4 matrix and then by a vector is the same as applying
      the 2x4 matrix to the matrix-vector product: (g m) v == g (m v). */
  lemma ApplyMulMat(g: Mat24, m: Mat4, v: Vec4)
    ensures Apply(MulMat(g, m), v) == Apply(g, MulVec(m, v))
  {
  }

  /** The entries of m v sum to the column sums of m dotted with v. */
  lemma SumMulVec(m: Mat4, v: Vec4)
    ensures Sum(MulVec(m, v)) == Dot(ColumnSums(m), v)
  {
  }

  /** Shifting every column of g by d shifts g v by (sum of v) d. */
  lemma ApplyShifted(g: Mat24, d: Vec2, v: Vec4)
    ensures Apply(Mat24(Add(g.c0, d), Add(g.c1, d), Add(g.c2, d), Add(g.c3, d)), v)
         == Add(Apply(g, v), Scale(Sum(v), d))
  {
  }

  /** Applying a 2x4 matrix to a unit vector picks out one column. */
  lemma ApplyUnit(g: Mat24)
    ensures Apply(g, Vec4(0.0, 1.0, 0.0, 0.0)) == g.c1
    ensures Apply(g, Vec4(0.0, 0.0, 1.0, 0.0)) == g.c2
  {
  }

  /** m (0, 0, 0, 1) is the last column of m, and m (1, 1, 1, 1) is the vector of
      its row sums. */
  lemma MulVecSpecial(m: Mat4)
    ensures MulVec(m, Vec4(0.0, 0.0, 0.0, 1.0)) == LastColumn(m)
    ensures MulVec(m, Vec4(1.0, 1.0, 1.0, 1.0)) == RowSums(m)
  {
  }
}
