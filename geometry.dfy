/** The real-valued algebra of lightballs.c: distance, findPlane, the
    floor plane, and shadowMatrix as OpenGL reads it. */
module Geometry {

  /** struct Vector3, and the GLfloat[3] vertices handed to findPlane. */
  datatype Vector3 = Vector3(x: real, y: real, z: real)

  /** A GLfloat[4]: a homogeneous point (X, Y, Z, W) or the coefficients
      (A, B, C, D) of the plane A·x + B·y + C·z + D = 0. */
  type Vec4 = s: seq<real> | |s| == 4 witness [0.0, 0.0, 0.0, 0.0]

  /** A GLfloat[4][4] indexed as the C code indexes it: m[j][i]. */
  type Mat4 = m: seq<Vec4> | |m| == 4
    witness var zero: Vec4 := [0.0, 0.0, 0.0, 0.0]; [zero, zero, zero, zero]

  function Dot4(a: Vec4, b: Vec4): real
  {
    a[0] * b[0] + a[1] * b[1] + a[2] * b[2] + a[3] * b[3]
  }

  /** x * x, never negative. */
  function Square(a: real): (s: real)
    ensures s >= 0.0
  {
    a * a
  }

  /** The square of distance(v1, v2): the source takes the square root of
      this sum; the root itself is not modelled. */
  function DistanceSq(v1: Vector3, v2: Vector3): (d: real)
    ensures d >= 0.0
    ensures v1 == v2 ==> d == 0.0
  {
    Square(v2.x - v1.x) + Square(v2.y - v1.y) + Square(v2.z - v1.z)
  }

  /** The distance does not depend on the order of its arguments. */
  lemma DistanceSymmetric(v1: Vector3, v2: Vector3)
    ensures DistanceSq(v1, v2) == DistanceSq(v2, v1)
  {
    assert Square(v2.x - v1.x) == Square(v1.x - v2.x);
    assert Square(v2.y - v1.y) == Square(v1.y - v2.y);
    assert Square(v2.z - v1.z) == Square(v1.z - v2.z);
  }

  function PlaneValue(plane: Vec4, v: Vector3): real
  {
    plane[0] * v.x + plane[1] * v.y + plane[2] * v.z + plane[3]
  }

  /** (A, B, C) of findPlane: the cross product of the edges v1 - v0 and
      v2 - v0, with B written as the negated minor, as the source does. */
  function PlaneNormal(v0: Vector3, v1: Vector3, v2: Vector3): Vector3
  {
    var e0 := Vector3(v1.x - v0.x, v1.y - v0.y, v1.z - v0.z);
    var e1 := Vector3(v2.x - v0.x, v2.y - v0.y, v2.z - v0.z);
    Vector3(e0.y * e1.z - e0.z * e1.y,
            -(e0.x * e1.z - e0.z * e1.x),
            e0.x * e1.y - e0.y * e1.x)
  }

  /** The normal is orthogonal to both edges of the triangle. */
  lemma NormalOrthogonal(v0: Vector3, v1: Vector3, v2: Vector3)
    ensures var n := PlaneNormal(v0, v1, v2);
            n.x * (v1.x - v0.x) + n.y * (v1.y - v0.y) + n.z * (v1.z - v0.z) == 0.0
            && n.x * (v2.x - v0.x) + n.y * (v2.y - v0.y) + n.z * (v2.z - v0.z) == 0.0
  {
    var a, b, c := v1.x - v0.x, v1.y - v0.y, v1.z - v0.z;
    var p, q, r := v2.x - v0.x, v2.y - v0.y, v2.z - v0.z;
    assert (b * r - c * q) * a + (-(a * r - c * p)) * b + (a * q - b * p) * c == 0.0;
    assert (b * r - c * q) * p + (-(a * r - c * p)) * q + (a * q - b * p) * r == 0.0;
  }

  /** PlaneValue is affine: its value at v is its value at v0 plus the
      normal applied to v - v0. */
  lemma PlaneValueShift(plane: Vec4, v0: Vector3, v: Vector3)
    ensures PlaneValue(plane, v) == PlaneValue(plane, v0)
      + (plane[0] * (v.x - v0.x) + plane[1] * (v.y - v0.y) + plane[2] * (v.z - v0.z))
  {
    assert plane[0] * v.x == plane[0] * v0.x + plane[0] * (v.x - v0.x);
    assert plane[1] * v.y == plane[1] * v0.y + plane[1] * (v.y - v0.y);
    assert plane[2] * v.z == plane[2] * v0.z + plane[2] * (v.z - v0.z);
  }

  /** findPlane: the plane (A, B, C, D) with normal PlaneNormal(v0, v1, v2)
      and D chosen so that v0 satisfies the equation. */
  function FindPlane(v0: Vector3, v1: Vector3, v2: Vector3): Vec4
  {
    var n := PlaneNormal(v0, v1, v2);
    [n.x, n.y, n.z, -(n.x * v0.x + n.y * v0.y + n.z * v0.z)]
  }

  /** The plane findPlane returns passes through all three given points. */
  lemma FindPlaneThroughPoints(v0: Vector3, v1: Vector3, v2: Vector3)
    ensures PlaneValue(FindPlane(v0, v1, v2), v0) == 0.0
    ensures PlaneValue(FindPlane(v0, v1, v2), v1) == 0.0
    ensures PlaneValue(FindPlane(v0, v1, v2), v2) == 0.0
  {
    var plane := FindPlane(v0, v1, v2);
    NormalOrthogonal(v0, v1, v2);
    PlaneValueShift(plane, v0, v1);
    PlaneValueShift(plane, v0, v2);
  }

  /** floorVertices: the four corners of the floor quad. */
  const FloorVertices: seq<Vector3> := [
    Vector3(-20.0, 0.0, 20.0),
    Vector3(20.0, 0.0, 20.0),
    Vector3(20.0, 0.0, -20.0),
    Vector3(-20.0, 0.0, -20.0)
  ]

  /** floorPlane as init computes it from floorVertices[1], [2] and [3]. */
  function FloorPlane(): Vec4
  {
    FindPlane(FloorVertices[1], FloorVertices[2], FloorVertices[3])
  }

  /** The floor plane is exactly 1600·y = 0, and all four corners (also the
      one findPlane was not given) lie on it. */
  lemma FloorPlaneIsGround()
    ensures FloorPlane() == [0.0, 1600.0, 0.0, 0.0]
    ensures forall k :: 0 <= k < 4 ==> PlaneValue(FloorPlane(), FloorVertices[k]) == 0.0
  {
    var v1, v2, v3 := Vector3(20.0, 0.0, 20.0), Vector3(20.0, 0.0, -20.0), Vector3(-20.0, 0.0, -20.0);
    assert FloorVertices[1] == v1 && FloorVertices[2] == v2 && FloorVertices[3] == v3;
    assert PlaneNormal(v1, v2, v3) == Vector3(0.0, 1600.0, 0.0);
    var plane := FindPlane(v1, v2, v3);
    assert plane[3] == -(0.0 * 20.0 + 1600.0 * 0.0 + 0.0 * 20.0);
    assert plane == [0.0, 1600.0, 0.0, 0.0];
    forall k | 0 <= k < 4
      ensures PlaneValue(plane, FloorVertices[k]) == 0.0
    {
      var v := FloorVertices[k];
      assert v.y == 0.0;
      assert PlaneValue(plane, v) == 0.0 * v.x + 1600.0 * 0.0 + 0.0 * v.z + 0.0;
    }
  }

  /** shadowMatrix: entry [j][i] is (dot if i == j, else 0) minus
      lightpos[i]·groundplane[j], where dot = groundplane · lightpos. */
  function ShadowMatrix(groundplane: Vec4, lightpos: Vec4): Mat4
  {
    var g, l := groundplane, lightpos;
    var dot := Dot4(g, l);
    var m: Mat4 :=
      [[dot - l[0] * g[0], 0.0 - l[1] * g[0], 0.0 - l[2] * g[0], 0.0 - l[3] * g[0]],
       [0.0 - l[0] * g[1], dot - l[1] * g[1], 0.0 - l[2] * g[1], 0.0 - l[3] * g[1]],
       [0.0 - l[0] * g[2], 0.0 - l[1] * g[2], dot - l[2] * g[2], 0.0 - l[3] * g[2]],
       [0.0 - l[0] * g[3], 0.0 - l[1] * g[3], 0.0 - l[2] * g[3], dot - l[3] * g[3]]];
    m
  }

  /** The sixteen assignments of shadowMatrix fill in dot·I − l·gᵀ, indexed
      [j][i] as the C array is: entry [j][i] is (dot if i == j, else 0)
      minus lightpos[i]·groundplane[j]. */
  lemma ShadowMatrixEntries(g: Vec4, l: Vec4)
    ensures forall i :: 0 <= i < 4 ==> ShadowMatrix(g, l)[0][i] == ShadowEntry(g, l, 0, i)
    ensures forall i :: 0 <= i < 4 ==> ShadowMatrix(g, l)[1][i] == ShadowEntry(g, l, 1, i)
    ensures forall i :: 0 <= i < 4 ==> ShadowMatrix(g, l)[2][i] == ShadowEntry(g, l, 2, i)
    ensures forall i :: 0 <= i < 4 ==> ShadowMatrix(g, l)[3][i] == ShadowEntry(g, l, 3, i)
  {
    var dot := Dot4(g, l);
    var m := ShadowMatrix(g, l);
    var r0: Vec4 := [dot - l[0] * g[0], 0.0 - l[1] * g[0], 0.0 - l[2] * g[0], 0.0 - l[3] * g[0]];
    var r1: Vec4 := [0.0 - l[0] * g[1], dot - l[1] * g[1], 0.0 - l[2] * g[1], 0.0 - l[3] * g[1]];
    var r2: Vec4 := [0.0 - l[0] * g[2], 0.0 - l[1] * g[2], dot - l[2] * g[2], 0.0 - l[3] * g[2]];
    var r3: Vec4 := [0.0 - l[0] * g[3], 0.0 - l[1] * g[3], 0.0 - l[2] * g[3], dot - l[3] * g[3]];
    assert m == [r0, r1, r2, r3];
    ShadowRowEntries(g, l, dot, r0, 0);
    ShadowRowEntries(g, l, dot, r1, 1);
    ShadowRowEntries(g, l, dot, r2, 2);
    ShadowRowEntries(g, l, dot, r3, 3);
  }

  lemma ShadowRowEntries(g: Vec4, l: Vec4, dot: real, r: Vec4, j: nat)
    requires j < 4 && dot == Dot4(g, l)
    requires r[0] == (if j == 0 then dot else 0.0) - l[0] * g[j]
    requires r[1] == (if j == 1 then dot else 0.0) - l[1] * g[j]
    requires r[2] == (if j == 2 then dot else 0.0) - l[2] * g[j]
    requires r[3] == (if j == 3 then dot else 0.0) - l[3] * g[j]
    ensures forall i :: 0 <= i < 4 ==> r[i] == ShadowEntry(g, l, j, i)
  {
  }

  /** The closed form of one shadow-matrix entry. */
  function ShadowEntry(g: Vec4, l: Vec4, j: nat, i: nat): real
    requires j < 4 && i < 4
  {
    (if i == j then Dot4(g, l) else 0.0) - l[i] * g[j]
  }

  /** The 16 floats glMultMatrixf reads through `(GLfloat *) floorShadow`:
      the rows of the C array one after another. */
  function Flatten(m: Mat4): (flat: seq<real>)
    ensures |flat| == 16
    ensures forall j, i :: 0 <= j < 4 && 0 <= i < 4 ==> flat[4 * j + i] == m[j][i]
  {
    var first: seq<real> := m[0];
    first + m[1] + m[2] + m[3]
  }

  /** Entry (row, col) of a matrix that OpenGL reads from 16 floats in
      column-major order. */
  function ColumnMajor(flat: seq<real>, row: nat, col: nat): real
    requires |flat| == 16 && row < 4 && col < 4
  {
    flat[4 * col + row]
  }

  /** Reading the flattened C array column-major transposes it. */
  lemma ColumnMajorOfFlatten(m: Mat4, row: nat, col: nat)
    requires row < 4 && col < 4
    ensures ColumnMajor(Flatten(m), row, col) == m[col][row]
  {
  }

  /** Row `row` of the matrix that glMultMatrixf(flat) multiplies onto the
      current transformation. */
  function RowOf(flat: seq<real>, row: nat): Vec4
    requires |flat| == 16 && row < 4
  {
    [ColumnMajor(flat, row, 0), ColumnMajor(flat, row, 1), ColumnMajor(flat, row, 2), ColumnMajor(flat, row, 3)]
  }

  /** The point M·p for that matrix M. */
  function Transform(flat: seq<real>, p: Vec4): Vec4
    requires |flat| == 16
  {
    [Dot4(RowOf(flat, 0), p), Dot4(RowOf(flat, 1), p), Dot4(RowOf(flat, 2), p), Dot4(RowOf(flat, 3), p)]
  }

  /** Distributing one row of (dot·I − l·gᵀ) over p, on plain reals. */
  lemma RowDistributes(c0: real, c1: real, c2: real, c3: real, d0: real, d1: real, d2: real, d3: real,
                       lr: real, g0: real, g1: real, g2: real, g3: real, p0: real, p1: real, p2: real, p3: real,
                       gp: real)
    requires c0 == d0 - lr * g0 && c1 == d1 - lr * g1 && c2 == d2 - lr * g2 && c3 == d3 - lr * g3
    requires gp == g0 * p0 + g1 * p1 + g2 * p2 + g3 * p3
    ensures c0 * p0 + c1 * p1 + c2 * p2 + c3 * p3 == (d0 * p0 + d1 * p1 + d2 * p2 + d3 * p3) - lr * gp
  {
  }

  /** Row `row` of the column-major reading of the shadow matrix is column
      `row` of the C array. */
  lemma ColumnOfShadow(g: Vec4, l: Vec4, row: nat)
    requires row < 4
    ensures forall col :: 0 <= col < 4 ==>
      RowOf(Flatten(ShadowMatrix(g, l)), row)[col] == ShadowEntry(g, l, col, row)
  {
    var m := ShadowMatrix(g, l);
    ShadowMatrixEntries(g, l);
    ColumnMajorOfFlatten(m, row, 0);
    ColumnMajorOfFlatten(m, row, 1);
    ColumnMajorOfFlatten(m, row, 2);
    ColumnMajorOfFlatten(m, row, 3);
  }

  /** The dot product of such a row with p. */
  lemma ShadowRowDot(g: Vec4, l: Vec4, p: Vec4, row: nat, c: Vec4)
    requires row < 4
    requires forall col :: 0 <= col < 4 ==> c[col] == ShadowEntry(g, l, col, row)
    ensures Dot4(c, p) == Dot4(g, l) * p[row] - l[row] * Dot4(g, p)
  {
    var dot := Dot4(g, l);
    var d: Vec4 := [if row == 0 then dot else 0.0, if row == 1 then dot else 0.0,
                    if row == 2 then dot else 0.0, if row == 3 then dot else 0.0];
    RowDistributes(c[0], c[1], c[2], c[3], d[0], d[1], d[2], d[3],
                   l[row], g[0], g[1], g[2], g[3], p[0], p[1], p[2], p[3], Dot4(g, p));
    DiagonalDot(d, p, row, dot);
  }

  /** Row `row` of the product of the shadow matrix with p. */
  lemma ShadowRow(g: Vec4, l: Vec4, p: Vec4, row: nat)
    requires row < 4
    ensures Transform(Flatten(ShadowMatrix(g, l)), p)[row] == Dot4(g, l) * p[row] - l[row] * Dot4(g, p)
  {
    var c := RowOf(Flatten(ShadowMatrix(g, l)), row);
    ColumnOfShadow(g, l, row);
    ShadowRowDot(g, l, p, row, c);
  }

  lemma DiagonalDot(d: Vec4, p: Vec4, row: nat, dot: real)
    requires row < 4
    requires forall col :: 0 <= col < 4 ==> d[col] == if col == row then dot else 0.0
    ensures Dot4(d, p) == dot * p[row]
  {
    if row == 0 {
      assert Dot4(d, p) == dot * p[0] + 0.0 * p[1] + 0.0 * p[2] + 0.0 * p[3];
    } else if row == 1 {
      assert Dot4(d, p) == 0.0 * p[0] + dot * p[1] + 0.0 * p[2] + 0.0 * p[3];
    } else if row == 2 {
      assert Dot4(d, p) == 0.0 * p[0] + 0.0 * p[1] + dot * p[2] + 0.0 * p[3];
    } else {
      assert Dot4(d, p) == 0.0 * p[0] + 0.0 * p[1] + 0.0 * p[2] + dot * p[3];
    }
  }

  /** Read column-major, the shadow matrix maps p to dot·p − lightpos·(g·p). */
  lemma ShadowTransform(g: Vec4, l: Vec4, p: Vec4)
    ensures forall row :: 0 <= row < 4 ==>
      Transform(Flatten(ShadowMatrix(g, l)), p)[row] == Dot4(g, l) * p[row] - l[row] * Dot4(g, p)
  {
    forall row | 0 <= row < 4
      ensures Transform(Flatten(ShadowMatrix(g, l)), p)[row] == Dot4(g, l) * p[row] - l[row] * Dot4(g, p)
    {
      ShadowRow(g, l, p, row);
    }
  }

  /** g · (dot·p − l·(g·p)) == dot·(g·p) − (g·p)·(g·l) == 0, on plain reals. */
  lemma Cancellation(g0: real, g1: real, g2: real, g3: real, q0: real, q1: real, q2: real, q3: real,
                     p0: real, p1: real, p2: real, p3: real, l0: real, l1: real, l2: real, l3: real,
                     dot: real, gp: real)
    requires dot == g0 * l0 + g1 * l1 + g2 * l2 + g3 * l3
    requires gp == g0 * p0 + g1 * p1 + g2 * p2 + g3 * p3
    requires q0 == dot * p0 - l0 * gp && q1 == dot * p1 - l1 * gp
    requires q2 == dot * p2 - l2 * gp && q3 == dot * p3 - l3 * gp
    ensures g0 * q0 + g1 * q1 + g2 * q2 + g3 * q3 == 0.0
  {
  }

  /** g · (dot·p − l·(g·p)) == 0 for the vector q of that shape. */
  lemma PlaneOfCombination(g: Vec4, l: Vec4, p: Vec4, q: Vec4)
    requires forall row :: 0 <= row < 4 ==> q[row] == Dot4(g, l) * p[row] - l[row] * Dot4(g, p)
    ensures Dot4(g, q) == 0.0
  {
    Cancellation(g[0], g[1], g[2], g[3], q[0], q[1], q[2], q[3], p[0], p[1], p[2], p[3],
                 l[0], l[1], l[2], l[3], Dot4(g, l), Dot4(g, p));
  }

  /** Every image point of the shadow matrix lies on the ground plane. */
  lemma ShadowLiesOnPlane(g: Vec4, l: Vec4, p: Vec4)
    ensures Dot4(g, Transform(Flatten(ShadowMatrix(g, l)), p)) == 0.0
  {
    ShadowTransform(g, l, p);
    PlaneOfCombination(g, l, p, Transform(Flatten(ShadowMatrix(g, l)), p));
  }

  /** A point already on the ground plane is only scaled by dot, that is,
      it is the same homogeneous point. */
  lemma ShadowFixesPlanePoints(g: Vec4, l: Vec4, p: Vec4)
    requires Dot4(g, p) == 0.0
    ensures forall row :: 0 <= row < 4 ==>
      Transform(Flatten(ShadowMatrix(g, l)), p)[row] == Dot4(g, l) * p[row]
  {
    ShadowTransform(g, l, p);
  }

  /** A homogeneous point on the plane 1600·y = 0 has y == 0. */
  lemma FloorDotZero(g: Vec4, q: Vec4)
    requires g == [0.0, 1600.0, 0.0, 0.0]
    requires Dot4(g, q) == 0.0
    ensures q[1] == 0.0
  {
  }

  /** Against the plane 1600·y = 0 a vector counts 1600 times its y. */
  lemma FloorDot(g: Vec4, q: Vec4)
    requires g == [0.0, 1600.0, 0.0, 0.0]
    ensures Dot4(g, q) == 1600.0 * q[1]
  {
  }

  /** The same for the floor plane of init. */
  lemma FloorPlaneDot(q: Vec4)
    ensures Dot4(FloorPlane(), q) == 1600.0 * q[1]
  {
    FloorPlaneIsGround();
    FloorDot(FloorPlane(), q);
  }

  /** Against the floor plane of init, every shadow point has height 0,
      wherever the light is. */
  lemma FloorShadowFlattens(l: Vec4, p: Vec4)
    ensures Transform(Flatten(ShadowMatrix(FloorPlane(), l)), p)[1] == 0.0
  {
    var g := FloorPlane();
    FloorPlaneIsGround();
    var q := Transform(Flatten(ShadowMatrix(g, l)), p);
    ShadowLiesOnPlane(g, l, p);
    FloorDotZero(g, q);
  }
}
