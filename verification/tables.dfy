/**
  The fixed tables: the 24-vertex cube, the 4-vertex plane and the 8-corner cube
  wireframe. Coordinates are exact integers; the cube's are doubled (0.5 becomes 1) so that
  every corner is a vector of -1s and 1s.
 */
module Tables {
  import opened Meshes
  import opened EdgeKeys

  datatype Vec3 = Vec3(x: int, y: int, z: int)

  /** One coordinate of a difference of two points. */
  function Diff(p: int, q: int): int
  {
    p - q
  }

  function Sub(a: Vec3, b: Vec3): Vec3
  {
    Vec3(Diff(a.x, b.x), Diff(a.y, b.y), Diff(a.z, b.z))
  }

  /**
    The product `a * b`, with the multipliers that occur in the tables (-2 to 2) spelled out
    as sums, so that products of table coordinates stay within linear arithmetic.
   */
  function Mul(a: int, b: int): int
  {
    if b == 0 then 0
    else if b == 1 then a
    else if b == -1 then -a
    else if b == 2 then a + a
    else if b == -2 then -(a + a)
    else a * b
  }

  lemma MulIsProduct(a: int, b: int)
    ensures Mul(a, b) == a * b
  {
  }

  /** The 2x2 determinant `p q - r s`. */
  function Det2(p: int, q: int, r: int, s: int): int
  {
    Mul(p, q) - Mul(r, s)
  }

  function Cross(a: Vec3, b: Vec3): Vec3
  {
    Vec3(Det2(a.y, b.z, a.z, b.y), Det2(a.z, b.x, a.x, b.z), Det2(a.x, b.y, a.y, b.x))
  }

  function Dot(a: Vec3, b: Vec3): int
  {
    Mul(a.x, b.x) + Mul(a.y, b.y) + Mul(a.z, b.z)
  }

  /** A vertex of the table meshes without its texture coordinate. */
  datatype TableVertex = TableVertex(pos: Vec3, normal: Vec3)

  /**
    How the triangle (a, b, c) faces a's normal: (b - a) x (c - a) . normal, positive when
    the corners run counter-clockwise seen from the side the normal points to, negative
    when clockwise, and twice the triangle's area for a unit normal across the triangle.
   */
  function FacingOf(a: TableVertex, b: TableVertex, c: TableVertex): int
  {
    Dot(Cross(Sub(b.pos, a.pos), Sub(c.pos, a.pos)), a.normal)
  }

  /** How triangle `t` of `m` faces. */
  function Facing(m: Mesh<TableVertex>, t: nat): int
    requires 3 * t + 3 <= |m.indices| && IndicesBelow(m.indices, |m.vertices|)
  {
    var v := TriVertices(m, t);
    FacingOf(v[0], v[1], v[2])
  }

  /** Every triangle of `m` is front-facing: counter-clockwise around its normal. */
  ghost predicate FrontFacing(m: Mesh<TableVertex>)
    requires WellFormed(m)
  {
    forall t | 0 <= t < |m.indices| / 3 :: Facing(m, t) > 0
  }

  /** Swapping the two factors of each product negates a 2x2 determinant. */
  lemma Det2Antisymmetric(p: int, q: int, r: int, s: int)
    ensures Det2(s, r, q, p) == -Det2(p, q, r, s)
  {
    MulIsProduct(p, q); MulIsProduct(r, s);
    MulIsProduct(s, r); MulIsProduct(q, p);
  }

  /** The cross product is antisymmetric. */
  lemma CrossAntisymmetric(u: Vec3, v: Vec3)
    ensures Cross(v, u) == Vec3(-Cross(u, v).x, -Cross(u, v).y, -Cross(u, v).z)
  {
    Det2Antisymmetric(u.y, v.z, u.z, v.y);
    Det2Antisymmetric(u.z, v.x, u.x, v.z);
    Det2Antisymmetric(u.x, v.y, u.y, v.x);
  }

  /** The dot product is linear in its first argument. */
  lemma DotNegated(w: Vec3, n: Vec3)
    ensures Dot(Vec3(-w.x, -w.y, -w.z), n) == -Dot(w, n)
  {
    MulIsProduct(w.x, n.x); MulIsProduct(w.y, n.y); MulIsProduct(w.z, n.z);
    MulIsProduct(-w.x, n.x); MulIsProduct(-w.y, n.y); MulIsProduct(-w.z, n.z);
  }

  /** Drawing a triangle's last two corners the other way round turns it to face the other way. */
  lemma ReversedFacing(a: TableVertex, b: TableVertex, c: TableVertex)
    ensures FacingOf(a, c, b) == -FacingOf(a, b, c)
  {
    var u, v := Sub(b.pos, a.pos), Sub(c.pos, a.pos);
    CrossAntisymmetric(u, v);
    DotNegated(Cross(u, v), a.normal);
  }

  /** Triangle (i0, i1, i2) drawn as (i0, i2, i1). */
  function Flipped(tri: seq<nat>): seq<nat>
    requires |tri| == 3
  {
    [tri[0], tri[2], tri[1]]
  }

  /** Two meshes over the same vertices: a flipped triangle faces the other way. */
  lemma FlippedFacing(m: Mesh<TableVertex>, m': Mesh<TableVertex>, t: nat)
    requires 3 * t + 3 <= |m.indices| && IndicesBelow(m.indices, |m.vertices|)
    requires 3 * t + 3 <= |m'.indices| && IndicesBelow(m'.indices, |m'.vertices|)
    requires m'.vertices == m.vertices && Tri(m'.indices, t) == Flipped(Tri(m.indices, t))
    ensures Facing(m', t) == -Facing(m, t)
  {
    var v := TriVertices(m, t);
    assert TriVertices(m', t) == [v[0], v[2], v[1]] by {
      assert m'.indices[3 * t] == Tri(m'.indices, t)[0];
      assert m'.indices[3 * t + 1] == Tri(m'.indices, t)[1];
      assert m'.indices[3 * t + 2] == Tri(m'.indices, t)[2];
    }
    ReversedFacing(v[0], v[1], v[2]);
  }

  /** Two meshes over the same vertices: a triangle drawn the same way faces the same way. */
  lemma SameFacing(m: Mesh<TableVertex>, m': Mesh<TableVertex>, t: nat)
    requires 3 * t + 3 <= |m.indices| && IndicesBelow(m.indices, |m.vertices|)
    requires 3 * t + 3 <= |m'.indices| && IndicesBelow(m'.indices, |m'.vertices|)
    requires m'.vertices == m.vertices && Tri(m'.indices, t) == Tri(m.indices, t)
    ensures Facing(m', t) == Facing(m, t)
  {
    assert m'.indices[3 * t] == Tri(m'.indices, t)[0];
    assert m'.indices[3 * t + 1] == Tri(m'.indices, t)[1];
    assert m'.indices[3 * t + 2] == Tri(m'.indices, t)[2];
  }

  /**
    One triangle of a table, worked out: its corners `p0`, `p1`, `p2` with normal `n`, the
    edge vectors `e1` and `e2`, their cross product `c`, and the facing `f`.
   */
  lemma TableTriangle(m: Mesh<TableVertex>, t: nat, p0: Vec3, p1: Vec3, p2: Vec3, n: Vec3,
                      e1: Vec3, e2: Vec3, c: Vec3, f: int)
    requires 3 * t + 3 <= |m.indices| && IndicesBelow(m.indices, |m.vertices|)
    requires TriVertices(m, t) == [TableVertex(p0, n), TableVertex(p1, n), TableVertex(p2, n)]
    requires Sub(p1, p0) == e1 && Sub(p2, p0) == e2 && Cross(e1, e2) == c && Dot(c, n) == f
    ensures Facing(m, t) == f
  {
  }

  /** The cube's vertices, four per face, in the order +X, -X, +Y, -Y, +Z, -Z. */
  const CubeVertices: seq<TableVertex> :=
    [TableVertex(Vec3(1, -1, -1), Vec3(1, 0, 0)), TableVertex(Vec3(1, -1, 1), Vec3(1, 0, 0)),
     TableVertex(Vec3(1, 1, 1), Vec3(1, 0, 0)), TableVertex(Vec3(1, 1, -1), Vec3(1, 0, 0))] +
    [TableVertex(Vec3(-1, -1, 1), Vec3(-1, 0, 0)), TableVertex(Vec3(-1, -1, -1), Vec3(-1, 0, 0)),
     TableVertex(Vec3(-1, 1, -1), Vec3(-1, 0, 0)), TableVertex(Vec3(-1, 1, 1), Vec3(-1, 0, 0))] +
    [TableVertex(Vec3(-1, 1, -1), Vec3(0, 1, 0)), TableVertex(Vec3(1, 1, -1), Vec3(0, 1, 0)),
     TableVertex(Vec3(1, 1, 1), Vec3(0, 1, 0)), TableVertex(Vec3(-1, 1, 1), Vec3(0, 1, 0))] +
    [TableVertex(Vec3(-1, -1, 1), Vec3(0, -1, 0)), TableVertex(Vec3(1, -1, 1), Vec3(0, -1, 0)),
     TableVertex(Vec3(1, -1, -1), Vec3(0, -1, 0)), TableVertex(Vec3(-1, -1, -1), Vec3(0, -1, 0))] +
    [TableVertex(Vec3(-1, -1, 1), Vec3(0, 0, 1)), TableVertex(Vec3(1, -1, 1), Vec3(0, 0, 1)),
     TableVertex(Vec3(1, 1, 1), Vec3(0, 0, 1)), TableVertex(Vec3(-1, 1, 1), Vec3(0, 0, 1))] +
    [TableVertex(Vec3(1, -1, -1), Vec3(0, 0, -1)), TableVertex(Vec3(-1, -1, -1), Vec3(0, 0, -1)),
     TableVertex(Vec3(-1, 1, -1), Vec3(0, 0, -1)), TableVertex(Vec3(1, 1, -1), Vec3(0, 0, -1))]

  /** The two triangles (b, b + 1, b + 2) and (b, b + 2, b + 3) of the face whose vertices start at b. */
  function QuadAsWritten(b: nat): seq<nat>
  {
    [b, b + 1, b + 2, b, b + 2, b + 3]
  }

  /** The same quad with both triangles flipped: (b, b + 2, b + 1) and (b, b + 3, b + 2). */
  function QuadReversed(b: nat): seq<nat>
  {
    [b, b + 2, b + 1, b, b + 3, b + 2]
  }

  /** The three indices of triangle `t`, one by one. */
  lemma TriAt(I: seq<nat>, t: nat)
    requires 3 * t + 3 <= |I|
    ensures Tri(I, t) == [I[3 * t], I[3 * t + 1], I[3 * t + 2]]
  {
  }

  /** Where the index lists of two quads at the same place differ, both triangles are flipped. */
  lemma QuadsFlipped(I: seq<nat>, J: seq<nat>, k: nat, b: nat)
    requires 6 * k + 6 <= |I| && 6 * k + 6 <= |J|
    requires I[6 * k .. 6 * k + 6] == QuadAsWritten(b) && J[6 * k .. 6 * k + 6] == QuadReversed(b)
    ensures Tri(J, 2 * k) == Flipped(Tri(I, 2 * k)) && Tri(J, 2 * k + 1) == Flipped(Tri(I, 2 * k + 1))
  {
    var q, r := I[6 * k .. 6 * k + 6], J[6 * k .. 6 * k + 6];
    assert I[6 * k] == q[0] && I[6 * k + 1] == q[1] && I[6 * k + 2] == q[2];
    assert I[6 * k + 3] == q[3] && I[6 * k + 4] == q[4] && I[6 * k + 5] == q[5];
    assert J[6 * k] == r[0] && J[6 * k + 1] == r[1] && J[6 * k + 2] == r[2];
    assert J[6 * k + 3] == r[3] && J[6 * k + 4] == r[4] && J[6 * k + 5] == r[5];
    TriAt(I, 2 * k); TriAt(J, 2 * k); TriAt(I, 2 * k + 1); TriAt(J, 2 * k + 1);
  }

  /** Where two quads are written alike, their triangles are the same. */
  lemma QuadsAlike(I: seq<nat>, J: seq<nat>, k: nat)
    requires 6 * k + 6 <= |I| && 6 * k + 6 <= |J|
    requires I[6 * k .. 6 * k + 6] == J[6 * k .. 6 * k + 6]
    ensures Tri(J, 2 * k) == Tri(I, 2 * k) && Tri(J, 2 * k + 1) == Tri(I, 2 * k + 1)
  {
    var q := I[6 * k .. 6 * k + 6];
    assert I[6 * k] == q[0] == J[6 * k] && I[6 * k + 1] == q[1] == J[6 * k + 1];
    assert I[6 * k + 2] == q[2] == J[6 * k + 2] && I[6 * k + 3] == q[3] == J[6 * k + 3];
    assert I[6 * k + 4] == q[4] == J[6 * k + 4] && I[6 * k + 5] == q[5] == J[6 * k + 5];
    TriAt(I, 2 * k); TriAt(J, 2 * k); TriAt(I, 2 * k + 1); TriAt(J, 2 * k + 1);
  }

  /** The cube's index table as written: every face split the same way. */
  const CubeIndices: seq<nat> :=
    QuadAsWritten(0) + QuadAsWritten(4) + QuadAsWritten(8) + QuadAsWritten(12) + QuadAsWritten(16) + QuadAsWritten(20)

  /** The index table with the four side faces (±X, ±Y) reversed so that they match the ±Z faces. */
  const CorrectedCubeIndices: seq<nat> :=
    QuadReversed(0) + QuadReversed(4) + QuadReversed(8) + QuadReversed(12) + QuadAsWritten(16) + QuadAsWritten(20)

  /** `get_cube_primitive` as written: 24 vertices, 12 triangles. */
  function CubePrimitive(): (m: Mesh<TableVertex>)
    ensures WellFormed(m) && |m.vertices| == 24 && |m.indices| == 36
  {
    Mesh(CubeVertices, CubeIndices)
  }

  /** The cube with the side faces' winding corrected; the vertex table is unchanged. */
  function CorrectedCubePrimitive(): (m: Mesh<TableVertex>)
    ensures WellFormed(m) && |m.vertices| == 24 && |m.indices| == 36
    ensures m.vertices == CubePrimitive().vertices
  {
    Mesh(CubeVertices, CorrectedCubeIndices)
  }

  /** The +X face: (0, 0, 2) x (0, 2, 2) = (0, 2, 2) x (0, 2, 0) = (-4, 0, 0), against the normal (1, 0, 0). */
  lemma CubePlusX()
    ensures Facing(CubePrimitive(), 0) == -4
    ensures Facing(CubePrimitive(), 1) == -4
  {
    var m := CubePrimitive();
    TableTriangle(m, 0, Vec3(1, -1, -1), Vec3(1, -1, 1), Vec3(1, 1, 1), Vec3(1, 0, 0),
                  Vec3(0, 0, 2), Vec3(0, 2, 2), Vec3(-4, 0, 0), -4);
    TableTriangle(m, 1, Vec3(1, -1, -1), Vec3(1, 1, 1), Vec3(1, 1, -1), Vec3(1, 0, 0),
                  Vec3(0, 2, 2), Vec3(0, 2, 0), Vec3(-4, 0, 0), -4);
  }

  /** The -X face: both cross products are (4, 0, 0), against the normal (-1, 0, 0). */
  lemma CubeMinusX()
    ensures Facing(CubePrimitive(), 2) == -4
    ensures Facing(CubePrimitive(), 3) == -4
  {
    var m := CubePrimitive();
    TableTriangle(m, 2, Vec3(-1, -1, 1), Vec3(-1, -1, -1), Vec3(-1, 1, -1), Vec3(-1, 0, 0),
                  Vec3(0, 0, -2), Vec3(0, 2, -2), Vec3(4, 0, 0), -4);
    TableTriangle(m, 3, Vec3(-1, -1, 1), Vec3(-1, 1, -1), Vec3(-1, 1, 1), Vec3(-1, 0, 0),
                  Vec3(0, 2, -2), Vec3(0, 2, 0), Vec3(4, 0, 0), -4);
  }

  /** The +Y face: both cross products are (0, -4, 0), against the normal (0, 1, 0). */
  lemma CubePlusY()
    ensures Facing(CubePrimitive(), 4) == -4
    ensures Facing(CubePrimitive(), 5) == -4
  {
    var m := CubePrimitive();
    TableTriangle(m, 4, Vec3(-1, 1, -1), Vec3(1, 1, -1), Vec3(1, 1, 1), Vec3(0, 1, 0),
                  Vec3(2, 0, 0), Vec3(2, 0, 2), Vec3(0, -4, 0), -4);
    TableTriangle(m, 5, Vec3(-1, 1, -1), Vec3(1, 1, 1), Vec3(-1, 1, 1), Vec3(0, 1, 0),
                  Vec3(2, 0, 2), Vec3(0, 0, 2), Vec3(0, -4, 0), -4);
  }

  /** The -Y face: both cross products are (0, 4, 0), against the normal (0, -1, 0). */
  lemma CubeMinusY()
    ensures Facing(CubePrimitive(), 6) == -4
    ensures Facing(CubePrimitive(), 7) == -4
  {
    var m := CubePrimitive();
    TableTriangle(m, 6, Vec3(-1, -1, 1), Vec3(1, -1, 1), Vec3(1, -1, -1), Vec3(0, -1, 0),
                  Vec3(2, 0, 0), Vec3(2, 0, -2), Vec3(0, 4, 0), -4);
    TableTriangle(m, 7, Vec3(-1, -1, 1), Vec3(1, -1, -1), Vec3(-1, -1, -1), Vec3(0, -1, 0),
                  Vec3(2, 0, -2), Vec3(0, 0, -2), Vec3(0, 4, 0), -4);
  }

  /** The +Z face: both cross products are (0, 0, 4), along the normal (0, 0, 1). */
  lemma CubePlusZ()
    ensures Facing(CubePrimitive(), 8) == 4
    ensures Facing(CubePrimitive(), 9) == 4
  {
    var m := CubePrimitive();
    TableTriangle(m, 8, Vec3(-1, -1, 1), Vec3(1, -1, 1), Vec3(1, 1, 1), Vec3(0, 0, 1),
                  Vec3(2, 0, 0), Vec3(2, 2, 0), Vec3(0, 0, 4), 4);
    TableTriangle(m, 9, Vec3(-1, -1, 1), Vec3(1, 1, 1), Vec3(-1, 1, 1), Vec3(0, 0, 1),
                  Vec3(2, 2, 0), Vec3(0, 2, 0), Vec3(0, 0, 4), 4);
  }

  /** The -Z face: both cross products are (0, 0, -4), along the normal (0, 0, -1). */
  lemma CubeMinusZ()
    ensures Facing(CubePrimitive(), 10) == 4
    ensures Facing(CubePrimitive(), 11) == 4
  {
    var m := CubePrimitive();
    TableTriangle(m, 10, Vec3(1, -1, -1), Vec3(-1, -1, -1), Vec3(-1, 1, -1), Vec3(0, 0, -1),
                  Vec3(-2, 0, 0), Vec3(-2, 2, 0), Vec3(0, 0, -4), 4);
    TableTriangle(m, 11, Vec3(1, -1, -1), Vec3(-1, 1, -1), Vec3(1, 1, -1), Vec3(0, 0, -1),
                  Vec3(-2, 2, 0), Vec3(0, 2, 0), Vec3(0, 0, -4), 4);
  }

  /**
    The finding: as written, both triangles of the ±X and ±Y faces run clockwise around
    their own normal, while those of the ±Z faces run counter-clockwise.
   */
  lemma CubeSidesWoundClockwise()
    ensures forall t | 0 <= t < 8 :: Facing(CubePrimitive(), t) < 0
    ensures forall t | 8 <= t < 12 :: Facing(CubePrimitive(), t) > 0
  {
    forall t | 0 <= t < 12
      ensures t < 8 ==> Facing(CubePrimitive(), t) < 0
      ensures 8 <= t ==> Facing(CubePrimitive(), t) > 0
    {
      if t == 0 { CubePlusX(); } else if t == 1 { CubePlusX(); }
      else if t == 2 { CubeMinusX(); } else if t == 3 { CubeMinusX(); }
      else if t == 4 { CubePlusY(); } else if t == 5 { CubePlusY(); }
      else if t == 6 { CubeMinusY(); } else if t == 7 { CubeMinusY(); }
      else if t == 8 { CubePlusZ(); } else if t == 9 { CubePlusZ(); }
      else if t == 10 { CubeMinusZ(); } else if t == 11 { CubeMinusZ(); }
    }
  }

  /** The corrected index table flips exactly the triangles of the four side faces. */
  lemma CorrectedCubeTriangles()
    ensures forall t | 0 <= t < 8 :: Tri(CorrectedCubeIndices, t) == Flipped(Tri(CubeIndices, t))
    ensures forall t | 8 <= t < 12 :: Tri(CorrectedCubeIndices, t) == Tri(CubeIndices, t)
  {
    var I, J := CubeIndices, CorrectedCubeIndices;
    assert I[0 .. 6] == QuadAsWritten(0) && J[0 .. 6] == QuadReversed(0);
    assert I[6 .. 12] == QuadAsWritten(4) && J[6 .. 12] == QuadReversed(4);
    assert I[12 .. 18] == QuadAsWritten(8) && J[12 .. 18] == QuadReversed(8);
    assert I[18 .. 24] == QuadAsWritten(12) && J[18 .. 24] == QuadReversed(12);
    assert I[24 .. 30] == J[24 .. 30] && I[30 .. 36] == J[30 .. 36];
    forall t | 0 <= t < 12
      ensures t < 8 ==> Tri(J, t) == Flipped(Tri(I, t))
      ensures 8 <= t ==> Tri(J, t) == Tri(I, t)
    {
      if t == 0 || t == 1 { QuadsFlipped(I, J, 0, 0); }
      else if t == 2 || t == 3 { QuadsFlipped(I, J, 1, 4); }
      else if t == 4 || t == 5 { QuadsFlipped(I, J, 2, 8); }
      else if t == 6 || t == 7 { QuadsFlipped(I, J, 3, 12); }
      else if t == 8 || t == 9 { QuadsAlike(I, J, 4); }
      else if t == 10 || t == 11 { QuadsAlike(I, J, 5); }
    }
  }

  /** With the side faces reversed, every triangle of the cube is front-facing. */
  lemma CorrectedCubeFrontFacing()
    ensures FrontFacing(CorrectedCubePrimitive())
  {
    var m, m' := CubePrimitive(), CorrectedCubePrimitive();
    CubeSidesWoundClockwise();
    CorrectedCubeTriangles();
    forall t | 0 <= t < 12
      ensures Facing(m', t) > 0
    {
      if t < 8 {
        FlippedFacing(m, m', t);
      } else {
        SameFacing(m, m', t);
      }
    }
  }

  /** The plane y = 0, from -1 to 1 in x and z, facing +y. */
  const PlaneVertices: seq<TableVertex> :=
    [TableVertex(Vec3(-1, 0, -1), Vec3(0, 1, 0)), TableVertex(Vec3(1, 0, -1), Vec3(0, 1, 0)),
     TableVertex(Vec3(1, 0, 1), Vec3(0, 1, 0)), TableVertex(Vec3(-1, 0, 1), Vec3(0, 1, 0))]

  /** The plane's index table as written: (0, 1, 2) and (0, 2, 3). */
  const PlaneIndices: seq<nat> := [0, 1, 2, 0, 2, 3]

  /** The same two triangles flipped: (0, 2, 1) and (0, 3, 2). */
  const CorrectedPlaneIndices: seq<nat> := [0, 2, 1, 0, 3, 2]

  /** `get_plane_primitive` as written. */
  function PlanePrimitive(): (m: Mesh<TableVertex>)
    ensures WellFormed(m) && |m.vertices| == 4 && |m.indices| == 6
  {
    Mesh(PlaneVertices, PlaneIndices)
  }

  /** The plane with both triangles flipped. */
  function CorrectedPlanePrimitive(): (m: Mesh<TableVertex>)
    ensures WellFormed(m) && |m.vertices| == 4 && |m.indices| == 6
    ensures m.vertices == PlanePrimitive().vertices
  {
    Mesh(PlaneVertices, CorrectedPlaneIndices)
  }

  /**
    The finding for the plane: both triangles lie in y = 0 and run clockwise seen from +y,
    the side the normal points to ((2, 0, 0) x (2, 0, 2) = (2, 0, 2) x (0, 0, 2) = (0, -4, 0)).
   */
  lemma PlaneWoundClockwise()
    ensures forall t | 0 <= t < 2 :: Facing(PlanePrimitive(), t) == -4
  {
    forall t | 0 <= t < 2
      ensures Facing(PlanePrimitive(), t) == -4
    {
      if t == 0 { PlaneTriangles(); } else if t == 1 { PlaneTriangles(); }
    }
  }

  /** The two triangles of the plane, worked out. */
  lemma PlaneTriangles()
    ensures Facing(PlanePrimitive(), 0) == -4
    ensures Facing(PlanePrimitive(), 1) == -4
  {
    var m := PlanePrimitive();
    TableTriangle(m, 0, Vec3(-1, 0, -1), Vec3(1, 0, -1), Vec3(1, 0, 1), Vec3(0, 1, 0),
                  Vec3(2, 0, 0), Vec3(2, 0, 2), Vec3(0, -4, 0), -4);
    TableTriangle(m, 1, Vec3(-1, 0, -1), Vec3(1, 0, 1), Vec3(-1, 0, 1), Vec3(0, 1, 0),
                  Vec3(2, 0, 2), Vec3(0, 0, 2), Vec3(0, -4, 0), -4);
  }

  /** The corrected plane draws both triangles of the original the other way round. */
  lemma CorrectedPlaneTriangles()
    ensures forall t | 0 <= t < 2 :: Tri(CorrectedPlaneIndices, t) == Flipped(Tri(PlaneIndices, t))
  {
    assert PlaneIndices[0 .. 6] == QuadAsWritten(0) && CorrectedPlaneIndices[0 .. 6] == QuadReversed(0);
    QuadsFlipped(PlaneIndices, CorrectedPlaneIndices, 0, 0);
  }

  /** Flipped, both triangles of the plane are front-facing. */
  lemma CorrectedPlaneFrontFacing()
    ensures FrontFacing(CorrectedPlanePrimitive())
  {
    var m, m' := PlanePrimitive(), CorrectedPlanePrimitive();
    PlaneWoundClockwise();
    CorrectedPlaneTriangles();
    forall t | 0 <= t < 2
      ensures Facing(m', t) > 0
    {
      FlippedFacing(m, m', t);
    }
  }

  /** The wireframe's eight corners: the bottom square z = -1, then the top square z = 1. */
  const WireVertices: seq<Vec3> :=
    [Vec3(-1, -1, -1), Vec3(1, -1, -1), Vec3(1, 1, -1), Vec3(-1, 1, -1),
     Vec3(-1, -1, 1), Vec3(1, -1, 1), Vec3(1, 1, 1), Vec3(-1, 1, 1)]

  /** Bottom square, top square, then the four uprights; two indices per segment. */
  const WireIndices: seq<nat> :=
    [0, 1, 1, 2, 2, 3, 3, 0, 4, 5, 5, 6, 6, 7, 7, 4, 0, 4, 1, 5, 2, 6, 3, 7]

  /** The number of coordinates in which two corners differ. */
  function Differences(a: Vec3, b: Vec3): nat
  {
    (if a.x != b.x then 1 else 0) + (if a.y != b.y then 1 else 0) + (if a.z != b.z then 1 else 0)
  }

  /** The unordered pair of corners segment `k` joins. */
  function Segment(k: nat): Edge
    requires 2 * k + 2 <= |WireIndices|
  {
    EdgeOf(WireIndices[2 * k], WireIndices[2 * k + 1])
  }

  /** A numbering of the corner pairs the wireframe draws, used to tell the segments apart. */
  function SegmentNumber(e: Edge): int
  {
    if e == Edge(0, 1) then 0 else if e == Edge(1, 2) then 1
    else if e == Edge(2, 3) then 2 else if e == Edge(0, 3) then 3
    else if e == Edge(4, 5) then 4 else if e == Edge(5, 6) then 5
    else if e == Edge(6, 7) then 6 else if e == Edge(4, 7) then 7
    else if e == Edge(0, 4) then 8 else if e == Edge(1, 5) then 9
    else if e == Edge(2, 6) then 10 else if e == Edge(3, 7) then 11
    else -1
  }

  /** Segment `k` joins two corners that differ in one coordinate, and is numbered `k`. */
  lemma WireSegment(k: nat)
    requires k < 12
    ensures WireIndices[2 * k] < 8 && WireIndices[2 * k + 1] < 8
    ensures Differences(WireVertices[WireIndices[2 * k]], WireVertices[WireIndices[2 * k + 1]]) == 1
    ensures SegmentNumber(Segment(k)) == k
  {
    if k < 4 {
      if k == 0 {} else if k == 1 {} else if k == 2 {} else {}
    } else if k < 8 {
      if k == 4 {} else if k == 5 {} else if k == 6 {} else {}
    } else {
      if k == 8 {} else if k == 9 {} else if k == 10 {} else {}
    }
  }

  /**
    `get_cube_wireframe_primitive`: 12 segments over 8 corners; every segment is an edge of
    the cube (its two corners differ in exactly one coordinate), and no edge is drawn twice,
    so the 12 segments are exactly the cube's 12 edges.
   */
  lemma WireframeIsCubeEdges()
    ensures |WireVertices| == 8 && |WireIndices| == 24
    ensures forall k | 0 <= k < 24 :: WireIndices[k] < 8
    ensures forall k | 0 <= k < 12 :: Differences(WireVertices[WireIndices[2 * k]], WireVertices[WireIndices[2 * k + 1]]) == 1
    ensures forall j, k | 0 <= j < k < 12 :: Segment(j) != Segment(k)
  {
    forall k | 0 <= k < 24 ensures WireIndices[k] < 8 {
      WireSegment(k / 2);
    }
    forall k | 0 <= k < 12
      ensures Differences(WireVertices[WireIndices[2 * k]], WireVertices[WireIndices[2 * k + 1]]) == 1
    {
      WireSegment(k);
    }
    forall j, k | 0 <= j < k < 12 ensures Segment(j) != Segment(k) {
      WireSegment(j);
      WireSegment(k);
    }
  }
}
