/**
  `get_simplex_disk_primitive`: a hexagon of six equilateral triangles around the origin,
  subdivided `level` times with plain (unprojected) midpoints, after which every vertex
  off the three spokes is pushed outwards onto a circle by a factor read off its distances
  to the lines y = 0, y = sqrt(3) x and y = -sqrt(3) x.
 */
module SimplexDisk {
  import opened Meshes
  import opened EdgeKeys
  import opened Subdivision
  import opened EdgeCount

  /** The hexagon's centre and its six corners, counter-clockwise from (1, 0). */
  const HexagonVertices: seq<Pos> := [Base(0), Base(1), Base(2), Base(3), Base(4), Base(5), Base(6)]

  /** Six triangles fanned around vertex 0. */
  const HexagonIndices: seq<nat> := [0, 1, 2, 0, 2, 3, 0, 3, 4, 0, 4, 5, 0, 5, 6, 0, 6, 1]

  /**
    The base shape: 7 vertices, 18 indices, and triangle k is (0, k + 1, (k + 1) mod 6 + 1),
    the fan around the centre over hexagon edge k.
   */
  lemma HexagonFan()
    ensures |HexagonVertices| == 7 && |HexagonIndices| == 18
    ensures WellFormed(Mesh(HexagonVertices, HexagonIndices))
    ensures forall k | 0 <= k < 6 :: Tri(HexagonIndices, k) == [0, k + 1, (k + 1) % 6 + 1]
  {
    forall k | 0 <= k < 6 ensures Tri(HexagonIndices, k) == [0, k + 1, (k + 1) % 6 + 1] {
      if k == 0 { assert Tri(HexagonIndices, 0) == [0, 1, 2]; }
      else if k == 1 { assert Tri(HexagonIndices, 1) == [0, 2, 3]; }
      else if k == 2 { assert Tri(HexagonIndices, 2) == [0, 3, 4]; }
      else if k == 3 { assert Tri(HexagonIndices, 3) == [0, 4, 5]; }
      else if k == 4 { assert Tri(HexagonIndices, 4) == [0, 5, 6]; }
      else { assert Tri(HexagonIndices, 5) == [0, 6, 1]; }
    }
  }

  /** The hexagon's 12 edges: the six spokes (0, k + 1), then the rim (1, 2) .. (5, 6) and (1, 6). */
  function HexagonEdge(i: nat): Edge
  {
    if i < 6 then Edge(0, i + 1) else if i < 11 then Edge(i - 5, i - 4) else Edge(1, 6)
  }

  /** The 12 listed edges are all different. */
  lemma HexagonEdgeCount()
    ensures |Image(Below(12), HexagonEdge)| == 12
  {
    ImageSize(Below(12), HexagonEdge);
  }

  /** The sides of fan triangle `t` are the spokes t and (t + 1) mod 6, and rim edge t. */
  lemma HexagonSides(t: nat)
    requires t < 6
    ensures TriEdges(HexagonIndices, t) == {HexagonEdge(t), HexagonEdge(t + 6), HexagonEdge((t + 1) % 6)}
  {
    HexagonFan();
    assert Tri(HexagonIndices, t) == [0, t + 1, (t + 1) % 6 + 1];
  }

  /** Every side of fan triangle `t` is one of the listed edges. */
  lemma HexagonFaceListed(t: nat)
    requires t < 6
    ensures TriEdges(HexagonIndices, t) <= Image(Below(12), HexagonEdge)
  {
    HexagonSides(t);
    assert t in Below(12) && t + 6 in Below(12) && (t + 1) % 6 in Below(12);
  }

  /** Every listed edge is a side of a fan triangle: spoke i and rim edge i - 6 of triangle i mod 6, and (1, 6) of triangle 5. */
  lemma HexagonEdgeFound(i: nat)
    requires i < 12
    ensures HexagonEdge(i) in EdgesOf(HexagonIndices, 6)
  {
    var t := if i < 6 then i else i - 6;
    HexagonSides(t);
    if i == 11 {
      HexagonSides(5);
      assert HexagonEdge(i) in TriEdges(HexagonIndices, 5);
    } else {
      assert HexagonEdge(i) in TriEdges(HexagonIndices, t);
    }
    EdgesOfMember(HexagonIndices, 6, HexagonEdge(i));
  }

  /** The six fan triangles have exactly the 12 listed edges. */
  lemma HexagonEdgeSet()
    ensures EdgesOf(HexagonIndices, 6) == Image(Below(12), HexagonEdge)
  {
    forall e | e in EdgesOf(HexagonIndices, 6) ensures e in Image(Below(12), HexagonEdge) {
      EdgesOfMember(HexagonIndices, 6, e);
      var t :| 0 <= t < 6 && e in TriEdges(HexagonIndices, t);
      HexagonFaceListed(t);
    }
    forall e | e in Image(Below(12), HexagonEdge) ensures e in EdgesOf(HexagonIndices, 6) {
      var i :| i in Below(12) && e == HexagonEdge(i);
      HexagonEdgeFound(i);
    }
  }

  /** Fan triangle `t` has the centre and the rim vertices t + 1 and (t + 1) mod 6 + 1 as its three different corners. */
  lemma HexagonCorners(t: nat)
    requires t < 6
    ensures Distinct3(HexagonIndices, t)
    ensures Corners(HexagonIndices, t) == {0, t + 1, (t + 1) % 6 + 1}
  {
    HexagonFan();
    assert Tri(HexagonIndices, t) == [0, t + 1, (t + 1) % 6 + 1];
  }

  /** Rim vertex `v` is a corner of fan triangle `t` exactly when it is t + 1 or the next one round. */
  lemma HexagonRimCorner(t: nat, v: nat)
    requires t < 6 && 0 < v
    ensures v in Corners(HexagonIndices, t) <==> v == t + 1 || v == (if t < 5 then t + 2 else 1)
  {
    HexagonCorners(t);
  }

  /** Two different fan triangles differ in a corner: each holds the other's rim vertex t + 1 only when they are neighbours, and not both ways round. */
  lemma HexagonApart(t: nat, u: nat)
    requires t < 6 && u < 6 && t != u
    ensures Corners(HexagonIndices, t) != Corners(HexagonIndices, u)
  {
    HexagonRimCorner(t, t + 1);
    HexagonRimCorner(u, u + 1);
    HexagonRimCorner(u, t + 1);
    HexagonRimCorner(t, u + 1);
  }

  /** No two fan triangles have the same corners. */
  lemma HexagonProper()
    ensures Proper(HexagonIndices)
  {
    assert |HexagonIndices| / 3 == 6;
    forall t | 0 <= t < 6 ensures Distinct3(HexagonIndices, t) {
      HexagonCorners(t);
    }
    forall t, u | 0 <= t < 6 && 0 <= u < 6 && t != u ensures Corners(HexagonIndices, t) != Corners(HexagonIndices, u) {
      HexagonApart(t, u);
    }
  }

  /** The hexagon is a sound start for the counting, with 12 distinct edges. */
  lemma HexagonSound()
    ensures Sound(Mesh(HexagonVertices, HexagonIndices))
    ensures |EdgesOf(HexagonIndices, 6)| == 12
  {
    HexagonFan();
    HexagonProper();
    HexagonEdgeSet();
    HexagonEdgeCount();
  }

  /** One pass, in numbers, with p = 4^k and q = 2^k: 3p + 3q + 1 vertices, 9p + 3q edges and 18p indices become the same with 4p and 2q. */
  lemma HexagonStep(p: nat, q: nat, v: nat, e: nat, n: nat, v': nat, e': nat, n': nat)
    requires v == 3 * p + 3 * q + 1 && e == 9 * p + 3 * q && n == 18 * p
    requires v' == v + e && e' == 2 * e + n && n' == 4 * n
    ensures v' == 3 * (4 * p) + 3 * (2 * q) + 1 && e' == 9 * (4 * p) + 3 * (2 * q) && n' == 18 * (4 * p)
  {
  }

  /**
    Level `k` of a chain of passes from a sound mesh with the hexagon's counts (7 vertices,
    12 edges, 6 triangles) has 3 * 4^k + 3 * 2^k + 1 vertices, 9 * 4^k + 3 * 2^k distinct
    edges and 6 * 4^k triangles.
   */
  lemma {:induction false} HexagonCounts(levels: seq<Mesh<Pos>>, caches: seq<map<Edge, nat>>, k: nat)
    requires PassChain(SimplexDiskLayout, levels, caches) && k <= |caches| && Sound(levels[0])
    requires |levels[0].vertices| == 7 && |levels[0].indices| == 18 && |EdgesOf(levels[0].indices, 6)| == 12
    ensures |levels[k].vertices| == 3 * Pow(4, k) + 3 * Pow(2, k) + 1
    ensures |levels[k].indices| == 18 * Pow(4, k)
    ensures |EdgesOf(levels[k].indices, |levels[k].indices| / 3)| == 9 * Pow(4, k) + 3 * Pow(2, k)
  {
    if k > 0 {
      var j := k - 1;
      HexagonCounts(levels, caches, j);
      ChainCounts(SimplexDiskLayout, levels, caches, j);
      var m, m' := levels[j], levels[j + 1];
      assert Pow(4, k) == 4 * Pow(4, j) && Pow(2, k) == 2 * Pow(2, j);
      HexagonStep(Pow(4, j), Pow(2, j), |m.vertices|, |EdgesOf(m.indices, |m.indices| / 3)|, |m.indices|,
                  |m'.vertices|, |EdgesOf(m'.indices, |m'.indices| / 3)|, |m'.indices|);
    }
  }

  /**
    The subdivision loop, `for (i = 0; i < subdivide_level; i++)`: one pass per level with
    the simplex-disk child layout, each splitting every triangle into its four children.
    A negative level runs no pass and keeps the hexagon.
   */
  method SubdivideHexagon(subdivideLevel: int)
      returns (vertices: seq<Pos>, indices: seq<nat>, ghost levels: seq<Mesh<Pos>>, ghost caches: seq<map<Edge, nat>>)
    ensures WellFormed(Mesh(vertices, indices))
    ensures |indices| == 18 * Pow(4, Passes(subdivideLevel))
    ensures |vertices| == 3 * Pow(4, Passes(subdivideLevel)) + 3 * Pow(2, Passes(subdivideLevel)) + 1
    ensures 7 <= |vertices| && vertices[..7] == HexagonVertices
    ensures subdivideLevel <= 0 ==> vertices == HexagonVertices && indices == HexagonIndices
    ensures PassChain(SimplexDiskLayout, levels, caches) && |caches| == Passes(subdivideLevel)
    ensures levels[0] == Mesh(HexagonVertices, HexagonIndices) && levels[|caches|] == Mesh(vertices, indices)
  {
    HexagonFan();
    vertices := HexagonVertices;
    indices := HexagonIndices;
    levels, caches := [Mesh(vertices, indices)], [];
    for i := 0 to Passes(subdivideLevel)
      invariant |indices| == 18 * Pow(4, i)
      invariant IndicesBelow(indices, |vertices|)
      invariant 7 <= |vertices| && vertices[..7] == HexagonVertices
      invariant subdivideLevel <= 0 ==> vertices == HexagonVertices && indices == HexagonIndices
      invariant PassChain(SimplexDiskLayout, levels, caches) && |caches| == i
      invariant levels[0] == Mesh(HexagonVertices, HexagonIndices) && levels[i] == Mesh(vertices, indices)
    {
      var newVertices, newIndices;
      newVertices, newIndices, levels, caches := NextLevel(SimplexDiskLayout, vertices, indices, levels, caches);
      PrefixTransitive(vertices[..7], vertices, newVertices);
      vertices, indices := newVertices, newIndices;
    }
    assert |indices| == 3 * (6 * Pow(4, Passes(subdivideLevel)));
    WholeTriangles(6 * Pow(4, Passes(subdivideLevel)));
    HexagonSound();
    HexagonCounts(levels, caches, Passes(subdivideLevel));
  }

  /** A point of the plane, in double precision in the source and as an exact real here. */
  datatype Point2 = Point2(x: real, y: real)

  /**
    The coordinates of a symbolic position, with `s` standing for sqrt(3): the corners of
    the hexagon, and the plain average `(v0 + v1) * 0.5` for a midpoint.
   */
  function Coords(p: Pos, s: real): Point2
  {
    match p
    case Base(k) =>
      if k == 1 then Point2(1.0, 0.0)
      else if k == 2 then Point2(0.5, s / 2.0)
      else if k == 3 then Point2(-0.5, s / 2.0)
      else if k == 4 then Point2(-1.0, 0.0)
      else if k == 5 then Point2(-0.5, -s / 2.0)
      else if k == 6 then Point2(0.5, -s / 2.0)
      else Point2(0.0, 0.0)
    case Mid(a, b) =>
      var u, v := Coords(a, s), Coords(b, s);
      Point2((u.x + v.x) * 0.5, (u.y + v.y) * 0.5)
  }

  /**
    The four entries of the array `k`: the (scaled) distances of `v` to the lines y = 0,
    y = sqrt(3) x and y = -sqrt(3) x, and the sentinel -1.
   */
  function Distances(v: Point2, s: real): (k: seq<real>)
    ensures |k| == 4 && k[3] == -1.0
    ensures k[0] + k[1] + k[2] == 0.0
  {
    [v.y, 0.5 * (v.x * s - v.y), 0.5 * (-v.x * s - v.y), -1.0]
  }

  /** `std::signbit` of an exact real: 1 exactly for the negative ones. */
  function SignBit(r: real): (b: nat)
    ensures b < 2
    ensures b == 1 <==> r < 0.0
  {
    if r < 0.0 then 1 else 0
  }

  /** `case_id`: the sign bits of k0, k1, k2, packed as a 3-bit number. */
  function CaseId(k0: real, k1: real, k2: real): (id: nat)
    ensures id < 8
    ensures id / 4 == SignBit(k0) && (id / 2) % 2 == SignBit(k1) && id % 2 == SignBit(k2)
  {
    4 * SignBit(k0) + 2 * SignBit(k1) + SignBit(k2)
  }

  /** `case_map`. */
  const CaseMap: seq<nat> := [3, 2, 1, 0, 0, 1, 2, 3]

  /** `k[case_map[case_id]]` never reads outside the four entries of `k`. */
  lemma CaseMapInBounds(k0: real, k1: real, k2: real)
    ensures CaseId(k0, k1, k2) < |CaseMap| && CaseMap[CaseId(k0, k1, k2)] < 4
  {
  }

  /** The entry `case_map` picks for the three distances. */
  function Selected(k: seq<real>): nat
    requires |k| == 4
  {
    CaseMapInBounds(k[0], k[1], k[2]);
    CaseMap[CaseId(k[0], k[1], k[2])]
  }

  const Epsilon: real := 0.000000001

  /** `glm::epsilonEqual(v, 0.0, 1e-9)`. */
  predicate NearZero(r: real)
  {
    -Epsilon < r < Epsilon
  }

  function Abs(r: real): real
  {
    if r < 0.0 then -r else r
  }

  /**
    What happens to one vertex: `Kept` leaves it where it is; `Scaled(f)` replaces it by
    `normalize(v) * f * 2 / sqrt(3)`.
   */
  datatype Adjusted = Kept | Scaled(factor: real)

  function Adjust(v: Point2, s: real): Adjusted
  {
    var k := Distances(v, s);
    if NearZero(k[0]) || NearZero(k[1]) || NearZero(k[2]) || NearZero(k[3]) then Kept
    else Scaled(Abs(k[Selected(k)]))
  }

  /**
    Away from the three spokes, the entry `case_map` picks is never the sentinel: three
    non-zero numbers summing to zero cannot share a sign, and the one picked is the one
    whose sign differs from the other two. Its magnitude is the largest of the three, so
    the vertex is pushed out by the largest distance.
   */
  lemma {:induction false} SelectionIsOddOneOut(v: Point2, s: real)
    requires Adjust(v, s).Scaled?
    ensures var k := Distances(v, s);
            && Selected(k) < 3
            && (forall j | 0 <= j < 3 && j != Selected(k) :: (k[j] < 0.0) != (k[Selected(k)] < 0.0))
            && (forall j | 0 <= j < 3 :: Abs(k[j]) <= Abs(k[Selected(k)]))
            && Adjust(v, s).factor == Abs(k[Selected(k)]) && Adjust(v, s).factor > 0.0
  {
    var k := Distances(v, s);
    assert k[0] != 0.0 && k[1] != 0.0 && k[2] != 0.0;
    assert !(k[0] < 0.0 && k[1] < 0.0 && k[2] < 0.0);
    assert !(k[0] > 0.0 && k[1] > 0.0 && k[2] > 0.0);
  }

  /** A vertex is kept exactly when it lies within 1e-9 of one of the three lines. */
  lemma KeptOnSpokes(v: Point2, s: real)
    ensures var k := Distances(v, s);
            Adjust(v, s) == Kept <==> NearZero(k[0]) || NearZero(k[1]) || NearZero(k[2])
  {
  }

  /** The centre, and more generally every point of the x axis, stays where it is. */
  lemma AxisPointsKept(x: real, s: real)
    ensures Adjust(Point2(x, 0.0), s) == Kept
  {
  }

  /** The conversion loop: each vertex adjusted in turn, in order. */
  method AdjustVertices(vertices: seq<Pos>, s: real) returns (out: seq<Adjusted>)
    ensures |out| == |vertices|
    ensures forall i | 0 <= i < |vertices| :: out[i] == Adjust(Coords(vertices[i], s), s)
  {
    out := [];
    for i := 0 to |vertices|
      invariant |out| == i
      invariant forall j | 0 <= j < i :: out[j] == Adjust(Coords(vertices[j], s), s)
    {
      var v := Coords(vertices[i], s);
      out := out + [Adjust(v, s)];
    }
  }

  /**
    The whole generator: the subdivided hexagon, with each vertex adjusted; the indices are
    the subdivision's unchanged. `s` is the value the source computes as `std::sqrt(3.0)`.
   */
  method SimplexDiskPrimitive(subdivideLevel: int, s: real)
      returns (m: Mesh<Adjusted>, ghost levels: seq<Mesh<Pos>>, ghost caches: seq<map<Edge, nat>>)
    ensures PassChain(SimplexDiskLayout, levels, caches) && |caches| == Passes(subdivideLevel)
    ensures levels[0] == Mesh(HexagonVertices, HexagonIndices)
    ensures var positions := levels[|caches|].vertices;
            && |m.vertices| == |positions| && 7 <= |positions| && positions[..7] == HexagonVertices
            && (forall i | 0 <= i < |positions| :: m.vertices[i] == Adjust(Coords(positions[i], s), s))
            && m.indices == levels[|caches|].indices
    ensures WellFormed(m)
    ensures |m.indices| == 18 * Pow(4, Passes(subdivideLevel))
    ensures |m.vertices| == 3 * Pow(4, Passes(subdivideLevel)) + 3 * Pow(2, Passes(subdivideLevel)) + 1
    ensures subdivideLevel <= 0 ==> m.indices == HexagonIndices
  {
    var vertices, indices;
    vertices, indices, levels, caches := SubdivideHexagon(subdivideLevel);
    var adjusted := AdjustVertices(vertices, s);
    m := Mesh(adjusted, indices);
  }
}
