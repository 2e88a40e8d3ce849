/**
  `get_icosphere_primitive`: start from a regular icosahedron (12 vertices, 20 faces) and
  run one subdivision pass per level while `subdivide_level > 0`.
 */
module Icosphere {
  import opened Meshes
  import opened EdgeKeys
  import opened Subdivision
  import opened EdgeCount

  /** The icosahedron's 12 corners, as symbolic positions. */
  const IcosahedronVertices: seq<Pos> :=
    [Base(0), Base(1), Base(2), Base(3), Base(4), Base(5),
     Base(6), Base(7), Base(8), Base(9), Base(10), Base(11)]

  /** The icosahedron's 20 faces, three indices each, five faces per row. */
  const IcosahedronIndices: seq<nat> :=
    [0, 11, 5,  0, 5, 1,  0, 1, 7,  0, 7, 10,  0, 10, 11] +
    [1, 5, 9,  5, 11, 4,  11, 10, 2,  10, 7, 6,  7, 1, 8] +
    [3, 9, 4,  3, 4, 2,  3, 2, 6,  3, 6, 8,  3, 8, 9] +
    [4, 9, 5,  2, 4, 11,  6, 2, 10,  8, 6, 7,  9, 8, 1]

  /** The base shape is a well-formed mesh of 12 vertices and 20 triangles. */
  lemma IcosahedronWellFormed()
    ensures |IcosahedronVertices| == 12 && |IcosahedronIndices| == 60
    ensures WellFormed(Mesh(IcosahedronVertices, IcosahedronIndices))
  {
  }

  /** The face of the icosahedron with corner key `key` (20 when there is none). */
  function IcosahedronFace(key: nat): nat
  {
    if key == 9360 then 0
    else if key == 1670 then 1
    else if key == 3208 then 2
    else if key == 9553 then 3
    else if key == 14165 then 4
    else if key == 6863 then 5
    else if key == 10388 then 6
    else if key == 14423 then 7
    else if key == 11863 then 8
    else if key == 7312 then 9
    else if key == 6800 then 10
    else if key == 1865 then 11
    else if key == 3147 then 12
    else if key == 6993 then 13
    else if key == 9876 then 14
    else if key == 7826 then 15
    else if key == 9041 then 16
    else if key == 8978 then 17
    else if key == 9557 then 18
    else if key == 9362 then 19
    else 20
  }

  /** The icosahedron's 30 edges, in increasing order: edge number `i`. */
  function IcosahedronEdge(i: nat): Edge
  {
    if i == 0 then Edge(0, 1)
    else if i == 1 then Edge(0, 5)
    else if i == 2 then Edge(0, 7)
    else if i == 3 then Edge(0, 10)
    else if i == 4 then Edge(0, 11)
    else if i == 5 then Edge(1, 5)
    else if i == 6 then Edge(1, 7)
    else if i == 7 then Edge(1, 8)
    else if i == 8 then Edge(1, 9)
    else if i == 9 then Edge(2, 3)
    else if i == 10 then Edge(2, 4)
    else if i == 11 then Edge(2, 6)
    else if i == 12 then Edge(2, 10)
    else if i == 13 then Edge(2, 11)
    else if i == 14 then Edge(3, 4)
    else if i == 15 then Edge(3, 6)
    else if i == 16 then Edge(3, 8)
    else if i == 17 then Edge(3, 9)
    else if i == 18 then Edge(4, 5)
    else if i == 19 then Edge(4, 9)
    else if i == 20 then Edge(4, 11)
    else if i == 21 then Edge(5, 9)
    else if i == 22 then Edge(5, 11)
    else if i == 23 then Edge(6, 7)
    else if i == 24 then Edge(6, 8)
    else if i == 25 then Edge(6, 10)
    else if i == 26 then Edge(7, 8)
    else if i == 27 then Edge(7, 10)
    else if i == 28 then Edge(8, 9)
    else if i == 29 then Edge(10, 11)
    else Edge(0, 0)
  }

  /** The position of `e` in the edge list (30 when it is not listed). */
  function IcosahedronEdgeNumber(e: Edge): nat
  {
    if e == Edge(0, 1) then 0
    else if e == Edge(0, 5) then 1
    else if e == Edge(0, 7) then 2
    else if e == Edge(0, 10) then 3
    else if e == Edge(0, 11) then 4
    else if e == Edge(1, 5) then 5
    else if e == Edge(1, 7) then 6
    else if e == Edge(1, 8) then 7
    else if e == Edge(1, 9) then 8
    else if e == Edge(2, 3) then 9
    else if e == Edge(2, 4) then 10
    else if e == Edge(2, 6) then 11
    else if e == Edge(2, 10) then 12
    else if e == Edge(2, 11) then 13
    else if e == Edge(3, 4) then 14
    else if e == Edge(3, 6) then 15
    else if e == Edge(3, 8) then 16
    else if e == Edge(3, 9) then 17
    else if e == Edge(4, 5) then 18
    else if e == Edge(4, 9) then 19
    else if e == Edge(4, 11) then 20
    else if e == Edge(5, 9) then 21
    else if e == Edge(5, 11) then 22
    else if e == Edge(6, 7) then 23
    else if e == Edge(6, 8) then 24
    else if e == Edge(6, 10) then 25
    else if e == Edge(7, 8) then 26
    else if e == Edge(7, 10) then 27
    else if e == Edge(8, 9) then 28
    else if e == Edge(10, 11) then 29
    else 30
  }

  /** Each listed edge is found again at its own position. */
  lemma IcosahedronEdgesNumbered()
    ensures forall i | 0 <= i < 30 :: IcosahedronEdgeNumber(IcosahedronEdge(i)) == i
  {
    forall i | 0 <= i < 30 ensures IcosahedronEdgeNumber(IcosahedronEdge(i)) == i {
      assert i == 0 || i == 1 || i == 2 || i == 3 || i == 4 || i == 5 || i == 6 || i == 7 || i == 8 || i == 9 || i == 10 || i == 11 || i == 12 || i == 13 || i == 14 || i == 15 || i == 16 || i == 17 || i == 18 || i == 19 || i == 20 || i == 21 || i == 22 || i == 23 || i == 24 || i == 25 || i == 26 || i == 27 || i == 28 || i == 29;
    }
  }

  /** The listed edges are all different. */
  lemma IcosahedronEdgeCount()
    ensures |Image(Below(30), IcosahedronEdge)| == 30
  {
    IcosahedronEdgesNumbered();
    ImageSize(Below(30), IcosahedronEdge);
  }

  /** `e` is one of the listed edges. */
  ghost predicate IsListed(e: Edge)
  {
    exists i | 0 <= i < 30 :: IcosahedronEdge(i) == e
  }

  /** The sides of the faces in the first row of the face list are listed edges. */
  lemma IcosahedronRow0Listed(t: nat)
    requires 0 <= t < 5
    ensures forall e | e in TriEdges(IcosahedronIndices, t) :: IsListed(e)
  {
    if t == 0 {
      assert IcosahedronEdge(4) == Side(IcosahedronIndices, t, 0) && IcosahedronEdge(22) == Side(IcosahedronIndices, t, 1);
      assert IcosahedronEdge(1) == Side(IcosahedronIndices, t, 2);
    } else if t == 1 {
      assert IcosahedronEdge(1) == Side(IcosahedronIndices, t, 0) && IcosahedronEdge(5) == Side(IcosahedronIndices, t, 1);
      assert IcosahedronEdge(0) == Side(IcosahedronIndices, t, 2);
    } else if t == 2 {
      assert IcosahedronEdge(0) == Side(IcosahedronIndices, t, 0) && IcosahedronEdge(6) == Side(IcosahedronIndices, t, 1);
      assert IcosahedronEdge(2) == Side(IcosahedronIndices, t, 2);
    } else if t == 3 {
      assert IcosahedronEdge(2) == Side(IcosahedronIndices, t, 0) && IcosahedronEdge(27) == Side(IcosahedronIndices, t, 1);
      assert IcosahedronEdge(3) == Side(IcosahedronIndices, t, 2);
    } else if t == 4 {
      assert IcosahedronEdge(3) == Side(IcosahedronIndices, t, 0) && IcosahedronEdge(29) == Side(IcosahedronIndices, t, 1);
      assert IcosahedronEdge(4) == Side(IcosahedronIndices, t, 2);
    }
  }

  /** The sides of the faces in the second row of the face list are listed edges. */
  lemma IcosahedronRow1Listed(t: nat)
    requires 5 <= t < 10
    ensures forall e | e in TriEdges(IcosahedronIndices, t) :: IsListed(e)
  {
    if t == 5 {
      assert IcosahedronEdge(5) == Side(IcosahedronIndices, t, 0) && IcosahedronEdge(21) == Side(IcosahedronIndices, t, 1);
      assert IcosahedronEdge(8) == Side(IcosahedronIndices, t, 2);
    } else if t == 6 {
      assert IcosahedronEdge(22) == Side(IcosahedronIndices, t, 0) && IcosahedronEdge(20) == Side(IcosahedronIndices, t, 1);
      assert IcosahedronEdge(18) == Side(IcosahedronIndices, t, 2);
    } else if t == 7 {
      assert IcosahedronEdge(29) == Side(IcosahedronIndices, t, 0) && IcosahedronEdge(12) == Side(IcosahedronIndices, t, 1);
      assert IcosahedronEdge(13) == Side(IcosahedronIndices, t, 2);
    } else if t == 8 {
      assert IcosahedronEdge(27) == Side(IcosahedronIndices, t, 0) && IcosahedronEdge(23) == Side(IcosahedronIndices, t, 1);
      assert IcosahedronEdge(25) == Side(IcosahedronIndices, t, 2);
    } else if t == 9 {
      assert IcosahedronEdge(6) == Side(IcosahedronIndices, t, 0) && IcosahedronEdge(7) == Side(IcosahedronIndices, t, 1);
      assert IcosahedronEdge(26) == Side(IcosahedronIndices, t, 2);
    }
  }

  /** The sides of the faces in the third row of the face list are listed edges. */
  lemma IcosahedronRow2Listed(t: nat)
    requires 10 <= t < 15
    ensures forall e | e in TriEdges(IcosahedronIndices, t) :: IsListed(e)
  {
    if t == 10 {
      assert IcosahedronEdge(17) == Side(IcosahedronIndices, t, 0) && IcosahedronEdge(19) == Side(IcosahedronIndices, t, 1);
      assert IcosahedronEdge(14) == Side(IcosahedronIndices, t, 2);
    } else if t == 11 {
      assert IcosahedronEdge(14) == Side(IcosahedronIndices, t, 0) && IcosahedronEdge(10) == Side(IcosahedronIndices, t, 1);
      assert IcosahedronEdge(9) == Side(IcosahedronIndices, t, 2);
    } else if t == 12 {
      assert IcosahedronEdge(9) == Side(IcosahedronIndices, t, 0) && IcosahedronEdge(11) == Side(IcosahedronIndices, t, 1);
      assert IcosahedronEdge(15) == Side(IcosahedronIndices, t, 2);
    } else if t == 13 {
      assert IcosahedronEdge(15) == Side(IcosahedronIndices, t, 0) && IcosahedronEdge(24) == Side(IcosahedronIndices, t, 1);
      assert IcosahedronEdge(16) == Side(IcosahedronIndices, t, 2);
    } else if t == 14 {
      assert IcosahedronEdge(16) == Side(IcosahedronIndices, t, 0) && IcosahedronEdge(28) == Side(IcosahedronIndices, t, 1);
      assert IcosahedronEdge(17) == Side(IcosahedronIndices, t, 2);
    }
  }

  /** The sides of the faces in the fourth row of the face list are listed edges. */
  lemma IcosahedronRow3Listed(t: nat)
    requires 15 <= t < 20
    ensures forall e | e in TriEdges(IcosahedronIndices, t) :: IsListed(e)
  {
    if t == 15 {
      assert IcosahedronEdge(19) == Side(IcosahedronIndices, t, 0) && IcosahedronEdge(21) == Side(IcosahedronIndices, t, 1);
      assert IcosahedronEdge(18) == Side(IcosahedronIndices, t, 2);
    } else if t == 16 {
      assert IcosahedronEdge(10) == Side(IcosahedronIndices, t, 0) && IcosahedronEdge(20) == Side(IcosahedronIndices, t, 1);
      assert IcosahedronEdge(13) == Side(IcosahedronIndices, t, 2);
    } else if t == 17 {
      assert IcosahedronEdge(11) == Side(IcosahedronIndices, t, 0) && IcosahedronEdge(12) == Side(IcosahedronIndices, t, 1);
      assert IcosahedronEdge(25) == Side(IcosahedronIndices, t, 2);
    } else if t == 18 {
      assert IcosahedronEdge(24) == Side(IcosahedronIndices, t, 0) && IcosahedronEdge(23) == Side(IcosahedronIndices, t, 1);
      assert IcosahedronEdge(26) == Side(IcosahedronIndices, t, 2);
    } else if t == 19 {
      assert IcosahedronEdge(28) == Side(IcosahedronIndices, t, 0) && IcosahedronEdge(7) == Side(IcosahedronIndices, t, 1);
      assert IcosahedronEdge(8) == Side(IcosahedronIndices, t, 2);
    }
  }

  /** The sides of every face are listed edges. */
  lemma IcosahedronSidesListed(t: nat)
    requires t < 20
    ensures forall e | e in TriEdges(IcosahedronIndices, t) :: IsListed(e)
  {
    if t < 5 {
      IcosahedronRow0Listed(t);
    } else if t < 10 {
      IcosahedronRow1Listed(t);
    } else if t < 15 {
      IcosahedronRow2Listed(t);
    } else {
      IcosahedronRow3Listed(t);
    }
  }

  /** Every listed edge is a side of some face. */
  lemma IcosahedronEdgeOfFace(i: nat)
    requires i < 30
    ensures exists t | 0 <= t < 20 :: IcosahedronEdge(i) in TriEdges(IcosahedronIndices, t)
  {
    if i == 0 {
      assert IcosahedronEdge(i) in TriEdges(IcosahedronIndices, 1);
    } else if i == 1 {
      assert IcosahedronEdge(i) in TriEdges(IcosahedronIndices, 0);
    } else if i == 2 {
      assert IcosahedronEdge(i) in TriEdges(IcosahedronIndices, 2);
    } else if i == 3 {
      assert IcosahedronEdge(i) in TriEdges(IcosahedronIndices, 3);
    } else if i == 4 {
      assert IcosahedronEdge(i) in TriEdges(IcosahedronIndices, 0);
    } else if i == 5 {
      assert IcosahedronEdge(i) in TriEdges(IcosahedronIndices, 1);
    } else if i == 6 {
      assert IcosahedronEdge(i) in TriEdges(IcosahedronIndices, 2);
    } else if i == 7 {
      assert IcosahedronEdge(i) in TriEdges(IcosahedronIndices, 9);
    } else if i == 8 {
      assert IcosahedronEdge(i) in TriEdges(IcosahedronIndices, 5);
    } else if i == 9 {
      assert IcosahedronEdge(i) in TriEdges(IcosahedronIndices, 11);
    } else if i == 10 {
      assert IcosahedronEdge(i) in TriEdges(IcosahedronIndices, 11);
    } else if i == 11 {
      assert IcosahedronEdge(i) in TriEdges(IcosahedronIndices, 12);
    } else if i == 12 {
      assert IcosahedronEdge(i) in TriEdges(IcosahedronIndices, 7);
    } else if i == 13 {
      assert IcosahedronEdge(i) in TriEdges(IcosahedronIndices, 7);
    } else if i == 14 {
      assert IcosahedronEdge(i) in TriEdges(IcosahedronIndices, 10);
    } else if i == 15 {
      assert IcosahedronEdge(i) in TriEdges(IcosahedronIndices, 12);
    } else if i == 16 {
      assert IcosahedronEdge(i) in TriEdges(IcosahedronIndices, 13);
    } else if i == 17 {
      assert IcosahedronEdge(i) in TriEdges(IcosahedronIndices, 10);
    } else if i == 18 {
      assert IcosahedronEdge(i) in TriEdges(IcosahedronIndices, 6);
    } else if i == 19 {
      assert IcosahedronEdge(i) in TriEdges(IcosahedronIndices, 10);
    } else if i == 20 {
      assert IcosahedronEdge(i) in TriEdges(IcosahedronIndices, 6);
    } else if i == 21 {
      assert IcosahedronEdge(i) in TriEdges(IcosahedronIndices, 5);
    } else if i == 22 {
      assert IcosahedronEdge(i) in TriEdges(IcosahedronIndices, 0);
    } else if i == 23 {
      assert IcosahedronEdge(i) in TriEdges(IcosahedronIndices, 8);
    } else if i == 24 {
      assert IcosahedronEdge(i) in TriEdges(IcosahedronIndices, 13);
    } else if i == 25 {
      assert IcosahedronEdge(i) in TriEdges(IcosahedronIndices, 8);
    } else if i == 26 {
      assert IcosahedronEdge(i) in TriEdges(IcosahedronIndices, 9);
    } else if i == 27 {
      assert IcosahedronEdge(i) in TriEdges(IcosahedronIndices, 3);
    } else if i == 28 {
      assert IcosahedronEdge(i) in TriEdges(IcosahedronIndices, 14);
    } else if i == 29 {
      assert IcosahedronEdge(i) in TriEdges(IcosahedronIndices, 4);
    }
  }

  /** The 20 faces of the icosahedron have exactly the 30 listed edges. */
  lemma IcosahedronEdgeSet()
    ensures EdgesOf(IcosahedronIndices, 20) == Image(Below(30), IcosahedronEdge)
  {
    forall e | e in EdgesOf(IcosahedronIndices, 20) ensures e in Image(Below(30), IcosahedronEdge) {
      EdgesOfMember(IcosahedronIndices, 20, e);
      var t :| 0 <= t < 20 && e in TriEdges(IcosahedronIndices, t);
      IcosahedronSidesListed(t);
      var i :| 0 <= i < 30 && IcosahedronEdge(i) == e;
      assert i in Below(30);
    }
    forall e | e in Image(Below(30), IcosahedronEdge) ensures e in EdgesOf(IcosahedronIndices, 20) {
      var i :| i in Below(30) && e == IcosahedronEdge(i);
      IcosahedronEdgeOfFace(i);
      EdgesOfMember(IcosahedronIndices, 20, e);
    }
  }

  /** Every face has three distinct corners. */
  lemma IcosahedronFaceCorners(t: nat)
    requires t < 20
    ensures Distinct3(IcosahedronIndices, t)
  {
    assert t == 0 || t == 1 || t == 2 || t == 3 || t == 4 || t == 5 || t == 6 || t == 7 || t == 8 || t == 9 || t == 10 || t == 11 || t == 12 || t == 13 || t == 14 || t == 15 || t == 16 || t == 17 || t == 18 || t == 19;
  }

  /** Every face is found again from its corner key. */
  lemma IcosahedronFacesKeyed(t: nat)
    requires t < 20
    ensures IcosahedronFace(CornerKey(IcosahedronIndices, t)) == t
  {
    assert t == 0 || t == 1 || t == 2 || t == 3 || t == 4 || t == 5 || t == 6 || t == 7 || t == 8 || t == 9 || t == 10 || t == 11 || t == 12 || t == 13 || t == 14 || t == 15 || t == 16 || t == 17 || t == 18 || t == 19;
  }

  /** No two faces of the icosahedron have the same corners. */
  lemma IcosahedronProper()
    ensures Proper(IcosahedronIndices)
  {
    forall t | 0 <= t < 20 ensures Distinct3(IcosahedronIndices, t) {
      IcosahedronFaceCorners(t);
    }
    forall t, u | 0 <= t < 20 && 0 <= u < 20 && Corners(IcosahedronIndices, t) == Corners(IcosahedronIndices, u)
      ensures t == u
    {
      IcosahedronFaceCorners(t);
      IcosahedronFaceCorners(u);
      IcosahedronFacesKeyed(t);
      IcosahedronFacesKeyed(u);
      SameCornersSameKey(IcosahedronIndices, t, u);
    }
  }

  /** The icosahedron is a sound start for the counting, with 30 distinct edges. */
  lemma IcosahedronSound()
    ensures Sound(Mesh(IcosahedronVertices, IcosahedronIndices))
    ensures |EdgesOf(IcosahedronIndices, 20)| == 30
  {
    IcosahedronEdgeSet();
    IcosahedronEdgeCount();
    IcosahedronWellFormed();
    IcosahedronProper();
  }

  /** One pass, in numbers: from 10p + 2 vertices, 30p edges and 60p indices to the same with 4p. */
  lemma IcosphereStep(p: nat, v: nat, e: nat, n: nat, v': nat, e': nat, n': nat)
    requires v == 10 * p + 2 && e == 30 * p && n == 60 * p
    requires v' == v + e && e' == 2 * e + n && n' == 4 * n
    ensures v' == 10 * (4 * p) + 2 && e' == 30 * (4 * p) && n' == 60 * (4 * p)
  {
  }

  /**
    Level `k` of a chain of passes from a sound mesh with the icosahedron's counts (12
    vertices, 30 edges, 20 triangles) has 10 * 4^k + 2 vertices, 30 * 4^k distinct edges
    and 20 * 4^k triangles.
   */
  lemma {:induction false} IcosphereCounts(levels: seq<Mesh<Pos>>, caches: seq<map<Edge, nat>>, k: nat)
    requires PassChain(IcosphereLayout, levels, caches) && k <= |caches| && Sound(levels[0])
    requires |levels[0].vertices| == 12 && |levels[0].indices| == 60 && |EdgesOf(levels[0].indices, 20)| == 30
    ensures |levels[k].vertices| == 10 * Pow(4, k) + 2
    ensures |levels[k].indices| == 60 * Pow(4, k)
    ensures |EdgesOf(levels[k].indices, |levels[k].indices| / 3)| == 30 * Pow(4, k)
  {
    if k > 0 {
      var j := k - 1;
      IcosphereCounts(levels, caches, j);
      ChainCounts(IcosphereLayout, levels, caches, j);
      var m, m' := levels[j], levels[j + 1];
      assert Pow(4, k) == 4 * Pow(4, j);
      IcosphereStep(Pow(4, j), |m.vertices|, |EdgesOf(m.indices, |m.indices| / 3)|, |m.indices|,
                    |m'.vertices|, |EdgesOf(m'.indices, |m'.indices| / 3)|, |m'.indices|);
    }
  }

  /**
    The generator. A level of zero or less returns the icosahedron itself; otherwise the
    result is reached from the icosahedron by one pass per level, each splitting every
    triangle into its four children. Every pass multiplies the triangle count by four,
    keeps the vertices built so far as a prefix (so the 12 corners stay at indices
    0..11), and keeps every index valid.
   */
  method IcospherePrimitive(subdivideLevel: int)
      returns (m: Mesh<Pos>, ghost levels: seq<Mesh<Pos>>, ghost caches: seq<map<Edge, nat>>)
    ensures WellFormed(m)
    ensures |m.indices| == 60 * Pow(4, Passes(subdivideLevel))
    ensures |m.vertices| == 10 * Pow(4, Passes(subdivideLevel)) + 2
    ensures 12 <= |m.vertices| && m.vertices[..12] == IcosahedronVertices
    ensures subdivideLevel <= 0 ==> m == Mesh(IcosahedronVertices, IcosahedronIndices)
    ensures PassChain(IcosphereLayout, levels, caches) && |caches| == Passes(subdivideLevel)
    ensures levels[0] == Mesh(IcosahedronVertices, IcosahedronIndices) && levels[|caches|] == m
  {
    IcosahedronWellFormed();
    var vertices := IcosahedronVertices;
    var indices := IcosahedronIndices;
    var level := subdivideLevel;
    ghost var done := 0;
    levels, caches := [Mesh(vertices, indices)], [];
    while level > 0
      invariant Passes(subdivideLevel) == done + Passes(level)
      invariant |indices| == 60 * Pow(4, done)
      invariant IndicesBelow(indices, |vertices|)
      invariant 12 <= |vertices| && vertices[..12] == IcosahedronVertices
      invariant subdivideLevel <= 0 ==> vertices == IcosahedronVertices && indices == IcosahedronIndices
      invariant PassChain(IcosphereLayout, levels, caches) && |caches| == done
      invariant levels[0] == Mesh(IcosahedronVertices, IcosahedronIndices) && levels[done] == Mesh(vertices, indices)
    {
      var newVertices, newIndices;
      newVertices, newIndices, levels, caches := NextLevel(IcosphereLayout, vertices, indices, levels, caches);
      PrefixTransitive(vertices[..12], vertices, newVertices);
      vertices, indices := newVertices, newIndices;
      level := level - 1;
      done := done + 1;
    }
    assert |indices| == 3 * (20 * Pow(4, done));
    WholeTriangles(20 * Pow(4, done));
    m := Mesh(vertices, indices);
    IcosahedronSound();
    IcosphereCounts(levels, caches, done);
  }
}
