/**
  Where the two loaders' normals come from: the face normals the loop accumulates, the
  file's own normals, or both at once.
 */
module ObjNormals {
  import opened Meshes
  import opened ObjLoader

  /**
    12-imgui, for a file without normals: every vertex gets the normalised sum of the
    normals of the faces around it, with its first corner's position and texture coordinate.
   */
  lemma ComputedNormals(a: Attrib, cs: seq<Index>, j: nat, normalize: Vec -> Vec)
    requires ValidCorners(a, cs) && |cs| % 3 == 0 && |a.normals| == 0 && j < |Remap(cs).order|
    ensures var r := Remap(cs); var c := cs[r.sources[j]];
            LoadedVertex(a, cs, j, |a.normals| == 0, normalize) ==
            Vertex(PointOf(a, c), normalize(FaceSum(Points(a, cs, r.sources), r.indices, |cs| / 3, j)),
                   TexCoordOf(a, c))
  {
    var r := Remap(cs);
    CollectedIsSum(a, cs, j, |cs| / 3);
    PlusZero(FaceSum(Points(a, cs, r.sources), r.indices, |cs| / 3, j));
  }

  /**
    The corner output vertex of corner `i` was made from: the first corner that named the
    same file vertex, so never a later one.
   */
  ghost function FirstCorner(cs: seq<Index>, i: nat): (s: nat)
    requires i < |cs|
    ensures s <= i && cs[s].vertexIndex == cs[i].vertexIndex
    ensures forall i' | 0 <= i' < s :: cs[i'].vertexIndex != cs[i].vertexIndex
  {
    var r := Remap(cs);
    FirstCornerBefore(cs, i);
    r.sources[r.indices[i]]
  }

  /**
    12-imgui, for a file with normals: the vertex corner `i` draws is, untouched, the vertex
    built from the first corner that named the same file vertex, file normal included.
   */
  lemma FileNormalsKept(m: Mesh<Vertex>, a: Attrib, cs: seq<Index>, normalize: Vec -> Vec, i: nat)
    requires ValidCorners(a, cs) && |cs| % 3 == 0 && |a.normals| > 0
    requires Loaded(m, a, cs, |a.normals| == 0, normalize) && i < |cs|
    ensures m.indices[i] < |m.vertices| && m.vertices[m.indices[i]] == NewVertex(a, cs[FirstCorner(cs, i)])
  {
    var j := Remap(cs).indices[i];
    assert m.vertices[j] == LoadedVertex(a, cs, j, false, normalize);
  }

  /** The corner an output vertex comes from precedes, or is, every corner that uses it. */
  lemma SourceBefore(cs: seq<Index>, i: nat)
    requires i < |cs|
    ensures Remap(cs).sources[Remap(cs).indices[i]] <= i
  {
    var p, r, k := Remap(cs[..i]), Remap(cs), cs[i].vertexIndex;
    RemapCorner(cs, i);
    RemapPrefix(cs, i);
    if k in p.order {
      var j := FirstIndex(p.order, k);
      assert r.sources[j] == p.sources[j];
    }
  }

  /**
    No corner before the one an output vertex comes from names its file vertex: such a
    corner would use the same output vertex, which would then come from it or earlier.
   */
  lemma FirstCornerBefore(cs: seq<Index>, i: nat)
    requires i < |cs|
    ensures var r := Remap(cs); var s := r.sources[r.indices[i]];
            s <= i && forall i' | 0 <= i' < s :: cs[i'].vertexIndex != cs[i].vertexIndex
  {
    var r := Remap(cs);
    var j := r.indices[i];
    SourceBefore(cs, i);
    RemapDistinct(cs);
    forall i' | 0 <= i' < r.sources[j]
      ensures cs[i'].vertexIndex != cs[i].vertexIndex
    {
      SourceBefore(cs, i');
      assert r.indices[i'] != j;
    }
  }

  /** The sign of a coordinate: -1, 0 or 1. */
  function Sign(r: real): int
  {
    if r < 0.0 then -1 else if r > 0.0 then 1 else 0
  }

  /**
    What `glm::normalize` does to a non-zero vector over the reals: it multiplies it by the
    positive number 1 / |v|, so every coordinate keeps its sign.
   */
  ghost predicate KeepsSigns(normalize: Vec -> Vec)
  {
    forall v: Vec | v.x != 0.0 || v.y != 0.0 || v.z != 0.0 ::
      Sign(normalize(v).x) == Sign(v.x) && Sign(normalize(v).y) == Sign(v.y) && Sign(normalize(v).z) == Sign(v.z)
  }

  /**
    A file holding one triangle at (0, 0, 0), (1, 0, 0), (0, t, 0), for any non-zero `t`,
    whose three corners all carry the file normal (1, 0, 0); its face normal is (0, 0, t).
   */
  function TriangleFile(t: real): Attrib
  {
    Attrib([0.0, 0.0, 0.0, 1.0, 0.0, 0.0, 0.0, t, 0.0], [1.0, 0.0, 0.0], [])
  }

  const TriangleCorners: seq<Index> := [Index(0, 0, -1), Index(1, 0, -1), Index(2, 0, -1)]

  /** The corners are in range, and their remapping is the identity. */
  lemma TriangleRemap(t: real)
    ensures ValidCorners(TriangleFile(t), TriangleCorners)
    ensures Remap(TriangleCorners) == Remapped([0, 1, 2], [0, 1, 2], [0, 1, 2])
  {
    var cs := TriangleCorners;
    assert cs[..1][..0] == [];
    assert cs[..2][..1] == cs[..1];
    assert cs[..3] == cs;
    assert Remap(cs[..1]) == Remapped([0], [0], [0]);
    assert Remap(cs[..2]) == Remapped([0, 1], [0, 1], [0, 1]);
  }

  /** The three positions of the triangle. */
  function TrianglePositions(t: real): seq<Vec>
  {
    [Vec(0.0, 0.0, 0.0), Vec(1.0, 0.0, 0.0), Vec(0.0, t, 0.0)]
  }

  lemma TrianglePoints(t: real)
    requires ValidCorners(TriangleFile(t), TriangleCorners)
    ensures Points(TriangleFile(t), TriangleCorners, [0, 1, 2]) == TrianglePositions(t)
  {
    var ps, qs := Points(TriangleFile(t), TriangleCorners, [0, 1, 2]), TrianglePositions(t);
    assert ps[0] == qs[0] && ps[1] == qs[1] && ps[2] == qs[2];
  }

  /** The face normal (1, 0, 0) x (0, t, 0) = (0, 0, t) reaches vertex 0 once. */
  lemma TriangleFaceSum(t: real)
    ensures IndicesBelow([0, 1, 2], |TrianglePositions(t)|)
    ensures FaceSum(TrianglePositions(t), [0, 1, 2], 1, 0) == Vec(0.0, 0.0, t)
  {
    var fn := FaceNormal(TrianglePositions(t), [0, 1, 2], 0);
    assert fn == Vec(0.0, 0.0, t);
    OnceACorner(Triangle([0, 1, 2], 0), 0, fn);
    PlusZero(fn);
  }

  /** For any corners remapped like these three, vertex 0 gains exactly the face normal. */
  lemma TriangleSum(a: Attrib, cs: seq<Index>, t: real)
    requires ValidCorners(a, cs) && |cs| == 3
    requires Remap(cs) == Remapped([0, 1, 2], [0, 1, 2], [0, 1, 2])
    requires Points(a, cs, [0, 1, 2]) == TrianglePositions(t)
    ensures Collected(a, cs, 0, 1, true).normal == Plus(FileNormal(a, cs[0]), Vec(0.0, 0.0, t))
  {
    CollectedIsSum(a, cs, 0, 1);
    TriangleFaceSum(t);
  }

  /** Before normalising, vertex 0 holds the file normal plus the face normal: (1, 0, t). */
  lemma CollectedTriangleNormal(t: real)
    ensures ValidCorners(TriangleFile(t), TriangleCorners) && |Remap(TriangleCorners).order| == 3
    ensures Collected(TriangleFile(t), TriangleCorners, 0, 1, true).normal == Vec(1.0, 0.0, t)
  {
    TriangleRemap(t);
    TrianglePoints(t);
    TriangleSum(TriangleFile(t), TriangleCorners, t);
  }

  /**
    The finding, as written in 10-objloader: the face normal is added on top of the file's
    normal, so vertex 0, whose file normal (1, 0, 0) has no z component, comes out along
    (1, 0, t), tilted towards the face normal.
   */
  lemma AccumulatingOverridesFileNormal(t: real, normalize: Vec -> Vec)
    requires t != 0.0 && KeepsSigns(normalize)
    ensures ValidCorners(TriangleFile(t), TriangleCorners) && |Remap(TriangleCorners).order| == 3
    ensures FileNormal(TriangleFile(t), TriangleCorners[0]) == Vec(1.0, 0.0, 0.0)
    ensures LoadedVertex(TriangleFile(t), TriangleCorners, 0, true, normalize).normal.z != 0.0
  {
    CollectedTriangleNormal(t);
    TiltedNormal(TriangleFile(t), TriangleCorners, t, normalize);
  }

  /** A collected sum (1, 0, t) normalises to a vector whose z component is not zero. */
  lemma TiltedNormal(a: Attrib, cs: seq<Index>, t: real, normalize: Vec -> Vec)
    requires t != 0.0 && KeepsSigns(normalize)
    requires ValidCorners(a, cs) && |cs| == 3 && 0 < |Remap(cs).order|
    requires Collected(a, cs, 0, 1, true).normal == Vec(1.0, 0.0, t)
    ensures LoadedVertex(a, cs, 0, true, normalize).normal.z != 0.0
  {
    var sum := Vec(1.0, 0.0, t);
    assert Sign(normalize(sum).z) == Sign(t);
    assert |cs| / 3 == 1;
    assert LoadedVertex(a, cs, 0, true, normalize).normal == normalize(sum);
  }

  /**
    The same file through the 12-imgui loader, which guards the accumulation with
    `normals.empty()`: all three vertices keep the file's normal.
   */
  lemma GuardKeepsFileNormal(t: real, normalize: Vec -> Vec)
    ensures ValidCorners(TriangleFile(t), TriangleCorners) && |Remap(TriangleCorners).order| == 3
    ensures forall j {:trigger LoadedVertex(TriangleFile(t), TriangleCorners, j, false, normalize)} | 0 <= j < 3 ::
              LoadedVertex(TriangleFile(t), TriangleCorners, j, |TriangleFile(t).normals| == 0, normalize).normal
              == Vec(1.0, 0.0, 0.0)
  {
    TriangleRemap(t);
  }
}
