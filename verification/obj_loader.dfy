/**
  `load_obj_file`: after the OBJ file has been parsed and triangulated, each shape's corners
  (one `index_t` per corner, three per face) are turned into a vertex list and an index
  list. A `vertex_map` from the file's vertex index to the output index makes every distinct
  file vertex one output vertex, created at its first occurrence; the unnormalised face
  normal of every triangle is added to its three corners, and the sums are normalised at
  the end.

  The two copies of the loader differ in one point: the one in 10-objloader always adds face
  normals, the one in 12-imgui only when the file has no normals of its own.
 */
module ObjLoader {
  import opened Meshes

  /** A `glm::vec3`, as exact reals. */
  datatype Vec = Vec(x: real, y: real, z: real)

  const Zero: Vec := Vec(0.0, 0.0, 0.0)

  /** One coordinate of a sum of two vectors. */
  function Add(p: real, q: real): real
  {
    p + q
  }

  function Plus(a: Vec, b: Vec): Vec
  {
    Vec(Add(a.x, b.x), Add(a.y, b.y), Add(a.z, b.z))
  }

  /** One coordinate of a difference of two vectors. */
  function Diff(p: real, q: real): real
  {
    p - q
  }

  function Minus(a: Vec, b: Vec): Vec
  {
    Vec(Diff(a.x, b.x), Diff(a.y, b.y), Diff(a.z, b.z))
  }

  /** The 2x2 determinant `p q - r s`. */
  function Det2(p: real, q: real, r: real, s: real): real
  {
    p * q - r * s
  }

  /** `glm::cross`. */
  function Cross(a: Vec, b: Vec): Vec
  {
    Vec(Det2(a.y, b.z, a.z, b.y), Det2(a.z, b.x, a.x, b.z), Det2(a.x, b.y, a.y, b.x))
  }

  datatype TexCoord = TexCoord(u: real, v: real)

  /** The loader's `Vertex`; every member starts out as zero. */
  datatype Vertex = Vertex(pos: Vec, normal: Vec, texcoord: TexCoord)

  /**
    One corner of a face, tinyobj's `index_t`: the file's vertex index, and a normal and a
    texture-coordinate index that are -1 when the corner has none.
   */
  datatype Index = Index(vertexIndex: nat, normalIndex: int, texcoordIndex: int)

  /** tinyobj's `attrib_t`: flat arrays, three reals per position and normal, two per texcoord. */
  datatype Attrib = Attrib(vertices: seq<real>, normals: seq<real>, texcoords: seq<real>)

  /** The parser's output: the attribute arrays and, per shape, its corners. */
  datatype Parsed = Parsed(attrib: Attrib, shapes: seq<seq<Index>>)

  /** Every array read a corner leads to is in range, as the parser guarantees. */
  predicate InRange(a: Attrib, c: Index)
  {
    && 3 * c.vertexIndex + 2 < |a.vertices|
    && (c.normalIndex >= 0 ==> 3 * c.normalIndex + 2 < |a.normals|)
    && (c.texcoordIndex >= 0 ==> 2 * c.texcoordIndex + 1 < |a.texcoords|)
  }

  ghost predicate ValidCorners(a: Attrib, cs: seq<Index>)
  {
    forall i | 0 <= i < |cs| :: InRange(a, cs[i])
  }

  function PointOf(a: Attrib, c: Index): Vec
    requires InRange(a, c)
  {
    var i := 3 * c.vertexIndex;
    Vec(a.vertices[i], a.vertices[i + 1], a.vertices[i + 2])
  }

  /** The file's normal for the corner, or zero when it has none. */
  function FileNormal(a: Attrib, c: Index): Vec
    requires InRange(a, c)
  {
    if c.normalIndex >= 0 then
      var i := 3 * c.normalIndex;
      Vec(a.normals[i], a.normals[i + 1], a.normals[i + 2])
    else Zero
  }

  function TexCoordOf(a: Attrib, c: Index): TexCoord
    requires InRange(a, c)
  {
    if c.texcoordIndex >= 0 then
      var i := 2 * c.texcoordIndex;
      TexCoord(a.texcoords[i], a.texcoords[i + 1])
    else TexCoord(0.0, 0.0)
  }

  /** The vertex built when a file vertex is first met, before any face normal is added. */
  function NewVertex(a: Attrib, c: Index): Vertex
    requires InRange(a, c)
  {
    Vertex(PointOf(a, c), FileNormal(a, c), TexCoordOf(a, c))
  }

  /** The first position of `k` in `s`. */
  function FirstIndex(s: seq<nat>, k: nat): (i: nat)
    requires k in s
    ensures i < |s| && s[i] == k && k !in s[..i]
  {
    if s[0] == k then 0
    else
      var i := FirstIndex(s[1..], k) + 1;
      assert s[..i] == [s[0]] + s[1..][..i - 1];
      i
  }

  /**
    The remapping of a corner list, as a value: `order` holds the distinct file vertex
    indices in order of first occurrence, `sources` the position of the corner that first
    named each, and `indices` one output index per corner.
   */
  datatype Remapped = Remapped(order: seq<nat>, sources: seq<nat>, indices: seq<nat>)

  /**
    One output index per corner, each pointing at an output vertex made from the corner's
    own file vertex; every output vertex comes from one of the corners.
   */
  function Remap(cs: seq<Index>): (r: Remapped)
    ensures |r.indices| == |cs| && |r.sources| == |r.order|
    ensures forall j {:trigger r.sources[j]} | 0 <= j < |r.order| ::
              r.sources[j] < |cs| && cs[r.sources[j]].vertexIndex == r.order[j]
    ensures forall i {:trigger r.indices[i]} | 0 <= i < |cs| ::
              r.indices[i] < |r.order| && r.order[r.indices[i]] == cs[i].vertexIndex
  {
    if cs == [] then Remapped([], [], [])
    else
      var r := Remap(cs[..|cs| - 1]);
      var c := cs[|cs| - 1];
      if c.vertexIndex in r.order then
        Remapped(r.order, r.sources, r.indices + [FirstIndex(r.order, c.vertexIndex)])
      else
        Remapped(r.order + [c.vertexIndex], r.sources + [|cs| - 1], r.indices + [|r.order|])
  }

  /** Remapping a prefix of the corners gives a prefix of every part of the result. */
  lemma {:induction false} RemapPrefix(cs: seq<Index>, n: nat)
    requires n <= |cs|
    ensures var p, r := Remap(cs[..n]), Remap(cs);
            && |p.order| <= |r.order|
            && p.order == r.order[..|p.order|]
            && p.sources == r.sources[..|p.order|]
            && p.indices == r.indices[..n]
    decreases |cs| - n
  {
    if n == |cs| {
      assert cs[..n] == cs;
    } else {
      var cs' := cs[..|cs| - 1];
      RemapPrefix(cs', n);
      assert cs'[..n] == cs[..n];
      RemapLast(cs);
      PrefixOfPrefix(Remap(cs[..n]), Remap(cs'), Remap(cs), n);
    }
  }

  /** Remapping drops nothing when one more corner is added. */
  lemma RemapLast(cs: seq<Index>)
    requires cs != []
    ensures var q, r := Remap(cs[..|cs| - 1]), Remap(cs);
            && |q.order| <= |r.order|
            && r.order[..|q.order|] == q.order
            && r.sources[..|q.order|] == q.sources
            && |q.indices| == |cs| - 1 && r.indices[..|cs| - 1] == q.indices
  {
  }

  /** Being a prefix is transitive, part by part. */
  lemma PrefixOfPrefix(p: Remapped, q: Remapped, r: Remapped, n: nat)
    requires |p.order| <= |q.order| <= |r.order| && n <= |q.indices| <= |r.indices|
    requires p.order == q.order[..|p.order|] && q.order == r.order[..|q.order|]
    requires |p.sources| == |p.order| && |q.sources| == |q.order| && |r.sources| == |r.order|
    requires p.sources == q.sources[..|p.order|] && q.sources == r.sources[..|q.order|]
    requires p.indices == q.indices[..n] && q.indices == r.indices[..|q.indices|]
    ensures p.order == r.order[..|p.order|]
    ensures p.sources == r.sources[..|p.order|]
    ensures p.indices == r.indices[..n]
  {
    assert r.order[..|p.order|] == r.order[..|q.order|][..|p.order|];
    assert r.sources[..|p.order|] == r.sources[..|q.order|][..|p.order|];
    assert r.indices[..n] == r.indices[..|q.indices|][..n];
  }

  /** No entry of `s` occurs twice. */
  ghost predicate Distinct(s: seq<nat>)
  {
    forall j, j' | 0 <= j < j' < |s| :: s[j] != s[j']
  }

  /** Each distinct file vertex becomes exactly one output vertex. */
  lemma {:induction false} RemapDistinct(cs: seq<Index>)
    ensures Distinct(Remap(cs).order)
    decreases |cs|
  {
    if cs != [] {
      var cs' := cs[..|cs| - 1];
      RemapDistinct(cs');
      var q, k := Remap(cs').order, cs[|cs| - 1].vertexIndex;
      if k !in q {
        var o := q + [k];
        assert Remap(cs).order == o;
        forall j, j' | 0 <= j < j' < |o|
          ensures o[j] != o[j']
        {
          assert o[j] == q[j];
          if j' < |q| {
            assert o[j'] == q[j'];
          }
        }
      } else {
        assert Remap(cs).order == q;
      }
    }
  }

  /**
    The corner-by-corner rule: corner `i` reuses the output index of its file vertex if an
    earlier corner named it, and otherwise gets the next index, the number of output
    vertices so far, with a vertex made from this corner.
   */
  lemma RemapCorner(cs: seq<Index>, i: nat)
    requires i < |cs|
    ensures var p, r, k := Remap(cs[..i]), Remap(cs), cs[i].vertexIndex;
            if k in p.order then r.indices[i] == FirstIndex(p.order, k)
            else r.indices[i] == |p.order| && r.sources[|p.order|] == i
  {
    RemapPrefix(cs, i + 1);
    assert cs[..i + 1][..i] == cs[..i];
  }

  /** Remapping one more corner, in terms of the remapping of the corners before it. */
  lemma RemapExtend(cs: seq<Index>, n: nat)
    requires n < |cs|
    ensures var p, p', k := Remap(cs[..n]), Remap(cs[..n + 1]), cs[n].vertexIndex;
            if k in p.order then
              p'.order == p.order && p'.indices == p.indices + [FirstIndex(p.order, k)]
            else
              p'.order == p.order + [k] && p'.indices == p.indices + [|p.order|]
  {
    assert cs[..n + 1][..n] == cs[..n];
  }

  /** The output vertices are exactly the file vertices the corners name. */
  lemma RemapCovers(cs: seq<Index>, k: nat)
    ensures k in Remap(cs).order <==> exists i | 0 <= i < |cs| :: cs[i].vertexIndex == k
  {
    var r := Remap(cs);
    if k in r.order {
      var j :| 0 <= j < |r.order| && r.order[j] == k;
      assert cs[r.sources[j]].vertexIndex == k;
    }
    if exists i | 0 <= i < |cs| :: cs[i].vertexIndex == k {
      var i :| 0 <= i < |cs| && cs[i].vertexIndex == k;
      assert r.order[r.indices[i]] == k;
    }
  }

  /** The positions of the output vertices: vertex j sits where its first corner points. */
  function Points(a: Attrib, cs: seq<Index>, sources: seq<nat>): (ps: seq<Vec>)
    requires ValidCorners(a, cs) && forall j | 0 <= j < |sources| :: sources[j] < |cs|
    ensures |ps| == |sources|
    ensures forall j | 0 <= j < |sources| :: ps[j] == PointOf(a, cs[sources[j]])
  {
    if sources == [] then []
    else Points(a, cs, sources[..|sources| - 1]) + [PointOf(a, cs[sources[|sources| - 1]])]
  }

  /** The three output indices of face `f`. */
  function Triangle(indices: seq<nat>, f: nat): (tri: seq<nat>)
    requires 3 * f + 3 <= |indices|
    ensures |tri| == 3
  {
    [indices[3 * f], indices[3 * f + 1], indices[3 * f + 2]]
  }

  /** The unnormalised normal of triangle `f`: (v1 - v0) x (v2 - v0). */
  function FaceNormal(ps: seq<Vec>, I: seq<nat>, f: nat): Vec
    requires 3 * f + 3 <= |I| && IndicesBelow(I, |ps|)
  {
    var v0, v1, v2 := ps[I[3 * f]], ps[I[3 * f + 1]], ps[I[3 * f + 2]];
    Cross(Minus(v1, v0), Minus(v2, v0))
  }

  /** What the first `v` corners of `tri` add to vertex `j` when each gets `fn` in turn. */
  function Partial(tri: seq<nat>, j: nat, fn: Vec, v: nat): Vec
    requires v <= |tri|
  {
    if v == 0 then Zero
    else Plus(Partial(tri, j, fn, v - 1), if tri[v - 1] == j then fn else Zero)
  }

  /** A face normal adds nothing to a vertex that is not one of the face's corners. */
  lemma NotACorner(tri: seq<nat>, j: nat, fn: Vec)
    requires |tri| == 3 && tri[0] != j && tri[1] != j && tri[2] != j
    ensures Partial(tri, j, fn, 3) == Zero
  {
    assert Partial(tri, j, fn, 1) == Zero;
  }

  /** A face with three distinct corners adds its normal exactly once to each of them. */
  lemma OnceACorner(tri: seq<nat>, v: nat, fn: Vec)
    requires |tri| == 3 && v < 3 && tri[0] != tri[1] && tri[1] != tri[2] && tri[0] != tri[2]
    ensures Partial(tri, tri[v], fn, 3) == fn
  {
    var j := tri[v];
    PlusZero(Zero);
    PlusZero(fn);
    assert Partial(tri, j, fn, 0) == Zero;
    assert Partial(tri, j, fn, 1) == (if v == 0 then fn else Zero);
    assert Partial(tri, j, fn, 2) == (if v <= 1 then fn else Zero);
  }

  /** `Zero` is the unit of `Plus` on either side. */
  lemma PlusZero(u: Vec)
    ensures Plus(Zero, u) == u && Plus(u, Zero) == u
  {
  }

  /** The sum of the face normals of the first `f` triangles that vertex `j` is a corner of. */
  function FaceSum(ps: seq<Vec>, I: seq<nat>, f: nat, j: nat): Vec
    requires 3 * f <= |I| && IndicesBelow(I, |ps|)
  {
    if f == 0 then Zero
    else Plus(FaceSum(ps, I, f - 1, j), Partial(Triangle(I, f - 1), j, FaceNormal(ps, I, f - 1), 3))
  }

  /**
    Vertex `v`, output vertex `j`, after the loop has gone through the first `faces`
    triangles of `I`: each adds its normal once for every one of its corners that is `j`.
   */
  function Accumulated(v: Vertex, ps: seq<Vec>, I: seq<nat>, j: nat, faces: nat): Vertex
    requires 3 * faces <= |I| && IndicesBelow(I, |ps|)
  {
    if faces == 0 then v
    else
      var f := faces - 1;
      Gained(Accumulated(v, ps, I, j, f), Triangle(I, f), j, FaceNormal(ps, I, f))
  }

  /** Only the normal changes, and it changes by the sum of the normals of the faces around `j`. */
  lemma {:induction false} AccumulatedIsSum(v: Vertex, ps: seq<Vec>, I: seq<nat>, j: nat, faces: nat)
    requires 3 * faces <= |I| && IndicesBelow(I, |ps|)
    ensures Accumulated(v, ps, I, j, faces) == v.(normal := Plus(v.normal, FaceSum(ps, I, faces, j)))
  {
    if faces == 0 {
      PlusZero(v.normal);
    } else {
      var f := faces - 1;
      AccumulatedIsSum(v, ps, I, j, f);
      PlusAssoc(v.normal, FaceSum(ps, I, f, j), Partial(Triangle(I, f), j, FaceNormal(ps, I, f), 3));
    }
  }

  /** A vertex that none of the faces so far has as a corner is unchanged. */
  lemma {:induction false} AccumulatedUntouched(v: Vertex, ps: seq<Vec>, I: seq<nat>, j: nat, faces: nat)
    requires 3 * faces <= |I| && IndicesBelow(I, |ps|)
    requires forall i | 0 <= i < 3 * faces :: I[i] != j
    ensures Accumulated(v, ps, I, j, faces) == v
  {
    if faces > 0 {
      var f := faces - 1;
      AccumulatedUntouched(v, ps, I, j, f);
      var t := Triangle(I, f);
      NotACorner(t, j, FaceNormal(ps, I, f));
      PlusZero(v.normal);
    }
  }

  /** The position and the texture coordinate never change. */
  lemma {:induction false} AccumulatedKeeps(v: Vertex, ps: seq<Vec>, I: seq<nat>, j: nat, faces: nat)
    requires 3 * faces <= |I| && IndicesBelow(I, |ps|)
    ensures Accumulated(v, ps, I, j, faces).pos == v.pos
    ensures Accumulated(v, ps, I, j, faces).texcoord == v.texcoord
  {
    if faces > 0 {
      AccumulatedKeeps(v, ps, I, j, faces - 1);
    }
  }

  /**
    Output vertex `j` of the corners `cs` once the first `faces` face normals have been
    added (when normals are computed at all): the vertex made from its first corner, with
    those faces' normals accumulated into it.
   */
  ghost function Collected(a: Attrib, cs: seq<Index>, j: nat, faces: nat, computeNormals: bool): Vertex
    requires ValidCorners(a, cs) && 3 * faces <= |cs| && j < |Remap(cs).order|
  {
    var r := Remap(cs);
    var v := NewVertex(a, cs[r.sources[j]]);
    if computeNormals then Accumulated(v, Points(a, cs, r.sources), r.indices, j, faces) else v
  }

  /**
    The collected vertex has its first corner's position and texture coordinate, and as
    normal the file's normal of that corner plus the sum of the normals of the faces around it.
   */
  lemma CollectedIsSum(a: Attrib, cs: seq<Index>, j: nat, faces: nat)
    requires ValidCorners(a, cs) && 3 * faces <= |cs| && j < |Remap(cs).order|
    ensures var r := Remap(cs); var c := cs[r.sources[j]];
            Collected(a, cs, j, faces, true) ==
            Vertex(PointOf(a, c), Plus(FileNormal(a, c), FaceSum(Points(a, cs, r.sources), r.indices, faces, j)),
                   TexCoordOf(a, c))
  {
    var r := Remap(cs);
    AccumulatedIsSum(NewVertex(a, cs[r.sources[j]]), Points(a, cs, r.sources), r.indices, j, faces);
  }

  /** Output vertex `j` as the loader returns it: normalised, when normals are computed. */
  ghost function LoadedVertex(a: Attrib, cs: seq<Index>, j: nat, computeNormals: bool,
                              normalize: Vec -> Vec): Vertex
    requires ValidCorners(a, cs) && |cs| % 3 == 0 && j < |Remap(cs).order|
  {
    var v := Collected(a, cs, j, |cs| / 3, computeNormals);
    if computeNormals then v.(normal := normalize(v.normal)) else v
  }

  /** `m` is what the loader makes of the corners `cs`. */
  ghost predicate Loaded(m: Mesh<Vertex>, a: Attrib, cs: seq<Index>, computeNormals: bool,
                         normalize: Vec -> Vec)
    requires ValidCorners(a, cs) && |cs| % 3 == 0
  {
    && m.indices == Remap(cs).indices
    && |m.vertices| == |Remap(cs).order|
    && forall j | 0 <= j < |m.vertices| :: m.vertices[j] == LoadedVertex(a, cs, j, computeNormals, normalize)
  }

  /**
    The loop state after the corners `cs[..n]`, with the normals of the first `faces`
    faces added: the indices so far, one vertex per distinct file vertex so far, and
    `vertexMap` sending each of those file vertices to its output index.
   */
  ghost predicate Built(a: Attrib, cs: seq<Index>, n: nat, faces: nat, computeNormals: bool,
                        vertexMap: map<nat, nat>, vertices: seq<Vertex>, indices: seq<nat>)
    requires ValidCorners(a, cs) && n <= |cs| && 3 * faces <= n
  {
    var p := Remap(cs[..n]);
    && indices == p.indices
    && |vertices| == |p.order| <= |Remap(cs).order|
    && MapMatches(vertexMap, p.order)
    && AllCollected(a, cs, faces, computeNormals, vertices)
  }

  /** The part of `Built` that reading vertices back through `indices` needs. */
  ghost predicate Read(a: Attrib, cs: seq<Index>, n: nat, faces: nat, computeNormals: bool,
                       vertices: seq<Vertex>, indices: seq<nat>)
    requires ValidCorners(a, cs) && n <= |cs| && 3 * faces <= n
  {
    var p := Remap(cs[..n]);
    && indices == p.indices
    && |vertices| == |p.order|
    && AllCollected(a, cs, faces, computeNormals, vertices)
  }

  /** `vertexMap` sends the file vertices of `order`, and nothing else, to their positions in it. */
  ghost predicate MapMatches(vertexMap: map<nat, nat>, order: seq<nat>)
  {
    && (forall k | k in vertexMap :: vertexMap[k] < |order| && order[vertexMap[k]] == k)
    && (forall j | 0 <= j < |order| :: order[j] in vertexMap && vertexMap[order[j]] == j)
  }

  /** The vertices built so far are the first output vertices, in their current state. */
  ghost predicate AllCollected(a: Attrib, cs: seq<Index>, faces: nat, computeNormals: bool,
                               vertices: seq<Vertex>)
    requires ValidCorners(a, cs) && 3 * faces <= |cs|
  {
    && |vertices| <= |Remap(cs).order|
    && forall j {:trigger vertices[j]} | 0 <= j < |vertices| :: vertices[j] == Collected(a, cs, j, faces, computeNormals)
  }

  /** Recording a file vertex not seen before at the next position. */
  lemma MapAppend(vertexMap: map<nat, nat>, order: seq<nat>, k: nat)
    requires MapMatches(vertexMap, order) && k !in vertexMap
    ensures k !in order && MapMatches(vertexMap[k := |order|], order + [k])
  {
    var m, o := vertexMap[k := |order|], order + [k];
    forall j | 0 <= j < |o|
      ensures o[j] in m && m[o[j]] == j
    {
      if j < |order| {
        assert o[j] == order[j];
      }
    }
  }

  /** Appending the next output vertex. */
  lemma CollectedAppend(a: Attrib, cs: seq<Index>, faces: nat, computeNormals: bool,
                        vertices: seq<Vertex>, v: Vertex)
    requires ValidCorners(a, cs) && 3 * faces <= |cs|
    requires AllCollected(a, cs, faces, computeNormals, vertices)
    requires |vertices| < |Remap(cs).order| && v == Collected(a, cs, |vertices|, faces, computeNormals)
    ensures AllCollected(a, cs, faces, computeNormals, vertices + [v])
  {
    var V := vertices + [v];
    forall j | 0 <= j < |V|
      ensures V[j] == Collected(a, cs, j, faces, computeNormals)
    {
      if j < |vertices| {
        assert V[j] == vertices[j];
      }
    }
  }

  /**
    A file vertex first met at corner `n` becomes output vertex `|Remap(cs[..n]).order|`, and
    no face before corner `n` has added anything to it yet.
   */
  lemma FirstMet(a: Attrib, cs: seq<Index>, n: nat, faces: nat, computeNormals: bool)
    requires ValidCorners(a, cs) && n < |cs| && 3 * faces <= n
    requires cs[n].vertexIndex !in Remap(cs[..n]).order
    ensures var k := |Remap(cs[..n]).order|;
            k < |Remap(cs).order| && Collected(a, cs, k, faces, computeNormals) == NewVertex(a, cs[n])
  {
    RemapCorner(cs, n);
    RemapPrefix(cs, n);
    var p, r := Remap(cs[..n]), Remap(cs);
    var k := |p.order|;
    forall i | 0 <= i < 3 * faces
      ensures r.indices[i] != k
    {
      assert r.indices[i] == p.indices[i];
    }
    AccumulatedUntouched(NewVertex(a, cs[r.sources[k]]), Points(a, cs, r.sources), r.indices, k, faces);
  }

  /** The loop state after one more corner whose file vertex is new. */
  lemma BuiltNew(a: Attrib, cs: seq<Index>, n: nat, faces: nat, computeNormals: bool,
                 vertexMap: map<nat, nat>, vertices: seq<Vertex>, indices: seq<nat>)
    requires ValidCorners(a, cs) && n < |cs| && 3 * faces <= n
    requires Built(a, cs, n, faces, computeNormals, vertexMap, vertices, indices)
    requires cs[n].vertexIndex !in vertexMap
    ensures var k := cs[n].vertexIndex;
            Built(a, cs, n + 1, faces, computeNormals, vertexMap[k := |vertices|],
                  vertices + [NewVertex(a, cs[n])], indices + [|vertices|])
  {
    var k := cs[n].vertexIndex;
    MapAppend(vertexMap, Remap(cs[..n]).order, k);
    FirstMet(a, cs, n, faces, computeNormals);
    RemapExtend(cs, n);
    CollectedAppend(a, cs, faces, computeNormals, vertices, NewVertex(a, cs[n]));
  }

  /** The loop state after one more corner whose file vertex is already known. */
  lemma BuiltReuse(a: Attrib, cs: seq<Index>, n: nat, faces: nat, computeNormals: bool,
                   vertexMap: map<nat, nat>, vertices: seq<Vertex>, indices: seq<nat>)
    requires ValidCorners(a, cs) && n < |cs| && 3 * faces <= n
    requires Built(a, cs, n, faces, computeNormals, vertexMap, vertices, indices)
    requires cs[n].vertexIndex in vertexMap
    ensures Built(a, cs, n + 1, faces, computeNormals, vertexMap, vertices,
                  indices + [vertexMap[cs[n].vertexIndex]])
  {
    var k, p := cs[n].vertexIndex, Remap(cs[..n]);
    assert p.order[vertexMap[k]] == k;
    var i := FirstIndex(p.order, k);
    assert vertexMap[p.order[i]] == i;
    RemapExtend(cs, n);
    RemapPrefix(cs, n + 1);
  }

  /**
    One corner of the inner loop: a file vertex met for the first time becomes a new
    output vertex, recorded in `vertexMap`; a known one reuses its index.
   */
  method AddCorner(a: Attrib, cs: seq<Index>, n: nat, ghost faces: nat, ghost computeNormals: bool,
                   vertexMap: map<nat, nat>, vertices: seq<Vertex>, indices: seq<nat>)
      returns (vertexMap': map<nat, nat>, vertices': seq<Vertex>, indices': seq<nat>)
    requires ValidCorners(a, cs) && n < |cs| && 3 * faces <= n
    requires Built(a, cs, n, faces, computeNormals, vertexMap, vertices, indices)
    ensures Built(a, cs, n + 1, faces, computeNormals, vertexMap', vertices', indices')
  {
    var idx := cs[n];
    if idx.vertexIndex !in vertexMap {
      BuiltNew(a, cs, n, faces, computeNormals, vertexMap, vertices, indices);
      var vertex := NewVertex(a, idx);
      vertices' := vertices + [vertex];
      var newIndex := |vertices'| - 1;
      vertexMap' := vertexMap[idx.vertexIndex := newIndex];
      indices' := indices + [newIndex];
    } else {
      BuiltReuse(a, cs, n, faces, computeNormals, vertexMap, vertices, indices);
      vertexMap', vertices' := vertexMap, vertices;
      indices' := indices + [vertexMap[idx.vertexIndex]];
    }
  }

  /** The vertices after every corner of `tri` has gained `fn`, one corner after another. */
  function WithFaceNormal(vertices: seq<Vertex>, tri: seq<nat>, fn: Vec): (vs: seq<Vertex>)
    requires |tri| == 3
    ensures |vs| == |vertices|
  {
    if vertices == [] then []
    else
      var j := |vertices| - 1;
      WithFaceNormal(vertices[..j], tri, fn) + [Gained(vertices[j], tri, j, fn)]
  }

  /** Vertex `j` after `normal += face_normal` for each corner of `tri` that is `j`. */
  function Gained(v: Vertex, tri: seq<nat>, j: nat, fn: Vec): Vertex
    requires |tri| == 3
  {
    v.(normal := Plus(v.normal, Partial(tri, j, fn, 3)))
  }

  /** Vertex `j` gains the share of `fn` that the corners of `tri` equal to `j` give it. */
  lemma {:induction false} WithFaceNormalAt(vertices: seq<Vertex>, tri: seq<nat>, fn: Vec, j: nat)
    requires |tri| == 3 && j < |vertices|
    ensures WithFaceNormal(vertices, tri, fn)[j] ==
            Gained(vertices[j], tri, j, fn)
    decreases |vertices|
  {
    var n := |vertices| - 1;
    if j < n {
      WithFaceNormalAt(vertices[..n], tri, fn, j);
    }
  }

  /** A list that agrees with `WithFaceNormal` at every position is `WithFaceNormal`. */
  lemma WithFaceNormalIs(vertices: seq<Vertex>, tri: seq<nat>, fn: Vec, vs: seq<Vertex>)
    requires |tri| == 3 && |vs| == |vertices|
    requires forall j | 0 <= j < |vs| ::
               vs[j] == Gained(vertices[j], tri, j, fn)
    ensures vs == WithFaceNormal(vertices, tri, fn)
  {
    forall j | 0 <= j < |vs|
      ensures vs[j] == WithFaceNormal(vertices, tri, fn)[j]
    {
      WithFaceNormalAt(vertices, tri, fn, j);
    }
  }

  /**
    The inner `normal += face_normal` loop: vertex `j` gains `fn` once for each corner of
    `tri` that is `j`. So the face normal reaches exactly the face's corners, once each
    when they are distinct, and no other vertex changes.
   */
  method AddFaceNormal(vertices: seq<Vertex>, tri: seq<nat>, fn: Vec) returns (vs: seq<Vertex>)
    requires |tri| == 3 && tri[0] < |vertices| && tri[1] < |vertices| && tri[2] < |vertices|
    ensures vs == WithFaceNormal(vertices, tri, fn)
    ensures forall j | 0 <= j < |vs| && j != tri[0] && j != tri[1] && j != tri[2] :: vs[j] == vertices[j]
    ensures tri[0] != tri[1] && tri[1] != tri[2] && tri[0] != tri[2] ==>
              forall v | 0 <= v < 3 :: vs[tri[v]] == vertices[tri[v]].(normal := Plus(vertices[tri[v]].normal, fn))
  {
    vs := vertices;
    for v := 0 to 3
      invariant |vs| == |vertices|
      invariant forall j | 0 <= j < |vs| ::
                  vs[j] == vertices[j].(normal := Plus(vertices[j].normal, Partial(tri, j, fn, v)))
    {
      var k := tri[v];
      vs := vs[k := vs[k].(normal := Plus(vs[k].normal, fn))];
    }
    forall j | 0 <= j < |vs| && j != tri[0] && j != tri[1] && j != tri[2]
      ensures vs[j] == vertices[j]
    {
      NotACorner(tri, j, fn);
    }
    WithFaceNormalIs(vertices, tri, fn, vs);
    if tri[0] != tri[1] && tri[1] != tri[2] && tri[0] != tri[2] {
      forall v | 0 <= v < 3
        ensures vs[tri[v]] == vertices[tri[v]].(normal := Plus(vertices[tri[v]].normal, fn))
      {
        OnceACorner(tri, v, fn);
      }
    }
  }

  /**
    At the end of face `f`, its three indices are those of triangle `f` of the remapping,
    and the positions the loop reads are the output vertices' positions.
   */
  lemma CornerPositions(a: Attrib, cs: seq<Index>, f: nat, computeNormals: bool,
                        vertices: seq<Vertex>, indices: seq<nat>)
    requires ValidCorners(a, cs) && 3 * f + 3 <= |cs|
    requires Read(a, cs, 3 * f + 3, f, computeNormals, vertices, indices)
    ensures var r := Remap(cs);
            && CornersBelow(vertices, indices, 3 * f)
            && Triangle(indices, f) == Triangle(r.indices, f)
            && CornerNormal(vertices, indices, 3 * f) == FaceNormal(Points(a, cs, r.sources), r.indices, f)
  {
    var r := Remap(cs);
    var ps := Points(a, cs, r.sources);
    forall i | 3 * f <= i < 3 * f + 3
      ensures indices[i] == r.indices[i] && indices[i] < |vertices| && vertices[indices[i]].pos == ps[r.indices[i]]
    {
      CornerPosition(a, cs, 3 * f + 3, f, computeNormals, vertices, indices, i);
    }
    FaceRead(Points(a, cs, r.sources), r.indices, f, vertices, indices);
  }

  /**
    Reading the three corners of face `f` through `indices` and `vertices` gives the face
    and the face normal that `I` and `ps` define, when the two agree on those corners.
   */
  lemma FaceRead(ps: seq<Vec>, I: seq<nat>, f: nat, vertices: seq<Vertex>, indices: seq<nat>)
    requires 3 * f + 3 <= |I| && 3 * f + 3 <= |indices| && IndicesBelow(I, |ps|)
    requires forall i | 3 * f <= i < 3 * f + 3 ::
               indices[i] == I[i] && indices[i] < |vertices| && vertices[indices[i]].pos == ps[I[i]]
    ensures CornersBelow(vertices, indices, 3 * f) && Triangle(indices, f) == Triangle(I, f)
    ensures CornerNormal(vertices, indices, 3 * f) == FaceNormal(ps, I, f)
  {
    var t, u := Triangle(indices, f), Triangle(I, f);
    assert t[0] == u[0] && t[1] == u[1] && t[2] == u[2];
  }

  /** Corner `i` already remapped names an output vertex whose position is its own. */
  lemma CornerPosition(a: Attrib, cs: seq<Index>, n: nat, f: nat, computeNormals: bool,
                       vertices: seq<Vertex>, indices: seq<nat>, i: nat)
    requires ValidCorners(a, cs) && n <= |cs| && 3 * f <= n && i < n
    requires Read(a, cs, n, f, computeNormals, vertices, indices)
    ensures var r := Remap(cs);
            && i < |indices| && indices[i] == r.indices[i] && indices[i] < |vertices|
            && vertices[indices[i]].pos == Points(a, cs, r.sources)[r.indices[i]]
  {
    RemapPrefix(cs, n);
    VertexPosition(a, cs, f, computeNormals, vertices, indices[i]);
  }

  /** An output vertex sits at the position of the corner it came from. */
  lemma VertexPosition(a: Attrib, cs: seq<Index>, f: nat, computeNormals: bool, vertices: seq<Vertex>, j: nat)
    requires ValidCorners(a, cs) && 3 * f <= |cs|
    requires AllCollected(a, cs, f, computeNormals, vertices) && j < |vertices|
    ensures vertices[j].pos == Points(a, cs, Remap(cs).sources)[j]
  {
    assert vertices[j] == Collected(a, cs, j, f, computeNormals);
    var r := Remap(cs);
    AccumulatedKeeps(NewVertex(a, cs[r.sources[j]]), Points(a, cs, r.sources), r.indices, j, f);
  }

  lemma PlusAssoc(u: Vec, v: Vec, w: Vec)
    ensures Plus(Plus(u, v), w) == Plus(u, Plus(v, w))
  {
  }

  /** Adding the normal of face `f` to its corners gives the vertices after `f + 1` faces. */
  lemma FaceAdded(a: Attrib, cs: seq<Index>, f: nat, vertices: seq<Vertex>, tri: seq<nat>, fn: Vec,
                  vs: seq<Vertex>)
    requires ValidCorners(a, cs) && 3 * f + 3 <= |cs|
    requires AllCollected(a, cs, f, true, vertices)
    requires var r := Remap(cs);
             tri == Triangle(r.indices, f) && fn == FaceNormal(Points(a, cs, r.sources), r.indices, f)
    requires |tri| == 3 && vs == WithFaceNormal(vertices, tri, fn)
    ensures AllCollected(a, cs, f + 1, true, vs)
  {
    forall j | 0 <= j < |vs|
      ensures vs[j] == Collected(a, cs, j, f + 1, true)
    {
      WithFaceNormalAt(vertices, tri, fn, j);
      assert vertices[j] == Collected(a, cs, j, f, true);
    }
  }

  /** Only the vertices' normals change with the face count; the rest of the state stays. */
  lemma BuiltCollected(a: Attrib, cs: seq<Index>, n: nat, f: nat, vertexMap: map<nat, nat>,
                       vertices: seq<Vertex>, indices: seq<nat>, vs: seq<Vertex>)
    requires ValidCorners(a, cs) && n <= |cs| && 3 * f + 3 <= n
    requires Built(a, cs, n, f, true, vertexMap, vertices, indices)
    requires |vs| == |vertices| && AllCollected(a, cs, f + 1, true, vs)
    ensures Built(a, cs, n, f + 1, true, vertexMap, vs, indices)
  {
  }

  /** Without computed normals, the face count does not show in the state. */
  lemma FaceSkipped(a: Attrib, cs: seq<Index>, f: nat, vertexMap: map<nat, nat>,
                    vertices: seq<Vertex>, indices: seq<nat>)
    requires ValidCorners(a, cs) && 3 * f + 3 <= |cs|
    requires Built(a, cs, 3 * f + 3, f, false, vertexMap, vertices, indices)
    ensures Built(a, cs, 3 * f + 3, f + 1, false, vertexMap, vertices, indices)
  {
    forall j | 0 <= j < |vertices|
      ensures vertices[j] == Collected(a, cs, j, f + 1, false)
    {
      assert vertices[j] == Collected(a, cs, j, f, false);
    }
  }

  /** Before the first corner: an empty map, no vertices, no indices. */
  lemma BuiltStart(a: Attrib, cs: seq<Index>, computeNormals: bool)
    requires ValidCorners(a, cs)
    ensures Built(a, cs, 0, 0, computeNormals, map[], [], [])
  {
    assert cs[..0] == [];
  }

  /**
    A loaded shape has one index per corner, and every index names one of its vertices; with
    whole triangles in, whole triangles come out.
   */
  lemma LoadedWellFormed(m: Mesh<Vertex>, a: Attrib, cs: seq<Index>, computeNormals: bool,
                         normalize: Vec -> Vec)
    requires ValidCorners(a, cs) && |cs| % 3 == 0
    requires Loaded(m, a, cs, computeNormals, normalize)
    ensures |m.indices| == |cs|
    ensures forall i | 0 <= i < |m.indices| :: m.indices[i] < |m.vertices|
    ensures WellFormed(m)
  {
  }

  /** `Built` carries everything `Read` needs. */
  lemma BuiltRead(a: Attrib, cs: seq<Index>, n: nat, faces: nat, computeNormals: bool,
                  vertexMap: map<nat, nat>, vertices: seq<Vertex>, indices: seq<nat>)
    requires ValidCorners(a, cs) && n <= |cs| && 3 * faces <= n
    requires Built(a, cs, n, faces, computeNormals, vertexMap, vertices, indices)
    ensures Read(a, cs, n, faces, computeNormals, vertices, indices)
  {
  }

  /** Once every corner is read and every face counted, the state is the whole remapping. */
  lemma BuiltDone(a: Attrib, cs: seq<Index>, n: nat, faces: nat, computeNormals: bool,
                  vertexMap: map<nat, nat>, vertices: seq<Vertex>, indices: seq<nat>)
    requires ValidCorners(a, cs) && n == |cs| && 3 * faces == n
    requires Built(a, cs, n, faces, computeNormals, vertexMap, vertices, indices)
    ensures faces == |cs| / 3
    ensures indices == Remap(cs).indices && |vertices| == |Remap(cs).order|
    ensures forall j | 0 <= j < |vertices| :: vertices[j] == Collected(a, cs, j, faces, computeNormals)
  {
    assert cs[..|cs|] == cs;
  }

  /**
    The body of the loop over faces: the three corners of face `f` are remapped, and
    then, when normals are computed, the face normal is added to the face's corners.
   */
  method AddFace(a: Attrib, cs: seq<Index>, f: nat, computeNormals: bool,
                 vertexMap: map<nat, nat>, vertices: seq<Vertex>, indices: seq<nat>)
      returns (vertexMap': map<nat, nat>, vertices': seq<Vertex>, indices': seq<nat>)
    requires ValidCorners(a, cs) && 3 * f + 3 <= |cs|
    requires Built(a, cs, 3 * f, f, computeNormals, vertexMap, vertices, indices)
    ensures Built(a, cs, 3 * (f + 1), f + 1, computeNormals, vertexMap', vertices', indices')
  {
    vertexMap', vertices', indices' := ReadFace(a, cs, f, computeNormals, vertexMap, vertices, indices);
    if computeNormals {
      vertices' := AddFaceNormalOf(a, cs, f, vertexMap', vertices', indices');
    } else {
      FaceSkipped(a, cs, f, vertexMap', vertices', indices');
    }
  }

  /** Adding the normal of face `f`, once its corners are read, to the loop state. */
  method AddFaceNormalOf(a: Attrib, cs: seq<Index>, f: nat, ghost vertexMap: map<nat, nat>,
                         vertices: seq<Vertex>, indices: seq<nat>)
      returns (vertices': seq<Vertex>)
    requires ValidCorners(a, cs) && 3 * f + 3 <= |cs|
    requires Built(a, cs, 3 * f + 3, f, true, vertexMap, vertices, indices)
    ensures Built(a, cs, 3 * f + 3, f + 1, true, vertexMap, vertices', indices)
  {
    BuiltRead(a, cs, 3 * f + 3, f, true, vertexMap, vertices, indices);
    vertices' := AddReadFaceNormal(a, cs, f, vertices, indices);
    BuiltCollected(a, cs, 3 * f + 3, f, vertexMap, vertices, indices, vertices');
  }

  /** The same step on the part of the state that reading the face's corners needs. */
  method AddReadFaceNormal(a: Attrib, cs: seq<Index>, f: nat, vertices: seq<Vertex>, indices: seq<nat>)
      returns (vertices': seq<Vertex>)
    requires ValidCorners(a, cs) && 3 * f + 3 <= |cs|
    requires Read(a, cs, 3 * f + 3, f, true, vertices, indices)
    ensures |vertices'| == |vertices| && AllCollected(a, cs, f + 1, true, vertices')
  {
    CornerPositions(a, cs, f, true, vertices, indices);
    vertices' := AccumulateFaceNormal(vertices, indices, f);
    FaceAccumulated(a, cs, f, vertices, indices, vertices');
  }

  /** The three corners of a face just read name output vertices. */
  predicate CornersBelow(vertices: seq<Vertex>, indices: seq<nat>, indexOffset: nat)
  {
    indexOffset + 3 <= |indices| && indices[indexOffset] < |vertices| &&
    indices[indexOffset + 1] < |vertices| && indices[indexOffset + 2] < |vertices|
  }

  /**
    `glm::cross(v1 - v0, v2 - v0)` for the positions of the output vertices that the three
    indices from `indexOffset` on name.
   */
  function CornerNormal(vertices: seq<Vertex>, indices: seq<nat>, indexOffset: nat): Vec
    requires CornersBelow(vertices, indices, indexOffset)
  {
    var v0 := vertices[indices[indexOffset]].pos;
    Cross(Minus(vertices[indices[indexOffset + 1]].pos, v0), Minus(vertices[indices[indexOffset + 2]].pos, v0))
  }

  /**
    The face normal of face `f`, read from the vertices its corners name, added to each of
    those corners.
   */
  method AccumulateFaceNormal(vertices: seq<Vertex>, indices: seq<nat>, f: nat)
      returns (vertices': seq<Vertex>)
    requires CornersBelow(vertices, indices, 3 * f)
    ensures vertices' == WithFaceNormal(vertices, Triangle(indices, f), CornerNormal(vertices, indices, 3 * f))
  {
    var indexOffset := 3 * f;
    var v0 := vertices[indices[indexOffset + 0]].pos;
    var v1 := vertices[indices[indexOffset + 1]].pos;
    var v2 := vertices[indices[indexOffset + 2]].pos;
    var faceNormal := Cross(Minus(v1, v0), Minus(v2, v0));
    var tri := [indices[indexOffset], indices[indexOffset + 1], indices[indexOffset + 2]];
    vertices' := AddFaceNormal(vertices, tri, faceNormal);
  }

  /** Adding the normal read from the output vertices is adding the normal of face `f`. */
  lemma FaceAccumulated(a: Attrib, cs: seq<Index>, f: nat, vertices: seq<Vertex>, indices: seq<nat>,
                        vs: seq<Vertex>)
    requires ValidCorners(a, cs) && 3 * f + 3 <= |cs|
    requires Read(a, cs, 3 * f + 3, f, true, vertices, indices)
    requires CornersBelow(vertices, indices, 3 * f)
    requires vs == WithFaceNormal(vertices, Triangle(indices, f), CornerNormal(vertices, indices, 3 * f))
    ensures AllCollected(a, cs, f + 1, true, vs)
  {
    CornerPositions(a, cs, f, true, vertices, indices);
    FaceAdded(a, cs, f, vertices, Triangle(indices, f), CornerNormal(vertices, indices, 3 * f), vs);
  }

  /** The inner loop over the three corners of face `f`. */
  method ReadFace(a: Attrib, cs: seq<Index>, f: nat, ghost computeNormals: bool,
                  vertexMap: map<nat, nat>, vertices: seq<Vertex>, indices: seq<nat>)
      returns (vertexMap': map<nat, nat>, vertices': seq<Vertex>, indices': seq<nat>)
    requires ValidCorners(a, cs) && 3 * f + 3 <= |cs|
    requires Built(a, cs, 3 * f, f, computeNormals, vertexMap, vertices, indices)
    ensures Built(a, cs, 3 * f + 3, f, computeNormals, vertexMap', vertices', indices')
  {
    vertexMap', vertices', indices' := vertexMap, vertices, indices;
    for v := 0 to 3
      invariant Built(a, cs, 3 * f + v, f, computeNormals, vertexMap', vertices', indices')
    {
      vertexMap', vertices', indices' :=
        AddCorner(a, cs, 3 * f + v, f, computeNormals, vertexMap', vertices', indices');
    }
  }

  /** The final loop: every normal replaced by `normalize` of it, nothing else changed. */
  method NormalizeAll(vertices: seq<Vertex>, normalize: Vec -> Vec) returns (vs: seq<Vertex>)
    ensures |vs| == |vertices|
    ensures forall k | 0 <= k < |vs| :: vs[k] == vertices[k].(normal := normalize(vertices[k].normal))
  {
    vs := vertices;
    for j := 0 to |vs|
      invariant |vs| == |vertices|
      invariant forall k | 0 <= k < |vs| ::
                  vs[k] == if k < j then vertices[k].(normal := normalize(vertices[k].normal)) else vertices[k]
    {
      vs := vs[j := vs[j].(normal := normalize(vs[j].normal))];
    }
  }

  /**
    The loop over the faces of one shape: every corner read, every face normal added when
    normals are computed. What comes out is the whole remapping, each vertex with its faces'
    normals collected.
   */
  method CollectShape(a: Attrib, cs: seq<Index>, computeNormals: bool)
      returns (vertices: seq<Vertex>, indices: seq<nat>)
    requires ValidCorners(a, cs) && |cs| % 3 == 0
    ensures indices == Remap(cs).indices && |vertices| == |Remap(cs).order|
    ensures forall j | 0 <= j < |vertices| :: vertices[j] == Collected(a, cs, j, |cs| / 3, computeNormals)
  {
    var vertexMap: map<nat, nat> := map[];
    vertices, indices := [], [];
    var faceCount := |cs| / 3;
    BuiltStart(a, cs, computeNormals);
    for f := 0 to faceCount
      invariant 3 * f <= |cs|
      invariant Built(a, cs, 3 * f, f, computeNormals, vertexMap, vertices, indices)
    {
      vertexMap, vertices, indices := AddFace(a, cs, f, computeNormals, vertexMap, vertices, indices);
    }
    BuiltDone(a, cs, 3 * faceCount, faceCount, computeNormals, vertexMap, vertices, indices);
  }

  /**
    One shape: the corners are read three at a time and, when normals are computed, the
    sums are normalised at the end. The result is exactly `Loaded`: the remapped indices,
    one vertex per distinct file vertex, each with its first corner's attributes and the
    sum of the normals of the faces around it.
   */
  method LoadShape(a: Attrib, cs: seq<Index>, computeNormals: bool, normalize: Vec -> Vec)
      returns (m: Mesh<Vertex>)
    requires ValidCorners(a, cs) && |cs| % 3 == 0
    ensures Loaded(m, a, cs, computeNormals, normalize)
    ensures WellFormed(m)
  {
    var vertices, indices := CollectShape(a, cs, computeNormals);
    if computeNormals {
      vertices := NormalizeAll(vertices, normalize);
    }
    m := Mesh(vertices, indices);
    LoadedWellFormed(m, a, cs, computeNormals, normalize);
  }

  /** What the parser guarantees of every shape: corners in range, and whole triangles. */
  ghost predicate ValidShapes(p: Parsed)
  {
    forall s | 0 <= s < |p.shapes| :: ValidCorners(p.attrib, p.shapes[s]) && |p.shapes[s]| % 3 == 0
  }

  /** The loop over `reader.GetShapes()`: one mesh per shape, in the parser's order. */
  method LoadShapes(p: Parsed, computeNormals: bool, normalize: Vec -> Vec) returns (meshes: seq<Mesh<Vertex>>)
    requires ValidShapes(p)
    ensures |meshes| == |p.shapes|
    ensures forall s | 0 <= s < |meshes| ::
              Loaded(meshes[s], p.attrib, p.shapes[s], computeNormals, normalize) && WellFormed(meshes[s])
  {
    meshes := [];
    for s := 0 to |p.shapes|
      invariant |meshes| == s
      invariant forall t | 0 <= t < s ::
                  Loaded(meshes[t], p.attrib, p.shapes[t], computeNormals, normalize) && WellFormed(meshes[t])
    {
      var m := LoadShape(p.attrib, p.shapes[s], computeNormals, normalize);
      meshes := meshes + [m];
    }
  }

  /**
    `load_obj_file` of 10-objloader: nothing when the file does not parse; otherwise every
    shape's mesh, face normals always accumulated on top of whatever the file gives, and
    then normalised.
   */
  method LoadObjFileAlwaysAccumulating(parsed: Option<Parsed>, normalize: Vec -> Vec)
      returns (meshes: seq<Mesh<Vertex>>)
    requires parsed.Some? ==> ValidShapes(parsed.value)
    ensures parsed.None? ==> meshes == []
    ensures parsed.Some? ==> |meshes| == |parsed.value.shapes|
    ensures parsed.Some? ==> forall s | 0 <= s < |meshes| ::
              Loaded(meshes[s], parsed.value.attrib, parsed.value.shapes[s], true, normalize)
  {
    if parsed.None? {
      return [];
    }
    meshes := LoadShapes(parsed.value, true, normalize);
  }

  /**
    `load_obj_file` of 12-imgui: the same, except that face normals are accumulated and
    normalised only when the file has no normals of its own (`normals.empty()`).
   */
  method LoadObjFile(parsed: Option<Parsed>, normalize: Vec -> Vec) returns (meshes: seq<Mesh<Vertex>>)
    requires parsed.Some? ==> ValidShapes(parsed.value)
    ensures parsed.None? ==> meshes == []
    ensures parsed.Some? ==> |meshes| == |parsed.value.shapes|
    ensures parsed.Some? ==> forall s | 0 <= s < |meshes| ::
              Loaded(meshes[s], parsed.value.attrib, parsed.value.shapes[s],
                     |parsed.value.attrib.normals| == 0, normalize)
  {
    if parsed.None? {
      return [];
    }
    meshes := LoadShapes(parsed.value, |parsed.value.attrib.normals| == 0, normalize);
  }
}
