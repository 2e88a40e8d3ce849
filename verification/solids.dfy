/**
  The meshes built around the subdivided circle: the flat disk fan, the circle line loop,
  the polygon cone and the capped cylinder. Positions and normals are symbolic: a rim
  point is a circle point at some height, an axis point sits on the z axis.
 */
module Solids {
  import opened Meshes
  import opened Subdivision
  import opened Circle

  /** `(x, y, z)` with `(x, y)` the circle point `p`, or `(0, 0, z)`. */
  datatype Point3 = Rim(p: Pos, z: int) | OnAxis(z: int)

  /**
    `Axis(dz)` is `(0, 0, dz)`; `Radial(p)` is `(x, y, 0)` of circle point `p`;
    `Slope(p0, p1)` is the normalised cross product of a cone facet over rim points
    `p0`, `p1`; `Zero` is the value-initialised normal of a resized vertex list.
   */
  datatype Normal = Axis(dz: int) | Radial(p: Pos) | Slope(p0: Pos, p1: Pos) | Zero

  /** A vertex without its texture coordinate. */
  datatype Vertex3 = Vertex3(pos: Point3, normal: Normal)

  /** `v.pos + (0, 0, dz)`. */
  function Lift(q: Point3, dz: int): (r: Point3)
    ensures r.z == q.z + dz
    ensures q.Rim? ==> r == Rim(q.p, q.z + dz)
    ensures q.OnAxis? ==> r.OnAxis?
  {
    match q
    case Rim(p, z) => Rim(p, z + dz)
    case OnAxis(z) => OnAxis(z + dz)
  }

  /**
    `get_disk_primitive`: the vertex list is resized to n + 1; rim vertex i gets circle
    point i, the centre goes last at index n; triangle i is the fan triangle
    (n, i, (i + 1) mod n).
   */
  method DiskPrimitive(subdivideLevel: int) returns (m: Mesh<Vertex3>, ghost circle: seq<Pos>)
    ensures circle == CirclePoints(Passes(subdivideLevel))
    ensures WellFormed(m)
    ensures |m.vertices| == |circle| + 1 && |m.indices| == 3 * |circle|
    ensures m.vertices[|circle|] == Vertex3(OnAxis(0), Axis(1))
    ensures forall i | 0 <= i < |circle| :: m.vertices[i] == Vertex3(Rim(circle[i], 0), Axis(1))
    ensures forall i | 0 <= i < |circle| :: Tri(m.indices, i) == [|circle|, i, (i + 1) % |circle|]
  {
    var initial := SubdivideCircles(subdivideLevel);
    circle := initial;
    CircleSize(Passes(subdivideLevel));
    var n := |initial|;
    var vertices := new Vertex3[n + 1](_ => Vertex3(OnAxis(0), Zero));
    var lastIdx := n;
    var indices: seq<nat> := [];
    for i := 0 to n
      invariant |indices| == 3 * i
      invariant forall k | 0 <= k < i :: vertices[k] == Vertex3(Rim(initial[k], 0), Axis(1))
      invariant forall t | 0 <= t < i :: Tri(indices, t) == [n, t, (t + 1) % n]
      invariant IndicesBelow(indices, n + 1)
    {
      var i0 := i;
      var i1 := (i + 1) % n;
      vertices[i] := Vertex3(Rim(initial[i0], 0), Axis(1));
      AppendTri(indices, i, lastIdx, i0, i1);
      indices := indices + [lastIdx, i0, i1];
    }
    vertices[lastIdx] := Vertex3(OnAxis(0), Axis(1));
    m := Mesh(vertices[..], indices);
    WholeTriangles(n);
  }

  /** `get_circle_primitive` (line loop): vertex i is circle point i, facing +z. */
  method CircleLoopPrimitive(subdivideLevel: int) returns (loop: seq<Vertex3>, ghost circle: seq<Pos>)
    ensures circle == CirclePoints(Passes(subdivideLevel))
    ensures |loop| == |circle|
    ensures forall i | 0 <= i < |circle| :: loop[i] == Vertex3(Rim(circle[i], 0), Axis(1))
  {
    var vertices := SubdivideCircles(subdivideLevel);
    circle := vertices;
    var lineLoops := new Vertex3[|vertices|](_ => Vertex3(OnAxis(0), Zero));
    for i := 0 to |vertices|
      invariant forall k | 0 <= k < i :: lineLoops[k] == Vertex3(Rim(vertices[k], 0), Axis(1))
    {
      lineLoops[i] := Vertex3(Rim(vertices[i], 0), Axis(1));
    }
    loop := lineLoops[..];
  }

  /** The slope facet over rim points `p0`, `p1`: both rim points and the apex, flat-shaded. */
  function SlopeFacet(p0: Pos, p1: Pos): seq<Vertex3>
  {
    [Vertex3(Rim(p0, -1), Slope(p0, p1)), Vertex3(Rim(p1, -1), Slope(p0, p1)), Vertex3(OnAxis(1), Slope(p0, p1))]
  }

  /** The bottom triangle over rim points `p0`, `p1`: both rim points and the bottom centre, facing -z. */
  function BottomFacet(p0: Pos, p1: Pos): seq<Vertex3>
  {
    [Vertex3(Rim(p0, -1), Axis(-1)), Vertex3(Rim(p1, -1), Axis(-1)), Vertex3(OnAxis(-1), Axis(-1))]
  }

  /**
    `get_polygon_cone_primitive`: the bottom centre is vertex 0; per rim edge (i, i + 1 mod n)
    five vertices are appended and two triangles emitted, the slope facet (its own three
    vertices) and the bottom triangle (two new vertices and the shared centre).
   */
  method ConePrimitive(subdivideLevel: int) returns (m: Mesh<Vertex3>, ghost circle: seq<Pos>)
    ensures circle == CirclePoints(Passes(subdivideLevel))
    ensures WellFormed(m)
    ensures |m.vertices| == 1 + 5 * |circle| && |m.indices| == 6 * |circle|
    ensures forall i | 0 <= i < |circle| ::
              && TriVertices(m, 2 * i) == SlopeFacet(circle[i], circle[(i + 1) % |circle|])
              && TriVertices(m, 2 * i + 1) == BottomFacet(circle[i], circle[(i + 1) % |circle|])
  {
    var initial := SubdivideCircles(subdivideLevel);
    circle := initial;
    var n := |initial|;
    var vertices: seq<Vertex3> := [];
    var centerIdx := |vertices|;
    vertices := vertices + [Vertex3(OnAxis(-1), Axis(-1))];
    var indices: seq<nat> := [];
    for i := 0 to n
      invariant ConeInv(initial, i, vertices, indices)
    {
      var p0, p1 := initial[i], initial[(i + 1) % n];
      var normal := Slope(p0, p1);
      var base := |vertices|;
      var added := [Vertex3(Rim(p0, -1), normal), Vertex3(Rim(p1, -1), normal), Vertex3(OnAxis(1), normal),
                    Vertex3(Rim(p0, -1), Axis(-1)), Vertex3(Rim(p1, -1), Axis(-1))];
      var emitted := EdgeIndices(base, centerIdx);
      ConeStep(initial, i, vertices, indices, added, emitted);
      vertices := vertices + added;
      indices := indices + emitted;
    }
    m := Mesh(vertices, indices);
    assert |indices| == 3 * (2 * n);
    WholeTriangles(2 * n);
  }

  /** The six indices one rim edge emits: the slope facet's three new vertices, then the two new bottom vertices and the centre. */
  function EdgeIndices(base: nat, centerIdx: nat): seq<nat>
  {
    [base, base + 1, base + 2, base + 3, base + 4, centerIdx]
  }

  /** The state of the cone loop after `i` rim edges. */
  ghost predicate ConeInv(initial: seq<Pos>, i: nat, vertices: seq<Vertex3>, indices: seq<nat>)
  {
    && i <= |initial|
    && |vertices| == 1 + 5 * i && |indices| == 6 * i
    && vertices[0] == Vertex3(OnAxis(-1), Axis(-1))
    && IndicesBelow(indices, |vertices|)
    && forall t | 0 <= t < i ::
         && TriVertices(Mesh(vertices, indices), 2 * t) == SlopeFacet(initial[t], initial[(t + 1) % |initial|])
         && TriVertices(Mesh(vertices, indices), 2 * t + 1) == BottomFacet(initial[t], initial[(t + 1) % |initial|])
  }

  /** Appending one rim edge's vertices and indices keeps the earlier triangles and adds the two new ones. */
  lemma ConeStep(initial: seq<Pos>, i: nat, vertices: seq<Vertex3>, indices: seq<nat>, added: seq<Vertex3>, emitted: seq<nat>)
    requires ConeInv(initial, i, vertices, indices) && i < |initial|
    requires var p0, p1 := initial[i], initial[(i + 1) % |initial|];
             added == [Vertex3(Rim(p0, -1), Slope(p0, p1)), Vertex3(Rim(p1, -1), Slope(p0, p1)), Vertex3(OnAxis(1), Slope(p0, p1)),
                       Vertex3(Rim(p0, -1), Axis(-1)), Vertex3(Rim(p1, -1), Axis(-1))]
    requires emitted == EdgeIndices(|vertices|, 0)
    ensures ConeInv(initial, i + 1, vertices + added, indices + emitted)
  {
    var V, I := vertices + added, indices + emitted;
    var p0, p1 := initial[i], initial[(i + 1) % |initial|];
    assert IndicesBelow(I, |V|);
    forall t | 0 <= t < 2 * i
      ensures TriVertices(Mesh(V, I), t) == TriVertices(Mesh(vertices, indices), t)
    {
      assert I[3 * t] == indices[3 * t] && I[3 * t + 1] == indices[3 * t + 1] && I[3 * t + 2] == indices[3 * t + 2];
    }
    assert TriVertices(Mesh(V, I), 2 * i) == SlopeFacet(p0, p1);
    assert TriVertices(Mesh(V, I), 2 * i + 1) == BottomFacet(p0, p1);
  }

  /**
    The side wall over circle `c`: circle point i gives vertex 2i at z = -1 and vertex
    2i + 1 at z = 1, both with the radial normal; rim edge (i, j = i + 1 mod n) gives the
    two triangles (2i, 2j, 2j + 1) and (2i, 2j + 1, 2i + 1) of its quad.
   */
  ghost predicate SideWall(c: seq<Pos>, V: seq<Vertex3>, I: seq<nat>)
  {
    && |V| == 2 * |c| && |I| == 6 * |c|
    && (forall i | 0 <= i < |c| ::
          && V[2 * i] == Vertex3(Rim(c[i], -1), Radial(c[i]))
          && V[2 * i + 1] == Vertex3(Rim(c[i], 1), Radial(c[i])))
    && (forall i | 0 <= i < |c| ::
          var j := (i + 1) % |c|;
          Tri(I, 2 * i) == [2 * i, 2 * j, 2 * j + 1] && Tri(I, 2 * i + 1) == [2 * i, 2 * j + 1, 2 * i + 1])
  }

  /** `get_cylinder_primitive`'s first loop: two rim vertices per circle point and two side triangles per rim edge. */
  method CylinderSide(initial: seq<Pos>) returns (vertices: seq<Vertex3>, indices: seq<nat>)
    ensures IndicesBelow(indices, |vertices|)
    ensures SideWall(initial, vertices, indices)
  {
    var n := |initial|;
    vertices, indices := [], [];
    for i := 0 to n
      invariant |vertices| == 2 * i && |indices| == 6 * i
      invariant forall k | 0 <= k < 6 * i :: indices[k] < 2 * n
      invariant forall k | 0 <= k < i ::
                  && vertices[2 * k] == Vertex3(Rim(initial[k], -1), Radial(initial[k]))
                  && vertices[2 * k + 1] == Vertex3(Rim(initial[k], 1), Radial(initial[k]))
      invariant forall k | 0 <= k < i ::
                  var j := (k + 1) % n;
                  Tri(indices, 2 * k) == [2 * k, 2 * j, 2 * j + 1] && Tri(indices, 2 * k + 1) == [2 * k, 2 * j + 1, 2 * k + 1]
    {
      var j := (i + 1) % n;
      var n0 := Radial(initial[i]);
      vertices := vertices + [Vertex3(Rim(initial[i], -1), n0), Vertex3(Rim(initial[i], 1), n0)];
      var i0 := 2 * i;
      var i2 := i0 + 1;
      var i1 := 2 * j;
      var i3 := i1 + 1;
      var emitted := [i0, i1, i3, i0, i3, i2];
      SideStep(indices, emitted, i);
      indices := indices + emitted;
    }
  }

  /** Appending six indices keeps the earlier triangles and adds two new ones. */
  lemma SideStep(indices: seq<nat>, emitted: seq<nat>, i: nat)
    requires |indices| == 6 * i && |emitted| == 6
    ensures forall t | 0 <= t < 2 * i :: Tri(indices + emitted, t) == Tri(indices, t)
    ensures Tri(indices + emitted, 2 * i) == emitted[..3] && Tri(indices + emitted, 2 * i + 1) == emitted[3..]
  {
    forall t | 0 <= t < 2 * i ensures Tri(indices + emitted, t) == Tri(indices, t) {
      assert (indices + emitted)[3 * t .. 3 * t + 3] == indices[3 * t .. 3 * t + 3];
    }
  }

  /**
    One cap of the cylinder: with `index_offset` the current vertex count, append the disk's
    vertices lifted by `dz` and facing `(0, 0, dz)`, and the disk's indices shifted by the
    offset. Indices that were valid stay valid, and the disk's triangles keep their
    vertices.
   */
  method AppendCap(vertices: seq<Vertex3>, indices: seq<nat>, disk: Mesh<Vertex3>, dz: int)
      returns (vertices': seq<Vertex3>, indices': seq<nat>)
    requires IndicesBelow(indices, |vertices|) && WellFormed(disk)
    ensures |vertices'| == |vertices| + |disk.vertices| && vertices'[..|vertices|] == vertices
    ensures forall k | 0 <= k < |disk.vertices| ::
              vertices'[|vertices| + k] == Vertex3(Lift(disk.vertices[k].pos, dz), Axis(dz))
    ensures |indices'| == |indices| + |disk.indices| && indices'[..|indices|] == indices
    ensures forall k | 0 <= k < |disk.indices| :: indices'[|indices| + k] == disk.indices[k] + |vertices|
    ensures IndicesBelow(indices', |vertices'|)
  {
    var indexOffset := |vertices|;
    vertices' := vertices;
    for k := 0 to |disk.vertices|
      invariant |vertices'| == indexOffset + k && vertices'[..indexOffset] == vertices
      invariant forall q | 0 <= q < k :: vertices'[indexOffset + q] == Vertex3(Lift(disk.vertices[q].pos, dz), Axis(dz))
    {
      vertices' := vertices' + [Vertex3(Lift(disk.vertices[k].pos, dz), Axis(dz))];
    }
    indices' := indices;
    for k := 0 to |disk.indices|
      invariant |indices'| == |indices| + k && indices'[..|indices|] == indices
      invariant forall q | 0 <= q < k :: indices'[|indices| + q] == disk.indices[q] + indexOffset
      invariant IndicesBelow(indices', |vertices'|)
    {
      indices' := indices' + [disk.indices[k] + indexOffset];
    }
  }

  /**
    `get_cylinder_primitive`: the side wall, then the top cap (the disk lifted to z = 1,
    offset 2n) and the bottom cap (lowered to z = -1, offset 3n + 1). All indices are valid;
    there are 4n + 2 vertices and 12n indices.
   */
  method CylinderPrimitive(subdivideLevel: int) returns (m: Mesh<Vertex3>, ghost circle: seq<Pos>)
    ensures circle == CirclePoints(Passes(subdivideLevel))
    ensures WellFormed(m)
    ensures |m.vertices| == 4 * |circle| + 2 && |m.indices| == 12 * |circle|
    ensures SideWall(circle, m.vertices[..2 * |circle|], m.indices[..6 * |circle|])
    ensures CapFans(m.indices, |circle|)
    ensures m.vertices[3 * |circle|] == Vertex3(OnAxis(1), Axis(1))
    ensures m.vertices[4 * |circle| + 1] == Vertex3(OnAxis(-1), Axis(-1))
    ensures forall i | 0 <= i < |circle| ::
              && m.vertices[2 * |circle| + i] == Vertex3(Rim(circle[i], 1), Axis(1))
              && m.vertices[3 * |circle| + 1 + i] == Vertex3(Rim(circle[i], -1), Axis(-1))
  {
    var initial := SubdivideCircles(subdivideLevel);
    circle := initial;
    var n := |initial|;
    var vertices, indices := CylinderSide(initial);
    var diskFace, diskCircle := DiskPrimitive(subdivideLevel);
    var v2, i2 := AppendCaps(vertices, indices, diskFace, initial);
    m := Mesh(v2, i2);
    assert |i2| == 3 * (4 * n);
    WholeTriangles(4 * n);
  }

  /**
    Triangle slots s .. s + n hold a copy of the n-triangle disk fan with every index
    shifted by `offset`: the centre is `n + offset` and slot s + i joins rim vertices
    `i + offset` and `(i + 1) mod n + offset`.
   */
  ghost predicate FanAt(I: seq<nat>, n: nat, s: nat, offset: nat)
  {
    forall t | s <= t < s + n :: 3 * t + 3 <= |I| && Tri(I, t) == [n + offset, t - s + offset, (t - s + 1) % n + offset]
  }

  /**
    Triangle slots 2n .. 3n hold the top cap's fan around its centre 3n (rim vertices
    2n .. 3n), slots 3n .. 4n the bottom cap's fan around its centre 4n + 1 (rim vertices
    3n + 1 .. 4n + 1); both run over the rim in the circle's order.
   */
  ghost predicate CapFans(I: seq<nat>, n: nat)
  {
    |I| == 12 * n && FanAt(I, n, 2 * n, 2 * n) && FanAt(I, n, 3 * n, 3 * n + 1)
  }

  /**
    The two caps of the cylinder, appended after a side wall of 2n vertices and 2n
    triangles: the top cap's centre lands at 3n, the bottom cap's at 4n + 1, and the fan
    triangles fill triangle slots 2n .. 4n.
   */
  method AppendCaps(vertices: seq<Vertex3>, indices: seq<nat>, disk: Mesh<Vertex3>, c: seq<Pos>)
      returns (v2: seq<Vertex3>, i2: seq<nat>)
    requires |vertices| == 2 * |c| && |indices| == 6 * |c| && IndicesBelow(indices, |vertices|)
    requires WellFormed(disk) && |disk.vertices| == |c| + 1 && |disk.indices| == 3 * |c|
    requires disk.vertices[|c|] == Vertex3(OnAxis(0), Axis(1))
    requires forall i | 0 <= i < |c| :: disk.vertices[i] == Vertex3(Rim(c[i], 0), Axis(1))
    requires forall t | 0 <= t < |c| :: Tri(disk.indices, t) == [|c|, t, (t + 1) % |c|]
    ensures |v2| == 4 * |c| + 2 && v2[..2 * |c|] == vertices
    ensures |i2| == 12 * |c| && i2[..6 * |c|] == indices && IndicesBelow(i2, |v2|)
    ensures v2[3 * |c|] == Vertex3(OnAxis(1), Axis(1))
    ensures v2[4 * |c| + 1] == Vertex3(OnAxis(-1), Axis(-1))
    ensures forall i | 0 <= i < |c| ::
              v2[2 * |c| + i] == Vertex3(Rim(c[i], 1), Axis(1)) && v2[3 * |c| + 1 + i] == Vertex3(Rim(c[i], -1), Axis(-1))
    ensures CapFans(i2, |c|)
  {
    var n := |c|;
    var v1, i1 := AppendCap(vertices, indices, disk, 1);
    v2, i2 := AppendCap(v1, i1, disk, -1);
    PrefixTransitive(vertices, v1, v2);
    CapVertices(v1, v2, disk.vertices, c, 2 * n, 1);
    CapVertices(v2, v2, disk.vertices, c, 3 * n + 1, -1);
    PrefixTransitive(indices, i1, i2);
    CapTriangles(i2, disk.indices, n, 2 * n, 2 * n);
    CapTriangles(i2, disk.indices, n, 3 * n, 3 * n + 1);
  }

  /**
    The disk's vertices, lifted by `dz`, sit at `offset` .. `offset + n` after the copy:
    rim vertex i is circle point i at height `dz`, the centre is `(0, 0, dz)`, and all of
    them face `(0, 0, dz)`.
   */
  lemma CapVertices(v: seq<Vertex3>, w: seq<Vertex3>, disk: seq<Vertex3>, c: seq<Pos>, offset: nat, dz: int)
    requires |disk| == |c| + 1 && disk[|c|] == Vertex3(OnAxis(0), Axis(1))
    requires forall i | 0 <= i < |c| :: disk[i] == Vertex3(Rim(c[i], 0), Axis(1))
    requires offset + |disk| <= |v| <= |w| && (forall k | 0 <= k < |v| :: w[k] == v[k])
    requires forall k | 0 <= k < |disk| :: v[offset + k] == Vertex3(Lift(disk[k].pos, dz), Axis(dz))
    ensures w[offset + |c|] == Vertex3(OnAxis(dz), Axis(dz))
    ensures forall i | 0 <= i < |c| :: w[offset + i] == Vertex3(Rim(c[i], dz), Axis(dz))
  {
    assert v[offset + |c|] == Vertex3(Lift(disk[|c|].pos, dz), Axis(dz));
    forall i | 0 <= i < |c| ensures w[offset + i] == Vertex3(Rim(c[i], dz), Axis(dz)) {
      assert v[offset + i] == Vertex3(Lift(disk[i].pos, dz), Axis(dz));
    }
  }

  /** A disk's fan triangles, copied at triangle slot `s` with every index shifted by `offset`. */
  lemma CapTriangles(I: seq<nat>, D: seq<nat>, n: nat, s: nat, offset: nat)
    requires |D| == 3 * n && 3 * s + |D| <= |I|
    requires forall t | 0 <= t < n :: Tri(D, t) == [n, t, (t + 1) % n]
    requires forall k | 0 <= k < |D| :: I[3 * s + k] == D[k] + offset
    ensures FanAt(I, n, s, offset)
  {
    forall t | s <= t < s + n
      ensures Tri(I, t) == [n + offset, t - s + offset, (t - s + 1) % n + offset]
    {
      var i := t - s;
      assert Tri(D, i) == [n, i, (i + 1) % n];
      assert D[3 * i] == n && D[3 * i + 1] == i && D[3 * i + 2] == (i + 1) % n;
      assert I[3 * s + 3 * i] == D[3 * i] + offset;
      assert I[3 * s + 3 * i + 1] == D[3 * i + 1] + offset;
      assert I[3 * s + 3 * i + 2] == D[3 * i + 2] + offset;
    }
  }
}
