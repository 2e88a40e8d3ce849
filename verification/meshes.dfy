/** Shared shapes of the generated meshes: a vertex list plus a flat index list. */
module Meshes {

  /** `Mesh` of the renderer: vertices, and indices grouped three by three into triangles. */
  datatype Mesh<V> = Mesh(vertices: seq<V>, indices: seq<nat>)

  datatype Option<T> = None | Some(value: T)

  /** Every index is a valid offset into a vertex list of length `n`. */
  ghost predicate IndicesBelow(indices: seq<nat>, n: nat)
  {
    forall k | 0 <= k < |indices| :: indices[k] < n
  }

  /** The shape the rendering boundary expects: whole triangles, and valid indices. */
  ghost predicate WellFormed<V>(m: Mesh<V>)
  {
    |m.indices| % 3 == 0 && IndicesBelow(m.indices, |m.vertices|)
  }

  /** `k` whole triangles' worth of indices. */
  lemma WholeTriangles(k: nat)
    ensures (3 * k) % 3 == 0
  {
  }

  /** A prefix of a prefix is a prefix, entry by entry. */
  lemma PrefixTransitive<T>(a: seq<T>, b: seq<T>, c: seq<T>)
    requires |a| <= |b| <= |c| && b[..|a|] == a && c[..|b|] == b
    ensures c[..|a|] == a
    ensures forall k | 0 <= k < |a| :: c[k] == a[k]
    ensures forall k | 0 <= k < |b| :: c[k] == b[k]
  {
    assert c[..|a|] == c[..|b|][..|a|];
  }

  /** The three indices of triangle `t`. */
  function Tri(indices: seq<nat>, t: nat): seq<nat>
    requires 3 * t + 3 <= |indices|
  {
    [indices[3 * t], indices[3 * t + 1], indices[3 * t + 2]]
  }

  /** Appending three indices to `k` whole triangles adds triangle `k` and keeps the others. */
  lemma AppendTri(indices: seq<nat>, k: nat, x: nat, y: nat, z: nat)
    requires |indices| == 3 * k
    ensures Tri(indices + [x, y, z], k) == [x, y, z]
    ensures forall t | 0 <= t < k :: Tri(indices + [x, y, z], t) == Tri(indices, t)
  {
    forall t | 0 <= t < k ensures Tri(indices + [x, y, z], t) == Tri(indices, t) {
      assert (indices + [x, y, z])[3 * t .. 3 * t + 3] == indices[3 * t .. 3 * t + 3];
    }
  }

  /** The three vertices triangle `t` draws. */
  function TriVertices<V>(m: Mesh<V>, t: nat): seq<V>
    requires 3 * t + 3 <= |m.indices|
    requires IndicesBelow(m.indices, |m.vertices|)
  {
    [m.vertices[m.indices[3 * t]], m.vertices[m.indices[3 * t + 1]], m.vertices[m.indices[3 * t + 2]]]
  }

  function Pow(b: nat, n: nat): nat
  {
    if n == 0 then 1 else b * Pow(b, n - 1)
  }

  /** A `while (level > 0)` or `for (i < level)` loop runs `max(level, 0)` times. */
  function Passes(level: int): nat
  {
    if level > 0 then level else 0
  }
}
