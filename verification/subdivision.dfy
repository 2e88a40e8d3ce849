/**
  One subdivision pass of the icosphere and simplex-disk generators: every triangle is
  split into four, with one midpoint vertex per distinct edge, found through a per-pass
  midpoint cache.
 */
module Subdivision {
  import opened EdgeKeys
  import opened Meshes

  /**
    A symbolic vertex position. `Base(k)` is the k-th vertex of the base shape and
    `Mid(a, b)` the midpoint the generator computes from `a` and `b` (re-normalised onto
    the unit sphere for the icosphere, the plain average for the simplex disk).
   */
  datatype Pos = Base(k: nat) | Mid(a: Pos, b: Pos)

  /** The two child layouts: the icosphere's and the simplex disk's. */
  datatype Scheme = IcosphereLayout | SimplexDiskLayout

  /**
    The 12 indices emitted for parent (i0, i1, i2) with midpoints a = mid(i0, i1),
    b = mid(i1, i2), c = mid(i2, i0).
   */
  function Children(s: Scheme, i0: nat, i1: nat, i2: nat, a: nat, b: nat, c: nat): (r: seq<nat>)
    ensures |r| == 12
  {
    match s
    case IcosphereLayout => [i0, a, c, i1, b, a, i2, c, b, a, b, c]
    case SimplexDiskLayout => [i0, a, c, a, i1, b, c, b, i2, a, b, c]
  }

  /** `u` is `v` started at another of its corners: the same triangle, with the same orientation. */
  ghost predicate SameOrientedTriangle(u: seq<nat>, v: seq<nat>)
    requires |u| == 3 && |v| == 3
  {
    u == v || u == [v[1], v[2], v[0]] || u == [v[2], v[0], v[1]]
  }

  /**
    The two layouts emit the same four children, (i0, a, c), (i1, b, a), (i2, c, b) and
    (a, b, c), each with the same orientation; they differ only in the corner each child
    starts at.
   */
  lemma LayoutsAgree(i0: nat, i1: nat, i2: nat, a: nat, b: nat, c: nat, k: nat)
    requires k < 4
    ensures SameOrientedTriangle(Tri(Children(IcosphereLayout, i0, i1, i2, a, b, c), k),
                                 Tri(Children(SimplexDiskLayout, i0, i1, i2, a, b, c), k))
    ensures Tri(Children(IcosphereLayout, i0, i1, i2, a, b, c), 0) == [i0, a, c]
    ensures Tri(Children(IcosphereLayout, i0, i1, i2, a, b, c), 1) == [i1, b, a]
    ensures Tri(Children(IcosphereLayout, i0, i1, i2, a, b, c), 2) == [i2, c, b]
    ensures Tri(Children(IcosphereLayout, i0, i1, i2, a, b, c), 3) == [a, b, c]
  {
  }

  /** The three (canonical) edges of triangle `t` of an index list. */
  function TriEdges(I: seq<nat>, t: nat): set<Edge>
    requires 3 * t + 3 <= |I|
  {
    {EdgeOf(I[3 * t], I[3 * t + 1]), EdgeOf(I[3 * t + 1], I[3 * t + 2]), EdgeOf(I[3 * t + 2], I[3 * t])}
  }

  /** The distinct edges of the first `n` triangles. */
  function EdgesOf(I: seq<nat>, n: nat): set<Edge>
    requires 3 * n <= |I|
  {
    if n == 0 then {} else EdgesOf(I, n - 1) + TriEdges(I, n - 1)
  }

  /** `p` is the midpoint of edge `e`'s two ends, in either order. */
  ghost predicate IsMidpointOf(p: Pos, V: seq<Pos>, e: Edge)
    requires e.lo <= e.hi < |V|
  {
    p == Mid(V[e.lo], V[e.hi]) || p == Mid(V[e.hi], V[e.lo])
  }

  /** The children of triangle `t`, with its midpoints looked up in `cache`. */
  function ChildrenOf(s: Scheme, I: seq<nat>, t: nat, cache: map<Edge, nat>): seq<nat>
    requires 3 * t + 3 <= |I|
    requires TriEdges(I, t) <= cache.Keys
  {
    var i0, i1, i2 := I[3 * t], I[3 * t + 1], I[3 * t + 2];
    Children(s, i0, i1, i2, cache[EdgeOf(i0, i1)], cache[EdgeOf(i1, i2)], cache[EdgeOf(i2, i0)])
  }

  /** The 12 indices a pass emits for parent triangle `t`. */
  function Block(s: seq<nat>, t: nat): seq<nat>
    requires 12 * t + 12 <= |s|
  {
    s[12 * t .. 12 * t + 12]
  }

  /** Every entry of `before` is still in `after`, with the same value. */
  ghost predicate Extends(before: map<Edge, nat>, after: map<Edge, nat>)
  {
    forall e | e in before :: e in after && after[e] == before[e]
  }

  /**
    The state `get_midpoint_index` works on: the vertex list of the previous level
    (`base`), the growing copy (`vertices`) and the midpoint cache. The copy keeps the
    previous level as a prefix; every cached edge joins two old vertices and owns one
    appended vertex, its midpoint; no two edges share one, and nothing else was appended.
   */
  ghost predicate CacheInv(base: seq<Pos>, vertices: seq<Pos>, cache: map<Edge, nat>)
  {
    && |base| <= |vertices|
    && vertices[..|base|] == base
    && |vertices| == |base| + |cache|
    && (forall e | e in cache ::
          && e.lo <= e.hi < |base| && |base| <= cache[e] < |vertices|
          && IsMidpointOf(vertices[cache[e]], base, e))
    && (forall e1, e2 | e1 in cache && e2 in cache && e1 != e2 :: cache[e1] != cache[e2])
  }

  /**
    `get_midpoint_index(i0, i1)`, the lambda that captures the copy and the cache by
    reference: a cache hit returns the stored index and appends nothing; a miss appends
    the midpoint of the two previous-level vertices, and its index is the list size
    before the append.
   */
  method GetMidpointIndex(base: seq<Pos>, vertices: seq<Pos>, cache: map<Edge, nat>, i0: nat, i1: nat)
      returns (vertices': seq<Pos>, cache': map<Edge, nat>, idx: nat)
    requires CacheInv(base, vertices, cache)
    requires i0 < |base| && i1 < |base|
    ensures CacheInv(base, vertices', cache')
    ensures cache'.Keys == cache.Keys + {EdgeOf(i0, i1)}
    ensures Extends(cache, cache')
    ensures |vertices| <= |vertices'|
    ensures EdgeOf(i0, i1) in cache' && idx == cache'[EdgeOf(i0, i1)] && idx < |vertices'|
    ensures EdgeOf(i0, i1) in cache ==> vertices' == vertices && cache' == cache
    ensures EdgeOf(i0, i1) !in cache ==>
              && idx == |vertices|
              && vertices' == vertices + [Mid(base[i0], base[i1])]
              && cache' == cache[EdgeOf(i0, i1) := idx]
  {
    var key := EdgeOf(i0, i1);
    if key in cache {
      return vertices, cache, cache[key];
    }
    vertices' := vertices + [Mid(base[i0], base[i1])];
    idx := |vertices'| - 1;
    cache' := cache[key := idx];
    CacheInvAppend(base, vertices, cache, i0, i1);
  }

  /** A miss keeps the invariant: the appended vertex is the new edge's midpoint and its index is fresh. */
  lemma CacheInvAppend(base: seq<Pos>, vertices: seq<Pos>, cache: map<Edge, nat>, i0: nat, i1: nat)
    requires CacheInv(base, vertices, cache)
    requires i0 < |base| && i1 < |base| && EdgeOf(i0, i1) !in cache
    ensures CacheInv(base, vertices + [Mid(base[i0], base[i1])], cache[EdgeOf(i0, i1) := |vertices|])
  {
    var e0 := EdgeOf(i0, i1);
    var v' := vertices + [Mid(base[i0], base[i1])];
    var c' := cache[e0 := |vertices|];
    assert v'[..|base|] == vertices[..|base|];
    assert |c'| == |cache| + 1;
    forall e | e in c'
      ensures e.lo <= e.hi < |base| && |base| <= c'[e] < |v'| && IsMidpointOf(v'[c'[e]], base, e)
    {
      if e != e0 {
        assert v'[c'[e]] == vertices[cache[e]];
      }
    }
  }

  /** Blocks already emitted stay the same when more indices are appended. */
  lemma BlockOfPrefix(s: seq<nat>, more: seq<nat>, t: nat)
    requires 12 * t + 12 <= |s|
    ensures Block(s + more, t) == Block(s, t)
  {
    assert (s + more)[12 * t .. 12 * t + 12] == s[12 * t .. 12 * t + 12];
  }

  /** Children only use the parent's corners and its midpoints. */
  lemma ChildrenBelow(s: Scheme, i0: nat, i1: nat, i2: nat, a: nat, b: nat, c: nat, n: nat)
    requires i0 < n && i1 < n && i2 < n && a < n && b < n && c < n
    ensures IndicesBelow(Children(s, i0, i1, i2, a, b, c), n)
  {
    var r := Children(s, i0, i1, i2, a, b, c);
    forall k | 0 <= k < 12 ensures r[k] < n {
      assert r[k] in {i0, i1, i2, a, b, c};
    }
  }

  lemma ExtendsTrans(a: map<Edge, nat>, b: map<Edge, nat>, c: map<Edge, nat>)
    requires Extends(a, b) && Extends(b, c)
    ensures Extends(a, c)
  {
  }

  /** Three lookups in a row: the cache gains the three edges, and each answer stays cached. */
  lemma ThreeLookups(c0: map<Edge, nat>, c1: map<Edge, nat>, c2: map<Edge, nat>, c3: map<Edge, nat>, e0: Edge, e1: Edge, e2: Edge)
    requires c1.Keys == c0.Keys + {e0} && c2.Keys == c1.Keys + {e1} && c3.Keys == c2.Keys + {e2}
    requires Extends(c0, c1) && Extends(c1, c2) && Extends(c2, c3)
    ensures c3.Keys == c0.Keys + {e0, e1, e2}
    ensures Extends(c0, c3)
    ensures e0 in c3 && c3[e0] == c1[e0]
    ensures e1 in c3 && c3[e1] == c2[e1]
  {
    ExtendsTrans(c0, c1, c2);
    ExtendsTrans(c0, c2, c3);
    ExtendsTrans(c1, c2, c3);
  }

  /** A cache that only gained entries gives an earlier triangle the same children. */
  lemma ChildrenOfStable(s: Scheme, I: seq<nat>, t: nat, before: map<Edge, nat>, after: map<Edge, nat>)
    requires 3 * t + 3 <= |I|
    requires TriEdges(I, t) <= before.Keys
    requires Extends(before, after)
    ensures TriEdges(I, t) <= after.Keys
    ensures ChildrenOf(s, I, t, after) == ChildrenOf(s, I, t, before)
  {
  }

  /**
    The three `get_midpoint_index` calls for a parent triangle (i0, i1, i2), in the order
    of its edges (i0, i1), (i1, i2), (i2, i0): the cache gains exactly those three edges,
    keeps its earlier entries, and maps each edge to the index returned for it.
   */
  method TriangleMidpoints(base: seq<Pos>, vertices: seq<Pos>, cache: map<Edge, nat>, i0: nat, i1: nat, i2: nat)
      returns (vertices': seq<Pos>, cache': map<Edge, nat>, a: nat, b: nat, c: nat)
    requires CacheInv(base, vertices, cache)
    requires i0 < |base| && i1 < |base| && i2 < |base|
    ensures CacheInv(base, vertices', cache')
    ensures |vertices| <= |vertices'|
    ensures cache'.Keys == cache.Keys + {EdgeOf(i0, i1), EdgeOf(i1, i2), EdgeOf(i2, i0)}
    ensures Extends(cache, cache')
    ensures cache'[EdgeOf(i0, i1)] == a && cache'[EdgeOf(i1, i2)] == b && cache'[EdgeOf(i2, i0)] == c
    ensures a < |vertices'| && b < |vertices'| && c < |vertices'|
    ensures |base| <= |vertices'|
  {
    var v1, c1;
    v1, c1, a := GetMidpointIndex(base, vertices, cache, i0, i1);
    var v2, c2;
    v2, c2, b := GetMidpointIndex(base, v1, c1, i1, i2);
    vertices', cache', c := GetMidpointIndex(base, v2, c2, i2, i0);
    ThreeLookups(cache, c1, c2, cache', EdgeOf(i0, i1), EdgeOf(i1, i2), EdgeOf(i2, i0));
  }

  /**
    The body of the pass for parent triangle `t`, whose indices start at `i`: three cache
    lookups and the four children. The cache gains exactly the triangle's edges and keeps
    its old entries.
   */
  method EmitChildren(base: seq<Pos>, vertices: seq<Pos>, cache: map<Edge, nat>, s: Scheme,
                      I: seq<nat>, i: nat, ghost t: nat)
      returns (vertices': seq<Pos>, cache': map<Edge, nat>, children: seq<nat>)
    requires CacheInv(base, vertices, cache)
    requires i == 3 * t && i + 3 <= |I|
    requires I[i] < |base| && I[i + 1] < |base| && I[i + 2] < |base|
    ensures CacheInv(base, vertices', cache')
    ensures |vertices| <= |vertices'|
    ensures cache'.Keys == cache.Keys + TriEdges(I, t)
    ensures Extends(cache, cache')
    ensures children == ChildrenOf(s, I, t, cache')
    ensures IndicesBelow(children, |vertices'|)
  {
    var i0, i1, i2 := I[i], I[i + 1], I[i + 2];
    var a, b, c;
    vertices', cache', a, b, c := TriangleMidpoints(base, vertices, cache, i0, i1, i2);
    children := Children(s, i0, i1, i2, a, b, c);
    ParentDone(s, I, i, t, cache, cache', a, b, c, |base|, |vertices'|);
  }

  /**
    Once the three lookups for parent `t` are done, the cache has gained exactly the
    triangle's edges, and the children built from the answers are `ChildrenOf` the
    parent, all below `n` when the parent's corners and the answers are.
   */
  lemma ParentDone(s: Scheme, I: seq<nat>, i: nat, t: nat, cache: map<Edge, nat>, cache': map<Edge, nat>,
                   a: nat, b: nat, c: nat, m: nat, n: nat)
    requires i == 3 * t && i + 3 <= |I|
    requires I[i] < m && I[i + 1] < m && I[i + 2] < m
    requires cache'.Keys == cache.Keys + {EdgeOf(I[i], I[i + 1]), EdgeOf(I[i + 1], I[i + 2]), EdgeOf(I[i + 2], I[i])}
    requires cache'[EdgeOf(I[i], I[i + 1])] == a && cache'[EdgeOf(I[i + 1], I[i + 2])] == b && cache'[EdgeOf(I[i + 2], I[i])] == c
    requires a < n && b < n && c < n
    requires m <= n
    ensures cache'.Keys == cache.Keys + TriEdges(I, t)
    ensures ChildrenOf(s, I, t, cache') == Children(s, I[i], I[i + 1], I[i + 2], a, b, c)
    ensures IndicesBelow(ChildrenOf(s, I, t, cache'), n)
  {
    ChildrenBelow(s, I[i], I[i + 1], I[i + 2], a, b, c, n);
  }

  lemma IndicesBelowConcat(a: seq<nat>, b: seq<nat>, n: nat, m: nat)
    requires IndicesBelow(a, n) && IndicesBelow(b, m) && n <= m
    ensures IndicesBelow(a + b, m)
  {
  }

  /**
    One parent handled: the cache now holds the edges of the first t + 1 triangles, and the
    index list, extended by the new children, holds the children of each of them.
   */
  lemma PassStep(s: Scheme, I: seq<nat>, t: nat, out: seq<nat>, children: seq<nat>,
                 before: map<Edge, nat>, after: map<Edge, nat>)
    requires 3 * t + 3 <= |I| && |out| == 12 * t
    requires before.Keys == EdgesOf(I, t)
    requires after.Keys == before.Keys + TriEdges(I, t)
    requires Extends(before, after)
    requires forall u | 0 <= u < t :: TriEdges(I, u) <= before.Keys
    requires forall u | 0 <= u < t :: Block(out, u) == ChildrenOf(s, I, u, before)
    requires children == ChildrenOf(s, I, t, after)
    ensures after.Keys == EdgesOf(I, t + 1)
    ensures forall u | 0 <= u < t + 1 :: TriEdges(I, u) <= after.Keys
    ensures forall u | 0 <= u < t + 1 :: Block(out + children, u) == ChildrenOf(s, I, u, after)
  {
    forall u | 0 <= u < t
      ensures TriEdges(I, u) <= after.Keys
      ensures Block(out + children, u) == ChildrenOf(s, I, u, after)
    {
      BlockOfPrefix(out, children, u);
      ChildrenOfStable(s, I, u, before, after);
    }
    assert Block(out + children, t) == children;
  }

  /**
    What the pass has built after its first `t` parents: the cache holds exactly their
    edges and the output holds exactly their children, in order.
   */
  ghost predicate PassInv(V: seq<Pos>, I: seq<nat>, s: Scheme, t: nat, V': seq<Pos>, out: seq<nat>, cache: map<Edge, nat>)
  {
    && 3 * t <= |I|
    && CacheInv(V, V', cache)
    && cache.Keys == EdgesOf(I, t)
    && |out| == 12 * t
    && IndicesBelow(out, |V'|)
    && (forall u | 0 <= u < t :: TriEdges(I, u) <= cache.Keys)
    && (forall u | 0 <= u < t :: Block(out, u) == ChildrenOf(s, I, u, cache))
  }

  /** The loop body keeps `PassInv`. */
  lemma PassInvStep(V: seq<Pos>, I: seq<nat>, s: Scheme, t: nat, V0: seq<Pos>, out: seq<nat>,
                    before: map<Edge, nat>, V1: seq<Pos>, after: map<Edge, nat>, children: seq<nat>)
    requires PassInv(V, I, s, t, V0, out, before) && 3 * t + 3 <= |I|
    requires CacheInv(V, V1, after) && |V0| <= |V1|
    requires after.Keys == before.Keys + TriEdges(I, t)
    requires Extends(before, after)
    requires children == ChildrenOf(s, I, t, after)
    requires IndicesBelow(children, |V1|)
    ensures PassInv(V, I, s, t + 1, V1, out + children, after)
  {
    PassStep(s, I, t, out, children, before, after);
    IndicesBelowConcat(out, children, |V0|, |V1|);
  }

  /**
    The `for` loop of a pass over the parent triangles. The previous vertex list stays an
    unchanged prefix; exactly one vertex, the midpoint, is appended per distinct edge;
    triangle `t` becomes the 12 indices of its four children; the triangle count is
    multiplied by 4; and valid input indices give valid output indices.
   */
  method SubdivideTriangles(V: seq<Pos>, I: seq<nat>, s: Scheme)
      returns (V': seq<Pos>, I': seq<nat>, cache: map<Edge, nat>)
    requires |I| % 3 == 0
    requires IndicesBelow(I, |V|)
    ensures CacheInv(V, V', cache)
    ensures cache.Keys == EdgesOf(I, |I| / 3)
    ensures |I'| == 4 * |I|
    ensures IndicesBelow(I', |V'|)
    ensures forall t | 0 <= t < |I| / 3 :: TriEdges(I, t) <= cache.Keys
    ensures forall t | 0 <= t < |I| / 3 :: Block(I', t) == ChildrenOf(s, I, t, cache)
  {
    V' := V;
    cache := map[];
    I' := [];
    ghost var n := |I| / 3;
    assert |I| == 3 * n;
    var i := 0;
    ghost var t := 0;
    assert V[..|V|] == V;
    while i < |I|
      invariant i == 3 * t && t <= n
      invariant PassInv(V, I, s, t, V', I', cache)
    {
      var children;
      ghost var beforeV, before := V', cache;
      V', cache, children := EmitChildren(V, V', cache, s, I, i, t);
      PassInvStep(V, I, s, t, beforeV, I', before, V', cache, children);
      I' := I' + children;
      i := i + 3;
      t := t + 1;
    }
    assert t == n;
  }

  /**
    `V'`, `I'` is one pass of scheme `s` over `V`, `I` with midpoint cache `cache`: the
    cache holds exactly the distinct edges of the parents, each owning one appended vertex,
    its midpoint (nothing else is appended, and `V` stays a prefix), every new index is a
    valid offset into `V'`, and block `t` of `I'` is parent `t`'s four children, with
    their midpoints looked up in the cache.
   */
  ghost predicate IsPass(s: Scheme, V: seq<Pos>, I: seq<nat>, V': seq<Pos>, I': seq<nat>, cache: map<Edge, nat>)
  {
    && |I| % 3 == 0
    && CacheInv(V, V', cache)
    && cache.Keys == EdgesOf(I, |I| / 3)
    && |I'| == 4 * |I|
    && IndicesBelow(I', |V'|)
    && (forall t | 0 <= t < |I| / 3 :: TriEdges(I, t) <= cache.Keys && Block(I', t) == ChildrenOf(s, I, t, cache))
  }

  /** Each level of `levels` is a pass of scheme `s` over the one before, with cache `caches[k]`. */
  ghost predicate PassChain(s: Scheme, levels: seq<Mesh<Pos>>, caches: seq<map<Edge, nat>>)
  {
    && |levels| == |caches| + 1
    && forall k {:trigger caches[k]} | 0 <= k < |caches| ::
         IsPass(s, levels[k].vertices, levels[k].indices, levels[k + 1].vertices, levels[k + 1].indices, caches[k])
  }

  /** A chain followed by one more pass is a chain one level longer. */
  lemma PassChainStep(s: Scheme, levels: seq<Mesh<Pos>>, caches: seq<map<Edge, nat>>, m: Mesh<Pos>, cache: map<Edge, nat>)
    requires PassChain(s, levels, caches)
    requires IsPass(s, levels[|caches|].vertices, levels[|caches|].indices, m.vertices, m.indices, cache)
    ensures PassChain(s, levels + [m], caches + [cache])
  {
    var L, C := levels + [m], caches + [cache];
    forall k | 0 <= k < |C|
      ensures IsPass(s, L[k].vertices, L[k].indices, L[k + 1].vertices, L[k + 1].indices, C[k])
    {
      if k < |caches| {
        assert L[k] == levels[k] && L[k + 1] == levels[k + 1] && C[k] == caches[k];
      }
    }
  }

  /**
    One level of a generator's outer loop: copy the vertex list, run the triangle loop with
    a fresh cache, and replace the old lists by the new ones. The result is a pass of the
    scheme; in particular the old vertices are a prefix, exactly one vertex is added per
    distinct edge, there are four times the indices, and all of them are valid.
   */
  method SubdividePass(V: seq<Pos>, I: seq<nat>, s: Scheme)
      returns (V': seq<Pos>, I': seq<nat>, ghost cache: map<Edge, nat>)
    requires |I| % 3 == 0
    requires IndicesBelow(I, |V|)
    ensures IsPass(s, V, I, V', I', cache)
    ensures |V| <= |V'| && V'[..|V|] == V
    ensures |V'| == |V| + |EdgesOf(I, |I| / 3)|
    ensures |I'| == 4 * |I|
    ensures IndicesBelow(I', |V'|)
  {
    V', I', cache := SubdivideTriangles(V, I, s);
  }

  /**
    One more level of a generator's outer loop: a pass of scheme `s` over the last level
    of the chain, which is `(V, I)`. The chain grows by that pass and keeps its first
    level; the old vertices stay a prefix, there are four times the indices, and all of
    them are valid.
   */
  method NextLevel(s: Scheme, V: seq<Pos>, I: seq<nat>, ghost levels: seq<Mesh<Pos>>, ghost caches: seq<map<Edge, nat>>)
      returns (V': seq<Pos>, I': seq<nat>, ghost levels': seq<Mesh<Pos>>, ghost caches': seq<map<Edge, nat>>)
    requires |I| % 3 == 0
    requires IndicesBelow(I, |V|)
    requires PassChain(s, levels, caches) && levels[|caches|] == Mesh(V, I)
    ensures PassChain(s, levels', caches') && |caches'| == |caches| + 1
    ensures levels'[0] == levels[0] && levels'[|caches'|] == Mesh(V', I')
    ensures |V| <= |V'| && V'[..|V|] == V
    ensures |I'| == 4 * |I|
    ensures IndicesBelow(I', |V'|)
  {
    ghost var cache;
    V', I', cache := SubdividePass(V, I, s);
    PassChainStep(s, levels, caches, Mesh(V', I'), cache);
    levels', caches' := levels + [Mesh(V', I')], caches + [cache];
  }
}
