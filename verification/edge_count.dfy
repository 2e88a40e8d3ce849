/**
  Counting what a subdivision pass produces. Call a triangle list proper when every
  triangle has three distinct corners and no two triangles have the same corners. A pass
  over a proper list yields a proper list again, and the new list has 2E + 3T distinct
  edges, E and T being the old edge and triangle counts: every old edge splits into two
  halves at its midpoint, and every old triangle adds the three sides of its middle child.
  Together with one new vertex per old edge this gives the vertex counts of the generators.
 */
module EdgeCount {
  import opened EdgeKeys
  import opened Meshes
  import opened Subdivision

  /** The corners of triangle `t`, as a set. */
  function Corners(I: seq<nat>, t: nat): set<nat>
    requires 3 * t + 3 <= |I|
  {
    {I[3 * t], I[3 * t + 1], I[3 * t + 2]}
  }

  /** Triangle `t` has three distinct corners. */
  ghost predicate Distinct3(I: seq<nat>, t: nat)
    requires 3 * t + 3 <= |I|
  {
    I[3 * t] != I[3 * t + 1] && I[3 * t + 1] != I[3 * t + 2] && I[3 * t + 2] != I[3 * t]
  }

  /** Whole triangles, each with three distinct corners, no two with the same corners. */
  ghost predicate Proper(I: seq<nat>)
  {
    && |I| % 3 == 0
    && (forall t | 0 <= t < |I| / 3 :: Distinct3(I, t))
    && (forall t, u | 0 <= t < |I| / 3 && 0 <= u < |I| / 3 && t != u :: Corners(I, t) != Corners(I, u))
  }

  /** The numbers below `k`. */
  function Below(k: nat): (r: set<nat>)
    ensures |r| == k
    ensures forall c: int :: c in r <==> 0 <= c < k
  {
    if k == 0 then {} else Below(k - 1) + {k - 1}
  }

  lemma Inhabited<T>(S: set<T>)
    requires S != {}
    ensures exists x :: x in S
  {
    assert (forall x :: x !in S) ==> S == {};
  }

  /** The values `f` takes on `S`. */
  function Image<T, U>(S: set<T>, f: T -> U): set<U>
  {
    set x | x in S :: f(x)
  }

  /** An injective map keeps the size of the set it is applied to. */
  lemma {:induction false} ImageSize<T, U>(S: set<T>, f: T -> U)
    requires forall x, y | x in S && y in S && f(x) == f(y) :: x == y
    ensures |Image(S, f)| == |S|
  {
    if S != {} {
      Inhabited(S);
      var x :| x in S;
      var R := S - {x};
      ImageSize(R, f);
      assert Image(S, f) == Image(R, f) + {f(x)};
      assert f(x) !in Image(R, f);
    }
  }

  /** An edge lies among the first `n` triangles' edges exactly when it is an edge of one of them. */
  lemma {:induction false} EdgesOfMember(I: seq<nat>, n: nat, e: Edge)
    requires 3 * n <= |I|
    ensures e in EdgesOf(I, n) <==> exists t | 0 <= t < n :: e in TriEdges(I, t)
  {
    if n > 0 {
      EdgesOfMember(I, n - 1, e);
    }
  }

  /** The two ends of an edge. */
  function Ends(e: Edge): set<nat>
  {
    {e.lo, e.hi}
  }

  /** The ends of a set of edges. */
  function EndsOf(S: set<Edge>): set<nat>
  {
    set e, x | e in S && x in Ends(e) :: x
  }

  /** The indices `cache` gives the edges of `S`. */
  function MidsOf(cache: map<Edge, nat>, S: set<Edge>): set<nat>
  {
    set e | e in S && e in cache :: cache[e]
  }

  /**
    The facts about the parents of a pass that the counting needs: a proper list over `N`
    vertices, and a cache mapping exactly its edges, each to its own index at or above `N`.
   */
  ghost predicate Parents(N: nat, I: seq<nat>, cache: map<Edge, nat>)
  {
    && Proper(I)
    && IndicesBelow(I, N)
    && cache.Keys == EdgesOf(I, |I| / 3)
    && (forall e | e in cache :: e.lo <= e.hi < N <= cache[e])
    && Injective(cache)
  }

  /** Different edges have different midpoints. */
  ghost predicate Injective(cache: map<Edge, nat>)
  {
    forall e1, e2 | e1 in cache && e2 in cache && e1 != e2 :: cache[e1] != cache[e2]
  }

  /** Side `r` of triangle `t`: from corner `r` to the next corner. */
  function Side(I: seq<nat>, t: nat, r: nat): Edge
    requires 3 * t + 3 <= |I| && r < 3
  {
    if r == 0 then EdgeOf(I[3 * t], I[3 * t + 1])
    else if r == 1 then EdgeOf(I[3 * t + 1], I[3 * t + 2])
    else EdgeOf(I[3 * t + 2], I[3 * t])
  }

  /** The three sides of triangle `t` are edges of the list. */
  lemma SidesListed(I: seq<nat>, t: nat)
    requires t < |I| / 3
    ensures Side(I, t, 0) in EdgesOf(I, |I| / 3) && Side(I, t, 1) in EdgesOf(I, |I| / 3)
    ensures Side(I, t, 2) in EdgesOf(I, |I| / 3)
  {
    assert TriEdges(I, t) == {Side(I, t, 0), Side(I, t, 1), Side(I, t, 2)};
    EdgesOfMember(I, |I| / 3, Side(I, t, 0));
    EdgesOfMember(I, |I| / 3, Side(I, t, 1));
    EdgesOfMember(I, |I| / 3, Side(I, t, 2));
  }

  /** Every edge of a proper list joins two different vertices, and is a side of one of its triangles. */
  lemma KeyProper(I: seq<nat>, e: Edge)
    requires Proper(I) && e in EdgesOf(I, |I| / 3)
    ensures e.lo < e.hi
    ensures exists t, r | 0 <= t < |I| / 3 && 0 <= r < 3 :: e == Side(I, t, r)
  {
    EdgesOfMember(I, |I| / 3, e);
    var t :| 0 <= t < |I| / 3 && e in TriEdges(I, t);
    assert Distinct3(I, t);
    if e == Side(I, t, 0) {
    } else if e == Side(I, t, 1) {
    } else {
      assert e == Side(I, t, 2);
    }
  }

  /** The index `cache` gives edge `e` (zero for an edge it does not hold). */
  function MidIndex(cache: map<Edge, nat>, e: Edge): nat
  {
    if e in cache then cache[e] else 0
  }

  /**
    The edges of parent `t`'s four children (i0, a, c), (i1, b, a), (i2, c, b) and (a, b, c),
    where a, b, c are the midpoints of its sides (i0, i1), (i1, i2), (i2, i0).
   */
  function BlockEdges(I: seq<nat>, cache: map<Edge, nat>, t: nat): set<Edge>
    requires 3 * t + 3 <= |I|
  {
    var i0, i1, i2 := I[3 * t], I[3 * t + 1], I[3 * t + 2];
    var a, b, c := MidIndex(cache, Side(I, t, 0)), MidIndex(cache, Side(I, t, 1)), MidIndex(cache, Side(I, t, 2));
    {EdgeOf(i0, a), EdgeOf(a, c), EdgeOf(c, i0)} + {EdgeOf(i1, b), EdgeOf(b, a), EdgeOf(a, i1)} +
    {EdgeOf(i2, c), EdgeOf(c, b), EdgeOf(b, i2)} + {EdgeOf(a, b), EdgeOf(b, c), EdgeOf(c, a)}
  }

  /** The corners of the children of parent (i0, i1, i2) with midpoints a, b, c, in either layout. */
  lemma ChildBlock(s: Scheme, I': seq<nat>, t: nat, i0: nat, i1: nat, i2: nat, a: nat, b: nat, c: nat)
    requires 12 * t + 12 <= |I'| && Block(I', t) == Children(s, i0, i1, i2, a, b, c)
    ensures Corners(I', 4 * t) == {i0, a, c} && Corners(I', 4 * t + 1) == {i1, b, a}
    ensures Corners(I', 4 * t + 2) == {i2, c, b} && Corners(I', 4 * t + 3) == {a, b, c}
    ensures (i0 != a && a != c && c != i0) ==> Distinct3(I', 4 * t)
    ensures (i1 != b && b != a && a != i1) ==> Distinct3(I', 4 * t + 1)
    ensures (i2 != c && c != b && b != i2) ==> Distinct3(I', 4 * t + 2)
    ensures (a != b && b != c && c != a) ==> Distinct3(I', 4 * t + 3)
  {
    ChildrenAt(s, i0, i1, i2, a, b, c);
    ChildTriangle(I', t, 0, i0, a, c);
    ChildTriangle(I', t, 3, a, b, c);
    if s == IcosphereLayout {
      ChildTriangle(I', t, 1, i1, b, a);
      ChildTriangle(I', t, 2, i2, c, b);
    } else {
      ChildTriangle(I', t, 1, a, i1, b);
      ChildTriangle(I', t, 2, c, b, i2);
    }
  }

  /** The sides of the children of parent (i0, i1, i2) with midpoints a, b, c, in either layout. */
  lemma ChildBlockEdges(s: Scheme, I': seq<nat>, t: nat, i0: nat, i1: nat, i2: nat, a: nat, b: nat, c: nat)
    requires 12 * t + 12 <= |I'| && Block(I', t) == Children(s, i0, i1, i2, a, b, c)
    ensures TriEdges(I', 4 * t) == {EdgeOf(i0, a), EdgeOf(a, c), EdgeOf(c, i0)}
    ensures TriEdges(I', 4 * t + 1) == {EdgeOf(i1, b), EdgeOf(b, a), EdgeOf(a, i1)}
    ensures TriEdges(I', 4 * t + 2) == {EdgeOf(i2, c), EdgeOf(c, b), EdgeOf(b, i2)}
    ensures TriEdges(I', 4 * t + 3) == {EdgeOf(a, b), EdgeOf(b, c), EdgeOf(c, a)}
  {
    ChildrenAt(s, i0, i1, i2, a, b, c);
    ChildTriangle(I', t, 0, i0, a, c);
    ChildTriangle(I', t, 3, a, b, c);
    if s == IcosphereLayout {
      ChildTriangle(I', t, 1, i1, b, a);
      ChildTriangle(I', t, 2, i2, c, b);
    } else {
      ChildTriangle(I', t, 1, a, i1, b);
      ChildTriangle(I', t, 2, c, b, i2);
    }
  }

  /** The entries of a block of children, one by one. */
  lemma ChildrenAt(s: Scheme, i0: nat, i1: nat, i2: nat, a: nat, b: nat, c: nat)
    ensures var r := Children(s, i0, i1, i2, a, b, c);
            r[0] == i0 && r[1] == a && r[2] == c && r[9] == a && r[10] == b && r[11] == c
    ensures var r := Children(s, i0, i1, i2, a, b, c);
            s == IcosphereLayout ==> r[3] == i1 && r[4] == b && r[5] == a && r[6] == i2 && r[7] == c && r[8] == b
    ensures var r := Children(s, i0, i1, i2, a, b, c);
            s == SimplexDiskLayout ==> r[3] == a && r[4] == i1 && r[5] == b && r[6] == c && r[7] == b && r[8] == i2
  {
  }

  /** Child `k` of block `t`, with corners `x`, `y`, `z`: its corner set, its sides, and when its corners are distinct. */
  lemma ChildTriangle(I': seq<nat>, t: nat, k: nat, x: nat, y: nat, z: nat)
    requires 12 * t + 12 <= |I'| && k < 4
    requires Block(I', t)[3 * k] == x && Block(I', t)[3 * k + 1] == y && Block(I', t)[3 * k + 2] == z
    ensures Corners(I', 4 * t + k) == {x, y, z} == {y, z, x} == {z, x, y}
    ensures TriEdges(I', 4 * t + k) == {EdgeOf(x, y), EdgeOf(y, z), EdgeOf(z, x)}
    ensures TriEdges(I', 4 * t + k) == {EdgeOf(y, z), EdgeOf(z, x), EdgeOf(x, y)}
    ensures TriEdges(I', 4 * t + k) == {EdgeOf(z, x), EdgeOf(x, y), EdgeOf(y, z)}
    ensures (x != y && y != z && z != x) ==> Distinct3(I', 4 * t + k)
  {
    var u := 4 * t + k;
    assert 3 * u == 12 * t + 3 * k;
    assert I'[3 * u] == x && I'[3 * u + 1] == y && I'[3 * u + 2] == z;
  }

  /**
    A pass over proper parents: four times the indices, and block `t` of `I'` holds parent
    `t`'s children, with the midpoints looked up in the cache.
   */
  ghost predicate PassOver(s: Scheme, N: nat, I: seq<nat>, I': seq<nat>, cache: map<Edge, nat>)
  {
    && Parents(N, I, cache)
    && |I'| == 4 * |I|
    && (forall t | 0 <= t < |I| / 3 :: TriEdges(I, t) <= cache.Keys && Block(I', t) == ChildrenOf(s, I, t, cache))
  }

  /** The corner of parent `t` that child `k` keeps: none for the middle child. */
  function Old(I: seq<nat>, t: nat, k: nat): set<nat>
    requires 3 * t + 3 <= |I|
  {
    if k < 3 then {I[3 * t + k]} else {}
  }

  /** The sides of parent `t` whose midpoints are corners of child `k`. */
  function ParentSides(I: seq<nat>, t: nat, k: nat): set<Edge>
    requires 3 * t + 3 <= |I|
  {
    if k == 0 then {Side(I, t, 0), Side(I, t, 2)}
    else if k == 1 then {Side(I, t, 0), Side(I, t, 1)}
    else if k == 2 then {Side(I, t, 1), Side(I, t, 2)}
    else {Side(I, t, 0), Side(I, t, 1), Side(I, t, 2)}
  }

  /**
    What one parent of a pass brings: three distinct corners below `N`, its three sides
    in the cache, their midpoints distinct and at or above `N`, and its block of `I'`
    holding its children.
   */
  ghost predicate LocalSides(N: nat, I: seq<nat>, cache: map<Edge, nat>, t: nat)
  {
    && 3 * t + 3 <= |I|
    && Distinct3(I, t) && I[3 * t] < N && I[3 * t + 1] < N && I[3 * t + 2] < N
    && Side(I, t, 0) in cache && Side(I, t, 1) in cache && Side(I, t, 2) in cache
    && N <= cache[Side(I, t, 0)] && N <= cache[Side(I, t, 1)] && N <= cache[Side(I, t, 2)]
    && cache[Side(I, t, 0)] != cache[Side(I, t, 1)] && cache[Side(I, t, 1)] != cache[Side(I, t, 2)]
    && cache[Side(I, t, 2)] != cache[Side(I, t, 0)]
  }

  ghost predicate LocalParent(s: Scheme, N: nat, I: seq<nat>, I': seq<nat>, cache: map<Edge, nat>, t: nat)
  {
    && LocalSides(N, I, cache, t)
    && 12 * t + 12 <= |I'|
    && Block(I', t) == Children(s, I[3 * t], I[3 * t + 1], I[3 * t + 2],
                                cache[Side(I, t, 0)], cache[Side(I, t, 1)], cache[Side(I, t, 2)])
  }

  lemma ParentBlock(s: Scheme, N: nat, I: seq<nat>, I': seq<nat>, cache: map<Edge, nat>, t: nat)
    requires PassOver(s, N, I, I', cache) && t < |I| / 3
    ensures LocalParent(s, N, I, I', cache, t)
  {
    ParentLocal(N, I, cache, t);
    assert TriEdges(I, t) <= cache.Keys && Block(I', t) == ChildrenOf(s, I, t, cache);
  }

  /**
    Child `k` of parent `t` has three distinct corners: the corner it keeps and the
    midpoints of the parent's sides at that corner (the three midpoints for the middle
    child).
   */
  lemma ChildCorners(s: Scheme, N: nat, I: seq<nat>, I': seq<nat>, cache: map<Edge, nat>, t: nat, k: nat)
    requires LocalParent(s, N, I, I', cache, t) && k < 4
    ensures Distinct3(I', 4 * t + k)
    ensures Corners(I', 4 * t + k) == Old(I, t, k) + MidsOf(cache, ParentSides(I, t, k))
  {
    var e0, e1, e2 := Side(I, t, 0), Side(I, t, 1), Side(I, t, 2);
    var a, b, c := cache[e0], cache[e1], cache[e2];
    ChildBlock(s, I', t, I[3 * t], I[3 * t + 1], I[3 * t + 2], a, b, c);
    if k == 0 {
      assert MidsOf(cache, ParentSides(I, t, 0)) == {a, c};
    } else if k == 1 {
      assert MidsOf(cache, ParentSides(I, t, 1)) == {a, b};
    } else if k == 2 {
      assert MidsOf(cache, ParentSides(I, t, 2)) == {b, c};
    } else {
      assert MidsOf(cache, ParentSides(I, t, 3)) == {a, b, c};
    }
  }

  /** Together the four children of parent `t` have exactly the edges `BlockEdges` lists. */
  lemma ChildEdges(s: Scheme, N: nat, I: seq<nat>, I': seq<nat>, cache: map<Edge, nat>, t: nat)
    requires LocalParent(s, N, I, I', cache, t)
    ensures TriEdges(I', 4 * t) + TriEdges(I', 4 * t + 1) + TriEdges(I', 4 * t + 2) + TriEdges(I', 4 * t + 3)
            == BlockEdges(I, cache, t)
  {
    ChildBlockEdges(s, I', t, I[3 * t], I[3 * t + 1], I[3 * t + 2],
                    cache[Side(I, t, 0)], cache[Side(I, t, 1)], cache[Side(I, t, 2)]);
  }

  /** The halves of the cached edges at their lower ends. */
  function LoHalves(cache: map<Edge, nat>): set<Edge>
  {
    set e | e in cache :: Edge(e.lo, cache[e])
  }

  /** The halves of the cached edges at their upper ends. */
  function HiHalves(cache: map<Edge, nat>): set<Edge>
  {
    set e | e in cache :: Edge(e.hi, cache[e])
  }

  /**
    Inner edge number `c`: side `c % 3` of the middle child of parent `c / 3`, joining the
    midpoints of that parent's sides `c % 3` and `(c + 1) % 3`.
   */
  function InnerEdge(I: seq<nat>, cache: map<Edge, nat>, c: nat): Edge
    requires |I| % 3 == 0 && c < |I|
  {
    var t, r := c / 3, c % 3;
    EdgeOf(MidIndex(cache, Side(I, t, r)), MidIndex(cache, Side(I, t, (r + 1) % 3)))
  }

  /** The sides of all middle children. */
  function Inner(I: seq<nat>, cache: map<Edge, nat>): set<Edge>
    requires |I| % 3 == 0
  {
    set c | c in Below(|I|) :: InnerEdge(I, cache, c)
  }

  /** The two halves of edge `k`, each joining one of its ends to its midpoint. */
  function Halves(cache: map<Edge, nat>, k: Edge): set<Edge>
  {
    {Edge(k.lo, MidIndex(cache, k)), Edge(k.hi, MidIndex(cache, k))}
  }

  /** The halves of a cached edge are among `LoHalves` and `HiHalves`. */
  lemma HalvesOfKey(cache: map<Edge, nat>, k: Edge)
    requires k in cache
    ensures Halves(cache, k) <= LoHalves(cache) + HiHalves(cache)
  {
    assert Edge(k.lo, cache[k]) in LoHalves(cache);
    assert Edge(k.hi, cache[k]) in HiHalves(cache);
  }

  /** The three sides of parent `t`'s middle child, by position. */
  lemma InnerEdges(N: nat, I: seq<nat>, cache: map<Edge, nat>, t: nat)
    requires LocalSides(N, I, cache, t) && |I| % 3 == 0
    ensures 3 * t + 2 < |I|
    ensures InnerEdge(I, cache, 3 * t) == EdgeOf(cache[Side(I, t, 0)], cache[Side(I, t, 1)])
    ensures InnerEdge(I, cache, 3 * t + 1) == EdgeOf(cache[Side(I, t, 1)], cache[Side(I, t, 2)])
    ensures InnerEdge(I, cache, 3 * t + 2) == EdgeOf(cache[Side(I, t, 2)], cache[Side(I, t, 0)])
  {
    assert (3 * t) / 3 == t && (3 * t) % 3 == 0;
    assert (3 * t + 1) / 3 == t && (3 * t + 1) % 3 == 1;
    assert (3 * t + 2) / 3 == t && (3 * t + 2) % 3 == 2;
  }

  /** The edges of parent `t`'s children are halves of its three sides or sides of its middle child. */
  lemma BlockEdgesSplit(N: nat, I: seq<nat>, cache: map<Edge, nat>, t: nat, e: Edge)
    requires LocalSides(N, I, cache, t) && |I| % 3 == 0 && e in BlockEdges(I, cache, t)
    ensures 3 * t + 2 < |I|
    ensures || e in Halves(cache, Side(I, t, 0)) || e in Halves(cache, Side(I, t, 1))
            || e in Halves(cache, Side(I, t, 2)) || e == InnerEdge(I, cache, 3 * t)
            || e == InnerEdge(I, cache, 3 * t + 1) || e == InnerEdge(I, cache, 3 * t + 2)
  {
    var i0, i1, i2 := I[3 * t], I[3 * t + 1], I[3 * t + 2];
    var e0, e1, e2 := Side(I, t, 0), Side(I, t, 1), Side(I, t, 2);
    var a, b, c := cache[e0], cache[e1], cache[e2];
    InnerEdges(N, I, cache, t);
    if e == EdgeOf(i0, a) || e == EdgeOf(a, i1) {
      assert e in Halves(cache, e0);
    } else if e == EdgeOf(i1, b) || e == EdgeOf(b, i2) {
      assert e in Halves(cache, e1);
    } else if e == EdgeOf(i2, c) || e == EdgeOf(c, i0) {
      assert e in Halves(cache, e2);
    } else if e == EdgeOf(b, a) {
      assert e == EdgeOf(a, b);
    } else if e == EdgeOf(c, b) {
      assert e == EdgeOf(b, c);
    } else if e == EdgeOf(a, c) {
      assert e == EdgeOf(c, a);
    }
  }

  /** The halves of parent `t`'s sides are edges of its children. */
  lemma HalvesInBlock(N: nat, I: seq<nat>, cache: map<Edge, nat>, t: nat, r: nat)
    requires LocalSides(N, I, cache, t) && r < 3
    ensures Halves(cache, Side(I, t, r)) <= BlockEdges(I, cache, t)
  {
    var i0, i1, i2 := I[3 * t], I[3 * t + 1], I[3 * t + 2];
    var e0, e1, e2 := Side(I, t, 0), Side(I, t, 1), Side(I, t, 2);
    var a, b, c := cache[e0], cache[e1], cache[e2];
    if r == 0 {
      assert Halves(cache, e0) == {EdgeOf(i0, a), EdgeOf(a, i1)};
    } else if r == 1 {
      assert Halves(cache, e1) == {EdgeOf(i1, b), EdgeOf(b, i2)};
    } else {
      assert Halves(cache, e2) == {EdgeOf(i2, c), EdgeOf(c, i0)};
    }
  }

  /** An edge of a parent's children is an edge of the new list. */
  lemma BlockEdgeIsEdge(s: Scheme, N: nat, I: seq<nat>, I': seq<nat>, cache: map<Edge, nat>, t: nat, e: Edge)
    requires LocalParent(s, N, I, I', cache, t) && |I'| == 4 * |I| && |I| % 3 == 0
    requires e in BlockEdges(I, cache, t)
    ensures e in EdgesOf(I', |I'| / 3)
  {
    ChildEdges(s, N, I, I', cache, t);
    var k :| 0 <= k < 4 && e in TriEdges(I', 4 * t + k);
    EdgesOfMember(I', |I'| / 3, e);
  }

  /** Triangle `u` of the new list is a child of parent `u / 4`. */
  lemma ChildEdgesAt(s: Scheme, N: nat, I: seq<nat>, I': seq<nat>, cache: map<Edge, nat>, u: nat)
    requires LocalParent(s, N, I, I', cache, u / 4)
    ensures 3 * u + 3 <= |I'| && TriEdges(I', u) <= BlockEdges(I, cache, u / 4)
  {
    var t := u / 4;
    ChildEdges(s, N, I, I', cache, t);
    if u % 4 == 0 {
      assert u == 4 * t;
    } else if u % 4 == 1 {
      assert u == 4 * t + 1;
    } else if u % 4 == 2 {
      assert u == 4 * t + 2;
    } else {
      assert u == 4 * t + 3;
    }
  }

  /** Inner edge `3t + r` is the side of parent `t`'s middle child that starts at the midpoint of side `r`. */
  lemma InnerEdgeAt(I: seq<nat>, cache: map<Edge, nat>, t: nat, r: nat)
    requires |I| % 3 == 0 && 3 * t + 3 <= |I| && r < 3
    ensures 3 * t + r < |I|
    ensures InnerEdge(I, cache, 3 * t + r)
            == EdgeOf(MidIndex(cache, Side(I, t, r)), MidIndex(cache, Side(I, t, (r + 1) % 3)))
  {
    assert (3 * t + r) / 3 == t && (3 * t + r) % 3 == r;
  }

  /** Every edge of parent `t`'s children is a half of a cached edge or a side of a middle child. */
  lemma EdgeKinds(N: nat, I: seq<nat>, cache: map<Edge, nat>, t: nat, e: Edge)
    requires LocalSides(N, I, cache, t) && |I| % 3 == 0 && e in BlockEdges(I, cache, t)
    ensures e in LoHalves(cache) + HiHalves(cache) + Inner(I, cache)
  {
    BlockEdgesSplit(N, I, cache, t, e);
    if e in Halves(cache, Side(I, t, 0)) {
      HalvesOfKey(cache, Side(I, t, 0));
    } else if e in Halves(cache, Side(I, t, 1)) {
      HalvesOfKey(cache, Side(I, t, 1));
    } else if e in Halves(cache, Side(I, t, 2)) {
      HalvesOfKey(cache, Side(I, t, 2));
    } else {
      assert 3 * t in Below(|I|) && 3 * t + 1 in Below(|I|) && 3 * t + 2 in Below(|I|);
    }
  }

  /** Both halves of side `r` of parent `t` are edges of the new list. */
  lemma HalvesAreEdges(s: Scheme, N: nat, I: seq<nat>, I': seq<nat>, cache: map<Edge, nat>, t: nat, r: nat)
    requires LocalParent(s, N, I, I', cache, t) && |I'| == 4 * |I| && |I| % 3 == 0 && r < 3
    ensures Halves(cache, Side(I, t, r)) <= EdgesOf(I', |I'| / 3)
  {
    HalvesInBlock(N, I, cache, t, r);
    forall e | e in Halves(cache, Side(I, t, r)) ensures e in EdgesOf(I', |I'| / 3) {
      BlockEdgeIsEdge(s, N, I, I', cache, t, e);
    }
  }

  /** Every side of a middle child is an edge of the new list. */
  lemma InnerIsEdge(s: Scheme, N: nat, I: seq<nat>, I': seq<nat>, cache: map<Edge, nat>, c: nat)
    requires |I| % 3 == 0 && c < |I| && |I'| == 4 * |I|
    requires LocalParent(s, N, I, I', cache, c / 3)
    ensures InnerEdge(I, cache, c) in EdgesOf(I', |I'| / 3)
  {
    var t, r := c / 3, c % 3;
    assert c == 3 * t + r;
    InnerEdgeAt(I, cache, t, r);
    BlockEdgeIsEdge(s, N, I, I', cache, t, InnerEdge(I, cache, c));
  }

  /** Every edge of the new list is a half of an old edge or a side of a middle child. */
  lemma PassEdgesWithin(s: Scheme, N: nat, I: seq<nat>, I': seq<nat>, cache: map<Edge, nat>)
    requires PassOver(s, N, I, I', cache)
    ensures EdgesOf(I', |I'| / 3) <= LoHalves(cache) + HiHalves(cache) + Inner(I, cache)
  {
    forall e | e in EdgesOf(I', |I'| / 3) ensures e in LoHalves(cache) + HiHalves(cache) + Inner(I, cache) {
      EdgesOfMember(I', |I'| / 3, e);
      var u :| 0 <= u < |I'| / 3 && e in TriEdges(I', u);
      ParentBlock(s, N, I, I', cache, u / 4);
      ChildEdgesAt(s, N, I, I', cache, u);
      EdgeKinds(N, I, cache, u / 4, e);
    }
  }

  /** Every half of an old edge is an edge of the new list. */
  lemma HalvesCovered(s: Scheme, N: nat, I: seq<nat>, I': seq<nat>, cache: map<Edge, nat>)
    requires PassOver(s, N, I, I', cache)
    ensures LoHalves(cache) + HiHalves(cache) <= EdgesOf(I', |I'| / 3)
  {
    forall k | k in cache ensures Halves(cache, k) <= EdgesOf(I', |I'| / 3) {
      KeyProper(I, k);
      var t, r :| 0 <= t < |I| / 3 && 0 <= r < 3 && k == Side(I, t, r);
      ParentBlock(s, N, I, I', cache, t);
      HalvesAreEdges(s, N, I, I', cache, t, r);
    }
    forall e | e in LoHalves(cache) + HiHalves(cache) ensures e in EdgesOf(I', |I'| / 3) {
      var k :| k in cache && (e == Edge(k.lo, cache[k]) || e == Edge(k.hi, cache[k]));
      assert e in Halves(cache, k);
    }
  }

  /** Every side of a middle child is an edge of the new list. */
  lemma InnerCovered(s: Scheme, N: nat, I: seq<nat>, I': seq<nat>, cache: map<Edge, nat>)
    requires PassOver(s, N, I, I', cache)
    ensures Inner(I, cache) <= EdgesOf(I', |I'| / 3)
  {
    forall c | c in Below(|I|) ensures InnerEdge(I, cache, c) in EdgesOf(I', |I'| / 3) {
      ParentBlock(s, N, I, I', cache, c / 3);
      InnerIsEdge(s, N, I, I', cache, c);
    }
  }

  /** Every half of an old edge and every side of a middle child is an edge of the new list. */
  lemma PassEdgesCover(s: Scheme, N: nat, I: seq<nat>, I': seq<nat>, cache: map<Edge, nat>)
    requires PassOver(s, N, I, I', cache)
    ensures LoHalves(cache) + HiHalves(cache) + Inner(I, cache) <= EdgesOf(I', |I'| / 3)
  {
    HalvesCovered(s, N, I, I', cache);
    InnerCovered(s, N, I, I', cache);
  }

  /** The edges of the new list are the halves of the old edges and the sides of the middle children. */
  lemma PassEdges(s: Scheme, N: nat, I: seq<nat>, I': seq<nat>, cache: map<Edge, nat>)
    requires PassOver(s, N, I, I', cache)
    ensures EdgesOf(I', |I'| / 3) == LoHalves(cache) + HiHalves(cache) + Inner(I, cache)
  {
    PassEdgesWithin(s, N, I, I', cache);
    PassEdgesCover(s, N, I, I', cache);
  }

  /** The facts about the cache alone: keys join two vertices below `N`, midpoints are distinct and at or above `N`. */
  ghost predicate KeyFacts(N: nat, cache: map<Edge, nat>)
  {
    && (forall e | e in cache :: e.lo < e.hi < N <= cache[e])
    && Injective(cache)
  }

  lemma ParentKeys(N: nat, I: seq<nat>, cache: map<Edge, nat>)
    requires Parents(N, I, cache)
    ensures KeyFacts(N, cache)
  {
    forall e | e in cache ensures e.lo < e.hi {
      KeyProper(I, e);
    }
  }

  /** One lower half per cached edge. */
  lemma LoHalvesSize(N: nat, cache: map<Edge, nat>)
    requires KeyFacts(N, cache)
    ensures |LoHalves(cache)| == |cache|
  {
    var lo := (e: Edge) => Edge(e.lo, MidIndex(cache, e));
    ImageSize(cache.Keys, lo);
    assert Image(cache.Keys, lo) == LoHalves(cache);
    assert |cache.Keys| == |cache|;
  }

  /** One upper half per cached edge. */
  lemma HiHalvesSize(N: nat, cache: map<Edge, nat>)
    requires KeyFacts(N, cache)
    ensures |HiHalves(cache)| == |cache|
  {
    var hi := (e: Edge) => Edge(e.hi, MidIndex(cache, e));
    ImageSize(cache.Keys, hi);
    assert Image(cache.Keys, hi) == HiHalves(cache);
    assert |cache.Keys| == |cache|;
  }

  /** No lower half is an upper half: that would make a key's two ends equal. */
  lemma LoHiDisjoint(N: nat, cache: map<Edge, nat>)
    requires KeyFacts(N, cache)
    ensures LoHalves(cache) !! HiHalves(cache)
  {
    forall e | e in LoHalves(cache) ensures e !in HiHalves(cache) {
      var k :| k in cache && e == Edge(k.lo, cache[k]);
    }
  }

  lemma DisjointUnionSize<T>(A: set<T>, B: set<T>)
    requires A !! B
    ensures |A + B| == |A| + |B|
  {
    assert A * B == {};
  }

  /** The lower and upper halves are all different: twice as many halves as cached edges. */
  lemma HalvesSize(N: nat, cache: map<Edge, nat>)
    requires KeyFacts(N, cache)
    ensures |LoHalves(cache) + HiHalves(cache)| == 2 * |cache|
  {
    LoHalvesSize(N, cache);
    HiHalvesSize(N, cache);
    LoHiDisjoint(N, cache);
    DisjointUnionSize(LoHalves(cache), HiHalves(cache));
  }

  /** Side `r` and the side after it cover the three corners. */
  lemma SidePairCorners(I: seq<nat>, t: nat, r: nat)
    requires 3 * t + 3 <= |I| && r < 3
    ensures Ends(Side(I, t, r)) + Ends(Side(I, t, (r + 1) % 3)) == Corners(I, t)
  {
    if r == 0 {
    } else if r == 1 {
    } else {
    }
  }

  /** A triangle with distinct corners has distinct sides. */
  lemma SideIndex(I: seq<nat>, t: nat, r: nat, r': nat)
    requires 3 * t + 3 <= |I| && Distinct3(I, t) && r < 3 && r' < 3 && Side(I, t, r) == Side(I, t, r')
    ensures r == r'
  {
  }

  /**
    What a parent triangle brings: distinct corners below `N`, its sides in the cache,
    their midpoints distinct and at or above `N`.
   */
  lemma ParentLocal(N: nat, I: seq<nat>, cache: map<Edge, nat>, t: nat)
    requires Parents(N, I, cache) && t < |I| / 3
    ensures LocalSides(N, I, cache, t)
  {
    assert 3 * t + 2 < |I|;
    assert Distinct3(I, t);
    SidesListed(I, t);
  }

  lemma SideInCache(N: nat, I: seq<nat>, cache: map<Edge, nat>, t: nat, r: nat)
    requires LocalSides(N, I, cache, t) && r < 3
    ensures Side(I, t, r) in cache && N <= cache[Side(I, t, r)]
  {
    if r == 0 {
    } else if r == 1 {
    } else {
    }
  }

  /** Equal sides of middle children come from the same two sides of the parents. */
  lemma InnerPair(N: nat, I: seq<nat>, cache: map<Edge, nat>, c: nat, c': nat)
    requires |I| % 3 == 0 && c < |I| && c' < |I| && Injective(cache)
    requires LocalSides(N, I, cache, c / 3) && LocalSides(N, I, cache, c' / 3)
    requires InnerEdge(I, cache, c) == InnerEdge(I, cache, c')
    ensures SamePair(I, c / 3, c % 3, c' / 3, c' % 3)
  {
    var t, r, t', r' := c / 3, c % 3, c' / 3, c' % 3;
    var x, y := Side(I, t, r), Side(I, t, (r + 1) % 3);
    var x', y' := Side(I, t', r'), Side(I, t', (r' + 1) % 3);
    SideInCache(N, I, cache, t, r);
    SideInCache(N, I, cache, t, (r + 1) % 3);
    SideInCache(N, I, cache, t', r');
    SideInCache(N, I, cache, t', (r' + 1) % 3);
    MidPair(cache, x, y, x', y');
  }

  /** Two cached pairs whose midpoints make the same edge are the same pair, in some order. */
  lemma MidPair(cache: map<Edge, nat>, x: Edge, y: Edge, x': Edge, y': Edge)
    requires Injective(cache) && x in cache && y in cache && x' in cache && y' in cache
    requires EdgeOf(cache[x], cache[y]) == EdgeOf(cache[x'], cache[y'])
    ensures (x == x' && y == y') || (x == y' && y == x')
  {
    assert (cache[x] == cache[x'] && cache[y] == cache[y']) || (cache[x] == cache[y'] && cache[y] == cache[x']);
  }

  /** Sides `r` and `r + 1` of triangle `t` are sides `r'` and `r' + 1` of triangle `t'`, in either order. */
  ghost predicate SamePair(I: seq<nat>, t: nat, r: nat, t': nat, r': nat)
  {
    && 3 * t + 3 <= |I| && 3 * t' + 3 <= |I| && r < 3 && r' < 3
    && (|| (Side(I, t, r) == Side(I, t', r') && Side(I, t, (r + 1) % 3) == Side(I, t', (r' + 1) % 3))
        || (Side(I, t, r) == Side(I, t', (r' + 1) % 3) && Side(I, t, (r + 1) % 3) == Side(I, t', r')))
  }

  /** Triangles sharing two consecutive sides, in either order, have the same corners. */
  lemma PairCorners(I: seq<nat>, t: nat, r: nat, t': nat, r': nat)
    requires SamePair(I, t, r, t', r')
    ensures Corners(I, t) == Corners(I, t')
  {
    var x, y := Ends(Side(I, t, r)), Ends(Side(I, t, (r + 1) % 3));
    var x', y' := Ends(Side(I, t', r')), Ends(Side(I, t', (r' + 1) % 3));
    SidePairCorners(I, t, r);
    SidePairCorners(I, t', r');
    assert x + y == x' + y' by {
      if x != x' {
        assert x + y == y + x;
      }
    }
  }

  /** Different positions give different sides of middle children. */
  lemma InnerInjective(N: nat, I: seq<nat>, cache: map<Edge, nat>, c: nat, c': nat)
    requires Proper(I) && c < |I| && c' < |I| && Injective(cache)
    requires LocalSides(N, I, cache, c / 3) && LocalSides(N, I, cache, c' / 3)
    requires InnerEdge(I, cache, c) == InnerEdge(I, cache, c')
    ensures c == c'
  {
    var t, r, t', r' := c / 3, c % 3, c' / 3, c' % 3;
    InnerPair(N, I, cache, c, c');
    PairCorners(I, t, r, t', r');
    ProperCorners(I, t, t');
    PairIndex(I, t, r, r');
  }

  /** In a proper list, triangles with the same corners are the same triangle. */
  lemma ProperCorners(I: seq<nat>, t: nat, t': nat)
    requires Proper(I) && t < |I| / 3 && t' < |I| / 3 && Corners(I, t) == Corners(I, t')
    ensures t == t'
  {
  }

  /** In a triangle with distinct corners, two consecutive sides, in either order, fix their position. */
  lemma PairIndex(I: seq<nat>, t: nat, r: nat, r': nat)
    requires SamePair(I, t, r, t, r') && Distinct3(I, t)
    ensures r == r'
  {
    if Side(I, t, r) == Side(I, t, r') {
      SideIndex(I, t, r, r');
    } else {
      SideIndex(I, t, r, (r' + 1) % 3);
      SideIndex(I, t, (r + 1) % 3, r');
    }
  }

  /** There is one side of a middle child per old index. */
  lemma InnerSize(N: nat, I: seq<nat>, cache: map<Edge, nat>)
    requires Parents(N, I, cache)
    ensures |Inner(I, cache)| == |I|
  {
    var f := (c: nat) => if |I| % 3 == 0 && c < |I| then InnerEdge(I, cache, c) else Edge(0, 0);
    forall c, c' | c in Below(|I|) && c' in Below(|I|) && f(c) == f(c') ensures c == c' {
      ParentLocal(N, I, cache, c / 3);
      ParentLocal(N, I, cache, c' / 3);
      InnerInjective(N, I, cache, c, c');
    }
    ImageSize(Below(|I|), f);
    assert Image(Below(|I|), f) == Inner(I, cache);
  }

  /** A half has an old vertex at its lower end; a side of a middle child has none. */
  lemma HalvesNotInner(N: nat, I: seq<nat>, cache: map<Edge, nat>)
    requires Parents(N, I, cache)
    ensures (LoHalves(cache) + HiHalves(cache)) * Inner(I, cache) == {}
  {
    forall e | e in Inner(I, cache) ensures N <= e.lo {
      var c :| c in Below(|I|) && e == InnerEdge(I, cache, c);
      ParentLocal(N, I, cache, c / 3);
      InnerAbove(N, I, cache, c);
    }
    forall e | e in LoHalves(cache) + HiHalves(cache) ensures e.lo < N {
      HalfBelow(N, cache, e);
    }
  }

  lemma InnerAbove(N: nat, I: seq<nat>, cache: map<Edge, nat>, c: nat)
    requires |I| % 3 == 0 && c < |I| && LocalSides(N, I, cache, c / 3)
    ensures N <= InnerEdge(I, cache, c).lo
  {
    SideInCache(N, I, cache, c / 3, c % 3);
    SideInCache(N, I, cache, c / 3, (c % 3 + 1) % 3);
  }

  lemma HalfBelow(N: nat, cache: map<Edge, nat>, e: Edge)
    requires forall k | k in cache :: k.lo <= k.hi < N
    requires e in LoHalves(cache) + HiHalves(cache)
    ensures e.lo < N
  {
    if e in LoHalves(cache) {
      var k :| k in cache && e == Edge(k.lo, cache[k]);
    } else {
      var k :| k in cache && e == Edge(k.hi, cache[k]);
    }
  }

  /** A pass turns E edges over T triangles into 2E + 3T edges. */
  lemma PassEdgeCount(s: Scheme, N: nat, I: seq<nat>, I': seq<nat>, cache: map<Edge, nat>)
    requires PassOver(s, N, I, I', cache)
    ensures |EdgesOf(I', |I'| / 3)| == 2 * |EdgesOf(I, |I| / 3)| + |I|
  {
    PassEdges(s, N, I, I', cache);
    ParentKeys(N, I, cache);
    HalvesSize(N, cache);
    InnerSize(N, I, cache);
    HalvesNotInner(N, I, cache);
    assert |cache| == |cache.Keys|;
  }

  /** Child `u` of the new list, seen from its parent `u / 4`. */
  lemma ChildAt(s: Scheme, N: nat, I: seq<nat>, I': seq<nat>, cache: map<Edge, nat>, u: nat)
    requires |I'| == 4 * |I| && |I| % 3 == 0 && u < |I'| / 3
    requires LocalParent(s, N, I, I', cache, u / 4)
    ensures 3 * u + 3 <= |I'|
    ensures Distinct3(I', u)
    ensures Corners(I', u) == Old(I, u / 4, u % 4) + MidsOf(cache, ParentSides(I, u / 4, u % 4))
  {
    var t, k := u / 4, u % 4;
    assert u == 4 * t + k;
    ChildCorners(s, N, I, I', cache, t, k);
  }

  /** The corner a child keeps is old; the midpoints it gets are new and looked up in the cache. */
  lemma ChildParts(N: nat, I: seq<nat>, cache: map<Edge, nat>, t: nat, k: nat)
    requires LocalSides(N, I, cache, t)
    ensures forall x | x in Old(I, t, k) :: x < N
    ensures forall x | x in MidsOf(cache, ParentSides(I, t, k)) :: N <= x
    ensures ParentSides(I, t, k) <= cache.Keys
  {
  }

  /** Sets split by a threshold are equal only when both parts are. */
  lemma SeparateParts(N: nat, A: set<nat>, B: set<nat>, A': set<nat>, B': set<nat>)
    requires (forall x | x in A :: x < N) && (forall x | x in A' :: x < N)
    requires (forall x | x in B :: N <= x) && (forall x | x in B' :: N <= x)
    requires A + B == A' + B'
    ensures B == B'
  {
    forall x | x in B ensures x in B' {
      assert x in A' + B';
    }
    forall x | x in B' ensures x in B {
      assert x in A + B;
    }
  }

  /** On cached edges, an injective cache tells edge sets apart by their midpoints. */
  lemma MidsInjective(cache: map<Edge, nat>, S: set<Edge>, S': set<Edge>)
    requires Injective(cache) && S <= cache.Keys && S' <= cache.Keys
    requires MidsOf(cache, S) == MidsOf(cache, S')
    ensures S == S'
  {
    forall e | e in S ensures e in S' {
      assert cache[e] in MidsOf(cache, S');
      var e' :| e' in S' && e' in cache && cache[e'] == cache[e];
    }
    forall e | e in S' ensures e in S {
      assert cache[e] in MidsOf(cache, S);
      var e' :| e' in S && e' in cache && cache[e'] == cache[e];
    }
  }

  /** The sides a child takes its midpoints from reach all three corners of the parent. */
  lemma SidesEnds(I: seq<nat>, t: nat, k: nat)
    requires 3 * t + 3 <= |I|
    ensures EndsOf(ParentSides(I, t, k)) == Corners(I, t)
  {
    var e0, e1, e2 := Side(I, t, 0), Side(I, t, 1), Side(I, t, 2);
    assert I[3 * t] in Ends(e0) && I[3 * t + 1] in Ends(e0);
    assert I[3 * t + 1] in Ends(e1) && I[3 * t + 2] in Ends(e1);
    assert I[3 * t + 2] in Ends(e2) && I[3 * t] in Ends(e2);
    if k == 0 {
      assert I[3 * t + 1] in EndsOf({e0, e2});
    } else if k == 1 {
      assert I[3 * t + 2] in EndsOf({e0, e1});
    } else if k == 2 {
      assert I[3 * t] in EndsOf({e1, e2});
    } else {
      assert I[3 * t] in EndsOf({e0, e1, e2});
    }
  }

  /** Different children of one parent take their midpoints from different sides. */
  lemma SidesSetIndex(I: seq<nat>, t: nat, k: nat, k': nat)
    requires 3 * t + 3 <= |I| && Distinct3(I, t) && k < 4 && k' < 4
    requires ParentSides(I, t, k) == ParentSides(I, t, k')
    ensures k == k'
  {
    var e0, e1, e2 := Side(I, t, 0), Side(I, t, 1), Side(I, t, 2);
    assert e0 != e1 && e1 != e2 && e2 != e0;
    assert e0 in ParentSides(I, t, k) <==> k != 2;
    assert e1 in ParentSides(I, t, k) <==> k != 0;
    assert e2 in ParentSides(I, t, k) <==> k != 1;
  }

  /** Children with the same corners are the same child. */
  lemma ChildInjective(s: Scheme, N: nat, I: seq<nat>, I': seq<nat>, cache: map<Edge, nat>, u: nat, u': nat)
    requires PassOver(s, N, I, I', cache) && u < |I'| / 3 && u' < |I'| / 3
    requires Corners(I', u) == Corners(I', u')
    ensures u == u'
  {
    var t, k, t', k' := u / 4, u % 4, u' / 4, u' % 4;
    assert u == 4 * t + k && u' == 4 * t' + k';
    ParentBlock(s, N, I, I', cache, t);
    ParentBlock(s, N, I, I', cache, t');
    ChildAt(s, N, I, I', cache, u);
    ChildAt(s, N, I, I', cache, u');
    ChildParts(N, I, cache, t, k);
    ChildParts(N, I, cache, t', k');
    SeparateParts(N, Old(I, t, k), MidsOf(cache, ParentSides(I, t, k)), Old(I, t', k'), MidsOf(cache, ParentSides(I, t', k')));
    MidsInjective(cache, ParentSides(I, t, k), ParentSides(I, t', k'));
    SidesEnds(I, t, k);
    SidesEnds(I, t', k');
    assert t == t';
    SidesSetIndex(I, t, k, k');
  }

  /** A pass over a proper list yields a proper list. */
  lemma PassProper(s: Scheme, N: nat, I: seq<nat>, I': seq<nat>, cache: map<Edge, nat>)
    requires PassOver(s, N, I, I', cache)
    ensures Proper(I')
  {
    assert |I'| == 12 * (|I| / 3);
    PassDistinct(s, N, I, I', cache);
    PassCornersDiffer(s, N, I, I', cache);
  }

  /** Every child has three distinct corners. */
  lemma PassDistinct(s: Scheme, N: nat, I: seq<nat>, I': seq<nat>, cache: map<Edge, nat>)
    requires PassOver(s, N, I, I', cache)
    ensures forall u | 0 <= u < |I'| / 3 :: Distinct3(I', u)
  {
    forall u | 0 <= u < |I'| / 3 ensures Distinct3(I', u) {
      ParentBlock(s, N, I, I', cache, u / 4);
      ChildAt(s, N, I, I', cache, u);
    }
  }

  /** No two children have the same corners. */
  lemma PassCornersDiffer(s: Scheme, N: nat, I: seq<nat>, I': seq<nat>, cache: map<Edge, nat>)
    requires PassOver(s, N, I, I', cache)
    ensures forall u, u' | 0 <= u < |I'| / 3 && 0 <= u' < |I'| / 3 && u != u' :: Corners(I', u) != Corners(I', u')
  {
    forall u, u' | 0 <= u < |I'| / 3 && 0 <= u' < |I'| / 3 && Corners(I', u) == Corners(I', u') ensures u == u' {
      ChildInjective(s, N, I, I', cache, u, u');
    }
  }

  /** A pass in the sense of the generators, over a proper list with valid indices, is a pass in the sense of the counting. */
  lemma PassIsPassOver(s: Scheme, V: seq<Pos>, I: seq<nat>, V': seq<Pos>, I': seq<nat>, cache: map<Edge, nat>)
    requires IsPass(s, V, I, V', I', cache) && Proper(I) && IndicesBelow(I, |V|)
    ensures PassOver(s, |V|, I, I', cache)
  {
  }

  /**
    One pass keeps the list proper and its indices valid; it adds one vertex per old edge,
    and turns E edges over T triangles into 2E + 3T edges over 4T triangles.
   */
  lemma PassStep(s: Scheme, V: seq<Pos>, I: seq<nat>, V': seq<Pos>, I': seq<nat>, cache: map<Edge, nat>)
    requires IsPass(s, V, I, V', I', cache) && Proper(I) && IndicesBelow(I, |V|)
    ensures Proper(I') && IndicesBelow(I', |V'|)
    ensures |V'| == |V| + |EdgesOf(I, |I| / 3)|
    ensures |EdgesOf(I', |I'| / 3)| == 2 * |EdgesOf(I, |I| / 3)| + |I|
    ensures |I'| == 4 * |I|
  {
    PassIsPassOver(s, V, I, V', I', cache);
    PassProper(s, |V|, I, I', cache);
    PassEdgeCount(s, |V|, I, I', cache);
    assert |cache| == |cache.Keys|;
  }

  /** A mesh whose triangle list is proper and whose indices are valid. */
  ghost predicate Sound(m: Mesh<Pos>)
  {
    Proper(m.indices) && IndicesBelow(m.indices, |m.vertices|)
  }

  /** A pass over a sound mesh yields a sound mesh. */
  lemma SoundStep(s: Scheme, m: Mesh<Pos>, m': Mesh<Pos>, cache: map<Edge, nat>)
    requires Sound(m) && IsPass(s, m.vertices, m.indices, m'.vertices, m'.indices, cache)
    ensures Sound(m')
  {
    PassStep(s, m.vertices, m.indices, m'.vertices, m'.indices, cache);
  }

  /** Link `j` of a chain is a pass. */
  lemma ChainLink(s: Scheme, levels: seq<Mesh<Pos>>, caches: seq<map<Edge, nat>>, j: nat)
    requires PassChain(s, levels, caches) && j < |caches|
    ensures IsPass(s, levels[j].vertices, levels[j].indices, levels[j + 1].vertices, levels[j + 1].indices, caches[j])
  {
    assert caches[j] == caches[j];
  }

  /** Every level of a chain that starts from a sound mesh is sound. */
  lemma {:induction false} ChainProper(s: Scheme, levels: seq<Mesh<Pos>>, caches: seq<map<Edge, nat>>, k: nat)
    requires PassChain(s, levels, caches) && k <= |caches| && Sound(levels[0])
    ensures Sound(levels[k])
  {
    if k > 0 {
      var j := k - 1;
      ChainProper(s, levels, caches, j);
      ChainLink(s, levels, caches, j);
      SoundStep(s, levels[j], levels[j + 1], caches[j]);
    }
  }

  /** The counts of level `k + 1` of a chain that starts from a proper list, from those of level `k`. */
  lemma ChainCounts(s: Scheme, levels: seq<Mesh<Pos>>, caches: seq<map<Edge, nat>>, k: nat)
    requires PassChain(s, levels, caches) && k < |caches| && Sound(levels[0])
    ensures |levels[k].indices| % 3 == 0 && |levels[k + 1].indices| % 3 == 0
    ensures |levels[k + 1].vertices| == |levels[k].vertices| + |EdgesOf(levels[k].indices, |levels[k].indices| / 3)|
    ensures |EdgesOf(levels[k + 1].indices, |levels[k + 1].indices| / 3)|
            == 2 * |EdgesOf(levels[k].indices, |levels[k].indices| / 3)| + |levels[k].indices|
    ensures |levels[k + 1].indices| == 4 * |levels[k].indices|
  {
    ChainProper(s, levels, caches, k);
    var m, m' := levels[k], levels[k + 1];
    assert IsPass(s, m.vertices, m.indices, m'.vertices, m'.indices, caches[k]);
    PassStep(s, m.vertices, m.indices, m'.vertices, m'.indices, caches[k]);
  }

  /**
    A key for the corners of a triangle: their sum plus 64 times the sum of their squares.
    It does not depend on the order of the corners.
   */
  function CornerKey(I: seq<nat>, t: nat): nat
    requires 3 * t + 3 <= |I|
  {
    var a, b, c := I[3 * t], I[3 * t + 1], I[3 * t + 2];
    (a + b + c) + 64 * (a * a + b * b + c * c)
  }

  /** Triangles with distinct corners and the same corner set have the same key. */
  lemma SameCornersSameKey(I: seq<nat>, t: nat, u: nat)
    requires 3 * t + 3 <= |I| && 3 * u + 3 <= |I| && Distinct3(I, t) && Distinct3(I, u)
    requires Corners(I, t) == Corners(I, u)
    ensures CornerKey(I, t) == CornerKey(I, u)
  {
    var a, b, c := I[3 * t], I[3 * t + 1], I[3 * t + 2];
    var x, y, z := I[3 * u], I[3 * u + 1], I[3 * u + 2];
    assert a in {x, y, z} && b in {x, y, z} && c in {x, y, z};
    assert x in {a, b, c} && y in {a, b, c} && z in {a, b, c};
  }
}
