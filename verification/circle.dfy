/**
  `get_subdivide_circles` (and the 10-objloader `get_circle_primitive`, which runs the same
  loop): start from the three corners of a regular triangle and, while the level is
  positive, insert between every point and its successor (cyclically) the midpoint of the
  two, projected back onto the unit circle.
 */
module Circle {
  import opened Meshes
  import opened Subdivision

  /** The starting triangle, counter-clockwise: (0, 1), (-sqrt(3)/2, -1/2), (sqrt(3)/2, -1/2). */
  const Triangle: seq<Pos> := [Base(0), Base(1), Base(2)]

  /**
    Entry `k` of the list one pass builds from `p`: even entries are the old points, odd
    entries the midpoint of an old point and its cyclic successor.
   */
  function Emitted(p: seq<Pos>, k: nat): Pos
    requires k < 2 * |p|
  {
    var i := k / 2;
    if k % 2 == 0 then p[i] else Mid(p[i], p[(i + 1) % |p|])
  }

  /** One pass, as a value. */
  function Interleave(p: seq<Pos>): seq<Pos>
  {
    seq(2 * |p|, k requires 0 <= k < 2 * |p| => Emitted(p, k))
  }

  /**
    After a pass, old point i sits at position 2i and the midpoint of points i and
    (i + 1) mod m at position 2i + 1; the list doubles in length.
   */
  lemma InterleaveAt(p: seq<Pos>, j: nat)
    requires j < |p|
    ensures |Interleave(p)| == 2 * |p|
    ensures Interleave(p)[2 * j] == p[j]
    ensures Interleave(p)[2 * j + 1] == Mid(p[j], p[(j + 1) % |p|])
  {
    assert (2 * j) / 2 == j && (2 * j) % 2 == 0;
    assert (2 * j + 1) / 2 == j && (2 * j + 1) % 2 == 1;
  }

  /** The successor of position 2i on the doubled circle is twice the successor of i. */
  lemma NextIndex(i: nat, m: nat)
    requires i < m
    ensures (2 * i + 2) % (2 * m) == 2 * ((i + 1) % m)
  {
    if i + 1 < m {
      assert (2 * i + 2) % (2 * m) == 2 * i + 2;
      assert (i + 1) % m == i + 1;
    } else {
      assert (2 * m) % (2 * m) == 0;
      assert m % m == 0;
    }
  }

  /** The points after `n` passes. */
  function CirclePoints(n: nat): seq<Pos>
  {
    if n == 0 then Triangle else Interleave(CirclePoints(n - 1))
  }

  /** The body of the `while` loop: the inner `for` loop pushing `v0` and then `mid`. */
  method CirclePass(p: seq<Pos>) returns (r: seq<Pos>)
    ensures r == Interleave(p)
  {
    r := [];
    var i := 0;
    while i < |p|
      invariant i <= |p|
      invariant |r| == 2 * i
      invariant forall k | 0 <= k < 2 * i :: r[k] == Emitted(p, k)
    {
      var v0 := p[i];
      var v1 := p[(i + 1) % |p|];
      InterleaveAt(p, i);
      r := r + [v0, Mid(v0, v1)];
      i := i + 1;
    }
  }

  /** `get_subdivide_circles(level)`: a level of zero or less gives the triangle. */
  method SubdivideCircles(subdivideLevel: int) returns (vertices: seq<Pos>)
    ensures vertices == CirclePoints(Passes(subdivideLevel))
  {
    vertices := Triangle;
    var level := subdivideLevel;
    ghost var done := 0;
    while level > 0
      invariant Passes(subdivideLevel) == done + Passes(level)
      invariant vertices == CirclePoints(done)
    {
      vertices := CirclePass(vertices);
      level := level - 1;
      done := done + 1;
    }
  }

  /** After `n` passes there are 3 * 2^n points. */
  lemma {:induction false} CircleSize(n: nat)
    ensures |CirclePoints(n)| == 3 * Pow(2, n)
  {
    if n > 0 {
      CircleSize(n - 1);
    }
  }

  /** The triangle's corners are never moved: corner k sits at position k * 2^n. */
  lemma {:induction false} CircleKeepsCorners(n: nat)
    ensures 2 * Pow(2, n) < |CirclePoints(n)|
    ensures CirclePoints(n)[0] == Base(0)
    ensures CirclePoints(n)[Pow(2, n)] == Base(1)
    ensures CirclePoints(n)[2 * Pow(2, n)] == Base(2)
  {
    CircleSize(n);
    if n > 0 {
      CircleKeepsCorners(n - 1);
      var p := CirclePoints(n - 1);
      var q := Pow(2, n - 1);
      assert Pow(2, n) == 2 * q;
      InterleaveAt(p, 0);
      InterleaveAt(p, q);
      InterleaveAt(p, 2 * q);
      assert 2 * (2 * q) == 2 * Pow(2, n);
    }
  }

  /**
    Every point added by the last pass is the midpoint of its two neighbours on the new
    circle, so the new points lie between the old ones, in order.
   */
  lemma NewPointBetweenNeighbours(n: nat, i: nat)
    requires n > 0 && i < |CirclePoints(n - 1)|
    ensures var c := CirclePoints(n);
            2 * i + 1 < |c| && c[2 * i + 1] == Mid(c[2 * i], c[(2 * i + 2) % |c|])
  {
    var p := CirclePoints(n - 1);
    var c := CirclePoints(n);
    assert c == Interleave(p);
    InterleaveAt(p, i);
    InterleaveAt(p, (i + 1) % |p|);
    NextIndex(i, |p|);
  }
}
