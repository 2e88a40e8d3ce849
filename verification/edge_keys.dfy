/**
  The key of the per-pass midpoint cache. The generators pack an unordered pair of
  32-bit vertex indices into one 64-bit key, `(min << 32) | max`.
 */
module EdgeKeys {

  const TWO32: nat := 0x1_0000_0000

  /** An unordered edge in canonical form: `lo <= hi`. */
  datatype Edge = Edge(lo: nat, hi: nat)

  /** The canonical form of the edge between `i0` and `i1` (`std::min`, `std::max`). */
  function EdgeOf(i0: nat, i1: nat): (e: Edge)
    ensures e.lo <= e.hi
    ensures (e.lo == i0 && e.hi == i1) || (e.lo == i1 && e.hi == i0)
  {
    if i0 <= i1 then Edge(i0, i1) else Edge(i1, i0)
  }

  /**
    On 64-bit words, shifting the smaller index into the high half and or-ing in the
    larger one is the same as `lo * 2^32 + hi`; this is what lets `PackedKey` work on integers.
   */
  lemma ShiftOrIsSum(lo: bv32, hi: bv32)
    ensures ((lo as bv64) << 32) | (hi as bv64) == (lo as bv64) * 0x1_0000_0000 + (hi as bv64)
  {
  }

  /** The value of `(uint64(min(i0, i1)) << 32) | uint64(max(i0, i1))` for 32-bit indices. */
  function PackedKey(i0: nat, i1: nat): (k: nat)
    requires i0 < TWO32 && i1 < TWO32
    ensures k < TWO32 * TWO32
  {
    var e := EdgeOf(i0, i1);
    e.lo * TWO32 + e.hi
  }

  /** The key does not depend on the order in which an edge's ends are given. */
  lemma PackedKeySymmetric(i0: nat, i1: nat)
    requires i0 < TWO32 && i1 < TWO32
    ensures PackedKey(i0, i1) == PackedKey(i1, i0)
    ensures EdgeOf(i0, i1) == EdgeOf(i1, i0)
  {
  }

  /**
    Two index pairs get the same key exactly when they are the same unordered edge,
    so keying the cache by the canonical `Edge` is the same as keying it by the packed key.
   */
  lemma PackedKeyIdentifiesEdge(a0: nat, a1: nat, b0: nat, b1: nat)
    requires a0 < TWO32 && a1 < TWO32 && b0 < TWO32 && b1 < TWO32
    ensures PackedKey(a0, a1) == PackedKey(b0, b1) <==> EdgeOf(a0, a1) == EdgeOf(b0, b1)
  {
    var ea, eb := EdgeOf(a0, a1), EdgeOf(b0, b1);
    if PackedKey(a0, a1) == PackedKey(b0, b1) {
      assert ea.lo * TWO32 + ea.hi == eb.lo * TWO32 + eb.hi;
      assert ea.lo == eb.lo && ea.hi == eb.hi;
    }
  }
}
