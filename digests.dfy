/**
 * The 128-bit value held by an IECore::MurmurHash: two 64-bit lanes h1 and h2,
 * with the comparison operators and the 64-bit narrowing used by hash tables.
 */
module Digests {

  /** The two lanes m_h1, m_h2 of a MurmurHash, as a value. */
  datatype Digest = Digest(h1: bv64, h2: bv64) {

    /** operator==: both lanes agree. */
    function Equals(other: Digest): (r: bool)
      ensures r <==> this == other
    {
      h1 == other.h1 && h2 == other.h2
    }

    /** operator!=: some lane differs. */
    function NotEquals(other: Digest): (r: bool)
      ensures r <==> !Equals(other)
      ensures r <==> this != other
    {
      h1 != other.h1 || h2 != other.h2
    }

    /**
     * operator<: lexicographic on (h1, h2). h1 is the major key: it decides
     * whenever the two h1 lanes differ, and h2 decides only on a tie.
     */
    function Less(other: Digest): (r: bool)
      ensures h1 < other.h1 ==> r
      ensures h1 == other.h1 ==> (r <==> h2 < other.h2)
    {
      h1 < other.h1 || (h1 == other.h1 && h2 < other.h2)
    }
  }

  /**
   * tbb_hasher: the narrowing of a digest to one 64-bit word, the exclusive or
   * of its lanes. Its properties are the lemmas below.
   */
  function TbbHasher(d: Digest): bv64
  {
    d.h1 ^ d.h2
  }

  /** hash_value (boost): the same narrowing as tbb_hasher. */
  function HashValue(d: Digest): bv64
  {
    d.h1 ^ d.h2
  }

  /** hash_value and tbb_hasher agree on every digest. */
  lemma HashValueIsTbbHasher(d: Digest)
    ensures HashValue(d) == TbbHasher(d)
  {
  }

  /** No digest is below itself. */
  lemma LessIsIrreflexive(a: Digest)
    ensures !a.Less(a)
  {
  }

  /** Of two digests, at most one is below the other, and then they differ. */
  lemma LessIsAsymmetric(a: Digest, b: Digest)
    ensures a.Less(b) ==> !b.Less(a) && !a.Equals(b)
  {
  }

  /** Equal digests narrow to equal words, under both narrowings. */
  lemma NarrowingRespectsEquality(a: Digest, b: Digest)
    ensures a.Equals(b) ==> TbbHasher(a) == TbbHasher(b) && HashValue(a) == HashValue(b)
  {
  }

  /** The narrowed word is zero exactly when the two lanes agree. */
  lemma NarrowingIsZeroIffLanesAgree(d: Digest)
    ensures TbbHasher(d) == 0 <==> d.h1 == d.h2
  {
    RawXorZero(d.h1, d.h2);
  }

  /** Swapping the lanes does not change the narrowed word, so the narrowing is not injective. */
  lemma NarrowingIgnoresLaneOrder(x: bv64, y: bv64)
    ensures TbbHasher(Digest(y, x)) == TbbHasher(Digest(x, y))
  {
    RawXorCommutes(x, y);
    TbbHasherUnfold(x, y);
    TbbHasherUnfold(y, x);
  }

  lemma TbbHasherUnfold(x: bv64, y: bv64)
    ensures TbbHasher(Digest(x, y)) == x ^ y
  {
  }

  lemma RawXorZero(x: bv64, y: bv64)
    ensures x ^ y == 0 <==> x == y
  {
  }

  lemma RawXorCommutes(x: bv64, y: bv64)
    ensures y ^ x == x ^ y
  {
  }
}
