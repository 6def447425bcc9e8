/**
 * The mixing primitives of MurmurHash3_x64_128 as used by MurmurHash::append:
 * rotl64, fmix, the scrambling of a word before it is folded into a lane,
 * and one round of the block loop, each with its inverse.
 *
 * Every step of the hash is a bijection on 64-bit words or on pairs of them:
 * multiplication by an odd constant, a xor-shift by at least half the word,
 * a rotation, an addition of the other lane. The inverses below are what the
 * proofs of injectivity in the Append module are built from.
 *
 * Bit-vector facts are stated over plain variables and each function is
 * unfolded by an explicit lemma call, at the written-out argument, so that
 * the solver only has to simplify closed terms and combine equalities.
 */
module Mix {
  import opened Digests

  /** The multiplicative constants c1 and c2 of the round. */
  const C1: bv64 := 0x87c37b91114253d5
  const C2: bv64 := 0x4cf5ad432745937f

  /** The additive offsets of the two lanes in the block round. */
  const N1: bv64 := 0x52dce729
  const N2: bv64 := 0x38495ab5

  /** The two odd multipliers of fmix. */
  const F1: bv64 := 0xff51afd7ed558ccd
  const F2: bv64 := 0xc4ceb9fe1a85ec53

  /** The inverses of F1 and F2 modulo 2^64. */
  const F1Inv: bv64 := 0x4f74430c22a54005
  const F2Inv: bv64 := 0x9cb4b2f8129337db

  /** A uint64_t product: multiplication modulo 2^64. */
  function Mul64(a: bv64, b: bv64): bv64 {
    a * b
  }

  /** The step k ^= k >> 33 of fmix. */
  function XorShift33(k: bv64): bv64 {
    k ^ (k >> 33)
  }

  /** rotl64(x, r): rotate x left by r bits, for 0 < r < 64. */
  function Rotl64(x: bv64, r: bv64): bv64
    requires 0 < r < 64
  {
    (x << r) | (x >> (64 - r))
  }

  /**
   * fmix: the avalanche finaliser of one lane, a xor-shift, a multiplication
   * by F1, a xor-shift, a multiplication by F2 and a xor-shift.
   */
  function Fmix(k: bv64): bv64 {
    XorShift33(Mul64(XorShift33(Mul64(XorShift33(k), F1)), F2))
  }

  /** The inverse of fmix: the same steps undone in reverse order. */
  function Unfmix(f: bv64): bv64 {
    XorShift33(Mul64(XorShift33(Mul64(XorShift33(f), F2Inv)), F1Inv))
  }

  /** The scrambling of a word before it is folded into h1: k *= c1, rotate 31, k *= c2. */
  function MixK1(k: bv64): bv64 {
    Mul64(Rotl64(Mul64(k, C1), 31), C2)
  }

  /** The scrambling of a word before it is folded into h2: k *= c2, rotate 33, k *= c1. */
  function MixK2(k: bv64): bv64 {
    Mul64(Rotl64(Mul64(k, C2), 33), C1)
  }

  /** A scrambled word folded into a lane of the tail: h ^= k. */
  function Fold(h: bv64, k: bv64): bv64 {
    h ^ k
  }

  /** A lane folded with a scrambled word and rotated: h ^= k; h = rotl64(h, r). */
  function FoldRotate(h: bv64, m: bv64, r: bv64): bv64
    requires 0 < r < 64
  {
    Rotl64(h ^ m, r)
  }

  /** The other lane added, then times 5 plus an offset: h += o; h = h*5 + n. */
  function Accumulate(t: bv64, o: bv64, n: bv64): bv64 {
    (t + o) * 5 + n
  }

  /** The update of one lane h in a block round, given the other lane o and the scrambled word m. */
  function MixLane(h: bv64, o: bv64, m: bv64, r: bv64, n: bv64): bv64
    requires 0 < r < 64
  {
    Accumulate(FoldRotate(h, m, r), o, n)
  }

  /**
   * One iteration of the block loop on lanes x = h1 and y = h2 with block
   * words k1 and k2: h1 is updated first, with rotation 27 and offset N1,
   * and h2 then uses the new h1, with rotation 31 and offset N2.
   */
  function RoundLanes(x: bv64, y: bv64, k1: bv64, k2: bv64): Digest {
    var b1 := MixLane(x, y, MixK1(k1), 27, N1);
    Digest(b1, MixLane(y, b1, MixK2(k2), 31, N2))
  }

  /** One iteration of the block loop on a digest. */
  function Round(h: Digest, k1: bv64, k2: bv64): Digest {
    RoundLanes(h.h1, h.h2, k1, k2)
  }

  /** FoldRotate undone: rotate back by 64 - r, then fold the word out again. */
  function UnfoldRotate(t: bv64, m: bv64, r: bv64): bv64
    requires 0 < r < 64
  {
    Rotl64(t, 64 - r) ^ m
  }

  /** Accumulate undone; 0xcccccccccccccccd is the inverse of 5 modulo 2^64. */
  function Unaccumulate(b: bv64, o: bv64, n: bv64): bv64 {
    (b - n) * 0xcccccccccccccccd - o
  }

  /** The update of one lane undone, given the same other lane and word. */
  function UnmixLane(b: bv64, o: bv64, m: bv64, r: bv64, n: bv64): bv64
    requires 0 < r < 64
  {
    UnfoldRotate(Unaccumulate(b, o, n), m, r)
  }

  /**
   * The round undone: h2 is recovered first, since its update used the new
   * h1, which the result holds; then h1 from the new h1 and the recovered h2.
   */
  function UnroundLanes(r1: bv64, r2: bv64, k1: bv64, k2: bv64): Digest {
    var h2 := UnmixLane(r2, r1, MixK2(k2), 31, N2);
    Digest(UnmixLane(r1, h2, MixK1(k1), 27, N1), h2)
  }

  /** The round undone on a digest. */
  function Unround(r: Digest, k1: bv64, k2: bv64): Digest {
    UnroundLanes(r.h1, r.h2, k1, k2)
  }

  // ---------------------------------------------------------------------
  // Unfolding facts.

  lemma FoldUnfold(h: bv64, k: bv64)
    ensures Fold(h, k) == h ^ k
  {
  }

  lemma RawXorTwice(h: bv64, k: bv64)
    ensures (h ^ k) ^ k == h
  {
  }

  lemma RoundUnfold(x: bv64, y: bv64, k1: bv64, k2: bv64, b1: bv64)
    requires b1 == Accumulate(FoldRotate(x, MixK1(k1), 27), y, N1)
    ensures Round(Digest(x, y), k1, k2) == Digest(b1, Accumulate(FoldRotate(y, MixK2(k2), 31), b1, N2))
  {
  }

  lemma Mul64Unfold(a: bv64, b: bv64)
    ensures Mul64(a, b) == a * b
  {
  }

  lemma XorShift33Unfold(k: bv64)
    ensures XorShift33(k) == k ^ (k >> 33)
  {
  }

  lemma AccumulateUnfold(t: bv64, o: bv64, n: bv64)
    ensures Accumulate(t, o, n) == (t + o) * 5 + n
  {
  }

  lemma UnaccumulateUnfold(b: bv64, o: bv64, n: bv64)
    ensures Unaccumulate(b, o, n) == (b - n) * 0xcccccccccccccccd - o
  {
  }

  lemma FoldRotate27Unfold(h: bv64, m: bv64)
    ensures FoldRotate(h, m, 27) == ((h ^ m) << 27) | ((h ^ m) >> 37)
  {
  }

  lemma FoldRotate31Unfold(h: bv64, m: bv64)
    ensures FoldRotate(h, m, 31) == ((h ^ m) << 31) | ((h ^ m) >> 33)
  {
  }

  lemma UnfoldRotate27Unfold(t: bv64, m: bv64)
    ensures UnfoldRotate(t, m, 27) == ((t << 37) | (t >> 27)) ^ m
  {
  }

  lemma UnfoldRotate31Unfold(t: bv64, m: bv64)
    ensures UnfoldRotate(t, m, 31) == ((t << 33) | (t >> 31)) ^ m
  {
  }

  // ---------------------------------------------------------------------
  // Inverses.

  /** Folding the same word in twice restores the lane: the tail stage undoes itself. */
  lemma {:induction false} FoldTwice(h: bv64, k: bv64)
    ensures Fold(Fold(h, k), k) == h
  {
    FoldUnfold(h, k);
    FoldUnfold(h ^ k, k);
    RawXorTwice(h, k);
  }

  /** The xor-shift by 33 is its own inverse: the shifted-in half is untouched. */
  lemma XorShift33Involution(k: bv64)
    ensures XorShift33(XorShift33(k)) == k
  {
    XorShift33Unfold(k);
    XorShift33Unfold(k ^ (k >> 33));
  }

  /** F1Inv undoes the multiplication by F1, and F1 the one by F1Inv. */
  lemma MulF1Inverse(k: bv64)
    ensures Mul64(Mul64(k, F1), F1Inv) == k
    ensures Mul64(Mul64(k, F1Inv), F1) == k
  {
    Mul64Unfold(k, 0xff51afd7ed558ccd);
    Mul64Unfold(k * 0xff51afd7ed558ccd, 0x4f74430c22a54005);
    Mul64Unfold(k, 0x4f74430c22a54005);
    Mul64Unfold(k * 0x4f74430c22a54005, 0xff51afd7ed558ccd);
  }

  /** F2Inv undoes the multiplication by F2, and F2 the one by F2Inv. */
  lemma MulF2Inverse(k: bv64)
    ensures Mul64(Mul64(k, F2), F2Inv) == k
    ensures Mul64(Mul64(k, F2Inv), F2) == k
  {
    Mul64Unfold(k, 0xc4ceb9fe1a85ec53);
    Mul64Unfold(k * 0xc4ceb9fe1a85ec53, 0x9cb4b2f8129337db);
    Mul64Unfold(k, 0x9cb4b2f8129337db);
    Mul64Unfold(k * 0x9cb4b2f8129337db, 0xc4ceb9fe1a85ec53);
  }

  /** Unfmix undoes fmix: fmix loses nothing. */
  lemma {:induction false} FmixInverse(k: bv64)
    ensures Unfmix(Fmix(k)) == k
  {
    var a := Mul64(XorShift33(k), F1);
    var b := Mul64(XorShift33(a), F2);
    XorShift33Involution(b);
    MulF2Inverse(XorShift33(a));
    XorShift33Involution(a);
    MulF1Inverse(XorShift33(k));
    XorShift33Involution(k);
  }

  /** fmix undoes Unfmix: every 64-bit word is the fmix of some word. */
  lemma {:induction false} UnfmixInverse(f: bv64)
    ensures Fmix(Unfmix(f)) == f
  {
    var a := Mul64(XorShift33(f), F2Inv);
    var b := Mul64(XorShift33(a), F1Inv);
    XorShift33Involution(b);
    MulF1Inverse(XorShift33(a));
    XorShift33Involution(a);
    MulF2Inverse(XorShift33(f));
    XorShift33Involution(f);
  }

  /** Distinct words have distinct fmix values. */
  lemma FmixInjective(j: bv64, k: bv64)
    ensures Fmix(j) == Fmix(k) ==> j == k
  {
    FmixInverse(j);
    FmixInverse(k);
  }

  /** fmix keeps zero at zero: every step maps 0 to 0. */
  lemma FmixZero()
    ensures Fmix(0) == 0
  {
    XorShift33Unfold(0);
    Mul64Unfold(0, F1);
    Mul64Unfold(0, F2);
  }

  /** Unaccumulate undoes Accumulate, and Accumulate undoes Unaccumulate. */
  lemma AccumulateInverse(t: bv64, o: bv64, n: bv64)
    ensures Unaccumulate(Accumulate(t, o, n), o, n) == t
    ensures Accumulate(Unaccumulate(t, o, n), o, n) == t
  {
    AccumulateUnfold(t, o, n);
    UnaccumulateUnfold((t + o) * 5 + n, o, n);
    UnaccumulateUnfold(t, o, n);
    AccumulateUnfold((t - n) * 0xcccccccccccccccd - o, o, n);
  }

  lemma Rotl64By27Unfold(x: bv64)
    ensures Rotl64(x, 27) == (x << 27) | (x >> 37)
  {
  }

  lemma Rotl64By37Unfold(x: bv64)
    ensures Rotl64(x, 37) == (x << 37) | (x >> 27)
  {
  }

  lemma Rotl64By31Unfold(x: bv64)
    ensures Rotl64(x, 31) == (x << 31) | (x >> 33)
  {
  }

  lemma Rotl64By33Unfold(x: bv64)
    ensures Rotl64(x, 33) == (x << 33) | (x >> 31)
  {
  }

  /**
   * Each rotation amount used by the hash (27, 31, 33) is undone by the
   * complementary rotation, in both orders: rotl64 by these amounts is a bijection.
   */
  lemma {:induction false} Rotl64Inverse(x: bv64, r: bv64)
    requires r == 27 || r == 31 || r == 33
    ensures Rotl64(Rotl64(x, r), 64 - r) == x
    ensures Rotl64(Rotl64(x, 64 - r), r) == x
  {
    if r == 27 {
      Rotl64By27Unfold(x);
      Rotl64By37Unfold((x << 27) | (x >> 37));
      Rotl64By37Unfold(x);
      Rotl64By27Unfold((x << 37) | (x >> 27));
    } else if r == 31 {
      Rotl64By31Unfold(x);
      Rotl64By33Unfold((x << 31) | (x >> 33));
      Rotl64By33Unfold(x);
      Rotl64By31Unfold((x << 33) | (x >> 31));
    } else {
      Rotl64By33Unfold(x);
      Rotl64By31Unfold((x << 33) | (x >> 31));
      Rotl64By31Unfold(x);
      Rotl64By33Unfold((x << 31) | (x >> 33));
    }
  }

  /** UnfoldRotate undoes FoldRotate by 27, and FoldRotate undoes UnfoldRotate. */
  lemma FoldRotate27Inverse(h: bv64, m: bv64)
    ensures UnfoldRotate(FoldRotate(h, m, 27), m, 27) == h
    ensures FoldRotate(UnfoldRotate(h, m, 27), m, 27) == h
  {
    FoldRotate27Unfold(h, m);
    UnfoldRotate27Unfold(((h ^ m) << 27) | ((h ^ m) >> 37), m);
    UnfoldRotate27Unfold(h, m);
    FoldRotate27Unfold(((h << 37) | (h >> 27)) ^ m, m);
  }

  /** UnfoldRotate undoes FoldRotate by 31, and FoldRotate undoes UnfoldRotate. */
  lemma FoldRotate31Inverse(h: bv64, m: bv64)
    ensures UnfoldRotate(FoldRotate(h, m, 31), m, 31) == h
    ensures FoldRotate(UnfoldRotate(h, m, 31), m, 31) == h
  {
    FoldRotate31Unfold(h, m);
    UnfoldRotate31Unfold(((h ^ m) << 31) | ((h ^ m) >> 33), m);
    UnfoldRotate31Unfold(h, m);
    FoldRotate31Unfold(((h << 33) | (h >> 31)) ^ m, m);
  }

  /** UnmixLane undoes the update of one lane, and the update undoes UnmixLane. */
  lemma MixLaneInverse(h: bv64, o: bv64, m: bv64, r: bv64, n: bv64)
    requires r == 27 || r == 31
    ensures UnmixLane(MixLane(h, o, m, r, n), o, m, r, n) == h
    ensures MixLane(UnmixLane(h, o, m, r, n), o, m, r, n) == h
  {
    AccumulateInverse(FoldRotate(h, m, r), o, n);
    AccumulateInverse(h, o, n);
    if r == 27 {
      FoldRotate27Inverse(h, m);
      FoldRotate27Inverse(Unaccumulate(h, o, n), m);
    } else {
      FoldRotate31Inverse(h, m);
      FoldRotate31Inverse(Unaccumulate(h, o, n), m);
    }
  }

  /** Unround undoes a round with the same block words. */
  lemma {:induction false} RoundInverse(h: Digest, k1: bv64, k2: bv64)
    ensures Unround(Round(h, k1, k2), k1, k2) == h
  {
    var b1 := MixLane(h.h1, h.h2, MixK1(k1), 27, N1);
    MixLaneInverse(h.h2, b1, MixK2(k2), 31, N2);
    MixLaneInverse(h.h1, h.h2, MixK1(k1), 27, N1);
  }

  /** A round undoes Unround: for fixed block words every digest is reached by a round. */
  lemma {:induction false} UnroundInverse(r: Digest, k1: bv64, k2: bv64)
    ensures Round(Unround(r, k1, k2), k1, k2) == r
  {
    var h2 := UnmixLane(r.h2, r.h1, MixK2(k2), 31, N2);
    MixLaneInverse(r.h1, h2, MixK1(k1), 27, N1);
    MixLaneInverse(r.h2, r.h1, MixK2(k2), 31, N2);
  }
}
