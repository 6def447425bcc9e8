/**
 * One call of MurmurHash::append(data, bytes, elementSize) as a function from
 * the old lanes to the new ones: the block loop over the whole 16-byte
 * blocks, the fall-through tail over the remaining bytes, and the
 * finalisation that every call runs before the lanes are stored back.
 *
 * For fixed data every stage is a bijection on digests, so one call is too:
 * the state before a call is determined by the state after it and the data.
 */
module Append {
  import opened Digests
  import opened LittleEndian
  import opened Mix

  /** 2^64: size_t arithmetic wraps modulo this. */
  const SIZE_RANGE: int := 0x1_0000_0000_0000_0000

  /** Number of whole 16-byte blocks in n bytes: bytes / 16. */
  function Blocks(n: nat): (b: nat)
    ensures 16 * b <= n < 16 * b + 16
    ensures 2 * b <= n / 8
  {
    n / 16
  }

  /** Word w of data (8 bytes each, from the start), read little-endian: blocks[w]. */
  function BlockWord(data: seq<bv8>, w: nat): bv64
    requires 8 * w + 8 <= |data|
  {
    LeWord(data[8 * w .. 8 * w + 8])
  }

  /** The data as the array of uint64_t words that the block loop reads: blocks[w]. */
  function Words(data: seq<bv8>): (blocks: seq<bv64>)
    ensures |blocks| == |data| / 8
    ensures forall w :: 0 <= w < |blocks| ==> blocks[w] == BlockWord(data, w)
  {
    seq(|data| / 8, w requires 0 <= w < |data| / 8 => BlockWord(data, w))
  }

  /** The lanes after the first n 16-byte blocks, starting from h: block i is words 2i and 2i+1. */
  function Body(h: Digest, blocks: seq<bv64>, n: nat): Digest
    requires 2 * n <= |blocks|
  {
    if n == 0 then h
    else Round(Body(h, blocks, n - 1), blocks[2 * n - 2], blocks[2 * n - 1])
  }

  /** The block loop undone, last block first. */
  function Unbody(r: Digest, blocks: seq<bv64>, n: nat): Digest
    requires 2 * n <= |blocks|
    decreases n
  {
    if n == 0 then r
    else Unbody(Unround(r, blocks[2 * n - 2], blocks[2 * n - 1]), blocks, n - 1)
  }

  /** The bytes left over after the blocks: the tail of the switch. */
  function Tail(data: seq<bv8>): (t: seq<bv8>)
    ensures |t| == |data| % 16 && |t| < 16
    ensures data == data[..16 * Blocks(|data|)] + t
  {
    data[16 * Blocks(|data|)..]
  }

  function Min(a: int, b: int): int {
    if a < b then a else b
  }

  /** The tail stage on h1: bytes 0..7 of the tail form k1, folded in when the tail is not empty. */
  function TailLane1(x: bv64, tail: seq<bv8>): bv64
    requires |tail| < 16
  {
    if |tail| > 0 then Fold(x, MixK1(LeWord(tail[..Min(|tail|, 8)]))) else x
  }

  /** The tail stage on h2: bytes 8..14 of the tail form k2, folded in when the tail is longer than 8 bytes. */
  function TailLane2(y: bv64, tail: seq<bv8>): bv64
    requires |tail| < 16
  {
    if |tail| > 8 then Fold(y, MixK2(LeWord(tail[8..]))) else y
  }

  /** The fall-through switch on bytes & 15: h2 takes k2 first, then h1 takes k1. */
  function TailMix(h: Digest, tail: seq<bv8>): Digest
    requires |tail| < 16
  {
    Digest(TailLane1(h.h1, tail), TailLane2(h.h2, tail))
  }

  /** The byte count as the size_t that the finalisation xors into the lanes. */
  function LengthWord(n: nat): bv64 {
    (n % SIZE_RANGE) as bv64
  }

  /** The start of the finalisation: h1 ^= len; h2 ^= len; h1 += h2; h2 += h1. */
  function Premix(x: bv64, y: bv64, len: bv64): Digest {
    var b1 := (x ^ len) + (y ^ len);
    Digest(b1, (y ^ len) + b1)
  }

  /** The end of the finalisation, after fmix of each lane: h1 += h2; h2 += h1. */
  function Postmix(f1: bv64, f2: bv64): Digest {
    Digest(f1 + f2, f2 + (f1 + f2))
  }

  /** The finalisation of a call that appended len bytes. */
  function Finalise(h: Digest, len: bv64): Digest {
    var p := Premix(h.h1, h.h2, len);
    Postmix(Fmix(p.h1), Fmix(p.h2))
  }

  /** Premix undone: h1 -= h2 with the new h2 recovered first, then the length xored out. */
  function Unpremix(b1: bv64, b2: bv64, len: bv64): Digest {
    var a2 := b2 - b1;
    Digest((b1 - a2) ^ len, a2 ^ len)
  }

  /** Postmix undone. */
  function Unpostmix(r1: bv64, r2: bv64): Digest {
    var f2 := r2 - r1;
    Digest(r1 - f2, f2)
  }

  /** The finalisation undone. */
  function Unfinalise(r: Digest, len: bv64): Digest {
    var f := Unpostmix(r.h1, r.h2);
    Unpremix(Unfmix(f.h1), Unfmix(f.h2), len)
  }

  /** One call append(data, |data|, _): the new lanes, given the old ones. */
  function Step(h: Digest, data: seq<bv8>): Digest {
    Finalise(TailMix(Body(h, Words(data), Blocks(|data|)), Tail(data)), LengthWord(|data|))
  }

  /** One call undone: the old lanes, given the new ones and the data. */
  function Unstep(r: Digest, data: seq<bv8>): Digest {
    Unbody(TailMix(Unfinalise(r, LengthWord(|data|)), Tail(data)), Words(data), Blocks(|data|))
  }

  // ---------------------------------------------------------------------
  // Unfolding facts.

  lemma BodyUnfold(h: Digest, blocks: seq<bv64>, n: nat)
    requires 2 * n + 2 <= |blocks|
    ensures Body(h, blocks, n + 1) == Round(Body(h, blocks, n), blocks[2 * n], blocks[2 * n + 1])
  {
  }

  lemma PremixUnfold(x: bv64, y: bv64, len: bv64)
    ensures Premix(x, y, len) == Digest((x ^ len) + (y ^ len), (y ^ len) + ((x ^ len) + (y ^ len)))
  {
  }

  lemma UnpremixUnfold(b1: bv64, b2: bv64, len: bv64)
    ensures Unpremix(b1, b2, len) == Digest((b1 - (b2 - b1)) ^ len, (b2 - b1) ^ len)
  {
  }

  lemma PostmixUnfold(f1: bv64, f2: bv64)
    ensures Postmix(f1, f2) == Digest(f1 + f2, f2 + (f1 + f2))
  {
  }

  lemma UnpostmixUnfold(r1: bv64, r2: bv64)
    ensures Unpostmix(r1, r2) == Digest(r1 - (r2 - r1), r2 - r1)
  {
  }

  lemma TailLane1Unfold(x: bv64, tail: seq<bv8>)
    requires |tail| < 16
    ensures |tail| > 0 ==> TailLane1(x, tail) == Fold(x, MixK1(LeWord(tail[..Min(|tail|, 8)])))
    ensures |tail| == 0 ==> TailLane1(x, tail) == x
  {
  }

  lemma TailLane2Unfold(y: bv64, tail: seq<bv8>)
    requires |tail| < 16
    ensures |tail| > 8 ==> TailLane2(y, tail) == Fold(y, MixK2(LeWord(tail[8..])))
    ensures |tail| <= 8 ==> TailLane2(y, tail) == y
  {
  }

  // ---------------------------------------------------------------------
  // Inverses of the stages.

  /** Unpremix undoes Premix, and Premix undoes Unpremix. */
  lemma PremixInverse(x: bv64, y: bv64, len: bv64)
    ensures Unpremix(Premix(x, y, len).h1, Premix(x, y, len).h2, len) == Digest(x, y)
    ensures Premix(Unpremix(x, y, len).h1, Unpremix(x, y, len).h2, len) == Digest(x, y)
  {
    PremixUnfold(x, y, len);
    UnpremixUnfold((x ^ len) + (y ^ len), (y ^ len) + ((x ^ len) + (y ^ len)), len);
    UnpremixUnfold(x, y, len);
    PremixUnfold((x - (y - x)) ^ len, (y - x) ^ len, len);
  }

  /** Unpostmix undoes Postmix, and Postmix undoes Unpostmix. */
  lemma PostmixInverse(f1: bv64, f2: bv64)
    ensures Unpostmix(Postmix(f1, f2).h1, Postmix(f1, f2).h2) == Digest(f1, f2)
    ensures Postmix(Unpostmix(f1, f2).h1, Unpostmix(f1, f2).h2) == Digest(f1, f2)
  {
    PostmixUnfold(f1, f2);
    UnpostmixUnfold(f1 + f2, f2 + (f1 + f2));
    UnpostmixUnfold(f1, f2);
    PostmixUnfold(f1 - (f2 - f1), f2 - f1);
  }

  /** Unfinalise undoes the finalisation of a call with the same length. */
  lemma {:induction false} FinaliseInverse(h: Digest, len: bv64)
    ensures Unfinalise(Finalise(h, len), len) == h
  {
    var p := Premix(h.h1, h.h2, len);
    PostmixInverse(Fmix(p.h1), Fmix(p.h2));
    FmixInverse(p.h1);
    FmixInverse(p.h2);
    PremixInverse(h.h1, h.h2, len);
  }

  /** The finalisation undoes Unfinalise: every digest is the finalisation of some digest. */
  lemma {:induction false} UnfinaliseInverse(r: Digest, len: bv64)
    ensures Finalise(Unfinalise(r, len), len) == r
  {
    var f := Unpostmix(r.h1, r.h2);
    PremixInverse(Unfmix(f.h1), Unfmix(f.h2), len);
    UnfmixInverse(f.h1);
    UnfmixInverse(f.h2);
    PostmixInverse(r.h1, r.h2);
  }

  /** The tail stage on h1 is its own inverse: h1 is xored with a word that depends only on the tail. */
  lemma TailLane1Involution(x: bv64, tail: seq<bv8>)
    requires |tail| < 16
    ensures TailLane1(TailLane1(x, tail), tail) == x
  {
    TailLane1Unfold(x, tail);
    if |tail| > 0 {
      var m := MixK1(LeWord(tail[..Min(|tail|, 8)]));
      TailLane1Unfold(Fold(x, m), tail);
      FoldTwice(x, m);
    } else {
      TailLane1Unfold(x, tail);
    }
  }

  /** The tail stage on h2 is its own inverse: h2 is xored with a word that depends only on the tail. */
  lemma TailLane2Involution(y: bv64, tail: seq<bv8>)
    requires |tail| < 16
    ensures TailLane2(TailLane2(y, tail), tail) == y
  {
    TailLane2Unfold(y, tail);
    if |tail| > 8 {
      var m := MixK2(LeWord(tail[8..]));
      TailLane2Unfold(Fold(y, m), tail);
      FoldTwice(y, m);
    }
  }

  /** The tail stage is its own inverse. */
  lemma {:induction false} TailMixInvolution(h: Digest, tail: seq<bv8>)
    requires |tail| < 16
    ensures TailMix(TailMix(h, tail), tail) == h
  {
    TailLane1Involution(h.h1, tail);
    TailLane2Involution(h.h2, tail);
  }

  /** Unbody undoes the block loop over the same n blocks. */
  lemma {:induction false} BodyInverse(h: Digest, blocks: seq<bv64>, n: nat)
    requires 2 * n <= |blocks|
    ensures Unbody(Body(h, blocks, n), blocks, n) == h
  {
    if n > 0 {
      RoundInverse(Body(h, blocks, n - 1), blocks[2 * n - 2], blocks[2 * n - 1]);
      BodyInverse(h, blocks, n - 1);
    }
  }

  /** The block loop undoes Unbody: every digest is the result of the block loop from some digest. */
  lemma {:induction false} UnbodyInverse(r: Digest, blocks: seq<bv64>, n: nat)
    requires 2 * n <= |blocks|
    ensures Body(Unbody(r, blocks, n), blocks, n) == r
    decreases n
  {
    if n > 0 {
      var k1, k2 := blocks[2 * n - 2], blocks[2 * n - 1];
      UnbodyInverse(Unround(r, k1, k2), blocks, n - 1);
      UnroundInverse(r, k1, k2);
    }
  }

  // ---------------------------------------------------------------------
  // One call of append.

  /** Unstep undoes a call: the lanes before a call are determined by the lanes after it and the data. */
  lemma {:induction false} StepInverse(h: Digest, data: seq<bv8>)
    ensures Unstep(Step(h, data), data) == h
  {
    var tail := Tail(data);
    var b := Body(h, Words(data), Blocks(|data|));
    FinaliseInverse(TailMix(b, tail), LengthWord(|data|));
    TailMixInvolution(b, tail);
    BodyInverse(h, Words(data), Blocks(|data|));
  }

  /** A call undoes Unstep: for fixed data, every digest is reached by one call from some digest. */
  lemma {:induction false} UnstepInverse(r: Digest, data: seq<bv8>)
    ensures Step(Unstep(r, data), data) == r
  {
    var tail := Tail(data);
    var u := TailMix(Unfinalise(r, LengthWord(|data|)), tail);
    UnbodyInverse(u, Words(data), Blocks(|data|));
    TailMixInvolution(Unfinalise(r, LengthWord(|data|)), tail);
    UnfinaliseInverse(r, LengthWord(|data|));
  }

  /** Two different states never collide on the same data: a call is injective in the old lanes. */
  lemma StepInjective(g: Digest, h: Digest, data: seq<bv8>)
    ensures Step(g, data) == Step(h, data) ==> g == h
  {
    StepInverse(g, data);
    StepInverse(h, data);
  }

  /**
   * Every call finalises, even when it appends no bytes: with no blocks and
   * no tail only the finalisation with length 0 remains.
   */
  lemma {:induction false} EmptyStepFinalises(h: Digest)
    ensures Step(h, []) == Finalise(h, 0)
  {
    TailLane1Unfold(h.h1, []);
    TailLane2Unfold(h.h2, []);
  }

  /** The all-zero state is a fixed point of appending no bytes. */
  lemma {:induction false} EmptyStepKeepsZero()
    ensures Step(Digest(0, 0), []) == Digest(0, 0)
  {
    EmptyStepFinalises(Digest(0, 0));
    PremixUnfold(0, 0, 0);
    FmixZero();
    PostmixUnfold(0, 0);
  }

  lemma FmixOfOne()
    ensures Fmix(1) == 0xb456bcfc34c2cb2c
  {
  }

  lemma FmixOfTwo()
    ensures Fmix(2) == 0x3abf2a20650683e7
  {
  }

  /**
   * Appending no bytes is not a no-op in general: the finalisation still
   * runs, and moves the state (0, 1) to a different state.
   */
  lemma {:induction false} EmptyStepMovesState()
    ensures Step(Digest(0, 1), []) == Digest(0xef15e71c99c94f13, 0x29d5113cfecfd2fa)
    ensures Step(Digest(0, 1), []) != Digest(0, 1)
  {
    EmptyStepFinalises(Digest(0, 1));
    PremixUnfold(0, 1, 0);
    FmixOfOne();
    FmixOfTwo();
    PostmixUnfold(0xb456bcfc34c2cb2c, 0x3abf2a20650683e7);
  }

  // ---------------------------------------------------------------------
  // Where the bytes go.

  /**
   * Block word w of the body is exactly the data bytes 8w to 8w+7, byte
   * 8w+j at bits 8j: the body reads each byte of the whole blocks once.
   */
  lemma {:induction false} BlockWordBytes(data: seq<bv8>, w: nat)
    requires 8 * w + 8 <= |data|
    ensures WordBytes(Words(data)[w]) == data[8 * w .. 8 * w + 8]
  {
    WordOfBytesRoundTrip(data[8 * w .. 8 * w + 8]);
  }

  /**
   * Tail assembly: tail byte i lands in k1 at byte position i when i < 8,
   * and in k2 at byte position i - 8 otherwise; the bytes above the tail
   * in each word are zero.
   */
  lemma {:induction false} TailBytesLand(tail: seq<bv8>)
    requires |tail| < 16
    ensures WordBytes(LeWord(tail[..Min(|tail|, 8)])) == tail[..Min(|tail|, 8)] + Zeros(8 - Min(|tail|, 8))
    ensures |tail| > 8 ==> WordBytes(LeWord(tail[8..])) == tail[8..] + Zeros(16 - |tail|)
  {
    TailWordBytes(tail[..Min(|tail|, 8)]);
    if |tail| > 8 {
      TailWordBytes(tail[8..]);
    }
  }

  /** A tail of at most 8 bytes leaves h2 as it was, and an empty tail leaves both lanes as they were. */
  lemma {:induction false} ShortTailKeepsLanes(h: Digest, tail: seq<bv8>)
    requires |tail| < 16
    ensures |tail| <= 8 ==> TailMix(h, tail).h2 == h.h2
    ensures |tail| == 0 ==> TailMix(h, tail) == h
  {
    TailLane1Unfold(h.h1, tail);
    TailLane2Unfold(h.h2, tail);
  }
}
