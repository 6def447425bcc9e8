/**
 * Little-endian packing of bytes into 64-bit words, as MurmurHash::append
 * reads its input: the 8-byte halves of each block, the tail words k1 and k2,
 * and the in-memory bytes of a MurmurHash value.
 *
 * The bit-vector facts are stated in small lemmas over plain variables, and
 * the unfolding of each function is supplied by an explicit lemma call, so
 * that the solver only ever has to combine equalities.
 */
module LittleEndian {

  /** k ^= uint64_t(b) << 8*i: byte b xored into word k at byte position i. */
  function WithByte(k: bv64, b: bv8, i: nat): bv64
    requires i < 8
  {
    var w := b as bv64;
    if i == 0 then k ^ w
    else if i == 1 then k ^ (w << 8)
    else if i == 2 then k ^ (w << 16)
    else if i == 3 then k ^ (w << 24)
    else if i == 4 then k ^ (w << 32)
    else if i == 5 then k ^ (w << 40)
    else if i == 6 then k ^ (w << 48)
    else k ^ (w << 56)
  }

  /**
   * The little-endian word of s[j..]: byte s[i] at bits 8*i, for j <= i < |s|,
   * accumulated from the top byte down, the order of the fall-through switch.
   */
  function LeWordFrom(s: seq<bv8>, j: nat): bv64
    requires |s| <= 8
    decreases |s| - j
  {
    if j >= |s| then 0 else WithByte(LeWordFrom(s, j + 1), s[j], j)
  }

  /** The little-endian word of up to eight bytes; missing high bytes are zero. */
  function LeWord(s: seq<bv8>): bv64
    requires |s| <= 8
  {
    LeWordFrom(s, 0)
  }

  /** The eight bytes of w in memory order on a little-endian host. */
  function WordBytes(w: bv64): (s: seq<bv8>)
    ensures |s| == 8
  {
    [(w & 0xff) as bv8, ((w >> 8) & 0xff) as bv8,
     ((w >> 16) & 0xff) as bv8, ((w >> 24) & 0xff) as bv8,
     ((w >> 32) & 0xff) as bv8, ((w >> 40) & 0xff) as bv8,
     ((w >> 48) & 0xff) as bv8, ((w >> 56) & 0xff) as bv8]
  }

  /** Eight zero bytes, and the zero padding of a short tail. */
  function Zeros(n: nat): (s: seq<bv8>)
    ensures |s| == n && forall i :: 0 <= i < n ==> s[i] == 0
  {
    seq(n, _ => 0)
  }

  // ---------------------------------------------------------------------
  // Unfolding facts, one per call site.

  lemma WithByte0(k: bv64, b: bv8)
    ensures WithByte(k, b, 0) == k ^ ((b as bv64) << 0)
  {
  }

  lemma WithByte1(k: bv64, b: bv8)
    ensures WithByte(k, b, 1) == k ^ ((b as bv64) << 8)
  {
  }

  lemma WithByte2(k: bv64, b: bv8)
    ensures WithByte(k, b, 2) == k ^ ((b as bv64) << 16)
  {
  }

  lemma WithByte3(k: bv64, b: bv8)
    ensures WithByte(k, b, 3) == k ^ ((b as bv64) << 24)
  {
  }

  lemma WithByte4(k: bv64, b: bv8)
    ensures WithByte(k, b, 4) == k ^ ((b as bv64) << 32)
  {
  }

  lemma WithByte5(k: bv64, b: bv8)
    ensures WithByte(k, b, 5) == k ^ ((b as bv64) << 40)
  {
  }

  lemma WithByte6(k: bv64, b: bv8)
    ensures WithByte(k, b, 6) == k ^ ((b as bv64) << 48)
  {
  }

  lemma WithByte7(k: bv64, b: bv8)
    ensures WithByte(k, b, 7) == k ^ ((b as bv64) << 56)
  {
  }

  lemma LeWordFromUnfold(s: seq<bv8>, j: nat)
    requires |s| <= 8
    ensures j >= |s| ==> LeWordFrom(s, j) == 0
    ensures j < |s| ==> LeWordFrom(s, j) == WithByte(LeWordFrom(s, j + 1), s[j], j)
  {
  }

  /** The word of eight bytes b0..b7, written out. */
  lemma LeWord8(s: seq<bv8>)
    requires |s| == 8
    ensures LeWord(s) ==
      (((((((((0 ^ ((s[7] as bv64) << 56)) ^ ((s[6] as bv64) << 48)) ^ ((s[5] as bv64) << 40))
        ^ ((s[4] as bv64) << 32)) ^ ((s[3] as bv64) << 24)) ^ ((s[2] as bv64) << 16))
        ^ ((s[1] as bv64) << 8)) ^ ((s[0] as bv64) << 0)))
  {
    LeWordFromUnfold(s, 8);
    LeWordFromUnfold(s, 7); WithByte7(0, s[7]);
    LeWordFromUnfold(s, 6); WithByte6((0 ^ ((s[7] as bv64) << 56)), s[6]);
    LeWordFromUnfold(s, 5); WithByte5(((0 ^ ((s[7] as bv64) << 56)) ^ ((s[6] as bv64) << 48)), s[5]);
    LeWordFromUnfold(s, 4); WithByte4((((0 ^ ((s[7] as bv64) << 56)) ^ ((s[6] as bv64) << 48)) ^ ((s[5] as bv64) << 40)), s[4]);
    LeWordFromUnfold(s, 3); WithByte3(((((0 ^ ((s[7] as bv64) << 56)) ^ ((s[6] as bv64) << 48)) ^ ((s[5] as bv64) << 40)) ^ ((s[4] as bv64) << 32)), s[3]);
    LeWordFromUnfold(s, 2); WithByte2((((((0 ^ ((s[7] as bv64) << 56)) ^ ((s[6] as bv64) << 48)) ^ ((s[5] as bv64) << 40)) ^ ((s[4] as bv64) << 32)) ^ ((s[3] as bv64) << 24)), s[2]);
    LeWordFromUnfold(s, 1); WithByte1(((((((0 ^ ((s[7] as bv64) << 56)) ^ ((s[6] as bv64) << 48)) ^ ((s[5] as bv64) << 40)) ^ ((s[4] as bv64) << 32)) ^ ((s[3] as bv64) << 24)) ^ ((s[2] as bv64) << 16)), s[1]);
    LeWordFromUnfold(s, 0); WithByte0((((((((0 ^ ((s[7] as bv64) << 56)) ^ ((s[6] as bv64) << 48)) ^ ((s[5] as bv64) << 40)) ^ ((s[4] as bv64) << 32)) ^ ((s[3] as bv64) << 24)) ^ ((s[2] as bv64) << 16)) ^ ((s[1] as bv64) << 8)), s[0]);
  }

  // ---------------------------------------------------------------------
  // Raw bit-vector facts over plain variables.

  lemma RawWordOfBytes(w: bv64)
    ensures
      (((((((((0 ^ (((((w >> 56) & 0xff) as bv8) as bv64) << 56)) ^ (((((w >> 48) & 0xff) as bv8) as bv64) << 48))
        ^ (((((w >> 40) & 0xff) as bv8) as bv64) << 40)) ^ (((((w >> 32) & 0xff) as bv8) as bv64) << 32))
        ^ (((((w >> 24) & 0xff) as bv8) as bv64) << 24)) ^ (((((w >> 16) & 0xff) as bv8) as bv64) << 16))
        ^ (((((w >> 8) & 0xff) as bv8) as bv64) << 8)) ^ ((((w & 0xff) as bv8) as bv64) << 0))) == w
  {
  }

  lemma RawBytesOfWord(b0: bv8, b1: bv8, b2: bv8, b3: bv8, b4: bv8, b5: bv8, b6: bv8, b7: bv8)
    ensures
      var w := (((((((((0 ^ ((b7 as bv64) << 56)) ^ ((b6 as bv64) << 48)) ^ ((b5 as bv64) << 40))
        ^ ((b4 as bv64) << 32)) ^ ((b3 as bv64) << 24)) ^ ((b2 as bv64) << 16))
        ^ ((b1 as bv64) << 8)) ^ ((b0 as bv64) << 0)));
      (w & 0xff) as bv8 == b0 && ((w >> 8) & 0xff) as bv8 == b1 &&
      ((w >> 16) & 0xff) as bv8 == b2 && ((w >> 24) & 0xff) as bv8 == b3 &&
      ((w >> 32) & 0xff) as bv8 == b4 && ((w >> 40) & 0xff) as bv8 == b5 &&
      ((w >> 48) & 0xff) as bv8 == b6 && ((w >> 56) & 0xff) as bv8 == b7
  {
  }

  lemma WithZeroByte(i: nat)
    requires i < 8
    ensures WithByte(0, 0, i) == 0
  {
  }

  // ---------------------------------------------------------------------
  // Round trips.

  /** Reading back the bytes of a word gives the word. */
  lemma {:induction false} WordBytesRoundTrip(w: bv64)
    ensures LeWord(WordBytes(w)) == w
  {
    var s := WordBytes(w);
    LeWord8(s);
    RawWordOfBytes(w);
  }

  /** The bytes of the word of eight bytes are those bytes: byte i sits at bits 8*i. */
  lemma {:induction false} WordOfBytesRoundTrip(s: seq<bv8>)
    requires |s| == 8
    ensures WordBytes(LeWord(s)) == s
  {
    LeWord8(s);
    RawBytesOfWord(s[0], s[1], s[2], s[3], s[4], s[5], s[6], s[7]);
  }

  /** The word of the zero padding above the end of s is zero. */
  lemma {:induction false} PaddingWordIsZero(s: seq<bv8>, n: nat, j: nat)
    requires |s| + n <= 8 && |s| <= j
    ensures LeWordFrom(s + Zeros(n), j) == 0
    decreases |s| + n - j
  {
    var p := s + Zeros(n);
    LeWordFromUnfold(p, j);
    if j < |p| {
      PaddingWordIsZero(s, n, j + 1);
      assert p[j] == 0;
      WithZeroByte(j);
    }
  }

  /** Zero bytes above the end of s do not change its word. */
  lemma {:induction false} LeWordFromPadded(s: seq<bv8>, n: nat, j: nat)
    requires |s| + n <= 8 && j <= |s|
    ensures LeWordFrom(s + Zeros(n), j) == LeWordFrom(s, j)
    decreases |s| - j
  {
    var p := s + Zeros(n);
    LeWordFromUnfold(p, j);
    LeWordFromUnfold(s, j);
    if j < |s| {
      LeWordFromPadded(s, n, j + 1);
      assert p[j] == s[j];
    } else {
      PaddingWordIsZero(s, n, j);
    }
  }

  /**
   * Tail assembly: the word of a tail of at most eight bytes holds tail byte i
   * at bits 8*i, and zero in every byte above the tail.
   */
  lemma {:induction false} TailWordBytes(s: seq<bv8>)
    requires |s| <= 8
    ensures WordBytes(LeWord(s)) == s + Zeros(8 - |s|)
  {
    LeWordFromPadded(s, 8 - |s|, 0);
    WordOfBytesRoundTrip(s + Zeros(8 - |s|));
  }
}
