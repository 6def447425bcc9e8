/**
 * The MurmurHash object: two 64-bit lanes updated in place by append and
 * overwritten by assignment. Each method is proved against the functions of
 * the Append and Dispatch modules, so everything proved about those
 * functions holds of the object.
 */
module Accumulator {
  import opened Digests
  import opened LittleEndian
  import opened Mix
  import opened Append
  import opened Dispatch

  /**
   * Cases 15 down to 9 of the switch on bytes & 15: tail bytes 14 down to 8,
   * those below the length of the tail, xored into k2 at their byte position
   * in the second word. k2 is the little-endian word of the tail past byte 8.
   */
  method HighWord(tail: seq<bv8>) returns (k2: bv64)
    requires |tail| < 16
    ensures k2 == LeWord(tail[Min(|tail|, 8)..])
  {
    var rem := |tail|;
    ghost var s := tail[Min(rem, 8)..];
    k2 := 0;
    LeWordFromUnfold(s, 7);
    LeWordFromUnfold(s, 6);
    if rem >= 15 { k2 := WithByte(k2, tail[14], 6); }
    assert k2 == LeWordFrom(s, 6);
    LeWordFromUnfold(s, 5);
    if rem >= 14 { k2 := WithByte(k2, tail[13], 5); }
    assert k2 == LeWordFrom(s, 5);
    LeWordFromUnfold(s, 4);
    if rem >= 13 { k2 := WithByte(k2, tail[12], 4); }
    assert k2 == LeWordFrom(s, 4);
    LeWordFromUnfold(s, 3);
    if rem >= 12 { k2 := WithByte(k2, tail[11], 3); }
    assert k2 == LeWordFrom(s, 3);
    LeWordFromUnfold(s, 2);
    if rem >= 11 { k2 := WithByte(k2, tail[10], 2); }
    assert k2 == LeWordFrom(s, 2);
    LeWordFromUnfold(s, 1);
    if rem >= 10 { k2 := WithByte(k2, tail[9], 1); }
    assert k2 == LeWordFrom(s, 1);
    LeWordFromUnfold(s, 0);
    if rem >= 9 { k2 := WithByte(k2, tail[8], 0); }
  }

  /**
   * Cases 8 down to 1 of the switch: tail bytes 7 down to 0, those below the
   * length of the tail, xored into k1. k1 is the little-endian word of the
   * first eight bytes of the tail, or of the whole tail when it is shorter.
   */
  method LowWord(tail: seq<bv8>) returns (k1: bv64)
    requires |tail| < 16
    ensures k1 == LeWord(tail[..Min(|tail|, 8)])
  {
    var rem := |tail|;
    ghost var s := tail[..Min(rem, 8)];
    k1 := 0;
    LeWordFromUnfold(s, 8);
    LeWordFromUnfold(s, 7);
    if rem >= 8 { k1 := WithByte(k1, tail[7], 7); }
    assert k1 == LeWordFrom(s, 7);
    LeWordFromUnfold(s, 6);
    if rem >= 7 { k1 := WithByte(k1, tail[6], 6); }
    assert k1 == LeWordFrom(s, 6);
    LeWordFromUnfold(s, 5);
    if rem >= 6 { k1 := WithByte(k1, tail[5], 5); }
    assert k1 == LeWordFrom(s, 5);
    LeWordFromUnfold(s, 4);
    if rem >= 5 { k1 := WithByte(k1, tail[4], 4); }
    assert k1 == LeWordFrom(s, 4);
    LeWordFromUnfold(s, 3);
    if rem >= 4 { k1 := WithByte(k1, tail[3], 3); }
    assert k1 == LeWordFrom(s, 3);
    LeWordFromUnfold(s, 2);
    if rem >= 3 { k1 := WithByte(k1, tail[2], 2); }
    assert k1 == LeWordFrom(s, 2);
    LeWordFromUnfold(s, 1);
    if rem >= 2 { k1 := WithByte(k1, tail[1], 1); }
    assert k1 == LeWordFrom(s, 1);
    LeWordFromUnfold(s, 0);
    if rem >= 1 { k1 := WithByte(k1, tail[0], 0); }
  }

  /**
   * The switch on bytes & 15 over the lanes h1, h2 after the block loop: k2
   * from cases 15 to 9, mixed into h2 when the tail is longer than 8 bytes,
   * then k1 from cases 8 to 1, mixed into h1 when the tail is not empty.
   */
  method MixTail(tail: seq<bv8>, x0: bv64, y0: bv64) returns (x: bv64, y: bv64)
    requires |tail| < 16
    ensures x == TailLane1(x0, tail) && y == TailLane2(y0, tail)
  {
    var rem := |tail|;
    x, y := x0, y0;
    var k2 := HighWord(tail);
    if rem >= 9 {
      k2 := MixK2(k2);
      y := Fold(y, k2);
    }
    var k1 := LowWord(tail);
    if rem >= 1 {
      k1 := MixK1(k1);
      x := Fold(x, k1);
    }
    TailLane1Unfold(x0, tail);
    TailLane2Unfold(y0, tail);
  }

  /**
   * The block loop of append over local copies x, y of the lanes: block i
   * is the words 2i and 2i+1 of the data, each scrambled and folded into
   * its lane, h1 first and h2 with the new h1.
   */
  method MixBlocks(blocks: seq<bv64>, nBlocks: nat, x0: bv64, y0: bv64) returns (x: bv64, y: bv64)
    requires 2 * nBlocks <= |blocks|
    ensures Digest(x, y) == Body(Digest(x0, y0), blocks, nBlocks)
  {
    x, y := x0, y0;
    var i := 0;
    while i < nBlocks
      invariant 0 <= i <= nBlocks
      invariant Digest(x, y) == Body(Digest(x0, y0), blocks, i)
    {
      var k1 := blocks[2 * i];
      var k2 := blocks[2 * i + 1];
      k1 := MixK1(k1);
      x := FoldRotate(x, k1, 27);
      x := Accumulate(x, y, N1);
      k2 := MixK2(k2);
      y := FoldRotate(y, k2, 31);
      y := Accumulate(y, x, N2);
      BodyUnfold(Digest(x0, y0), blocks, i);
      RoundUnfold(Body(Digest(x0, y0), blocks, i).h1, Body(Digest(x0, y0), blocks, i).h2, blocks[2 * i], blocks[2 * i + 1], x);
      i := i + 1;
    }
  }

  /** sizeof(T) of the scalars laid end to end in a bulk call: the size of the first, or 0 when there is none. */
  function ScalarSize(parts: seq<seq<bv8>>): nat {
    if |parts| == 0 then 0 else |parts[0]|
  }

  /** The elementSize argument that the overload taking v passes to append(data, bytes, elementSize). */
  function ElementSize(v: Value): nat
    requires !v.GenericArray?
  {
    match v
    case Scalar(bytes) => |bytes|
    case HalfValue(_) => 2
    case Str(_) => 1
    case Interned(_) => 1
    case Hash(_) => 16
    case Composite(_, components) => ScalarSize(components)
    case ScalarArray(elements) => ScalarSize(elements)
    case HalfArray(_) => 2
    case CompositeArray(_, items) => ScalarSize(Components(items))
  }

  class MurmurHash {
    var h1: bv64
    var h2: bv64

    /** The lanes as a value: what ==, != and < compare, and what h1() and h2() return. */
    function State(): Digest
      reads this
    {
      Digest(h1, h2)
    }

    /**
     * append(data, bytes, elementSize): the block loop over local copies of
     * the lanes, the fall-through switch on bytes & 15, the finalisation, and
     * the lanes stored back. elementSize is not read.
     */
    method Append(data: seq<bv8>, elementSize: int)
      modifies this
      ensures State() == Step(old(State()), data)
    {
      var nBlocks := Blocks(|data|);
      var x, y := MixBlocks(Words(data), nBlocks, h1, h2);

      // tail: the switch falls through from case bytes & 15 down to case 1
      var tail := data[16 * nBlocks..];
      assert tail == Tail(data);
      x, y := MixTail(tail, x, y);

      // finalisation
      var len := LengthWord(|data|);
      var p := Premix(x, y, len);
      x, y := Fmix(p.h1), Fmix(p.h2);
      var f := Postmix(x, y);
      h1, h2 := f.h1, f.h2;
    }

    /**
     * append(value) for every overload: a value of a type with a bulk
     * overload is one call of append(data, bytes, elementSize) over its
     * bytes; an array of any other type goes through the per-element loop.
     */
    method AppendValue(v: Value)
      modifies this
      ensures State() == Appended(old(State()), v)
      decreases v, 1
    {
      if v.GenericArray? {
        AppendEach(v.values);
      } else {
        var bytes := Chunks(v)[0];
        Append(bytes, ElementSize(v));
        ReplayOne(old(State()), bytes);
      }
    }

    /** The per-element loop: append(data[i]) for each element in index order. */
    method AppendEach(values: seq<Value>)
      modifies this
      ensures State() == Appended(old(State()), GenericArray(values))
      decreases values, 0
    {
      var i := 0;
      while i < |values|
        invariant 0 <= i <= |values|
        invariant State() == AppendedAll(old(State()), values[..i])
      {
        AppendValue(values[i]);
        assert values[..i + 1][..i] == values[..i];
        i := i + 1;
      }
      assert values[..|values|] == values;
      GenericArrayInOrder(old(State()), values);
    }

    /**
     * append(other MurmurHash): one call over the 16 bytes of other, read
     * before the lanes of this object are stored back, so appending an
     * object to itself appends its old value.
     */
    method AppendHash(other: MurmurHash)
      modifies this
      ensures State() == Step(old(State()), DigestBytes(old(other.State())))
    {
      var bytes := DigestBytes(other.State());
      Append(bytes, 16);
    }

    /** operator=: both lanes copied from other. */
    method Assign(other: MurmurHash)
      modifies this
      ensures State() == old(other.State())
    {
      h1 := other.h1;
      h2 := other.h2;
    }
  }
}
