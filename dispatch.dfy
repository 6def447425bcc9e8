/**
 * The typed append overloads of MurmurHash: each value is reduced to the
 * byte sequences of the calls of append(data, bytes, elementSize) that its
 * overload makes, and hashing a value is folding one call per byte sequence.
 *
 * Scalars are their sizeof(T) bytes in memory order; Imath composites are
 * their scalar components, tightly packed; a MurmurHash is its two lanes,
 * m_h1 first, each little-endian.
 */
module Dispatch {
  import opened Digests
  import opened LittleEndian
  import opened Append

  /** The Imath value types with an overload of their own, by their number of scalar components. */
  datatype Shape =
    | Vec2 | Vec3 | Color3 | Color4 | Matrix33 | Matrix44 | Quat
    /** Box<V>: min then max, each with dim scalars (dim 1 for a scalar V). */
    | Box(dim: nat)

  /** A half: its two bytes in memory order. */
  datatype Half = Half(lo: bv8, hi: bv8)

  /** A value handed to MurmurHash::append, by the overload that takes it. */
  datatype Value =
    /** A scalar of type T: its sizeof(T) bytes. */
    | Scalar(bytes: seq<bv8>)
    | HalfValue(half: Half)
    /** A std::string: its characters, without the terminator. */
    | Str(chars: seq<bv8>)
    /** An InternedString: the characters of its value(). */
    | Interned(chars: seq<bv8>)
    | Hash(digest: Digest)
    /** An Imath value: its scalar components, in memory order. */
    | Composite(shape: Shape, components: seq<seq<bv8>>)
    /** An array or std::vector of scalars of one type: the bytes of each element. */
    | ScalarArray(elements: seq<seq<bv8>>)
    | HalfArray(halves: seq<Half>)
    /** An array or std::vector of one Imath type: the components of each element. */
    | CompositeArray(shape: Shape, items: seq<seq<seq<bv8>>>)
    /** An array or std::vector of any other type: handed to the per-element loop. */
    | GenericArray(values: seq<Value>)

  /** The number of scalar components of an Imath value: getValue() followed for that many scalars. */
  function Arity(s: Shape): nat {
    match s
    case Vec2 => 2
    case Vec3 => 3
    case Color3 => 3
    case Color4 => 4
    case Matrix33 => 9
    case Matrix44 => 16
    case Quat => 4
    case Box(dim) => 2 * dim
  }

  /** Byte sequences laid end to end, as a tightly packed array lies in memory. */
  function Flatten(parts: seq<seq<bv8>>): seq<bv8> {
    if |parts| == 0 then [] else Flatten(parts[..|parts| - 1]) + parts[|parts| - 1]
  }

  /** The bytes of a half. */
  function HalfBytes(h: Half): seq<bv8> {
    [h.lo, h.hi]
  }

  /** The bytes of each half of an array. */
  function HalfElements(hs: seq<Half>): (r: seq<seq<bv8>>)
    ensures |r| == |hs|
    ensures forall i :: 0 <= i < |hs| ==> r[i] == HalfBytes(hs[i])
  {
    seq(|hs|, i requires 0 <= i < |hs| => HalfBytes(hs[i]))
  }

  /** The scalars of each item of a composite array, one after another. */
  function Components(items: seq<seq<seq<bv8>>>): seq<seq<bv8>> {
    if |items| == 0 then [] else Components(items[..|items| - 1]) + items[|items| - 1]
  }

  /** The in-memory bytes of a MurmurHash: m_h1 then m_h2, each little-endian. */
  function DigestBytes(d: Digest): (s: seq<bv8>)
    ensures |s| == 16
  {
    WordBytes(d.h1) + WordBytes(d.h2)
  }

  /** The digest whose in-memory bytes are s. */
  function DigestOfBytes(s: seq<bv8>): Digest
    requires |s| == 16
  {
    Digest(LeWord(s[..8]), LeWord(s[8..]))
  }

  /** The byte sequence of each call of append(data, bytes, elementSize) that hashing v makes, in order. */
  function Chunks(v: Value): (r: seq<seq<bv8>>)
    ensures !v.GenericArray? ==> |r| == 1
  {
    match v
    case Scalar(bytes) => [bytes]
    case HalfValue(h) => [HalfBytes(h)]
    case Str(chars) => [chars + [0]]
    case Interned(chars) => [chars + [0]]
    case Hash(d) => [DigestBytes(d)]
    case Composite(_, components) => [Flatten(components)]
    case ScalarArray(elements) => [Flatten(elements)]
    case HalfArray(hs) => [Flatten(HalfElements(hs))]
    case CompositeArray(_, items) => [Flatten(Components(items))]
    case GenericArray(values) => ChunksOfAll(values)
  }

  /** The calls of the per-element loop: those of each value, in index order. */
  function ChunksOfAll(values: seq<Value>): seq<seq<bv8>>
    decreases values, 0
  {
    if |values| == 0 then []
    else ChunksOfAll(values[..|values| - 1]) + Chunks(values[|values| - 1])
  }

  /** The lanes after one call per byte sequence, in order. */
  function Replay(h: Digest, calls: seq<seq<bv8>>): Digest {
    if |calls| == 0 then h else Step(Replay(h, calls[..|calls| - 1]), calls[|calls| - 1])
  }

  /** The lanes after appending v. */
  function Appended(h: Digest, v: Value): Digest {
    Replay(h, Chunks(v))
  }

  /** The reference for the per-element loop: each value appended in turn. */
  function AppendedAll(h: Digest, values: seq<Value>): Digest {
    if |values| == 0 then h else Appended(AppendedAll(h, values[..|values| - 1]), values[|values| - 1])
  }

  // ---------------------------------------------------------------------
  // Sequences of calls.

  /** Calls made one after another compose: replaying a ++ b is replaying a, then b. */
  lemma {:induction false} ReplayConcat(h: Digest, a: seq<seq<bv8>>, b: seq<seq<bv8>>)
    ensures Replay(h, a + b) == Replay(Replay(h, a), b)
    decreases |b|
  {
    if |b| > 0 {
      assert (a + b)[..|a + b| - 1] == a + b[..|b| - 1];
      ReplayConcat(h, a, b[..|b| - 1]);
    } else {
      assert a + b == a;
    }
  }

  /** Replaying one call is that call. */
  lemma ReplayOne(h: Digest, c: seq<bv8>)
    ensures Replay(h, [c]) == Step(h, c)
  {
    assert [c][..0] == [];
  }

  /** Laying byte sequences end to end respects concatenation of the lists. */
  lemma {:induction false} FlattenConcat(a: seq<seq<bv8>>, b: seq<seq<bv8>>)
    ensures Flatten(a + b) == Flatten(a) + Flatten(b)
    decreases |b|
  {
    if |b| > 0 {
      assert (a + b)[..|a + b| - 1] == a + b[..|b| - 1];
      FlattenConcat(a, b[..|b| - 1]);
    } else {
      assert a + b == a;
    }
  }

  /**
   * The lanes depend on how the bytes were split into calls, not only on
   * their concatenation: for any bytes a there is a state from which a as
   * one call and a followed by an empty call cover the same bytes but end
   * in different states, because every call finalises.
   */
  lemma {:induction false} SplitMatters(a: seq<bv8>)
    ensures Flatten([a, []]) == Flatten([a])
    ensures Replay(Unstep(Digest(0, 1), a), [a, []]) != Replay(Unstep(Digest(0, 1), a), [a])
  {
    assert [a, []][..1] == [a];
    assert [a][..0] == [];
    UnstepInverse(Digest(0, 1), a);
    ReplayOne(Unstep(Digest(0, 1), a), a);
    EmptyStepMovesState();
  }

  /** n parts of size bytes each make n * size bytes. */
  lemma {:induction false} FlattenLength(parts: seq<seq<bv8>>, size: nat)
    requires forall i :: 0 <= i < |parts| ==> |parts[i]| == size
    ensures |Flatten(parts)| == |parts| * size
  {
    if |parts| > 0 {
      FlattenLength(parts[..|parts| - 1], size);
    }
  }

  // ---------------------------------------------------------------------
  // Values that make a single call.

  /** A scalar is one call over its sizeof(T) bytes; the element size plays no part. */
  lemma ScalarOneCall(h: Digest, bytes: seq<bv8>)
    ensures Appended(h, Scalar(bytes)) == Step(h, bytes)
  {
    ReplayOne(h, bytes);
  }

  /** A half hashes as the 2-byte scalar with the same bytes. */
  lemma HalfAsScalar(h: Digest, x: Half)
    ensures Appended(h, HalfValue(x)) == Appended(h, Scalar(HalfBytes(x)))
  {
  }

  /** A string is one call over its characters followed by the terminating zero byte. */
  lemma StringWithTerminator(h: Digest, chars: seq<bv8>)
    ensures Appended(h, Str(chars)) == Step(h, chars + [0])
  {
    assert Chunks(Str(chars)) == [chars + [0]];
    ReplayOne(h, chars + [0]);
  }

  /** An InternedString hashes exactly as its string value. */
  lemma InternedAsString(h: Digest, chars: seq<bv8>)
    ensures Appended(h, Interned(chars)) == Appended(h, Str(chars))
  {
  }

  /** A MurmurHash is one call over its 16 in-memory bytes, and those bytes determine it. */
  lemma {:induction false} HashOneCall(h: Digest, d: Digest)
    ensures Appended(h, Hash(d)) == Step(h, DigestBytes(d))
    ensures DigestOfBytes(DigestBytes(d)) == d
  {
    var s := DigestBytes(d);
    assert Chunks(Hash(d)) == [s];
    ReplayOne(h, s);
    assert s[..8] == WordBytes(d.h1);
    assert s[8..] == WordBytes(d.h2);
    WordBytesRoundTrip(d.h1);
    WordBytesRoundTrip(d.h2);
  }

  /** Reading a digest from 16 bytes and writing it back gives the same bytes. */
  lemma {:induction false} DigestBytesRoundTrip(s: seq<bv8>)
    requires |s| == 16
    ensures DigestBytes(DigestOfBytes(s)) == s
  {
    WordOfBytesRoundTrip(s[..8]);
    WordOfBytesRoundTrip(s[8..]);
    assert s == s[..8] + s[8..];
  }

  /**
   * An Imath value is one call over all of its scalars, laid end to end:
   * Arity(shape) scalars of size bytes make Arity(shape) * size bytes.
   */
  lemma {:induction false} CompositeOneCall(h: Digest, shape: Shape, components: seq<seq<bv8>>, size: nat)
    requires |components| == Arity(shape)
    requires forall i :: 0 <= i < |components| ==> |components[i]| == size
    ensures Appended(h, Composite(shape, components)) == Step(h, Flatten(components))
    ensures |Flatten(components)| == Arity(shape) * size
  {
    var bytes := Flatten(components);
    assert Chunks(Composite(shape, components)) == [bytes];
    ReplayOne(h, bytes);
    FlattenLength(components, size);
  }

  /** The components of items laid end to end are the bytes of each item laid end to end. */
  lemma {:induction false} ComponentsAreItemsInOrder(items: seq<seq<seq<bv8>>>)
    ensures Flatten(Components(items)) == Flatten(seq(|items|, i requires 0 <= i < |items| => Flatten(items[i])))
  {
    var itemBytes := seq(|items|, i requires 0 <= i < |items| => Flatten(items[i]));
    if |items| > 0 {
      var n := |items| - 1;
      ComponentsAreItemsInOrder(items[..n]);
      FlattenConcat(Components(items[..n]), items[n]);
      var prefix := seq(n, i requires 0 <= i < n => Flatten(items[..n][i]));
      assert itemBytes[..n] == prefix;
    }
  }

  /** n items of k components each give n * k components. */
  lemma {:induction false} ComponentsLength(items: seq<seq<seq<bv8>>>, k: nat)
    requires forall i :: 0 <= i < |items| ==> |items[i]| == k
    ensures |Components(items)| == |items| * k
  {
    if |items| > 0 {
      ComponentsLength(items[..|items| - 1], k);
    }
  }

  /**
   * An array of n Imath values of one shape is one call, the same as an array
   * of the n * Arity(shape) scalars they hold, and not n calls of one value each.
   */
  lemma {:induction false} CompositeArrayAsScalarArray(h: Digest, shape: Shape, items: seq<seq<seq<bv8>>>)
    requires forall i :: 0 <= i < |items| ==> |items[i]| == Arity(shape)
    ensures Appended(h, CompositeArray(shape, items)) == Appended(h, ScalarArray(Components(items)))
    ensures |Components(items)| == |items| * Arity(shape)
  {
    ComponentsLength(items, Arity(shape));
  }

  /** An array holding one Imath value hashes as that value. */
  lemma {:induction false} CompositeArrayOfOne(h: Digest, shape: Shape, components: seq<seq<bv8>>)
    ensures Appended(h, CompositeArray(shape, [components])) == Appended(h, Composite(shape, components))
  {
    assert [components][..0] == [];
    assert Components([components]) == components;
  }

  /** An empty array or vector of scalars still makes one call, of zero bytes, which finalises. */
  lemma {:induction false} EmptyScalarArrayFinalises(h: Digest)
    ensures Appended(h, ScalarArray([])) == Finalise(h, 0)
  {
    ReplayOne(h, []);
    assert Flatten([]) == [];
    EmptyStepFinalises(h);
  }

  // ---------------------------------------------------------------------
  // The per-element loop.

  /** The per-element loop appends each value in index order. */
  lemma {:induction false} GenericArrayInOrder(h: Digest, values: seq<Value>)
    ensures Appended(h, GenericArray(values)) == AppendedAll(h, values)
  {
    if |values| > 0 {
      var n := |values| - 1;
      var prefix := values[..n];
      GenericArrayInOrder(h, prefix);
      assert ChunksOfAll(values) == ChunksOfAll(prefix) + Chunks(values[n]);
      ReplayConcat(h, ChunksOfAll(prefix), Chunks(values[n]));
      assert Appended(h, GenericArray(values)) == Replay(h, ChunksOfAll(values));
      assert Appended(h, GenericArray(prefix)) == Replay(h, ChunksOfAll(prefix));
    } else {
      assert ChunksOfAll(values) == [];
    }
  }

  /** Hashing [a, b] through the loop is appending a, then b. */
  lemma {:induction false} GenericArrayOfTwo(h: Digest, a: Value, b: Value)
    ensures Appended(h, GenericArray([a, b])) == Appended(Appended(h, a), b)
  {
    GenericArrayInOrder(h, [a, b]);
    assert [a, b][..1] == [a];
    assert [a][..0] == [];
    assert AppendedAll(h, [a]) == Appended(h, a);
    assert AppendedAll(h, [a, b]) == Appended(AppendedAll(h, [a]), b);
  }

  /** An empty array handed to the loop makes no call and leaves the lanes as they were. */
  lemma EmptyGenericArrayKeeps(h: Digest)
    ensures Appended(h, GenericArray([])) == h
  {
  }

  /** When no element is itself handed to the loop, the loop makes exactly one call per element. */
  lemma {:induction false} GenericArrayCallCount(values: seq<Value>)
    requires forall i :: 0 <= i < |values| ==> !values[i].GenericArray?
    ensures |ChunksOfAll(values)| == |values|
  {
    if |values| > 0 {
      GenericArrayCallCount(values[..|values| - 1]);
    }
  }
}
