# IECore::MurmurHash in Dafny

A model of the `IECore::MurmurHash` accumulator of Cortex
(`include/IECore/MurmurHash.inl`) with proofs about it. A MurmurHash holds a
128-bit state in two 64-bit lanes, `m_h1` and `m_h2`. Every
`append(data, bytes, elementSize)` runs the MurmurHash3_x64_128 round over
the bytes, seeded by the current lanes:

- the 16-byte block loop;
- the fall-through tail switch on `bytes & 15`;
- the full finalisation (length xor, cross-add, `fmix`, cross-add), stored
  back into the lanes.

Every typed `append` overload reduces its value to such calls: exactly one,
except for an array handed to the per-element loop, which makes the calls of
each element in turn, and none when it is empty.
Hashes are compared with `==`, `!=` and `<`, and narrowed to 64 bits for hash
tables.

The modules are:

- `Digests` (`digests.dfy`): the two lanes as a value, with `==`, `!=`, `<`,
  `tbb_hasher` and `hash_value`.
- `LittleEndian` (`little_endian.dfy`): bytes packed into 64-bit words the way
  the block loop and the tail switch read them, and the in-memory bytes of a
  word.
- `Mix` (`mix.dfy`): `rotl64`, `fmix`, the scrambling of block words and one
  round of the block loop. `fmix` comes with its inverse, `rotl64` with its
  inverse for the amounts 27, 31 and 33, and the round with its inverse for
  fixed block words.
- `Append` (`append.dfy`): one call of `append(data, bytes, elementSize)` as a
  function `Step` from the old lanes to the new ones. Its stages are the body
  `Body`, the tail `TailMix` and the finalisation `Finalise`. There is an
  inverse `Unstep`, so one call is a bijection on states for fixed data.
- `Dispatch` (`dispatch.dfy`): the values the overloads accept, the byte
  sequence of each call they make (`Chunks`), and hashing a value as folding
  `Step` over those calls (`Appended`).
- `Accumulator` (`accumulator.dfy`): the `MurmurHash` object as a class with
  fields `h1` and `h2`, and these methods:
  - `Append`: the block loop, the tail switch and the finalisation;
  - `AppendValue` and `AppendEach`: the typed overloads and the per-element
    loop;
  - `AppendHash`: appending another hash;
  - `Assign`: `operator=`.

  Each method is proved against the functions above.

The input of `append` is a `seq<bv8>`. `size_t` and `uint64_t` are `bv64`, so
all lane arithmetic wraps modulo 2^64 as in the source. The byte count that
the finalisation xors into the lanes is `|data| mod 2^64`.

An Imath value (`Vec2`, `Vec3`, `Color3`, `Color4`, `Matrix33`, `Matrix44`,
`Box`, `Quat`) is one bulk call over all of its scalars. An array or vector of
Imath values is likewise one bulk call over all the scalars of all its
elements, not one finalised call per element
(include/IECore/MurmurHash.inl:257-303). Arrays of scalars and of halves are
one bulk call too (include/IECore/MurmurHash.inl:173-184). Only arrays of
types other than scalars, halves and Imath values go through the per-element
loop.

## Model

| member | source | states |
|---|---|---|
| Digests.Digest.Equals | include/IECore/MurmurHash.inl:319-322 | `==` holds exactly when both lanes are equal, i.e. when the two hashes are the same value |
| Digests.Digest.NotEquals | include/IECore/MurmurHash.inl:324-327 | `!=` is the exact negation of `==` and holds exactly when the hashes differ |
| Digests.Digest.Less | include/IECore/MurmurHash.inl:329-332 | `<` is lexicographic on (h1, h2): a smaller h1 decides, and on equal h1 the order is that of h2 |
| Digests.LessIsIrreflexive | include/IECore/MurmurHash.inl:329-332 | no hash is below itself |
| Digests.LessIsAsymmetric | include/IECore/MurmurHash.inl:329-332 | of two hashes at most one is below the other, and then they are not equal |
| Digests.TbbHasher | include/IECore/MurmurHash.inl:346-349 | definition (no ensures): `tbb_hasher` narrows a hash to the word `h1 ^ h2`; its properties are the narrowing lemmas below |
| Digests.HashValue | include/IECore/MurmurHash.inl:353-356 | definition (no ensures): `hash_value` narrows a hash to the word `h1 ^ h2` |
| Digests.HashValueIsTbbHasher | include/IECore/MurmurHash.inl:346-356 | `hash_value` and `tbb_hasher` return the same word for every hash |
| Digests.NarrowingRespectsEquality | include/IECore/MurmurHash.inl:346-356 | equal hashes narrow to equal 64-bit words under both narrowings |
| Digests.NarrowingIsZeroIffLanesAgree | include/IECore/MurmurHash.inl:346-349 | the narrowed word `h1 ^ h2` is zero exactly when the two lanes are equal |
| Digests.NarrowingIgnoresLaneOrder | include/IECore/MurmurHash.inl:346-349 | swapping the lanes gives the same narrowed word, so the narrowing is not injective |
| LittleEndian.WordBytesRoundTrip | include/IECore/MurmurHash.inl:73-77 | reading back the 8 bytes of a word little-endian gives the word |
| LittleEndian.WordOfBytesRoundTrip | include/IECore/MurmurHash.inl:73-77 | the word read from 8 bytes has byte i at bits 8i, so its bytes are the original bytes |
| LittleEndian.LeWordFromPadded | include/IECore/MurmurHash.inl:92-114 | zero bytes above the end of the tail do not change the word that the switch assembles |
| LittleEndian.TailWordBytes | include/IECore/MurmurHash.inl:97-113 | the word of a tail of at most 8 bytes holds tail byte i at byte position i and zero above the tail |
| Mix.Rotl64 | include/IECore/MurmurHash.inl:41-44 | definition (no ensures): the left rotation of x by 0 < r < 64 bits, `x << r` or-ed with `x >> (64 - r)`; its inverse is stated by `Rotl64Inverse` |
| Mix.Fmix | include/IECore/MurmurHash.inl:46-55 | definition (no ensures): xor-shift 33, times 0xff51afd7ed558ccd, xor-shift 33, times 0xc4ceb9fe1a85ec53, xor-shift 33, all modulo 2^64; its inverse is `Unfmix` |
| Mix.MixK1 | include/IECore/MurmurHash.inl:79 | definition (no ensures): the scrambling of k1 before it is folded into h1, times c1, rotate 31, times c2 |
| Mix.MixK2 | include/IECore/MurmurHash.inl:83 | definition (no ensures): the scrambling of k2 before it is folded into h2, times c2, rotate 33, times c1 |
| Mix.Round | include/IECore/MurmurHash.inl:79-85 | definition (no ensures): one iteration of the block loop, h1 updated first (xor, rotate 27, add h2, times 5 plus 0x52dce729), then h2 with the new h1 (rotate 31, plus 0x38495ab5); its inverse is `Unround` |
| Mix.Rotl64Inverse | include/IECore/MurmurHash.inl:41-44 | for the rotation amounts the hash uses (27, 31, 33), `rotl64` by r is undone by `rotl64` by 64 - r, in both orders |
| Mix.FmixInverse | include/IECore/MurmurHash.inl:46-55 | `Unfmix` undoes `fmix`: xor-shift by 33 is an involution and both multipliers are odd |
| Mix.UnfmixInverse | include/IECore/MurmurHash.inl:46-55 | `fmix` undoes `Unfmix`, so `fmix` is a bijection on 64-bit words |
| Mix.FmixInjective | include/IECore/MurmurHash.inl:46-55 | distinct words have distinct `fmix` values |
| Mix.FmixZero | include/IECore/MurmurHash.inl:46-55 | `fmix(0) == 0` |
| Mix.FoldTwice | include/IECore/MurmurHash.inl:104-114 | folding the same scrambled word into a lane twice (`h ^= k`) restores the lane |
| Mix.MixLaneInverse | include/IECore/MurmurHash.inl:79-85 | the update of one lane in a block round (xor, rotate 27 or 31, add the other lane, times 5 plus the offset) is undone by its inverse, in both orders |
| Mix.RoundInverse | include/IECore/MurmurHash.inl:74-86 | `Unround` undoes one iteration of the block loop with the same block words |
| Mix.UnroundInverse | include/IECore/MurmurHash.inl:74-86 | one iteration of the block loop undoes `Unround`, so each round is a bijection on states |
| Append.Blocks | include/IECore/MurmurHash.inl:59 | the number of whole blocks b satisfies 16b <= bytes < 16b + 16, and the 2b block words lie inside the data |
| Append.Body | include/IECore/MurmurHash.inl:74-86 | definition (no ensures): the lanes after the first n blocks, block i being words 2i and 2i+1 put through `Round`; its inverse is `Unbody` |
| Append.Tail | include/IECore/MurmurHash.inl:90-95 | the tail holds exactly `bytes & 15` (< 16) bytes, and the whole blocks followed by the tail are the data |
| Append.BlockWordBytes | include/IECore/MurmurHash.inl:73-77 | word w of the data as the block loop reads it (`Words(data)[w]`, the `uint64_t` array over the bytes) is exactly the data bytes 8w to 8w+7, byte 8w+j at bits 8j, so the body reads each byte of the blocks once |
| Append.TailBytesLand | include/IECore/MurmurHash.inl:95-115 | tail byte i lands in k1 at byte position i when i < 8, and in k2 at position i - 8 otherwise; higher bytes are zero |
| Append.ShortTailKeepsLanes | include/IECore/MurmurHash.inl:95-115 | a tail of at most 8 bytes leaves h2 untouched in the tail stage, and an empty tail leaves both lanes untouched |
| Append.TailMixInvolution | include/IECore/MurmurHash.inl:95-115 | the tail stage undoes itself: each lane is xored with a word that depends only on the tail |
| Append.TailMix | include/IECore/MurmurHash.inl:92-115 | definition (no ensures): the tail switch, h2 xored with the scrambled word of tail bytes 8 to 14 when the tail is longer than 8 bytes, h1 xored with the scrambled word of tail bytes 0 to 7 when it is not empty; its properties are `TailBytesLand`, `ShortTailKeepsLanes` and `TailMixInvolution` |
| Append.Finalise | include/IECore/MurmurHash.inl:117-131 | definition (no ensures): both lanes xored with the byte count, cross-added, put through `fmix` and cross-added again; its inverse is `Unfinalise` |
| Append.PremixInverse | include/IECore/MurmurHash.inl:119-122 | the length xor and cross-add at the start of the finalisation are undone by `Unpremix`, in both orders |
| Append.PostmixInverse | include/IECore/MurmurHash.inl:127-128 | the cross-add at the end of the finalisation is undone by `Unpostmix`, in both orders |
| Append.FinaliseInverse | include/IECore/MurmurHash.inl:117-131 | `Unfinalise` undoes the finalisation of a call with the same length |
| Append.UnfinaliseInverse | include/IECore/MurmurHash.inl:117-131 | the finalisation undoes `Unfinalise`, so every state is the finalisation of some state |
| Append.BodyInverse | include/IECore/MurmurHash.inl:74-86 | `Unbody` undoes the block loop over the same blocks |
| Append.UnbodyInverse | include/IECore/MurmurHash.inl:74-86 | the block loop undoes `Unbody`, so the body is a bijection on states |
| Append.Step | include/IECore/MurmurHash.inl:57-132 | definition (no ensures): one call of `append`, the body over the whole blocks, the tail switch over the rest and the finalisation with the byte count; `MurmurHash.Append` is proved to compute it, and its inverse is `Unstep` |
| Append.StepInverse | include/IECore/MurmurHash.inl:57-132 | the lanes before a call are determined by the lanes after it and the data: `Unstep(Step(h, data), data) == h` |
| Append.UnstepInverse | include/IECore/MurmurHash.inl:57-132 | for fixed data every state is reached by one call from some state: `Step(Unstep(r, data), data) == r` |
| Append.StepInjective | include/IECore/MurmurHash.inl:57-132 | two different states never collide when the same data is appended to both |
| Append.EmptyStepFinalises | include/IECore/MurmurHash.inl:57-132 | appending no bytes still runs the finalisation with length 0 |
| Append.EmptyStepKeepsZero | include/IECore/MurmurHash.inl:46-55 | appending no bytes to the state (0, 0) leaves (0, 0), because `fmix(0) == 0` |
| Append.EmptyStepMovesState | include/IECore/MurmurHash.inl:117-131 | appending no bytes is not a no-op in general: it moves (0, 1) to (0xef15e71c99c94f13, 0x29d5113cfecfd2fa) |
| Dispatch.Chunks | include/IECore/MurmurHash.inl:134-244 | every overload other than the per-element loop makes exactly one call of `append(data, bytes, elementSize)` |
| Dispatch.DigestBytes | include/IECore/MurmurHash.inl:160-164 | a MurmurHash is 16 bytes in memory, `m_h1` then `m_h2` |
| Dispatch.Appended | include/IECore/MurmurHash.inl:134-309 | definition (no ensures): the lanes after appending a value of any overload (the datatype `Value` has one constructor per overload), one `Step` per byte sequence of `Chunks` in order; `MurmurHash.AppendValue` is proved to compute it |
| Dispatch.ReplayConcat | include/IECore/MurmurHash.inl:57-132 | calls made one after another compose: replaying a ++ b is replaying a, then b |
| Dispatch.SplitMatters | include/IECore/MurmurHash.inl:57-132 | the lanes depend on how bytes are split into calls, not only on their concatenation: for any bytes a, `a` as one call and `a` followed by an empty call cover the same bytes yet end in different states from some start state |
| Dispatch.ScalarOneCall | include/IECore/MurmurHash.inl:141-146 | a scalar is one call over its `sizeof(T)` bytes, whatever the element size |
| Dispatch.HalfAsScalar | include/IECore/MurmurHash.inl:148-152 | a half is the 2-byte scalar with the same bytes |
| Dispatch.StringWithTerminator | include/IECore/MurmurHash.inl:154-158 | a string is one call over its characters followed by the terminating zero byte |
| Dispatch.InternedAsString | include/IECore/MurmurHash.inl:193-196 | an InternedString hashes exactly as its string value |
| Dispatch.HashOneCall | include/IECore/MurmurHash.inl:160-164 | a MurmurHash is one call over its 16 lane bytes, and those bytes determine it |
| Dispatch.DigestBytesRoundTrip | include/IECore/MurmurHash.inl:160-164 | reading a hash from 16 bytes and writing it back gives the same bytes |
| Dispatch.CompositeOneCall | include/IECore/MurmurHash.inl:198-244 | an Imath value is one call over all of its scalars, Arity(shape) * sizeof(T) bytes |
| Dispatch.CompositeArrayAsScalarArray | include/IECore/MurmurHash.inl:257-303 | an array of n Imath values is one call, the same as a single array of n * Arity(shape) scalars |
| Dispatch.ComponentsAreItemsInOrder | include/IECore/MurmurHash.inl:257-303 | the bulk call of an array of Imath values covers each item's bytes in index order |
| Dispatch.ComponentsLength | include/IECore/MurmurHash.inl:257-303 | n items of k scalars each give n * k scalars |
| Dispatch.CompositeArrayOfOne | include/IECore/MurmurHash.inl:198-303 | an array holding one Imath value hashes as that value |
| Dispatch.EmptyScalarArrayFinalises | include/IECore/MurmurHash.inl:173-178 | an empty scalar array or vector still makes one zero-byte call, which finalises |
| Dispatch.GenericArrayInOrder | include/IECore/MurmurHash.inl:246-255 | the per-element loop appends each element in index order |
| Dispatch.GenericArrayOfTwo | include/IECore/MurmurHash.inl:246-255 | hashing [a, b] through the loop is appending a, then b |
| Dispatch.EmptyGenericArrayKeeps | include/IECore/MurmurHash.inl:246-255 | an empty array handed to the loop makes no call and leaves the lanes unchanged |
| Dispatch.GenericArrayCallCount | include/IECore/MurmurHash.inl:246-255 | when no element is itself handed to the loop, the loop makes exactly n calls |
| Accumulator.ElementSize | include/IECore/MurmurHash.inl:134-303 | definition (no ensures): the `elementSize` argument each overload passes, `sizeof(T)` of its scalar, 2 for halves, 1 for strings, 16 for a hash; 0 for an empty scalar or Imath array (see "## Left out") |
| Accumulator.HighWord | include/IECore/MurmurHash.inl:97-103 | cases 15 to 9 of the switch assemble k2 as the little-endian word of the tail bytes past byte 8 |
| Accumulator.LowWord | include/IECore/MurmurHash.inl:106-113 | cases 8 to 1 of the switch assemble k1 as the little-endian word of the first (at most 8) tail bytes |
| Accumulator.MixTail | include/IECore/MurmurHash.inl:92-115 | the switch on `bytes & 15` leaves the lanes exactly as the tail stage `TailLane1`/`TailLane2` |
| Accumulator.MixBlocks | include/IECore/MurmurHash.inl:73-86 | the block loop over local copies of the lanes computes `Body` over the block words |
| Accumulator.MurmurHash.Append | include/IECore/MurmurHash.inl:57-132 | one call of `append` sets the lanes to `Step(old lanes, data)`; elementSize has no effect |
| Accumulator.MurmurHash.AppendValue | include/IECore/MurmurHash.inl:134-196 | appending a value of any overload sets the lanes to `Appended(old lanes, v)` |
| Accumulator.MurmurHash.AppendEach | include/IECore/MurmurHash.inl:246-255 | the per-element loop sets the lanes to those after appending each element in index order |
| Accumulator.MurmurHash.AppendHash | include/IECore/MurmurHash.inl:160-164 | appending a hash is one call over its old 16 bytes, even when it is the same object |
| Accumulator.MurmurHash.Assign | include/IECore/MurmurHash.inl:312-317 | `operator=` copies both lanes of other |

## Left out

- The constructors and the seed live in `MurmurHash.h`, which is not part of this model. Every statement here is about arbitrary initial lanes.
- `h1()` and `h2()` (include/IECore/MurmurHash.inl:334-342) return the fields. They are `MurmurHash.State()`'s lanes and have no contract of their own.
- Digests.Digest.Less: its totality (exactly one of `a < b`, `a == b`, `b < a`) and its transitivity are not proved. These facts about 64-bit unsigned order are out of reach of Z3's bit-vector reasoning. Irreflexivity and asymmetry are proved.
- The `(const uint64_t *)` reinterpretation of the data and the `(T*)` casts of Imath structs are not modelled. The input is a byte sequence read on a little-endian host, and Imath values are tightly packed arrays of their scalars.
- `sizeof(T)` of each scalar is the length of its byte sequence. Floats and halves are only their bit patterns, because hashing never does float arithmetic.
- The vector overload (include/IECore/MurmurHash.inl:305-309) is the array overload of its element type over the same elements, and is not a separate case.
- `bytes & 15` is modelled as `bytes % 16`, which is the same for unsigned values.
- `size_t` is taken to be 64 bits wide.
- The statements of `append` are grouped into function calls:
  - one block round as the k1 scramble, fold-and-rotate and accumulate, and likewise for k2;
  - the two halves of the tail switch as `HighWord` and `LowWord`;
  - the finalisation as `Premix`, `Fmix` and `Postmix`.

  The block loop and the tail switch are separate methods called by `Append` in the source's order.
- The multiplications by c1 and c2 inside the scrambling of a block word are not proved invertible. The bijection of a round is stated for fixed block words, where the scrambled word is a constant.
- Mix.Rotl64Inverse: proved only for the rotation amounts the hash uses (27, 31, 33), not for every 0 < r < 64.
- Accumulator.MurmurHash.AppendEach: the elements are read as a snapshot, the `seq<Value>` taken on entry. The source reads `data[i]` at each iteration, so an array that contains the accumulator itself appends that element's lanes as updated by the earlier iterations; the model does not capture this aliasing.
- Dispatch.DigestBytes: the in-memory layout of a MurmurHash (16 bytes, `m_h1` then `m_h2`, no padding) is assumed. It is declared in `MurmurHash.h`, which is not part of this model.
- Accumulator.ElementSize: for an empty array of scalars or of Imath values it gives 0, where the source passes `sizeof(T)` (include/IECore/MurmurHash.inl:176, 260-302), because `Value` does not record the size of an array's element type. No lane depends on it: `append` never reads `elementSize`.
- Statistical avalanche and collision behaviour of the hash are not stated.
- The TBB and boost container integration is not modelled. Only the xor narrowing they call is.
