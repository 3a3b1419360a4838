/** 32-bit words, their little-endian bytes, and the compression function: the reference side of
  * every kernel, c/blake3/blake3_portable.c. */
module Words {
  import opened Basics
  import opened Tree
  import opened Rounds
  import opened RowKernel

  function Rotr(w: word, c: nat): word
    requires 0 < c < 32
  {
    (w >> c) | (w << (32 - c))
  }

  function Sum3(a: word, b: word, x: word): word {
    a + b + x
  }

  const ADD := (a: word, b: word) => a + b
  const XOR := (a: word, b: word) => a ^ b
  /** The portable code adds the message word last, the vector kernels add it first. */
  const STATE_FIRST := (a: word, b: word, x: word) => Sum3(a, b, x)
  const MESSAGE_FIRST := (a: word, b: word, x: word) => Sum3(a, x, b)

  const PORTABLE: Ops<word> := Ops(ADD, STATE_FIRST, XOR,
                                   (w: word) => Rotr(w, 16), (w: word) => Rotr(w, 12),
                                   (w: word) => Rotr(w, 8), (w: word) => Rotr(w, 7))

  // Rotations by shuffling halves or bytes

  function LowHalf(w: word): bv16 {
    (w & 0xffff) as bv16
  }

  function HighHalf(w: word): bv16 {
    ((w >> 16) & 0xffff) as bv16
  }

  function FromHalves(low: bv16, high: bv16): word {
    ((high as word) << 16) | (low as word)
  }

  function ByteOf(w: word, i: nat): byte
    requires i < 4
  {
    if i == 0 then (w & 0xff) as byte else if i == 1 then ((w >> 8) & 0xff) as byte
    else if i == 2 then ((w >> 16) & 0xff) as byte else ((w >> 24) & 0xff) as byte
  }

  function FromBytes(b0: byte, b1: byte, b2: byte, b3: byte): word {
    (b0 as word) | ((b1 as word) << 8) | ((b2 as word) << 16) | ((b3 as word) << 24)
  }

  /** sse2: 16-bit shuffles for the rotation by 16, exclusive or of two shifts for the others. */
  const SSE2: Ops<word> := Ops(ADD, MESSAGE_FIRST, XOR,
                               (w: word) => FromHalves(HighHalf(w), LowHalf(w)), (w: word) => (w >> 12) ^ (w << 20),
                               (w: word) => (w >> 8) ^ (w << 24), (w: word) => (w >> 7) ^ (w << 25))

  /** sse41 and avx2: byte shuffles for the rotations by 16 and 8. */
  const SSE41: Ops<word> := Ops(ADD, MESSAGE_FIRST, XOR,
                                (w: word) => FromBytes(ByteOf(w, 2), ByteOf(w, 3), ByteOf(w, 0), ByteOf(w, 1)),
                                (w: word) => (w >> 12) ^ (w << 20),
                                (w: word) => FromBytes(ByteOf(w, 1), ByteOf(w, 2), ByteOf(w, 3), ByteOf(w, 0)),
                                (w: word) => (w >> 7) ^ (w << 25))

  /** avx2: byte shuffles as in sse41, disjunctions of shifts for the others. */
  const AVX2: Ops<word> := SSE41.(rot12 := PORTABLE.rot12, rot7 := PORTABLE.rot7)

  /** avx512: a rotate instruction. */
  const AVX512: Ops<word> := PORTABLE.(add3 := MESSAGE_FIRST)

  lemma HalfShuffle(w: word)
    ensures FromHalves(HighHalf(w), LowHalf(w)) == Rotr(w, 16)
  {
  }

  lemma ByteShuffle16(w: word)
    ensures FromBytes(ByteOf(w, 2), ByteOf(w, 3), ByteOf(w, 0), ByteOf(w, 1)) == Rotr(w, 16)
  {
  }

  lemma ByteShuffle8(w: word)
    ensures FromBytes(ByteOf(w, 1), ByteOf(w, 2), ByteOf(w, 3), ByteOf(w, 0)) == Rotr(w, 8)
  {
  }

  lemma XorShifts(w: word)
    ensures (w >> 12) ^ (w << 20) == Rotr(w, 12)
    ensures (w >> 8) ^ (w << 24) == Rotr(w, 8)
    ensures (w >> 7) ^ (w << 25) == Rotr(w, 7)
  {
  }

  lemma Store(w: word)
    ensures FromBytes(ByteOf(w, 0), ByteOf(w, 1), ByteOf(w, 2), ByteOf(w, 3)) == w
  {
  }

  // The kernels' arithmetics agree

  lemma Rot16OfShuffles(w: word)
    ensures SSE2.rot16(w) == PORTABLE.rot16(w) == SSE41.rot16(w)
  {
    HalfShuffle(w);
    ByteShuffle16(w);
  }

  lemma Rot8OfShuffles(w: word)
    ensures SSE2.rot8(w) == PORTABLE.rot8(w) == SSE41.rot8(w)
  {
    XorShifts(w);
    ByteShuffle8(w);
  }

  lemma Rot12And7(w: word)
    ensures SSE2.rot12(w) == PORTABLE.rot12(w) == SSE41.rot12(w)
    ensures SSE2.rot7(w) == PORTABLE.rot7(w) == SSE41.rot7(w)
  {
    XorShifts(w);
  }

  lemma MessageFirst()
    ensures forall a, b, x :: MESSAGE_FIRST(a, b, x) == STATE_FIRST(a, b, x)
  {
    hide Sum3;
    forall a, b, x
      ensures MESSAGE_FIRST(a, b, x) == STATE_FIRST(a, b, x)
    {
      SumOrder(a, b, x);
    }
  }

  lemma SumOrder(a: word, b: word, x: word)
    ensures Sum3(a, x, b) == Sum3(a, b, x)
  {
  }

  lemma SameOps(o: Ops<word>)
    requires o == SSE2 || o == SSE41 || o == AVX2 || o == AVX512
    ensures Same(o, PORTABLE)
  {
    assert forall a, b, x: word :: o.add3(a, b, x) == PORTABLE.add3(a, b, x) by {
      MessageFirst();
    }
    forall w: word
      ensures o.rot16(w) == PORTABLE.rot16(w)
    {
      Rot16OfShuffles(w);
    }
    forall w: word
      ensures o.rot8(w) == PORTABLE.rot8(w)
    {
      Rot8OfShuffles(w);
    }
    forall w: word
      ensures o.rot12(w) == PORTABLE.rot12(w) && o.rot7(w) == PORTABLE.rot7(w)
    {
      Rot12And7(w);
    }
  }

  /** The sse2, sse41 and avx512 row kernels compute the portable compression. */
  lemma RowKernelsSound()
    ensures RowSound(SSE2, PORTABLE) && RowSound(SSE41, PORTABLE) && RowSound(AVX512, PORTABLE)
  {
    SameOps(SSE2);
    RowKernelSound(SSE2, PORTABLE);
    SameOps(SSE41);
    RowKernelSound(SSE41, PORTABLE);
    SameOps(AVX512);
    RowKernelSound(AVX512, PORTABLE);
  }
}
