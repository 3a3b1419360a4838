/** The compression function on bytes: word by word as in c/blake3/blake3_portable.c, and by rows
  * as in c/blake3/blake3_sse2.c, blake3_sse41.c and blake3_avx512.c. */
module Compress {
  import opened Basics
  import opened Tree
  import opened Rounds
  import opened RowKernel
  import opened Words

  const TWO_32: nat := 0x1_0000_0000

  /** The word with a given unsigned value. */
  function ToWord(n: nat): word
    requires n < TWO_32
  {
    n as word
  }

  /** The low and high words of a counter, of which the kernels keep the low 64 bits. */
  function CounterLow(counter: nat): word {
    ToWord(counter % TWO_32)
  }

  function CounterHigh(counter: nat): word {
    ToWord(counter / TWO_32 % TWO_32)
  }

  function LoadWord(bytes: seq<byte>, i: nat): word
    requires 4 * i + 4 <= |bytes|
  {
    FromBytes(bytes[4 * i], bytes[4 * i + 1], bytes[4 * i + 2], bytes[4 * i + 3])
  }

  function LoadWords(bytes: seq<byte>, n: nat): (r: seq<word>)
    requires 4 * n <= |bytes|
    ensures |r| == n
  {
    seq(n, i requires 0 <= i < n => LoadWord(bytes, i))
  }

  function StoreWords(ws: seq<word>): (r: seq<byte>)
    ensures |r| == 4 * |ws|
  {
    seq(4 * |ws|, i requires 0 <= i < 4 * |ws| => ByteOf(ws[i / 4], i % 4))
  }

  lemma LoadStoredWord(ws: seq<word>, i: nat)
    requires i < |ws|
    ensures LoadWord(StoreWords(ws), i) == ws[i]
  {
    var b := StoreWords(ws);
    assert b[4 * i] == ByteOf(ws[i], 0) && b[4 * i + 1] == ByteOf(ws[i], 1);
    assert b[4 * i + 2] == ByteOf(ws[i], 2) && b[4 * i + 3] == ByteOf(ws[i], 3);
    Store(ws[i]);
  }

  /** Loading little-endian words undoes storing them. */
  lemma LoadStored(ws: seq<word>)
    ensures LoadWords(StoreWords(ws), |ws|) == ws
  {
    forall i | 0 <= i < |ws|
      ensures LoadWord(StoreWords(ws), i) == ws[i]
    {
      LoadStoredWord(ws, i);
    }
  }

  lemma Unpacked(b0: byte, b1: byte, b2: byte, b3: byte)
    ensures var w := FromBytes(b0, b1, b2, b3);
            ByteOf(w, 0) == b0 && ByteOf(w, 1) == b1 && ByteOf(w, 2) == b2 && ByteOf(w, 3) == b3
  {
  }

  lemma ByteLoaded(bytes: seq<byte>, k: nat)
    requires k / 4 * 4 + 4 <= |bytes|
    ensures bytes[k] == ByteOf(LoadWord(bytes, k / 4), k % 4)
  {
    hide ByteOf, FromBytes;
    var i := k / 4;
    Unpacked(bytes[4 * i], bytes[4 * i + 1], bytes[4 * i + 2], bytes[4 * i + 3]);
    assert k == 4 * i + k % 4;
  }

  /** And storing undoes loading. */
  lemma StoreLoaded(bytes: seq<byte>, n: nat)
    requires |bytes| == 4 * n
    ensures StoreWords(LoadWords(bytes, n)) == bytes
  {
    hide ByteOf, FromBytes;
    forall k | 0 <= k < 4 * n
      ensures StoreWords(LoadWords(bytes, n))[k] == bytes[k]
    {
      ByteLoaded(bytes, k);
    }
  }

  function CvWords(w: Words8): (r: seq<word>)
    ensures |r| == 8
  {
    [w.w0, w.w1, w.w2, w.w3, w.w4, w.w5, w.w6, w.w7]
  }

  function ToWords8(ws: seq<word>): Words8
    requires |ws| >= 8
  {
    Words8(ws[0], ws[1], ws[2], ws[3], ws[4], ws[5], ws[6], ws[7])
  }

  // Word by word, over the reference arithmetic p

  function InitState(cv: Words8, blockLen: byte, counter: nat, flags: byte): State<word> {
    State(cv.w0, cv.w1, cv.w2, cv.w3, cv.w4, cv.w5, cv.w6, cv.w7, IV.w0, IV.w1, IV.w2, IV.w3,
          CounterLow(counter), CounterHigh(counter), blockLen as word, flags as word)
  }

  /** The sixteen output words of one compression. */
  function OutputWords(p: Ops<word>, cv: Words8, block: Block, blockLen: byte, counter: nat, flags: byte):
    (r: seq<word>)
    ensures |r| == 16
  {
    FeedForward(p, RoundsFrom(p, InitState(cv, blockLen, counter, flags), LoadWords(block, 16), 0), CvWords(cv))
  }

  // By rows, over the kernel's arithmetic o

  function InitRows(cv: Words8, blockLen: byte, counter: nat, flags: byte): Rows<word> {
    Rows(V4(cv.w0, cv.w1, cv.w2, cv.w3), V4(cv.w4, cv.w5, cv.w6, cv.w7), V4(IV.w0, IV.w1, IV.w2, IV.w3),
         V4(CounterLow(counter), CounterHigh(counter), blockLen as word, flags as word))
  }

  /** The words of the four vectors that compress_xof stores; compress_in_place stores the first
    * two of them over the chaining value. */
  function RowOutputWords(o: Ops<word>, cv: Words8, block: Block, blockLen: byte, counter: nat, flags: byte):
    (r: seq<word>)
    ensures |r| == 16
  {
    RowFeedForward(o, RowCompressPre(o, InitRows(cv, blockLen, counter, flags), LoadWords(block, 16)), CvWords(cv))
  }

  /** The row kernels store exactly the bytes of the word-by-word compression. */
  lemma RowKernelAgrees(o: Ops<word>, p: Ops<word>, cv: Words8, block: Block, blockLen: byte, counter: nat, flags: byte)
    requires RowSound(o, p)
    ensures RowOutputWords(o, cv, block, blockLen, counter, flags) == OutputWords(p, cv, block, blockLen, counter, flags)
  {
    var s := InitRows(cv, blockLen, counter, flags);
    assert ToState(s) == InitState(cv, blockLen, counter, flags);
    assert RowSoundFor(o, p, s, LoadWords(block, 16), CvWords(cv));
  }

  // The primitives the tree is built from

  function LenByte(n: nat): byte {
    (n % 256) as byte
  }

  /** The kernel over an arithmetic: blocks are always 64 bytes long, and lengths are kept in a byte. */
  function KernelOf(p: Ops<word>): Kernel {
    Kernel(
      (cv: Words8, b: seq<byte>, l: nat, c: nat, f: byte) =>
        if |b| == 64 then ToWords8(OutputWords(p, cv, b, LenByte(l), c, f)) else cv,
      (cv: Words8, b: seq<byte>, l: nat, c: nat, f: byte) =>
        if |b| == 64 then StoreBlock(OutputWords(p, cv, b, LenByte(l), c, f)) else ZERO_BLOCK,
      (w: Words8) => StoreCv(w))
  }

  const ZERO_BLOCK: Block := Zeros(64)

  function StoreBlock(ws: seq<word>): Block
    requires |ws| == 16
  {
    StoreWords(ws)
  }

  function StoreCv(w: Words8): Cv {
    StoreWords(CvWords(w))
  }

  // The blend that sse2 emulates

  /** Lane j of eight 16-bit lanes: bit j of the selector, given as bit, picks b. */
  function BlendLane(a: bv16, b: bv16, imm: bv16, bit: bv16): bv16 {
    var mask: bv16 := if imm & bit == bit then 0xffff else 0;
    (mask & b) | (!mask & a)
  }

  function BlendWord(a: word, b: word, imm: bv16, lowBit: bv16, highBit: bv16): word {
    FromHalves(BlendLane(LowHalf(a), LowHalf(b), imm, lowBit), BlendLane(HighHalf(a), HighHalf(b), imm, highBit))
  }

  function BlendEpi16(a: V4<word>, b: V4<word>, imm: bv16): V4<word> {
    V4(BlendWord(a.x0, b.x0, imm, 0x01, 0x02), BlendWord(a.x1, b.x1, imm, 0x04, 0x08),
       BlendWord(a.x2, b.x2, imm, 0x10, 0x20), BlendWord(a.x3, b.x3, imm, 0x40, 0x80))
  }

  lemma BlendLanePicks(a: bv16, b: bv16, imm: bv16, bit: bv16)
    ensures BlendLane(a, b, imm, bit) == if imm & bit == bit then b else a
  {
  }

  lemma HalvesJoin(w: word)
    ensures FromHalves(LowHalf(w), HighHalf(w)) == w
  {
  }

  lemma BlendWordPicks(a: word, b: word, imm: bv16, lowBit: bv16, highBit: bv16)
    requires (imm & lowBit == lowBit) == (imm & highBit == highBit)
    ensures BlendWord(a, b, imm, lowBit, highBit) == if imm & lowBit == lowBit then b else a
  {
    BlendLanePicks(LowHalf(a), LowHalf(b), imm, lowBit);
    BlendLanePicks(HighHalf(a), HighHalf(b), imm, highBit);
    HalvesJoin(a);
    HalvesJoin(b);
  }

  /** The emulated blends are the 32-bit lane selections the row kernel relies on. */
  lemma BlendEmulated(a: V4<word>, b: V4<word>)
    ensures BlendEpi16(a, b, 0xCC) == BlendCC(a, b)
    ensures BlendEpi16(a, b, 0xC0) == BlendC0(a, b)
  {
    BlendWordPicks(a.x0, b.x0, 0xCC, 0x01, 0x02);
    BlendWordPicks(a.x1, b.x1, 0xCC, 0x04, 0x08);
    BlendWordPicks(a.x2, b.x2, 0xCC, 0x10, 0x20);
    BlendWordPicks(a.x3, b.x3, 0xCC, 0x40, 0x80);
    BlendWordPicks(a.x0, b.x0, 0xC0, 0x01, 0x02);
    BlendWordPicks(a.x1, b.x1, 0xC0, 0x04, 0x08);
    BlendWordPicks(a.x2, b.x2, 0xC0, 0x10, 0x20);
    BlendWordPicks(a.x3, b.x3, 0xC0, 0x40, 0x80);
  }
}
