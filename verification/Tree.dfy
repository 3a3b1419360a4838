/** The BLAKE3 tree hash as a short recursive specification (BLAKE3 paper, sections 2.1 and 2.4
  * to 2.6), over an arbitrary compression function.  The dispatch layer picks one of several
  * kernels at run time; every statement here holds for whichever function it picks. */
module Tree {
  import opened Basics
  import opened Bits

  type word = bv32

  const BLOCK_LEN: nat := 64
  const CHUNK_LEN: nat := 1024

  const CHUNK_START: byte := 1
  const CHUNK_END: byte := 2
  const PARENT: byte := 4
  const ROOT: byte := 8
  const KEYED_HASH: byte := 16
  const DERIVE_KEY_CONTEXT: byte := 32
  const DERIVE_KEY_MATERIAL: byte := 64

  datatype Words8 = Words8(w0: word, w1: word, w2: word, w3: word,
                           w4: word, w5: word, w6: word, w7: word)

  const IV := Words8(0x6A09E667, 0xBB67AE85, 0x3C6EF372, 0xA54FF53A,
                     0x510E527F, 0x9B05688C, 0x1F83D9AB, 0x5BE0CD19)

  /** A chaining value as stored in the stack and in parent blocks. */
  type Cv = c: seq<byte> | |c| == 32 witness seq(32, _ => 0)

  type Block = b: seq<byte> | |b| == 64 witness seq(64, _ => 0)

  /** The three primitives the tree is built from: compression to a chaining value, compression
    * to a whole output block, and storing a chaining value as bytes.  The arguments of a
    * compression are the input chaining value, the block, its length, the counter and the
    * flags; lengths and counters are natural numbers of which a kernel takes the low bits. */
  datatype Kernel = Kernel(
    compressInPlace: (Words8, seq<byte>, nat, nat, byte) -> Words8,
    compressXof: (Words8, seq<byte>, nat, nat, byte) -> Block,
    storeCv: Words8 -> Cv)

  /** What stays fixed while one message is hashed. */
  datatype Mode = Mode(kernel: Kernel, key: Words8, flags: byte)

  /** A node whose last compression is still to be done. */
  datatype Output = Output(inputCv: Words8, block: seq<byte>, blockLen: nat, counter: nat, flags: byte)

  /** Finish a node that is not the root. */
  function ChainingValue(m: Mode, o: Output): Cv {
    m.kernel.storeCv(m.kernel.compressInPlace(o.inputCv, o.block, o.blockLen, o.counter, o.flags))
  }

  /** Output block i of the root node: extendable output, section 2.6. */
  function RootBlock(m: Mode, o: Output, i: nat): Block {
    m.kernel.compressXof(o.inputCv, o.block, o.blockLen, i, o.flags | ROOT)
  }

  function RootByte(m: Mode, o: Output, k: nat): byte {
    RootBlock(m, o, k / 64)[k % 64]
  }

  /** Bytes [seek, seek + n) of the root's output stream. */
  function RootBytes(m: Mode, o: Output, seek: nat, n: nat): (r: seq<byte>)
    ensures |r| == n
  {
    seq(n, k requires 0 <= k => RootByte(m, o, seek + k))
  }

  // Chunks, section 2.4

  function StartFlag(k: nat): byte {
    if k == 0 then CHUNK_START else 0
  }

  /** The chaining value after the first k blocks of a chunk. */
  function ChunkChain(m: Mode, chunk: seq<byte>, counter: nat, k: nat): Words8
    requires 64 * k <= |chunk|
  {
    if k == 0 then m.key
    else m.kernel.compressInPlace(ChunkChain(m, chunk, counter, k - 1), chunk[64 * (k - 1)..64 * k], 64, counter,
                                  m.flags | StartFlag(k - 1))
  }

  /** The number of blocks before the last one; the empty chunk has one, empty, block. */
  function FullBlocks(n: nat): (k: nat)
    ensures 64 * k <= n <= 64 * k + 64
  {
    if n == 0 then 0 else (n - 1) / 64
  }

  function ChunkOutput(m: Mode, chunk: seq<byte>, counter: nat): Output {
    var k := FullBlocks(|chunk|);
    var rest := chunk[64 * k..];
    Output(ChunkChain(m, chunk, counter, k), rest + Zeros(64 - |rest|), |rest|, counter,
           m.flags | StartFlag(k) | CHUNK_END)
  }

  // Parents and subtrees, sections 2.1 and 2.5

  function ParentOutput(m: Mode, left: Cv, right: Cv): Output {
    Output(m.key, left + right, 64, 0, m.flags | PARENT)
  }

  function ParentCv(m: Mode, left: Cv, right: Cv): Cv {
    ChainingValue(m, ParentOutput(m, left, right))
  }

  /** The largest power of two below n. */
  function LeftCount(n: nat): (r: nat)
    requires n >= 2
    ensures 1 <= r < n <= 2 * r
  {
    FloorPow2IsLargest(n - 1);
    FloorPow2(n - 1)
  }

  /** The number of chunks that n bytes fill, the last one possibly in part. */
  function ChunkCount(n: nat): nat {
    (n + 1023) / 1024
  }

  /** Length of the left subtree: the largest power-of-two number of whole chunks that leaves at
    * least one byte on the right. */
  function LeftLen(n: nat): (r: nat)
    requires n > CHUNK_LEN
    ensures 1024 <= r < n <= 2 * r
  {
    1024 * LeftCount(ChunkCount(n))
  }

  function SubtreeOutput(m: Mode, input: seq<byte>, counter: nat): Output
    decreases |input|, 0
  {
    if |input| <= CHUNK_LEN then ChunkOutput(m, input, counter)
    else
      var l := LeftLen(|input|);
      ParentOutput(m, SubtreeCv(m, input[..l], counter), SubtreeCv(m, input[l..], counter + l / 1024))
  }

  function SubtreeCv(m: Mode, input: seq<byte>, counter: nat): Cv
    decreases |input|, 1
  {
    ChainingValue(m, SubtreeOutput(m, input, counter))
  }

  /** The hash of a message: the output stream of the root of its tree, from byte seek on. */
  function Hash(m: Mode, message: seq<byte>, seek: nat, n: nat): (r: seq<byte>)
    ensures |r| == n
  {
    RootBytes(m, SubtreeOutput(m, message, 0), seek, n)
  }

  lemma LeftCountUnique(n: nat, l: nat)
    requires n >= 2 && IsPow2(l) && l < n <= 2 * l
    ensures LeftCount(n) == l
  {
    FloorPow2IsLargest(n - 1);
    Pow2Unique(l, FloorPow2(n - 1));
  }

  lemma LeftCountPow2(n: nat)
    requires n >= 2
    ensures IsPow2(LeftCount(n))
  {
    FloorPow2IsLargest(n - 1);
  }

  /** The split point is determined by its defining property. */
  lemma LeftLenUnique(n: nat, chunks: nat)
    requires n > CHUNK_LEN && IsPow2(chunks) && 1024 * chunks < n <= 2048 * chunks
    ensures LeftLen(n) == 1024 * chunks
  {
    LeftCountUnique(ChunkCount(n), chunks);
  }

  /** A subtree that is not a single chunk, split at a power of two that satisfies the rule. */
  lemma SubtreeSplit(m: Mode, left: seq<byte>, right: seq<byte>, counter: nat, chunks: nat)
    requires IsPow2(chunks) && |left| == 1024 * chunks && 1 <= |right| <= |left|
    ensures SubtreeOutput(m, left + right, counter) ==
            ParentOutput(m, SubtreeCv(m, left, counter), SubtreeCv(m, right, counter + chunks))
  {
    IsPow2Positive(chunks);
    LeftLenUnique(|left + right|, chunks);
    assert (left + right)[..1024 * chunks] == left;
    assert (left + right)[1024 * chunks..] == right;
  }

  /** Adjacent reads of the output stream concatenate to one longer read. */
  lemma RootBytesAdjacent(m: Mode, o: Output, seek: nat, a: nat, b: nat)
    ensures RootBytes(m, o, seek, a) + RootBytes(m, o, seek + a, b) == RootBytes(m, o, seek, a + b)
  {
  }
}
