/** hash_many and xof_many of the vector kernels: c/blake3/blake3_sse2.c, blake3_sse41.c,
  * blake3_avx2.c and blake3_avx512.c.  Several inputs, or several counters, are compressed at once,
  * one per lane, and what is left over goes through narrower kernels. */
module WideHash {
  import opened Basics
  import opened Tree
  import opened Rounds
  import opened RowKernel
  import opened Compress
  import opened Counters
  import opened Transposes
  import opened Lanes
  import opened HashMany

  predicate Degree(n: nat) {
    n == 4 || n == 8 || n == 16
  }

  /** How a kernel spreads the block counter over its lanes. */
  datatype Counting = CompareLow | TopBit | Add64

  // Into the lanes

  function Slab<W>(n: nat, rows: seq<seq<W>>, lo: nat): (r: seq<seq<W>>)
    requires Matrix(rows, n, 16) && lo + n <= 16
    ensures Matrix(r, n, n)
  {
    seq(n, i requires 0 <= i < n => rows[i][lo..lo + n])
  }

  ghost predicate IsSlab<W>(n: nat, rows: seq<seq<W>>, lo: nat, r: seq<seq<W>>)
    requires Matrix(rows, n, 16) && lo + n <= 16
  {
    Matrix(r, n, n) && forall k, i :: 0 <= k < n && 0 <= i < n ==> r[k][i] == rows[i][lo + k]
  }

  lemma ColumnsAreSlab<W>(n: nat, rows: seq<seq<W>>, lo: nat, t: seq<seq<W>>)
    requires Matrix(rows, n, 16) && lo + n <= 16
    requires t == seq(n, i requires 0 <= i < n => Column(Slab(n, rows, lo), i))
    ensures IsSlab(n, rows, lo, t)
  {
    assert forall k :: 0 <= k < n ==> t[k] == Column(Slab(n, rows, lo), k);
  }

  /** One group of message vectors: n words of every input, transposed. */
  function SlabVecs<W>(n: nat, rows: seq<seq<W>>, lo: nat): (r: seq<seq<W>>)
    requires Degree(n) && Matrix(rows, n, 16) && lo + n <= 16
    ensures IsSlab(n, rows, lo, r)
  {
    var slab := Slab(n, rows, lo);
    TransposeIsTransposition(n, slab);
    ColumnsAreSlab(n, rows, lo, TransposeVecs(n, slab));
    TransposeVecs(n, slab)
  }

  predicate Aligned(n: nat, lo: nat)
    requires Degree(n)
  {
    lo <= 16 && (16 - lo) % n == 0
  }

  lemma NextGroup(n: nat, lo: nat)
    requires Degree(n) && Aligned(n, lo) && lo < 16
    ensures lo + n <= 16 && Aligned(n, lo + n)
  {
    if n == 4 {
    } else if n == 8 {
    }
  }

  /** transpose_msg_vecs from word lo on. */
  function MsgVecs<W>(n: nat, rows: seq<seq<W>>, lo: nat): seq<seq<W>>
    requires Degree(n) && Matrix(rows, n, 16) && Aligned(n, lo)
    decreases 16 - lo, rows
  {
    if lo == 16 then []
    else
      NextGroup(n, lo);
      SlabVecs(n, rows, lo) + MsgVecs(n, rows, lo + n)
  }

  lemma {:induction false} MsgVecsAre<W>(n: nat, rows: seq<seq<W>>, lo: nat)
    requires Degree(n) && Matrix(rows, n, 16) && Aligned(n, lo)
    ensures Matrix(MsgVecs(n, rows, lo), 16 - lo, n)
    ensures forall k, i :: 0 <= k < 16 - lo && 0 <= i < n ==> MsgVecs(n, rows, lo)[k][i] == rows[i][lo + k]
    decreases 16 - lo
  {
    if lo < 16 {
      NextGroup(n, lo);
      assert IsSlab(n, rows, lo, SlabVecs(n, rows, lo));
      MsgVecsAre(n, rows, lo + n);
    }
  }

  /** Lane i of the message vectors holds the words of input i. */
  lemma MsgVecsColumn<W>(n: nat, rows: seq<seq<W>>, i: nat)
    requires Degree(n) && Matrix(rows, n, 16) && i < n
    ensures Matrix(MsgVecs(n, rows, 0), 16, n) && Column(MsgVecs(n, rows, 0), i) == rows[i]
  {
    MsgVecsAre(n, rows, 0);
  }

  // Out of the lanes

  /** The words that are stored for lane i: n of them from every transposed group of n vectors. */
  function Gathered<W>(n: nat, v: seq<seq<W>>, i: nat): seq<W>
    requires Degree(n) && Matrix(v, |v|, n) && |v| % n == 0 && i < n
  {
    if |v| == 0 then [] else GroupOf(n, v[..n], i) + Gathered(n, v[n..], i)
  }

  function GroupOf<W>(n: nat, v: seq<seq<W>>, i: nat): (r: seq<W>)
    requires Degree(n) && Matrix(v, n, n) && i < n
    ensures r == Column(v, i)
  {
    TransposeIsTransposition(n, v);
    TransposeVecs(n, v)[i]
  }

  lemma ColumnSplit<W>(v: seq<seq<W>>, n: nat, w: nat, i: nat)
    requires n <= |v| && Matrix(v, |v|, w) && i < w
    ensures Column(v, i) == Column(v[..n], i) + Column(v[n..], i)
  {
  }

  lemma {:induction false} GatheredIsColumn<W>(n: nat, v: seq<seq<W>>, i: nat)
    requires Degree(n) && Matrix(v, |v|, n) && |v| % n == 0 && i < n
    ensures Gathered(n, v, i) == Column(v, i)
    decreases |v|
  {
    if |v| > 0 {
      ColumnSplit(v, n, n, i);
      GatheredIsColumn(n, v[n..], i);
    }
  }

  function Splat<W>(n: nat, w: W): (r: seq<W>)
    ensures |r| == n
  {
    seq(n, _ => w)
  }

  /** The eight words stored for lane i.  The widest kernel pads with zero vectors. */
  function OutWords(n: nat, h: seq<seq<word>>, i: nat): seq<word>
    requires Degree(n) && Matrix(h, 8, n) && i < n
  {
    if n == 16 then Gathered(n, h + Splat(8, Splat(n, 0)), i)[..8] else Gathered(n, h, i)
  }

  lemma OutWordsAre(n: nat, h: seq<seq<word>>, i: nat)
    requires Degree(n) && Matrix(h, 8, n) && i < n
    ensures OutWords(n, h, i) == Column(h, i)
  {
    if n == 16 {
      GatheredIsColumn(n, h + Splat(8, Splat(n, 0)), i);
    } else {
      GatheredIsColumn(n, h, i);
    }
  }

  // Counters

  function LowLane(c: Counting, counter: nat, increment: bool, i: nat): word
    requires i < 16
  {
    ToWord(if c == Add64 then LaneWide(counter, increment, i) % TWO_32 else LaneLow(counter, increment, i))
  }

  function HighLane(c: Counting, counter: nat, increment: bool, i: nat): word
    requires i < 16
  {
    WideCounters(counter, increment, i);
    ToWord(match c
           case CompareLow => LaneHighSse(counter, increment, i)
           case TopBit => LaneHigh16(counter, increment, i)
           case Add64 => LaneWide(counter, increment, i) / TWO_32)
  }

  lemma LanesCount(c: Counting, counter: nat, increment: bool, i: nat)
    requires i < 16
    ensures LowLane(c, counter, increment, i) == CounterLow(CounterOf(counter, increment, i))
    ensures HighLane(c, counter, increment, i) == CounterHigh(CounterOf(counter, increment, i))
  {
    LaneCounters(counter, increment, i);
    WideCounters(counter, increment, i);
    assert CounterOf(counter, increment, i) == counter + Delta(increment, i);
  }

  // One compression in every lane

  function LaneInit(n: nat, c: Counting, h: seq<seq<word>>, counter: nat, increment: bool, blockLen: byte, flags: byte):
    State<seq<word>>
    requires n <= 16 && |h| == 8
  {
    State(h[0], h[1], h[2], h[3], h[4], h[5], h[6], h[7],
          Splat(n, IV.w0), Splat(n, IV.w1), Splat(n, IV.w2), Splat(n, IV.w3),
          seq(n, i requires 0 <= i < n => LowLane(c, counter, increment, i)),
          seq(n, i requires 0 <= i < n => HighLane(c, counter, increment, i)),
          Splat(n, blockLen as word), Splat(n, flags as word))
  }

  lemma LaneInitAt(n: nat, c: Counting, h: seq<seq<word>>, counter: nat, increment: bool, blockLen: byte, flags: byte,
                   i: nat, cv: Words8)
    requires n <= 16 && Matrix(h, 8, n) && i < n && Column(h, i) == CvWords(cv)
    ensures Wide(LaneInit(n, c, h, counter, increment, blockLen, flags), n)
    ensures LaneState(LaneInit(n, c, h, counter, increment, blockLen, flags), n, i)
            == InitState(cv, blockLen, CounterOf(counter, increment, i), flags)
  {
    LanesCount(c, counter, increment, i);
    var r := Column(h, i);
    assert r[0] == h[0][i] && r[1] == h[1][i] && r[2] == h[2][i] && r[3] == h[3][i];
    assert r[4] == h[4][i] && r[5] == h[5][i] && r[6] == h[6][i] && r[7] == h[7][i];
  }

  /** Lane i of one compression of all lanes: the sixteen reference output words. */
  lemma LaneCompression(n: nat, vo: Ops<seq<word>>, p: Ops<word>, c: Counting, h: seq<seq<word>>, m: seq<seq<word>>,
                        counter: nat, increment: bool, blockLen: byte, flags: byte, i: nat, cv: Words8, block: Block)
    requires Lifted(n, vo, p) && n <= 16 && Matrix(h, 8, n) && Matrix(m, 16, n) && i < n
    requires Column(h, i) == CvWords(cv) && Column(m, i) == LoadWords(block, 16)
    ensures var s := RoundsFrom(vo, LaneInit(n, c, h, counter, increment, blockLen, flags), m, 0);
            && Matrix(FeedForward(vo, s, h), 16, n)
            && Column(FeedForward(vo, s, h), i)
               == OutputWords(p, cv, block, blockLen, CounterOf(counter, increment, i), flags)
  {
    LaneInitAt(n, c, h, counter, increment, blockLen, flags, i, cv);
    LaneBlock(n, vo, p, LaneInit(n, c, h, counter, increment, blockLen, flags), m, h, i);
  }

  // hash4, hash8 and hash16

  function CvOf(ws: seq<word>): Cv
    requires |ws| == 8
  {
    StoreWords(ws)
  }

  /** The rounds of one block, in every lane. */
  method LaneCompress(n: nat, vo: Ops<seq<word>>, v: State<seq<word>>, m: seq<seq<word>>) returns (h: seq<seq<word>>)
    requires |m| == 16
    ensures h == LaneFeed(vo, RoundsFrom(vo, v, m, 0))
  {
    var s := LaneAllRounds(vo, v, m);
    h := LaneFeed(vo, s);
  }

  function BlockRows(inputs: seq<seq<byte>>, block: nat): (r: seq<seq<word>>)
    requires forall i :: 0 <= i < |inputs| ==> 64 * (block + 1) <= |inputs[i]|
    ensures Matrix(r, |inputs|, 16)
  {
    seq(|inputs|, i requires 0 <= i < |inputs| => LoadWords(inputs[i][64 * block..64 * (block + 1)], 16))
  }

  lemma FirstEight<W>(v: seq<seq<W>>, n: nat, i: nat)
    requires Matrix(v, 16, n) && i < n
    ensures Matrix(v[..8], 8, n) && Column(v[..8], i) == Column(v, i)[..8]
  {
  }

  /** Lane i after one more block: one more link of its chain. */
  lemma NextLink(n: nat, vo: Ops<seq<word>>, p: Ops<word>, c: Counting, h: seq<seq<word>>, m: seq<seq<word>>,
                 counter: nat, increment: bool, flags: byte, i: nat, cv: Words8, block: Block)
    requires Lifted(n, vo, p) && n <= 16 && Matrix(h, 8, n) && Matrix(m, 16, n) && i < n
    requires Column(h, i) == CvWords(cv) && Column(m, i) == LoadWords(block, 16)
    ensures var h' := LaneFeed(vo, RoundsFrom(vo, LaneInit(n, c, h, counter, increment, 64, flags), m, 0));
            && Matrix(h', 8, n)
            && Column(h', i)
               == CvWords(KernelOf(p).compressInPlace(cv, block, 64, CounterOf(counter, increment, i), flags))
  {
    LaneCompression(n, vo, p, c, h, m, counter, increment, 64, flags, i, cv, block);
    var s := RoundsFrom(vo, LaneInit(n, c, h, counter, increment, 64, flags), m, 0);
    LaneFeedIsHalf(vo, s, h);
    FirstEight(FeedForward(vo, s, h), n, i);
    WholeBlockLen();
    CompressedWords(p, cv, block, 64, 64, CounterOf(counter, increment, i), flags);
  }

  lemma WholeBlockLen()
    ensures LenByte(64) == 64
  {
  }

  lemma CompressedWords(p: Ops<word>, cv: Words8, block: Block, len: nat, blockLen: byte, counter: nat, flags: byte)
    requires LenByte(len) == blockLen
    ensures CvWords(KernelOf(p).compressInPlace(cv, block, len, counter, flags))
            == OutputWords(p, cv, block, blockLen, counter, flags)[..8]
  {
    Compressed(p, cv, block, len, counter, flags);
    WordsKept(OutputWords(p, cv, block, blockLen, counter, flags));
  }

  lemma Compressed(p: Ops<word>, cv: Words8, block: Block, len: nat, counter: nat, flags: byte)
    ensures KernelOf(p).compressInPlace(cv, block, len, counter, flags)
            == ToWords8(OutputWords(p, cv, block, LenByte(len), counter, flags))
  {
  }

  lemma WordsKept(ws: seq<word>)
    requires |ws| == 16
    ensures CvWords(ToWords8(ws)) == ws[..8]
  {
  }

  /** What one call of a hash_many kernel is given. */
  datatype Job = Job(inputs: seq<seq<byte>>, blocks: nat, key: Words8, counter: nat, increment: bool,
                     flags: byte, flagsStart: byte, flagsEnd: byte)
  {
    ghost predicate Long(k: nat) {
      forall i :: 0 <= i < |inputs| ==> 64 * k <= |inputs[i]|
    }
  }

  /** The chaining value of input i after k blocks. */
  function LaneChain(f: Kernel, j: Job, i: nat, k: nat): Words8
    requires i < |j.inputs| && j.Long(k)
  {
    HashChain(f, j.key, j.inputs[i], k, j.blocks, CounterOf(j.counter, j.increment, i), j.flags, j.flagsStart, j.flagsEnd)
  }

  lemma LaneChainNext(f: Kernel, j: Job, i: nat, k: nat)
    requires i < |j.inputs| && j.Long(k + 1)
    ensures j.Long(k)
    ensures LaneChain(f, j, i, k + 1)
            == f.compressInPlace(LaneChain(f, j, i, k), j.inputs[i][64 * k..64 * (k + 1)], 64,
                                 CounterOf(j.counter, j.increment, i),
                                 BlockFlags(k, j.blocks, j.flags, j.flagsStart, j.flagsEnd))
  {
  }

  ghost predicate ChainAt(f: Kernel, j: Job, h: seq<seq<word>>, i: nat, k: nat)
    requires i < |j.inputs| && j.Long(k)
  {
    Matrix(h, 8, |j.inputs|) && Column(h, i) == CvWords(LaneChain(f, j, i, k))
  }

  function KeyVecs(n: nat, key: Words8): seq<seq<word>> {
    [Splat(n, key.w0), Splat(n, key.w1), Splat(n, key.w2), Splat(n, key.w3),
     Splat(n, key.w4), Splat(n, key.w5), Splat(n, key.w6), Splat(n, key.w7)]
  }

  /** The vectors after one more block. */
  function NextVecs(n: nat, vo: Ops<seq<word>>, c: Counting, j: Job, h: seq<seq<word>>, k: nat): seq<seq<word>>
    requires |j.inputs| == n && Degree(n) && j.Long(k + 1) && |h| == 8
  {
    MsgVecsAre(n, BlockRows(j.inputs, k), 0);
    var blockFlags := BlockFlags(k, j.blocks, j.flags, j.flagsStart, j.flagsEnd);
    LaneFeed(vo, RoundsFrom(vo, LaneInit(n, c, h, j.counter, j.increment, 64, blockFlags),
                            MsgVecs(n, BlockRows(j.inputs, k), 0), 0))
  }

  lemma ChainStep(n: nat, vo: Ops<seq<word>>, p: Ops<word>, c: Counting, j: Job, h: seq<seq<word>>, i: nat, k: nat)
    requires |j.inputs| == n && Degree(n) && Lifted(n, vo, p) && j.Long(k + 1) && j.Long(k) && i < n
    requires ChainAt(KernelOf(p), j, h, i, k)
    ensures ChainAt(KernelOf(p), j, NextVecs(n, vo, c, j, h, k), i, k + 1)
  {
    hide RoundsFrom, LaneInit, LaneFeed, BlockFlags;
    MsgVecsColumn(n, BlockRows(j.inputs, k), i);
    NextLink(n, vo, p, c, h, MsgVecs(n, BlockRows(j.inputs, k), 0), j.counter, j.increment,
             BlockFlags(k, j.blocks, j.flags, j.flagsStart, j.flagsEnd), i,
             LaneChain(KernelOf(p), j, i, k), j.inputs[i][64 * k..64 * (k + 1)]);
    Linked(KernelOf(p), j, NextVecs(n, vo, c, j, h, k), i, k);
  }

  lemma Linked(f: Kernel, j: Job, h: seq<seq<word>>, i: nat, k: nat)
    requires i < |j.inputs| && j.Long(k + 1) && j.Long(k) && Matrix(h, 8, |j.inputs|)
    requires Column(h, i) == CvWords(f.compressInPlace(LaneChain(f, j, i, k), j.inputs[i][64 * k..64 * (k + 1)], 64,
                                                       CounterOf(j.counter, j.increment, i),
                                                       BlockFlags(k, j.blocks, j.flags, j.flagsStart, j.flagsEnd)))
    ensures ChainAt(f, j, h, i, k + 1)
  {
    LaneChainNext(f, j, i, k);
  }

  /** What every kernel writes for a job: one stored chaining value per input. */
  function HashJob(f: Kernel, j: Job): (r: seq<Cv>)
    requires j.Long(j.blocks)
    ensures |r| == |j.inputs|
  {
    HashAll(f, j.key, j.inputs, j.blocks, j.counter, j.increment, j.flags, j.flagsStart, j.flagsEnd)
  }

  ghost predicate ChainsAt(f: Kernel, j: Job, h: seq<seq<word>>, k: nat)
    requires j.Long(k)
  {
    Matrix(h, 8, |j.inputs|) && forall i :: 0 <= i < |j.inputs| ==> ChainAt(f, j, h, i, k)
  }

  lemma ChainsStart(f: Kernel, j: Job)
    ensures ChainsAt(f, j, KeyVecs(|j.inputs|, j.key), 0)
  {
  }

  lemma ChainsStep(n: nat, vo: Ops<seq<word>>, p: Ops<word>, c: Counting, j: Job, h: seq<seq<word>>, k: nat)
    requires |j.inputs| == n && Degree(n) && Lifted(n, vo, p) && j.Long(k + 1) && j.Long(k)
    requires ChainsAt(KernelOf(p), j, h, k)
    ensures ChainsAt(KernelOf(p), j, NextVecs(n, vo, c, j, h, k), k + 1)
  {
    var h', next := NextVecs(n, vo, c, j, h, k), k + 1;
    forall i | 0 <= i < n
      ensures ChainAt(KernelOf(p), j, h', i, next)
    {
      ChainStep(n, vo, p, c, j, h, i, k);
    }
    assert ChainAt(KernelOf(p), j, h', 0, next);
  }

  function StoreLanes(n: nat, h: seq<seq<word>>): (r: seq<Cv>)
    requires Degree(n) && Matrix(h, 8, n)
    ensures |r| == n
  {
    seq(n, i requires 0 <= i < n => (OutWordsAre(n, h, i); CvOf(OutWords(n, h, i))))
  }

  lemma StoredLane(n: nat, p: Ops<word>, j: Job, h: seq<seq<word>>, i: nat)
    requires Degree(n) && |j.inputs| == n && i < n && j.Long(j.blocks)
    requires ChainAt(KernelOf(p), j, h, i, j.blocks)
    ensures StoreLanes(n, h)[i] == HashJob(KernelOf(p), j)[i]
  {
    OutWordsAre(n, h, i);
    assert CvOf(CvWords(LaneChain(KernelOf(p), j, i, j.blocks)))
           == KernelOf(p).storeCv(LaneChain(KernelOf(p), j, i, j.blocks));
  }

  lemma StoredLanes(n: nat, p: Ops<word>, j: Job, h: seq<seq<word>>)
    requires Degree(n) && |j.inputs| == n && j.Long(j.blocks)
    requires ChainsAt(KernelOf(p), j, h, j.blocks)
    ensures StoreLanes(n, h) == HashJob(KernelOf(p), j)
  {
    forall i | 0 <= i < n
      ensures StoreLanes(n, h)[i] == HashJob(KernelOf(p), j)[i]
    {
      StoredLane(n, p, j, h, i);
    }
  }

  lemma LongPrefix(j: Job, k: nat)
    requires j.Long(j.blocks) && k <= j.blocks
    ensures j.Long(k)
  {
  }

  /** The body of the loop over blocks. */
  method NextBlock(n: nat, vo: Ops<seq<word>>, c: Counting, j: Job, h: seq<seq<word>>, block: nat, blockFlags: byte,
                   ghost p: Ops<word>)
    returns (h': seq<seq<word>>)
    requires |j.inputs| == n && Degree(n) && j.Long(block + 1) && j.Long(block) && Lifted(n, vo, p)
    requires ChainsAt(KernelOf(p), j, h, block)
    requires blockFlags == BlockFlags(block, j.blocks, j.flags, j.flagsStart, j.flagsEnd)
    ensures ChainsAt(KernelOf(p), j, h', block + 1)
  {
    ChainsStep(n, vo, p, c, j, h, block);
    h' := CompressBlocks(n, vo, c, j, h, block, blockFlags);
  }

  method CompressBlocks(n: nat, vo: Ops<seq<word>>, c: Counting, j: Job, h: seq<seq<word>>, block: nat, blockFlags: byte)
    returns (h': seq<seq<word>>)
    requires |j.inputs| == n && Degree(n) && j.Long(block + 1) && |h| == 8
    requires blockFlags == BlockFlags(block, j.blocks, j.flags, j.flagsStart, j.flagsEnd)
    ensures h' == NextVecs(n, vo, c, j, h, block)
  {
    MsgVecsAre(n, BlockRows(j.inputs, block), 0);
    var msg := MsgVecs(n, BlockRows(j.inputs, block), 0);
    h' := LaneCompress(n, vo, LaneInit(n, c, h, j.counter, j.increment, 64, blockFlags), msg);
  }

  method ChainBlocks(n: nat, vo: Ops<seq<word>>, c: Counting, j: Job, ghost p: Ops<word>) returns (h: seq<seq<word>>)
    requires |j.inputs| == n && Degree(n) && j.Long(j.blocks) && Lifted(n, vo, p)
    ensures ChainsAt(KernelOf(p), j, h, j.blocks)
  {
    hide ChainsAt, KernelOf, KeyVecs, Lifted;
    h := KeyVecs(n, j.key);
    ChainsStart(KernelOf(p), j);
    var blockFlags := j.flags | j.flagsStart;
    for block := 0 to j.blocks
      invariant j.Long(block) && ChainsAt(KernelOf(p), j, h, block)
      invariant blockFlags == StartedFlags(block, j.flags, j.flagsStart)
    {
      LongPrefix(j, block + 1);
      if block + 1 == j.blocks {
        blockFlags := blockFlags | j.flagsEnd;
      }
      h := NextBlock(n, vo, c, j, h, block, blockFlags, p);
      blockFlags := j.flags;
    }
  }

  /** hash4, hash8 or hash16: one input per lane. */
  method HashLanes(n: nat, o: Ops<word>, c: Counting, j: Job, ghost p: Ops<word>) returns (out: seq<Cv>)
    requires Degree(n) && |j.inputs| == n && j.Long(j.blocks) && Same(o, p)
    ensures out == HashJob(KernelOf(p), j)
  {
    VecOpsLifted(n, o, p);
    var h := ChainBlocks(n, VecOps(n, o), c, j, p);
    StoredLanes(n, p, j, h);
    out := StoreLanes(n, h);
  }
}
