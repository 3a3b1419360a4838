/** hash_many of the vector kernels from the widest lanes down to single inputs, and the claim that
  * it never matters which kernel c/blake3/blake3_dispatch.c picks. */
module Cascades {
  import opened Basics
  import opened Tree
  import opened Rounds
  import opened RowKernel
  import opened Words
  import opened Compress
  import opened Transposes
  import opened Lanes
  import opened HashMany
  import opened WideHash

  // Single inputs, by rows

  /** The kernel of compress_in_place and compress_xof by rows. */
  function RowKernelOf(o: Ops<word>): Kernel {
    Kernel(
      (cv: Words8, b: seq<byte>, l: nat, c: nat, f: byte) =>
        if |b| == 64 then ToWords8(RowOutputWords(o, cv, b, LenByte(l), c, f)) else cv,
      (cv: Words8, b: seq<byte>, l: nat, c: nat, f: byte) =>
        if |b| == 64 then StoreBlock(RowOutputWords(o, cv, b, LenByte(l), c, f)) else ZERO_BLOCK,
      (w: Words8) => StoreCv(w))
  }

  ghost predicate SameKernel(f: Kernel, g: Kernel) {
    && (forall cv: Words8, b: seq<byte>, l: nat, c: nat, x: byte ::
          f.compressInPlace(cv, b, l, c, x) == g.compressInPlace(cv, b, l, c, x))
    && (forall cv: Words8, b: seq<byte>, l: nat, c: nat, x: byte ::
          f.compressXof(cv, b, l, c, x) == g.compressXof(cv, b, l, c, x))
    && (forall w: Words8 :: f.storeCv(w) == g.storeCv(w))
  }

  lemma RowKernelAt(o: Ops<word>, p: Ops<word>, cv: Words8, b: seq<byte>, l: nat, c: nat, x: byte)
    requires RowSound(o, p)
    ensures RowKernelOf(o).compressInPlace(cv, b, l, c, x) == KernelOf(p).compressInPlace(cv, b, l, c, x)
    ensures RowKernelOf(o).compressXof(cv, b, l, c, x) == KernelOf(p).compressXof(cv, b, l, c, x)
  {
    if |b| == 64 {
      RowKernelAgrees(o, p, cv, b, LenByte(l), c, x);
    }
  }

  /** Compression by rows and word by word are the same function. */
  lemma RowKernelSame(o: Ops<word>, p: Ops<word>)
    requires RowSound(o, p)
    ensures SameKernel(RowKernelOf(o), KernelOf(p))
  {
    var f, g := RowKernelOf(o), KernelOf(p);
    forall cv: Words8, b: seq<byte>, l: nat, c: nat, x: byte
      ensures f.compressInPlace(cv, b, l, c, x) == g.compressInPlace(cv, b, l, c, x)
    {
      RowKernelAt(o, p, cv, b, l, c, x);
    }
    forall cv: Words8, b: seq<byte>, l: nat, c: nat, x: byte
      ensures f.compressXof(cv, b, l, c, x) == g.compressXof(cv, b, l, c, x)
    {
      RowKernelAt(o, p, cv, b, l, c, x);
    }
  }

  lemma {:induction false} SameChain(f: Kernel, g: Kernel, key: Words8, input: seq<byte>, k: nat, blocks: nat,
                                     counter: nat, flags: byte, flagsStart: byte, flagsEnd: byte)
    requires SameKernel(f, g) && 64 * k <= |input|
    ensures HashChain(f, key, input, k, blocks, counter, flags, flagsStart, flagsEnd)
            == HashChain(g, key, input, k, blocks, counter, flags, flagsStart, flagsEnd)
  {
    if k > 0 {
      SameChain(f, g, key, input, k - 1, blocks, counter, flags, flagsStart, flagsEnd);
    }
  }

  // Parts of a job

  function First(j: Job, k: nat): Job
    requires k <= |j.inputs|
  {
    j.(inputs := j.inputs[..k])
  }

  /** What is left of a job after its first k inputs. */
  function Rest(j: Job, k: nat): Job
    requires k <= |j.inputs|
  {
    j.(inputs := j.inputs[k..], counter := CounterOf(j.counter, j.increment, k))
  }

  lemma JobSplit(f: Kernel, j: Job, k: nat)
    requires j.Long(j.blocks) && k <= |j.inputs|
    ensures First(j, k).Long(j.blocks) && Rest(j, k).Long(j.blocks)
    ensures HashJob(f, j) == HashJob(f, First(j, k)) + HashJob(f, Rest(j, k))
  {
    hide HashOne;
  }

  /** The output buffer with some values written at an offset. */
  function Patch<T>(before: seq<T>, off: nat, xs: seq<T>): (r: seq<T>)
    requires off + |xs| <= |before|
    ensures |r| == |before|
  {
    before[..off] + xs + before[off + |xs|..]
  }

  lemma PatchTwice<T>(before: seq<T>, off: nat, xs: seq<T>, ys: seq<T>)
    requires off + |xs| + |ys| <= |before|
    ensures Patch(Patch(before, off, xs), off + |xs|, ys) == Patch(before, off, xs + ys)
  {
  }

  method Store<T>(out: array<T>, off: nat, xs: seq<T>)
    requires off + |xs| <= out.Length
    modifies out
    ensures out[..] == Patch(old(out[..]), off, xs)
  {
    for i := 0 to |xs|
      invariant forall k :: 0 <= k < out.Length ==>
                  out[k] == if off <= k < off + i then xs[k - off] else old(out[k])
    {
      out[off + i] := xs[i];
    }
  }

  /** Writing part after part of a job. */
  lemma PatchParts(f: Kernel, j: Job, k: nat, before: seq<Cv>, off: nat)
    requires j.Long(j.blocks) && k <= |j.inputs| && off + |j.inputs| <= |before|
    ensures First(j, k).Long(j.blocks) && Rest(j, k).Long(j.blocks)
    ensures Patch(Patch(before, off, HashJob(f, First(j, k))), off + k, HashJob(f, Rest(j, k)))
            == Patch(before, off, HashJob(f, j))
  {
    JobSplit(f, j, k);
    PatchTwice(before, off, HashJob(f, First(j, k)), HashJob(f, Rest(j, k)));
  }

  /** Finishing job j at offset off of a buffer yields the same buffer as finishing j0 at off0. */
  ghost predicate Completes(f: Kernel, j0: Job, before: seq<Cv>, off0: nat, j: Job, now: seq<Cv>, off: nat) {
    && j0.Long(j0.blocks) && j.Long(j.blocks)
    && off0 + |j0.inputs| == off + |j.inputs| <= |before| == |now|
    && Patch(now, off, HashJob(f, j)) == Patch(before, off0, HashJob(f, j0))
  }

  lemma CompletesRest(f: Kernel, j0: Job, before: seq<Cv>, off0: nat, j: Job, now: seq<Cv>, off: nat, k: nat)
    requires Completes(f, j0, before, off0, j, now, off) && k <= |j.inputs|
    ensures First(j, k).Long(j.blocks)
    ensures Completes(f, j0, before, off0, Rest(j, k), Patch(now, off, HashJob(f, First(j, k))), off + k)
  {
    PatchParts(f, j, k, now, off);
  }

  lemma Completed(f: Kernel, j0: Job, before: seq<Cv>, off0: nat, j: Job, now: seq<Cv>, off: nat)
    requires Completes(f, j0, before, off0, j, now, off) && |j.inputs| == 0
    ensures now == Patch(before, off0, HashJob(f, j0))
  {
  }

  /** The loop of a hash_many kernel that takes n inputs at a time. */
  method HashGroups(n: nat, o: Ops<word>, c: Counting, j0: Job, out: array<Cv>, off0: nat, ghost p: Ops<word>)
    returns (j: Job, off: nat)
    requires Degree(n) && Same(o, p) && j0.Long(j0.blocks) && off0 + |j0.inputs| <= out.Length
    modifies out
    ensures Completes(KernelOf(p), j0, old(out[..]), off0, j, out[..], off) && |j.inputs| < n
  {
    hide KernelOf, HashJob;
    j, off := j0, off0;
    while |j.inputs| >= n
      invariant Completes(KernelOf(p), j0, old(out[..]), off0, j, out[..], off)
      decreases |j.inputs|
    {
      CompletesRest(KernelOf(p), j0, old(out[..]), off0, j, out[..], off, n);
      var cvs := HashLanes(n, o, c, First(j, n), p);
      Store(out, off, cvs);
      j, off := Rest(j, n), off + n;
    }
  }

  /** hash_one: the first input of a job by the row kernel. */
  method HashFirst(o: Ops<word>, j: Job, ghost p: Ops<word>) returns (cv: Cv)
    requires RowSound(o, p) && j.Long(j.blocks) && |j.inputs| == 1
    ensures [cv] == HashJob(KernelOf(p), j)
  {
    cv := HashOnePortable(RowKernelOf(o), j.key, j.inputs[0], j.blocks, j.counter, j.flags, j.flagsStart, j.flagsEnd);
    RowKernelSame(o, p);
    SameChain(RowKernelOf(o), KernelOf(p), j.key, j.inputs[0], j.blocks, j.blocks, j.counter,
              j.flags, j.flagsStart, j.flagsEnd);
  }

  /** The last loop: one input at a time. */
  method HashRest(o: Ops<word>, j0: Job, out: array<Cv>, off0: nat, ghost p: Ops<word>)
    requires RowSound(o, p) && j0.Long(j0.blocks) && off0 + |j0.inputs| <= out.Length
    modifies out
    ensures out[..] == Patch(old(out[..]), off0, HashJob(KernelOf(p), j0))
  {
    var j, off := j0, off0;
    while |j.inputs| > 0
      invariant Completes(KernelOf(p), j0, old(out[..]), off0, j, out[..], off)
      decreases |j.inputs|
    {
      CompletesRest(KernelOf(p), j0, old(out[..]), off0, j, out[..], off, 1);
      var cv := HashFirst(o, First(j, 1), p);
      Store(out, off, [cv]);
      j, off := Rest(j, 1), off + 1;
    }
    Completed(KernelOf(p), j0, old(out[..]), off0, j, out[..], off);
  }

  /** Four lanes, then single inputs. */
  method HashMany4(o: Ops<word>, j0: Job, out: array<Cv>, off0: nat, ghost p: Ops<word>)
    requires Same(o, p) && RowSound(o, p)
    requires j0.Long(j0.blocks) && off0 + |j0.inputs| <= out.Length
    modifies out
    ensures out[..] == Patch(old(out[..]), off0, HashJob(KernelOf(p), j0))
  {
    var j, off := HashGroups(4, o, CompareLow, j0, out, off0, p);
    HashRest(o, j, out, off, p);
  }

  method HashManySse2(j: Job, out: array<Cv>, off: nat)
    requires j.Long(j.blocks) && off + |j.inputs| <= out.Length
    modifies out
    ensures out[..] == Patch(old(out[..]), off, HashJob(KernelOf(PORTABLE), j))
  {
    SameOps(SSE2);
    RowKernelsSound();
    HashMany4(SSE2, j, out, off, PORTABLE);
  }

  method HashManySse41(j: Job, out: array<Cv>, off: nat)
    requires j.Long(j.blocks) && off + |j.inputs| <= out.Length
    modifies out
    ensures out[..] == Patch(old(out[..]), off, HashJob(KernelOf(PORTABLE), j))
  {
    SameOps(SSE41);
    RowKernelsSound();
    HashMany4(SSE41, j, out, off, PORTABLE);
  }

  /** blake3_hash_many_avx2: eight lanes, then the sse41 kernel. */
  method HashManyAvx2(j0: Job, out: array<Cv>, off0: nat)
    requires j0.Long(j0.blocks) && off0 + |j0.inputs| <= out.Length
    modifies out
    ensures out[..] == Patch(old(out[..]), off0, HashJob(KernelOf(PORTABLE), j0))
  {
    SameOps(AVX2);
    var j, off := HashGroups(8, AVX2, CompareLow, j0, out, off0, PORTABLE);
    HashManySse41(j, out, off);
  }

  /** blake3_hash_many_avx512: sixteen, eight and four lanes, then single inputs. */
  method HashManyAvx512(j0: Job, out: array<Cv>, off0: nat)
    requires j0.Long(j0.blocks) && off0 + |j0.inputs| <= out.Length
    modifies out
    ensures out[..] == Patch(old(out[..]), off0, HashJob(KernelOf(PORTABLE), j0))
  {
    SameOps(AVX512);
    RowKernelsSound();
    var j, off := HashGroups(16, AVX512, TopBit, j0, out, off0, PORTABLE);
    j, off := HashGroups(8, AVX512, Add64, j, out, off, PORTABLE);
    j, off := HashGroups(4, AVX512, Add64, j, out, off, PORTABLE);
    HashRest(AVX512, j, out, off, PORTABLE);
  }

  // Output blocks

  function XofBlock(f: Kernel, x: Xof, i: nat): Block {
    f.compressXof(x.cv, x.block, x.blockLen, CounterOf(x.counter, true, i), x.flags)
  }

  /** What one call of xof_many is given, apart from the number of blocks. */
  datatype Xof = Xof(cv: Words8, block: Block, blockLen: nat, counter: nat, flags: byte)

  /** What xof_many writes: k output blocks with consecutive counters. */
  function XofAll(f: Kernel, x: Xof, k: nat): (r: seq<Block>)
    ensures |r| == k
  {
    seq(k, i requires 0 <= i => XofBlock(f, x, i))
  }

  function SplatAll<W>(n: nat, ws: seq<W>): (r: seq<seq<W>>)
    ensures Matrix(r, |ws|, n)
  {
    seq(|ws|, i requires 0 <= i < |ws| => Splat(n, ws[i]))
  }

  lemma SplatAllColumn<W>(n: nat, ws: seq<W>, i: nat)
    requires i < n
    ensures Column(SplatAll(n, ws), i) == ws
  {
  }

  lemma SplatInit(n: nat, x: Xof, i: nat)
    requires i < n
    ensures var h, m := SplatAll(n, CvWords(x.cv)), SplatAll(n, LoadWords(x.block, 16));
            Column(h, i) == CvWords(x.cv) && Column(m, i) == LoadWords(x.block, 16)
  {
    SplatAllColumn(n, CvWords(x.cv), i);
    SplatAllColumn(n, LoadWords(x.block, 16), i);
  }

  lemma XofLane(n: nat, vo: Ops<seq<word>>, p: Ops<word>, c: Counting, x: Xof, i: nat, counter: nat,
                h: seq<seq<word>>, m: seq<seq<word>>, v: seq<seq<word>>)
    requires Degree(n) && Lifted(n, vo, p) && i < n && counter == CounterOf(x.counter, true, i)
    requires Matrix(h, 8, n) && Matrix(m, 16, n)
    requires Column(h, i) == CvWords(x.cv) && Column(m, i) == LoadWords(x.block, 16)
    requires v == FeedForward(vo, RoundsFrom(vo, LaneInit(n, c, h, x.counter, true, LenByte(x.blockLen), x.flags), m, 0), h)
    ensures Matrix(v, 16, n)
    ensures Column(v, i) == OutputWords(p, x.cv, x.block, LenByte(x.blockLen), counter, x.flags)
  {
    LaneCompression(n, vo, p, c, h, m, x.counter, true, LenByte(x.blockLen), x.flags, i, x.cv, x.block);
  }

  lemma XofCompressed(p: Ops<word>, cv: Words8, block: Block, len: nat, counter: nat, flags: byte)
    ensures KernelOf(p).compressXof(cv, block, len, counter, flags)
            == StoreBlock(OutputWords(p, cv, block, LenByte(len), counter, flags))
  {
  }

  /** The block stored for lane i. */
  function StoreLane(n: nat, v: seq<seq<word>>, i: nat): Block
    requires Degree(n) && Matrix(v, 16, n) && i < n
  {
    Divides16(n);
    GatheredIsColumn(n, v, i);
    StoreBlock(Gathered(n, v, i))
  }

  lemma Divides16(n: nat)
    requires Degree(n)
    ensures 16 % n == 0
  {
  }

  lemma StoredColumn(n: nat, v: seq<seq<word>>, i: nat, ws: seq<word>)
    requires Degree(n) && Matrix(v, 16, n) && i < n && Column(v, i) == ws
    ensures StoreLane(n, v, i) == StoreBlock(ws)
  {
    Divides16(n);
    GatheredIsColumn(n, v, i);
  }

  /** xof4, xof8 or xof16: one block under n counters. */
  method XofLanes(n: nat, o: Ops<word>, c: Counting, x: Xof, ghost p: Ops<word>) returns (blocks: seq<Block>)
    requires Degree(n) && Same(o, p)
    ensures blocks == XofAll(KernelOf(p), x, n)
  {
    VecOpsLifted(n, o, p);
    SplatSpreads(n, x);
    var v := XofVecs(n, VecOps(n, o), c, x, SplatAll(n, CvWords(x.cv)), SplatAll(n, LoadWords(x.block, 16)), p);
    StoredXofs(n, p, x, v);
    blocks := StoreBlockLanes(n, v);
  }

  function StoreBlockLanes(n: nat, v: seq<seq<word>>): (r: seq<Block>)
    requires Degree(n) && Matrix(v, 16, n)
    ensures |r| == n
  {
    seq(n, i requires 0 <= i < n => StoreLane(n, v, i))
  }

  lemma StoredXofs(n: nat, p: Ops<word>, x: Xof, v: seq<seq<word>>)
    requires Degree(n) && HoldsXof(n, p, x, v)
    ensures StoreBlockLanes(n, v) == XofAll(KernelOf(p), x, n)
  {
    forall i | 0 <= i < n
      ensures StoreLane(n, v, i) == XofBlock(KernelOf(p), x, i)
    {
      StoredXof(n, p, x, v, i);
    }
  }

  ghost predicate HoldsXof(n: nat, p: Ops<word>, x: Xof, v: seq<seq<word>>) {
    Matrix(v, 16, n) && forall i :: 0 <= i < n ==> Column(v, i) == XofWords(p, x, i)
  }

  lemma StoredXof(n: nat, p: Ops<word>, x: Xof, v: seq<seq<word>>, i: nat)
    requires Degree(n) && Matrix(v, 16, n) && i < n && Column(v, i) == XofWords(p, x, i)
    ensures StoreLane(n, v, i) == XofBlock(KernelOf(p), x, i)
  {
    StoredColumn(n, v, i, XofWords(p, x, i));
    XofCompressed(p, x.cv, x.block, x.blockLen, CounterOf(x.counter, true, i), x.flags);
  }

  method XofRounds(vo: Ops<seq<word>>, v: State<seq<word>>, m: seq<seq<word>>, h: seq<seq<word>>)
    returns (r: seq<seq<word>>)
    requires |m| == 16 && |h| == 8
    ensures r == FeedForward(vo, RoundsFrom(vo, v, m, 0), h)
  {
    var s := LaneAllRounds(vo, v, m);
    r := FeedForward(vo, s, h);
  }

  function XofWords(p: Ops<word>, x: Xof, i: nat): (r: seq<word>)
    ensures |r| == 16
  {
    OutputWords(p, x.cv, x.block, LenByte(x.blockLen), CounterOf(x.counter, true, i), x.flags)
  }

  /** Every lane holds the key words and the block. */
  ghost predicate Spread(n: nat, x: Xof, h: seq<seq<word>>, m: seq<seq<word>>) {
    && Matrix(h, 8, n) && Matrix(m, 16, n)
    && forall i :: 0 <= i < n ==> Column(h, i) == CvWords(x.cv) && Column(m, i) == LoadWords(x.block, 16)
  }

  lemma SplatSpreads(n: nat, x: Xof)
    ensures Spread(n, x, SplatAll(n, CvWords(x.cv)), SplatAll(n, LoadWords(x.block, 16)))
  {
    forall i | 0 <= i < n
      ensures Column(SplatAll(n, CvWords(x.cv)), i) == CvWords(x.cv)
      ensures Column(SplatAll(n, LoadWords(x.block, 16)), i) == LoadWords(x.block, 16)
    {
      SplatInit(n, x, i);
    }
  }

  method XofVecs(n: nat, vo: Ops<seq<word>>, c: Counting, x: Xof, h: seq<seq<word>>, m: seq<seq<word>>, ghost p: Ops<word>)
    returns (v: seq<seq<word>>)
    requires Degree(n) && Lifted(n, vo, p) && Spread(n, x, h, m)
    ensures HoldsXof(n, p, x, v)
  {
    v := XofRounds(vo, LaneInit(n, c, h, x.counter, true, LenByte(x.blockLen), x.flags), m, h);
    AllXofLanes(n, vo, p, c, x, h, m, v);
  }

  lemma AllXofLanes(n: nat, vo: Ops<seq<word>>, p: Ops<word>, c: Counting, x: Xof,
                    h: seq<seq<word>>, m: seq<seq<word>>, v: seq<seq<word>>)
    requires Degree(n) && Lifted(n, vo, p) && Spread(n, x, h, m)
    requires v == FeedForward(vo, RoundsFrom(vo, LaneInit(n, c, h, x.counter, true, LenByte(x.blockLen), x.flags), m, 0), h)
    ensures HoldsXof(n, p, x, v)
  {
    hide OutputWords, RoundsFrom, FeedForward, LaneInit, Lifted, Column;
    XofLane(n, vo, p, c, x, 0, CounterOf(x.counter, true, 0), h, m, v);
    forall i | 0 <= i < n
      ensures Column(v, i) == XofWords(p, x, i)
    {
      XofLane(n, vo, p, c, x, i, CounterOf(x.counter, true, i), h, m, v);
    }
  }

  function LaterXof(x: Xof, k: nat): Xof {
    x.(counter := CounterOf(x.counter, true, k))
  }

  lemma XofSplit(f: Kernel, x: Xof, k: nat, l: nat)
    ensures XofAll(f, x, k + l) == XofAll(f, x, k) + XofAll(f, LaterXof(x, k), l)
  {
    assert forall i :: 0 <= i < l ==> XofBlock(f, LaterXof(x, k), i) == XofBlock(f, x, k + i);
  }

  /** Writing the remaining blocks at off completes the same buffer as writing all at off0. */
  ghost predicate XofCompletes(f: Kernel, x0: Xof, count0: nat, before: seq<Block>, off0: nat,
                               x: Xof, count: nat, now: seq<Block>, off: nat) {
    && off + count == off0 + count0 <= |before| == |now|
    && Patch(now, off, XofAll(f, x, count)) == Patch(before, off0, XofAll(f, x0, count0))
  }

  lemma XofCompletesRest(f: Kernel, x0: Xof, count0: nat, before: seq<Block>, off0: nat,
                         x: Xof, count: nat, now: seq<Block>, off: nat, n: nat)
    requires XofCompletes(f, x0, count0, before, off0, x, count, now, off) && n <= count
    ensures XofCompletes(f, x0, count0, before, off0, LaterXof(x, n), count - n, Patch(now, off, XofAll(f, x, n)), off + n)
  {
    XofSplit(f, x, n, count - n);
    PatchTwice(now, off, XofAll(f, x, n), XofAll(f, LaterXof(x, n), count - n));
  }

  /** The loop of xof_many that writes n blocks at a time, for as long as n are left. */
  method XofGroups(n: nat, o: Ops<word>, c: Counting, x0: Xof, count0: nat, out: array<Block>, off0: nat, ghost p: Ops<word>)
    returns (x: Xof, count: nat, off: nat)
    requires Degree(n) && Same(o, p) && off0 + count0 <= out.Length
    modifies out
    ensures XofCompletes(KernelOf(p), x0, count0, old(out[..]), off0, x, count, out[..], off) && count < n
  {
    hide XofAll, KernelOf;
    x, count, off := x0, count0, off0;
    while count >= n
      invariant XofCompletes(KernelOf(p), x0, count0, old(out[..]), off0, x, count, out[..], off)
      decreases count
    {
      XofCompletesRest(KernelOf(p), x0, count0, old(out[..]), off0, x, count, out[..], off, n);
      var blocks := XofLanes(n, o, c, x, p);
      Store(out, off, blocks);
      x, count, off := LaterXof(x, n), count - n, off + n;
    }
  }

  /** blake3_xof_many_avx512: sixteen, eight and four counters at a time, then one. */
  method XofManyAvx512(x0: Xof, count0: nat, out: array<Block>, off0: nat)
    requires off0 + count0 <= out.Length
    modifies out
    ensures out[..] == Patch(old(out[..]), off0, XofAll(KernelOf(PORTABLE), x0, count0))
  {
    SameOps(AVX512);
    RowKernelsSound();
    RowKernelSame(AVX512, PORTABLE);
    var x, count, off := XofGroups(16, AVX512, TopBit, x0, count0, out, off0, PORTABLE);
    x, count, off := XofGroups(8, AVX512, Add64, x, count, out, off, PORTABLE);
    x, count, off := XofGroups(4, AVX512, Add64, x, count, out, off, PORTABLE);
    XofRest(RowKernelOf(AVX512), x, count, out, off, KernelOf(PORTABLE));
  }

  /** One block at a time. */
  method XofRest(f: Kernel, x0: Xof, count0: nat, out: array<Block>, off0: nat, ghost g: Kernel)
    requires SameKernel(f, g) && off0 + count0 <= out.Length
    modifies out
    ensures out[..] == Patch(old(out[..]), off0, XofAll(g, x0, count0))
  {
    var x, count, off := x0, count0, off0;
    while count > 0
      invariant XofCompletes(g, x0, count0, old(out[..]), off0, x, count, out[..], off)
    {
      XofCompletesRest(g, x0, count0, old(out[..]), off0, x, count, out[..], off, 1);
      var block := XofBlock(f, x, 0);
      assert [block] == XofAll(g, x, 1);
      Store(out, off, [block]);
      x, count, off := LaterXof(x, 1), count - 1, off + 1;
    }
  }
}
