/** The run-time choice of kernels: c/blake3/blake3_dispatch.c.  Whatever the host supports, the
  * hash is the one that the portable code computes. */
module Dispatch {
  import opened Basics
  import opened Tree
  import opened Words
  import opened Compress
  import opened HashMany
  import opened Subtrees
  import opened WideHash
  import opened Cascades
  import opened Hashers
  import opened Histories

  /** What feature detection may find, in any combination. */
  datatype Features = Features(sse2: bool, sse41: bool, avx2: bool, avx512f: bool, avx512vl: bool)

  /** blake3_compress_in_place and blake3_compress_xof. */
  function CompressKernel(x: Features): Kernel {
    if x.avx512vl then RowKernelOf(AVX512)
    else if x.sse41 then RowKernelOf(SSE41)
    else if x.sse2 then RowKernelOf(SSE2)
    else KernelOf(PORTABLE)
  }

  function SimdDegree(x: Features): (d: nat)
    ensures ValidDegree(d)
  {
    if x.avx512f && x.avx512vl then 16 else if x.avx2 then 8 else if x.sse41 || x.sse2 then 4 else 1
  }

  lemma CompressKernelSame(x: Features)
    ensures SameKernel(CompressKernel(x), KernelOf(PORTABLE))
  {
    RowKernelsSound();
    RowKernelSame(AVX512, PORTABLE);
    RowKernelSame(SSE41, PORTABLE);
    RowKernelSame(SSE2, PORTABLE);
  }

  /** blake3_hash_many writes what the portable loop writes. */
  method DispatchHashMany(x: Features, j: Job, out: array<Cv>, off: nat)
    requires j.Long(j.blocks) && off + |j.inputs| <= out.Length
    modifies out
    ensures out[..] == Patch(old(out[..]), off, HashJob(KernelOf(PORTABLE), j))
  {
    if x.avx512f && x.avx512vl {
      HashManyAvx512(j, out, off);
    } else if x.avx2 {
      HashManyAvx2(j, out, off);
    } else if x.sse41 {
      HashManySse41(j, out, off);
    } else if x.sse2 {
      HashManySse2(j, out, off);
    } else {
      HashManyPlain(KernelOf(PORTABLE), j, out, off);
    }
  }

  /** blake3_hash_many_portable, with its result as a patch of the whole buffer. */
  method HashManyPlain(f: Kernel, j: Job, out: array<Cv>, off: nat)
    requires j.Long(j.blocks) && off + |j.inputs| <= out.Length
    modifies out
    ensures out[..] == Patch(old(out[..]), off, HashJob(f, j))
  {
    HashManyPortable(f, j.key, j.inputs, j.blocks, j.counter, j.increment, j.flags, j.flagsStart, j.flagsEnd, out, off);
    ghost var all, n := HashJob(f, j), |j.inputs|;
    assert forall k :: off <= k < off + n ==> out[k] == out[off..off + n][k - off];
  }

  /** blake3_xof_many writes consecutive output blocks of the portable compression. */
  method DispatchXofMany(x: Features, xof: Xof, count: nat, out: array<Block>, off: nat)
    requires off + count <= out.Length
    modifies out
    ensures out[..] == Patch(old(out[..]), off, XofAll(KernelOf(PORTABLE), xof, count))
  {
    if count == 0 {
      return;
    }
    if x.avx512vl {
      XofManyAvx512(xof, count, out, off);
    } else {
      CompressKernelSame(x);
      XofRest(CompressKernel(x), xof, count, out, off, KernelOf(PORTABLE));
    }
  }

  /** What output_root_bytes passes to blake3_xof_many. */
  function RootXof(o: Output, counter: nat): Xof
    requires |o.block| == 64
  {
    Xof(o.inputCv, o.block, o.blockLen, counter, o.flags | ROOT)
  }

  lemma XofBlockIsRootBlock(f: Kernel, m: Mode, o: Output, counter: nat, i: nat)
    requires SameKernel(m.kernel, f) && |o.block| == 64
    ensures XofBlock(f, RootXof(o, counter), i) == RootBlock(m, o, counter + i)
  {
  }

  /** The blocks that output_root_bytes asks for are consecutive blocks of the root's stream, from
    * any counter on, whichever kernel is selected. */
  lemma XofIsRootStream(x: Features, key: Words8, flags: byte, o: Output, counter: nat, count: nat)
    requires |o.block| == 64
    ensures XofAll(KernelOf(PORTABLE), RootXof(o, counter), count)
            == seq(count, i requires 0 <= i => RootBlock(Mode(CompressKernel(x), key, flags), o, counter + i))
  {
    hide SameKernel, CompressKernel, KernelOf, RootBlock, XofBlock, RootXof;
    CompressKernelSame(x);
    forall i: nat | i < count
      ensures XofAll(KernelOf(PORTABLE), RootXof(o, counter), count)[i]
              == RootBlock(Mode(CompressKernel(x), key, flags), o, counter + i)
    {
      XofBlockIsRootBlock(KernelOf(PORTABLE), Mode(CompressKernel(x), key, flags), o, counter, i);
    }
  }

  // What the tree code may rely on

  lemma HostHash(x: Features, j: Job, i: nat)
    requires j.Long(j.blocks) && i < |j.inputs|
    ensures HashJob(CompressKernel(x), j)[i] == HashJob(KernelOf(PORTABLE), j)[i]
  {
    CompressKernelSame(x);
    SameChain(CompressKernel(x), KernelOf(PORTABLE), j.key, j.inputs[i], j.blocks, j.blocks,
              CounterOf(j.counter, j.increment, i), j.flags, j.flagsStart, j.flagsEnd);
  }

  /** The chaining values of the portable loop are those of the selected single-block kernel. */
  lemma HashManyHost(x: Features, j: Job)
    requires j.Long(j.blocks)
    ensures HashJob(CompressKernel(x), j) == HashJob(KernelOf(PORTABLE), j)
  {
    hide HashJob, CompressKernel, KernelOf;
    forall i | 0 <= i < |j.inputs|
      ensures HashJob(CompressKernel(x), j)[i] == HashJob(KernelOf(PORTABLE), j)[i]
    {
      HostHash(x, j, i);
    }
  }

  /** blake3_hash_many as compress_chunks_parallel and compress_parents_parallel use it: the
    * contract of HashManyPortable over the host's single-block kernel. */
  method HostHashMany(x: Features, j: Job, out: array<Cv>, off: nat)
    requires j.Long(j.blocks) && off + |j.inputs| <= out.Length
    modifies out
    ensures out[off..off + |j.inputs|] == HashJob(CompressKernel(x), j)
    ensures forall k :: 0 <= k < off || off + |j.inputs| <= k < out.Length ==> out[k] == old(out[k])
  {
    hide HashJob, CompressKernel, KernelOf;
    DispatchHashMany(x, j, out, off);
    HashManyHost(x, j);
    assert forall k :: 0 <= k < out.Length ==> out[k] == out[..][k] && old(out[k]) == old(out[..])[k];
  }

  // The tree over interchangeable kernels

  ghost predicate SameMode(m: Mode, m': Mode) {
    SameKernel(m.kernel, m'.kernel) && m.key == m'.key && m.flags == m'.flags
  }

  lemma SameBlock(m: Mode, m': Mode, cv: Words8, block: seq<byte>, counter: nat, flags: byte)
    requires SameMode(m, m')
    ensures m.kernel.compressInPlace(cv, block, 64, counter, flags) == m'.kernel.compressInPlace(cv, block, 64, counter, flags)
  {
  }

  lemma {:induction false} SameChunkChain(m: Mode, m': Mode, chunk: seq<byte>, counter: nat, k: nat)
    requires SameMode(m, m') && 64 * k <= |chunk|
    ensures ChunkChain(m, chunk, counter, k) == ChunkChain(m', chunk, counter, k)
  {
    hide SameKernel;
    if k > 0 {
      SameChunkChain(m, m', chunk, counter, k - 1);
      SameBlock(m, m', ChunkChain(m, chunk, counter, k - 1), chunk[64 * (k - 1)..64 * k], counter,
                m.flags | StartFlag(k - 1));
    }
  }

  lemma SameChunkOutput(m: Mode, m': Mode, chunk: seq<byte>, counter: nat)
    requires SameMode(m, m')
    ensures ChunkOutput(m, chunk, counter) == ChunkOutput(m', chunk, counter)
  {
    SameChunkChain(m, m', chunk, counter, FullBlocks(|chunk|));
  }

  lemma SameChainingValue(m: Mode, m': Mode, o: Output)
    requires SameMode(m, m')
    ensures ChainingValue(m, o) == ChainingValue(m', o)
  {
  }

  /** The output of a subtree that is not a single chunk. */
  lemma SubtreeUnfolds(m: Mode, input: seq<byte>, counter: nat, l: nat)
    requires |input| > CHUNK_LEN && l == LeftLen(|input|)
    ensures SubtreeOutput(m, input, counter)
            == ParentOutput(m, ChainingValue(m, SubtreeOutput(m, input[..l], counter)),
                            ChainingValue(m, SubtreeOutput(m, input[l..], counter + l / 1024)))
  {
  }

  /** Single chunks and single compressions agree. */
  ghost predicate SameLeaves(m: Mode, m': Mode) {
    && m.key == m'.key && m.flags == m'.flags
    && (forall chunk: seq<byte>, counter: nat :: ChunkOutput(m, chunk, counter) == ChunkOutput(m', chunk, counter))
    && (forall o: Output :: ChainingValue(m, o) == ChainingValue(m', o))
  }

  lemma SameModeLeaves(m: Mode, m': Mode)
    requires SameMode(m, m')
    ensures SameLeaves(m, m')
  {
    forall chunk: seq<byte>, counter: nat
      ensures ChunkOutput(m, chunk, counter) == ChunkOutput(m', chunk, counter)
    {
      SameChunkOutput(m, m', chunk, counter);
    }
    forall o: Output
      ensures ChainingValue(m, o) == ChainingValue(m', o)
    {
      SameChainingValue(m, m', o);
    }
  }

  ghost predicate SameTree(m: Mode, m': Mode, input: seq<byte>, counter: nat) {
    SubtreeOutput(m, input, counter) == SubtreeOutput(m', input, counter)
  }

  lemma SameTreeStep(m: Mode, m': Mode, input: seq<byte>, counter: nat, l: nat)
    requires SameLeaves(m, m') && |input| > CHUNK_LEN && l == LeftLen(|input|)
    requires SameTree(m, m', input[..l], counter) && SameTree(m, m', input[l..], counter + l / 1024)
    ensures SameTree(m, m', input, counter)
  {
    SubtreeUnfolds(m, input, counter, l);
    SubtreeUnfolds(m', input, counter, l);
  }

  lemma {:induction false} SameSubtree(m: Mode, m': Mode, input: seq<byte>, counter: nat)
    requires SameLeaves(m, m')
    ensures SameTree(m, m', input, counter)
    decreases |input|
  {
    if |input| > CHUNK_LEN {
      var l := LeftLen(|input|);
      SameSubtree(m, m', input[..l], counter);
      SameSubtree(m, m', input[l..], counter + l / 1024);
      SameTreeStep(m, m', input, counter, l);
    }
  }

  lemma SameRootByte(m: Mode, m': Mode, o: Output, k: nat)
    requires SameMode(m, m')
    ensures RootByte(m, o, k) == RootByte(m', o, k)
  {
  }

  lemma SameStream(m: Mode, m': Mode, message: seq<byte>, seek: nat, n: nat)
    requires SameMode(m, m')
    ensures Hash(m, message, seek, n) == Hash(m', message, seek, n)
  {
    SameModeLeaves(m, m');
    SameSubtree(m, m', message, 0);
    var o := SubtreeOutput(m, message, 0);
    forall k | 0 <= k < n
      ensures Hash(m, message, seek, n)[k] == Hash(m', message, seek, n)[k]
    {
      SameRootByte(m, m', o, seek + k);
    }
  }

  /** The hash does not depend on the host. */
  lemma SameHashEverywhere(x: Features, key: Words8, flags: byte, message: seq<byte>, seek: nat, n: nat)
    ensures Hash(Mode(CompressKernel(x), key, flags), message, seek, n)
            == Hash(Mode(KernelOf(PORTABLE), key, flags), message, seek, n)
  {
    CompressKernelSame(x);
    SameStream(Mode(CompressKernel(x), key, flags), Mode(KernelOf(PORTABLE), key, flags), message, seek, n);
  }

  lemma {:induction false} ReplayHost(x: Features, key: Words8, flags: byte, message: seq<byte>, ops: seq<Op>)
    ensures Replay(Mode(CompressKernel(x), key, flags), message, ops)
            == Replay(Mode(KernelOf(PORTABLE), key, flags), message, ops)
    decreases |ops|
  {
    hide CompressKernel, KernelOf, Hash;
    if ops != [] {
      if ops[0].FinalizeSeek? {
        SameHashEverywhere(x, key, flags, message, ops[0].seek, ops[0].n);
      }
      ReplayHost(x, key, flags, After(message, ops[0]), ops[1..]);
    }
  }

  /** Every history of a hasher that runs on the host's kernels, at the host's degree, returns what
    * the portable compression prescribes. */
  method RunOnHost(x: Features, key: Words8, flags: byte, ops: seq<Op>) returns (outs: seq<seq<byte>>)
    requires Fits([], ops)
    ensures outs == Replay(Mode(KernelOf(PORTABLE), key, flags), [], ops)
  {
    var h := new Hasher(Mode(CompressKernel(x), key, flags), SimdDegree(x));
    outs := Run(h, ops);
    ReplayHost(x, key, flags, [], ops);
  }
}
