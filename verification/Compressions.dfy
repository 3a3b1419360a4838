/** Which compressions a message takes, where in the tree each one stands, and what that place does
  * to its inputs: the flags of c/blake3/blake3_impl.h in their numbers, and what they are for. */
module Compressions {
  import opened Basics
  import opened Tree

  /** Block i of a chunk whose last block has number last, or a parent. */
  datatype Place = Block(chunk: nat, i: nat, last: nat) | Parent

  datatype Call = Call(place: Place, input: Output)

  /** The call of block n - 1, the last one of the first n. */
  function BlockCall(m: Mode, chunk: seq<byte>, counter: nat, n: nat): Call
    requires 0 < n && 64 * n <= |chunk|
  {
    Call(Block(counter, n - 1, FullBlocks(|chunk|)), BlockInput(m, chunk, counter, n - 1))
  }

  /** The compressions of the first k blocks of a chunk. */
  function BlockCalls(m: Mode, chunk: seq<byte>, counter: nat, k: nat): (r: seq<Call>)
    requires 64 * k <= |chunk|
    ensures |r| == k
  {
    if k == 0 then []
    else BlockCalls(m, chunk, counter, k - 1) + [BlockCall(m, chunk, counter, k)]
  }

  function BlockInput(m: Mode, chunk: seq<byte>, counter: nat, i: nat): Output
    requires 64 * i + 64 <= |chunk|
  {
    Output(ChunkChain(m, chunk, counter, i), chunk[64 * i..64 * (i + 1)], 64, counter, m.flags | StartFlag(i))
  }

  /** The compressions below the last one of a subtree. */
  function Below(m: Mode, input: seq<byte>, counter: nat): seq<Call>
    decreases |input|, 0
  {
    if |input| <= CHUNK_LEN then BlockCalls(m, input, counter, FullBlocks(|input|))
    else
      var l := LeftLen(|input|);
      Calls(m, input[..l], counter) + Calls(m, input[l..], counter + l / 1024)
  }

  function LastPlace(n: nat, counter: nat): Place {
    if n <= CHUNK_LEN then Block(counter, FullBlocks(n), FullBlocks(n)) else Parent
  }

  function Calls(m: Mode, input: seq<byte>, counter: nat): seq<Call>
    decreases |input|, 1
  {
    Below(m, input, counter) + [Call(LastPlace(|input|, counter), SubtreeOutput(m, input, counter))]
  }

  function Compressed(k: Kernel, x: Output): Words8 {
    k.compressInPlace(x.inputCv, x.block, x.blockLen, x.counter, x.flags)
  }

  // The calls are all that a hash depends on

  ghost predicate AgreeAt(k: Kernel, l: Kernel, calls: seq<Call>) {
    forall c :: c in calls ==> Compressed(k, c.input) == Compressed(l, c.input)
  }

  lemma AgreeSplits(k: Kernel, l: Kernel, a: seq<Call>, b: seq<Call>)
    requires AgreeAt(k, l, a + b)
    ensures AgreeAt(k, l, a) && AgreeAt(k, l, b)
  {
    assert forall c :: c in a || c in b ==> c in a + b;
  }

  lemma AgreeOne(k: Kernel, l: Kernel, c: Call)
    requires AgreeAt(k, l, [c])
    ensures Compressed(k, c.input) == Compressed(l, c.input)
  {
    assert c in [c];
  }

  /** Two ways to hash that differ only in the compression function. */
  ghost predicate Alike(m: Mode, l: Mode) {
    m.key == l.key && m.flags == l.flags && m.kernel.storeCv == l.kernel.storeCv
  }

  lemma ChainStart(m: Mode, chunk: seq<byte>, counter: nat)
    ensures ChunkChain(m, chunk, counter, 0) == m.key
  {
  }

  lemma ChainNext(m: Mode, chunk: seq<byte>, counter: nat, n: nat)
    requires 64 * n + 64 <= |chunk|
    ensures ChunkChain(m, chunk, counter, n + 1) == Compressed(m.kernel, BlockInput(m, chunk, counter, n))
  {
  }

  lemma SameKey(m: Mode, l: Mode)
    requires Alike(m, l)
    ensures m.key == l.key
  {
  }

  lemma SameInput(m: Mode, l: Mode, chunk: seq<byte>, counter: nat, i: nat)
    requires Alike(m, l) && 64 * i + 64 <= |chunk|
    requires ChunkChain(m, chunk, counter, i) == ChunkChain(l, chunk, counter, i)
    ensures BlockInput(m, chunk, counter, i) == BlockInput(l, chunk, counter, i)
  {
  }

  lemma {:induction false} ChainDepends(m: Mode, l: Mode, chunk: seq<byte>, counter: nat, n: nat)
    requires Alike(m, l) && 64 * n <= |chunk| && AgreeAt(m.kernel, l.kernel, BlockCalls(m, chunk, counter, n))
    ensures ChunkChain(m, chunk, counter, n) == ChunkChain(l, chunk, counter, n)
    decreases n
  {
    hide AgreeAt, FullBlocks, ChunkChain, Compressed, BlockInput, Alike;
    if n == 0 {
      ChainStart(m, chunk, counter);
      ChainStart(l, chunk, counter);
      SameKey(m, l);
    } else {
      var last := BlockCall(m, chunk, counter, n);
      AgreeSplits(m.kernel, l.kernel, BlockCalls(m, chunk, counter, n - 1), [last]);
      ChainDepends(m, l, chunk, counter, n - 1);
      AgreeOne(m.kernel, l.kernel, last);
      SameInput(m, l, chunk, counter, n - 1);
      ChainNext(m, chunk, counter, n - 1);
      ChainNext(l, chunk, counter, n - 1);
    }
  }

  /** Two compression functions that agree on the calls below the root give the same root. */
  lemma {:induction false} RootDepends(m: Mode, l: Mode, input: seq<byte>, counter: nat)
    requires Alike(m, l) && AgreeAt(m.kernel, l.kernel, Below(m, input, counter))
    ensures SubtreeOutput(m, input, counter) == SubtreeOutput(l, input, counter)
    decreases |input|, 0
  {
    hide AgreeAt, ChunkChain, LeftLen, BlockCalls, FullBlocks, StartFlag;
    if |input| <= CHUNK_LEN {
      ChainDepends(m, l, input, counter, FullBlocks(|input|));
    } else {
      var n := LeftLen(|input|);
      AgreeSplits(m.kernel, l.kernel, Calls(m, input[..n], counter), Calls(m, input[n..], counter + n / 1024));
      CvDepends(m, l, input[..n], counter);
      CvDepends(m, l, input[n..], counter + n / 1024);
    }
  }

  lemma {:induction false} CvDepends(m: Mode, l: Mode, input: seq<byte>, counter: nat)
    requires Alike(m, l) && AgreeAt(m.kernel, l.kernel, Calls(m, input, counter))
    ensures SubtreeCv(m, input, counter) == SubtreeCv(l, input, counter)
    decreases |input|, 1
  {
    hide AgreeAt, LeftLen;
    var last := Call(LastPlace(|input|, counter), SubtreeOutput(m, input, counter));
    AgreeSplits(m.kernel, l.kernel, Below(m, input, counter), [last]);
    RootDepends(m, l, input, counter);
    AgreeOne(m.kernel, l.kernel, last);
  }

  // What a place says about the inputs of its call

  /** The flags of a call by the numbers of the format: 1 on the first block of a chunk, 2 on its last
    * one, 4 on a parent, and never the 8 of the root; the counter is the number of the chunk; the
    * first block and the parents start from the key. */
  predicate Lawful(m: Mode, c: Call) {
    && |c.input.block| == 64 && c.input.blockLen <= 64
    && match c.place
       case Block(chunk, i, last) =>
         && i <= last <= 15
         && c.input.flags == m.flags | (if i == 0 then 1 else 0) | (if i == last then 2 else 0)
         && c.input.counter == chunk
         && (i == 0 ==> c.input.inputCv == m.key)
         && (i < last ==> c.input.blockLen == 64)
         && c.input.block[c.input.blockLen..] == Zeros(64 - c.input.blockLen)
       case Parent => c.input == Output(m.key, c.input.block, 64, 0, m.flags | 4)
  }

  ghost predicate AllLawful(m: Mode, calls: seq<Call>) {
    forall c :: c in calls ==> Lawful(m, c)
  }

  lemma BlockLawful(m: Mode, chunk: seq<byte>, counter: nat, i: nat)
    requires |chunk| <= CHUNK_LEN && i < FullBlocks(|chunk|)
    ensures Lawful(m, Call(Block(counter, i, FullBlocks(|chunk|)), BlockInput(m, chunk, counter, i)))
  {
    hide ChunkChain, StartFlag;
    ChainStart(m, chunk, counter);
    FirstFlag(m.flags, i);
    assert chunk[64 * i..64 * (i + 1)][64..] == Zeros(0);
  }

  lemma FirstFlag(flags: byte, i: nat)
    ensures flags | StartFlag(i) == flags | (if i == 0 then 1 else 0) | 0
  {
  }

  lemma {:induction false} BlocksLawful(m: Mode, chunk: seq<byte>, counter: nat, n: nat)
    requires |chunk| <= CHUNK_LEN && n <= FullBlocks(|chunk|)
    ensures AllLawful(m, BlockCalls(m, chunk, counter, n))
    decreases n
  {
    hide Lawful, ChunkChain, FullBlocks, BlockInput;
    if n > 0 {
      BlocksLawful(m, chunk, counter, n - 1);
      BlockLawful(m, chunk, counter, n - 1);
    }
  }

  lemma LeafLawful(m: Mode, input: seq<byte>, counter: nat)
    requires |input| <= CHUNK_LEN
    ensures Lawful(m, Call(LastPlace(|input|, counter), ChunkOutput(m, input, counter)))
  {
    hide ChunkChain;
    var k := FullBlocks(|input|);
    ChainStart(m, input, counter);
    var rest := input[64 * k..];
    assert (rest + Zeros(64 - |rest|))[|rest|..] == Zeros(64 - |rest|);
  }

  lemma LastLawful(m: Mode, input: seq<byte>, counter: nat)
    ensures Lawful(m, Call(LastPlace(|input|, counter), SubtreeOutput(m, input, counter)))
  {
    if |input| <= CHUNK_LEN {
      hide Lawful, ChunkOutput;
      LeafLawful(m, input, counter);
    } else {
      hide SubtreeCv, LeftLen, ChunkOutput, ChunkChain;
    }
  }

  /** Every compression of a subtree is lawful. */
  lemma {:induction false} CallsLawful(m: Mode, input: seq<byte>, counter: nat)
    ensures AllLawful(m, Calls(m, input, counter))
    decreases |input|
  {
    hide Lawful, SubtreeOutput;
    LastLawful(m, input, counter);
    if |input| <= CHUNK_LEN {
      BlocksLawful(m, input, counter, FullBlocks(|input|));
    } else {
      var n := LeftLen(|input|);
      CallsLawful(m, input[..n], counter);
      CallsLawful(m, input[n..], counter + n / 1024);
    }
  }

  ghost predicate CountersUpTo(calls: seq<Call>, n: nat) {
    forall c :: c in calls ==> c.input.counter <= n
  }

  lemma {:induction false} BlockCounters(m: Mode, chunk: seq<byte>, counter: nat, n: nat)
    requires 64 * n <= |chunk|
    ensures CountersUpTo(BlockCalls(m, chunk, counter, n), counter)
    decreases n
  {
    hide ChunkChain, FullBlocks, StartFlag;
    if n > 0 {
      BlockCounters(m, chunk, counter, n - 1);
    }
  }

  /** No counter exceeds the number of bytes before its chunk. */
  lemma {:induction false} CallCounters(m: Mode, input: seq<byte>, counter: nat)
    ensures CountersUpTo(Calls(m, input, counter), counter + |input|)
    decreases |input|
  {
    hide BlockCalls, ChunkChain, FullBlocks, SubtreeCv;
    if |input| <= CHUNK_LEN {
      BlockCounters(m, input, counter, FullBlocks(|input|));
    } else {
      var n := LeftLen(|input|);
      CallCounters(m, input[..n], counter);
      CallCounters(m, input[n..], counter + n / 1024);
    }
  }

  // Every byte is compressed once, in order

  function BytesOf(c: Call): seq<byte> {
    if c.place.Block? && c.input.blockLen <= |c.input.block| then c.input.block[..c.input.blockLen] else []
  }

  function BytesRead(calls: seq<Call>): seq<byte> {
    if calls == [] then [] else BytesOf(calls[0]) + BytesRead(calls[1..])
  }

  lemma {:induction false} BytesJoin(a: seq<Call>, b: seq<Call>)
    ensures BytesRead(a + b) == BytesRead(a) + BytesRead(b)
    decreases |a|
  {
    if a == [] {
      assert a + b == b;
    } else {
      assert (a + b)[1..] == a[1..] + b;
      BytesJoin(a[1..], b);
    }
  }

  lemma BytesReadOne(c: Call)
    ensures BytesRead([c]) == BytesOf(c)
  {
    assert [c][1..] == [];
  }

  lemma {:induction false} BlocksRead(m: Mode, chunk: seq<byte>, counter: nat, n: nat)
    requires 64 * n <= |chunk|
    ensures BytesRead(BlockCalls(m, chunk, counter, n)) == chunk[..64 * n]
    decreases n
  {
    if n > 0 {
      BlocksRead(m, chunk, counter, n - 1);
      var last := BlockCall(m, chunk, counter, n);
      BytesJoin(BlockCalls(m, chunk, counter, n - 1), [last]);
      BytesReadOne(last);
      assert chunk[..64 * n] == chunk[..64 * (n - 1)] + chunk[64 * (n - 1)..64 * n];
    }
  }

  /** The blocks of a message's chunks, without their padding, are the message. */
  lemma {:induction false} BytesOnce(m: Mode, input: seq<byte>, counter: nat)
    ensures BytesRead(Calls(m, input, counter)) == input
    decreases |input|
  {
    hide BytesRead, SubtreeCv, ChunkChain, LeftLen, BlockCalls;
    var below, last := Below(m, input, counter), Call(LastPlace(|input|, counter), SubtreeOutput(m, input, counter));
    BytesJoin(below, [last]);
    BytesReadOne(last);
    if |input| <= CHUNK_LEN {
      var n := FullBlocks(|input|);
      BlocksRead(m, input, counter, n);
      assert BytesOf(last) == input[64 * n..];
    } else {
      var n := LeftLen(|input|);
      BytesOnce(m, input[..n], counter);
      BytesOnce(m, input[n..], counter + n / 1024);
      BytesJoin(Calls(m, input[..n], counter), Calls(m, input[n..], counter + n / 1024));
      assert BytesOf(last) == [];
    }
  }
}
