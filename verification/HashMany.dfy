/** Hashing many equally long inputs: c/blake3/blake3_portable.c, hash_one and hash_many. */
module HashMany {
  import opened Basics
  import opened Tree

  /** The flags of block i of an input of the given number of blocks. */
  function BlockFlags(i: nat, blocks: nat, flags: byte, flagsStart: byte, flagsEnd: byte): byte {
    var started := StartedFlags(i, flags, flagsStart);
    if i + 1 == blocks then started | flagsEnd else started
  }

  function StartedFlags(i: nat, flags: byte, flagsStart: byte): byte {
    if i == 0 then flags | flagsStart else flags
  }

  /** The chaining value after k of the given number of whole blocks. */
  function HashChain(f: Kernel, key: Words8, input: seq<byte>, k: nat, blocks: nat, counter: nat,
                     flags: byte, flagsStart: byte, flagsEnd: byte): Words8
    requires 64 * k <= |input|
  {
    if k == 0 then key
    else f.compressInPlace(HashChain(f, key, input, k - 1, blocks, counter, flags, flagsStart, flagsEnd),
                           input[64 * (k - 1)..64 * k], 64, counter,
                           BlockFlags(k - 1, blocks, flags, flagsStart, flagsEnd))
  }

  function HashOne(f: Kernel, key: Words8, input: seq<byte>, blocks: nat, counter: nat,
                   flags: byte, flagsStart: byte, flagsEnd: byte): Cv
    requires 64 * blocks <= |input|
  {
    f.storeCv(HashChain(f, key, input, blocks, blocks, counter, flags, flagsStart, flagsEnd))
  }

  lemma OrZero(x: byte)
    ensures x | 0 == x
  {
  }

  lemma NextSlice(input: seq<byte>, k: nat)
    requires 64 * (k + 1) <= |input|
    ensures input[64 * k..][..64] == input[64 * k..64 * (k + 1)]
    ensures input[64 * k..][64..] == input[64 * (k + 1)..]
  {
  }

  method HashOnePortable(f: Kernel, key: Words8, input0: seq<byte>, blocks0: nat, counter: nat,
                         flags: byte, flagsStart: byte, flagsEnd: byte)
    returns (out: Cv)
    requires 64 * blocks0 <= |input0|
    ensures out == HashOne(f, key, input0, blocks0, counter, flags, flagsStart, flagsEnd)
  {
    var cv, input, blocks := key, input0, blocks0;
    var blockFlags := flags | flagsStart;
    ghost var k := 0;
    while blocks > 0
      invariant 0 <= k && 0 <= blocks && k + blocks == blocks0 && 64 * k <= |input0| && input == input0[64 * k..]
      invariant cv == HashChain(f, key, input0, k, blocks0, counter, flags, flagsStart, flagsEnd)
      invariant blockFlags == StartedFlags(k, flags, flagsStart)
      decreases blocks
    {
      if blocks == 1 {
        blockFlags := blockFlags | flagsEnd;
      }
      NextSlice(input0, k);
      cv := f.compressInPlace(cv, input[..BLOCK_LEN], BLOCK_LEN, counter, blockFlags);
      input := input[BLOCK_LEN..];
      blocks := blocks - 1;
      blockFlags := flags;
      k := k + 1;
    }
    out := f.storeCv(cv);
  }

  /** The counter of input i. */
  function CounterOf(counter: nat, increment: bool, i: nat): nat {
    if increment then counter + i else counter
  }

  /** What every kernel's hash_many writes: one chaining value per input. */
  function HashAll(f: Kernel, key: Words8, inputs: seq<seq<byte>>, blocks: nat, counter: nat,
                   increment: bool, flags: byte, flagsStart: byte, flagsEnd: byte): (r: seq<Cv>)
    requires forall i :: 0 <= i < |inputs| ==> 64 * blocks <= |inputs[i]|
    ensures |r| == |inputs|
  {
    seq(|inputs|, i requires 0 <= i < |inputs| =>
      HashOne(f, key, inputs[i], blocks, CounterOf(counter, increment, i), flags, flagsStart, flagsEnd))
  }

  method HashManyPortable(f: Kernel, key: Words8, inputs0: seq<seq<byte>>, blocks: nat, counter0: nat,
                          increment: bool, flags: byte, flagsStart: byte, flagsEnd: byte,
                          out: array<Cv>, off: nat)
    requires forall i :: 0 <= i < |inputs0| ==> 64 * blocks <= |inputs0[i]|
    requires off + |inputs0| <= out.Length
    modifies out
    ensures out[off..off + |inputs0|]
            == HashAll(f, key, inputs0, blocks, counter0, increment, flags, flagsStart, flagsEnd)
    ensures forall j :: 0 <= j < off || off + |inputs0| <= j < out.Length ==> out[j] == old(out[j])
  {
    var inputs, counter := inputs0, counter0;
    ghost var all := HashAll(f, key, inputs0, blocks, counter0, increment, flags, flagsStart, flagsEnd);
    var i := 0;
    while |inputs| > 0
      invariant 0 <= i <= |inputs0| && inputs == inputs0[i..]
      invariant counter == CounterOf(counter0, increment, i)
      invariant out[off..off + i] == all[..i]
      invariant forall j :: 0 <= j < off || off + i <= j < out.Length ==> out[j] == old(out[j])
    {
      var cv := HashOnePortable(f, key, inputs[0], blocks, counter, flags, flagsStart, flagsEnd);
      assert cv == all[i];
      out[off + i] := cv;
      assert out[off..off + i + 1] == out[off..off + i] + [cv];
      if increment {
        counter := counter + 1;
      }
      inputs := inputs[1..];
      i := i + 1;
    }
  }

  // The two callers of hash_many in the tree code

  /** On a full chunk, hash_one with start and end flags is the chunk's chaining value. */
  lemma HashOneIsChunk(m: Mode, chunk: seq<byte>, counter: nat)
    requires |chunk| == CHUNK_LEN
    ensures HashOne(m.kernel, m.key, chunk, 16, counter, m.flags, CHUNK_START, CHUNK_END)
            == SubtreeCv(m, chunk, counter)
  {
    ChainIsChunkChain(m, chunk, counter, 15);
    assert chunk[64 * 15..] == chunk[64 * 15..64 * 16];
    assert chunk[64 * 15..] + Zeros(0) == chunk[64 * 15..];
    assert FullBlocks(1024) == 15;
  }

  lemma {:induction false} ChainIsChunkChain(m: Mode, chunk: seq<byte>, counter: nat, k: nat)
    requires |chunk| == CHUNK_LEN && k <= 15
    ensures HashChain(m.kernel, m.key, chunk, k, 16, counter, m.flags, CHUNK_START, CHUNK_END)
            == ChunkChain(m, chunk, counter, k)
  {
    if k > 0 {
      ChainIsChunkChain(m, chunk, counter, k - 1);
      OrZero(m.flags | StartFlag(k - 1));
    }
  }

  lemma HashOneIsParent(m: Mode, left: Cv, right: Cv)
    ensures HashOne(m.kernel, m.key, left + right, 1, 0, m.flags | PARENT, 0, 0) == ParentCv(m, left, right)
  {
    OrZero(m.flags | PARENT);
    assert (left + right)[0..64] == left + right;
    assert HashChain(m.kernel, m.key, left + right, 0, 1, 0, m.flags | PARENT, 0, 0) == m.key;
  }
}
