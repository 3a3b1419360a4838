/** The incremental chunk hasher of c/blake3/blake3.c: a 64-byte buffer that is compressed only
  * once a further byte arrives, so that the last block is still available for CHUNK_END. */
module ChunkStates {
  import opened Basics
  import opened Tree

  /** Bytes appended after the first k blocks do not change their chaining value. */
  lemma {:induction false} ChunkChainPrefix(m: Mode, chunk: seq<byte>, more: seq<byte>, counter: nat, k: nat)
    requires 64 * k <= |chunk|
    ensures ChunkChain(m, chunk + more, counter, k) == ChunkChain(m, chunk, counter, k)
  {
    if k > 0 {
      ChunkChainPrefix(m, chunk, more, counter, k - 1);
      assert (chunk + more)[64 * (k - 1)..64 * k] == chunk[64 * (k - 1)..64 * k];
    }
  }

  class ChunkState {
    const mode: Mode
    var cv: Words8
    var chunkCounter: nat
    const buf: array<byte>
    var bufLen: nat
    var blocksCompressed: nat
    /** All bytes of the current chunk so far. */
    ghost var data: seq<byte>

    /** The state after all of data has been taken in and its first blocksCompressed blocks
      * compressed. */
    ghost predicate Consistent()
      reads this, buf
    {
      && buf.Length == 64
      && bufLen <= 64
      && |data| <= CHUNK_LEN
      && 64 * blocksCompressed + bufLen == |data|
      && cv == ChunkChain(mode, data, chunkCounter, blocksCompressed)
      && buf[..bufLen] == data[64 * blocksCompressed..]
      && (forall i :: bufLen <= i < 64 ==> buf[i] == 0)
    }

    /** Between calls the buffer is empty only when the whole chunk is. */
    ghost predicate Valid()
      reads this, buf
    {
      Consistent() && (bufLen == 0 ==> data == [])
    }

    constructor (mode: Mode, counter: nat)
      ensures Valid() && fresh(buf)
      ensures this.mode == mode && data == [] && chunkCounter == counter
    {
      this.mode := mode;
      cv := mode.key;
      chunkCounter := counter;
      buf := new byte[64](_ => 0);
      bufLen, blocksCompressed := 0, 0;
      data := [];
    }

    method Reset(counter: nat)
      requires buf.Length == 64
      modifies this, buf
      ensures Valid() && data == [] && chunkCounter == counter
    {
      cv := mode.key;
      chunkCounter := counter;
      blocksCompressed := 0;
      ClearBuf();
      bufLen := 0;
      data := [];
    }

    /** Move an empty chunk state on by n chunks that were hashed elsewhere. */
    method Advance(n: nat)
      requires Valid() && data == []
      modifies this`chunkCounter
      ensures Valid() && chunkCounter == old(chunkCounter) + n
    {
      chunkCounter := chunkCounter + n;
    }

    method ClearBuf()
      modifies buf
      ensures forall i :: 0 <= i < buf.Length ==> buf[i] == 0
    {
      forall i | 0 <= i < buf.Length {
        buf[i] := 0;
      }
    }

    method Len() returns (n: nat)
      requires Consistent()
      ensures n == |data|
    {
      n := BLOCK_LEN * blocksCompressed + bufLen;
    }

    /** Copy as much input as fits into the buffer. */
    method FillBuf(input: seq<byte>) returns (take: nat)
      requires Consistent() && |data| + |input| <= CHUNK_LEN
      modifies this`bufLen, this`data, buf
      ensures take <= |input| && (take == |input| || bufLen == 64)
      ensures bufLen == old(bufLen) + take
      ensures Consistent() && data == old(data) + input[..take]
    {
      hide ChunkChain;
      take := BLOCK_LEN - bufLen;
      if take > |input| {
        take := |input|;
      }
      forall i | 0 <= i < take {
        buf[bufLen + i] := input[i];
      }
      ChunkChainPrefix(mode, data, input[..take], chunkCounter, blocksCompressed);
      bufLen := bufLen + take;
      data := data + input[..take];
      assert buf[..bufLen] == old(buf[..bufLen]) + input[..take];
    }

    function MaybeStartFlag(): byte
      reads this
    {
      if blocksCompressed == 0 then CHUNK_START else 0
    }

    /** Compress a full buffer and clear it. */
    method FlushBuf()
      requires Consistent() && bufLen == 64 && |data| < CHUNK_LEN
      modifies this`cv, this`blocksCompressed, this`bufLen, buf
      ensures Consistent() && bufLen == 0
    {
      assert data[64 * blocksCompressed..64 * blocksCompressed + 64] == buf[..];
      cv := mode.kernel.compressInPlace(cv, buf[..], BLOCK_LEN, chunkCounter, mode.flags | MaybeStartFlag());
      blocksCompressed := blocksCompressed + 1;
      bufLen := 0;
      ClearBuf();
    }

    /** Compress one block straight from the input. */
    method CompressBlock(block: seq<byte>)
      requires Consistent() && bufLen == 0 && |block| == 64 && |data| + 64 <= CHUNK_LEN
      modifies this`cv, this`blocksCompressed, this`data
      ensures Consistent() && data == old(data) + block
    {
      ChunkChainPrefix(mode, data, block, chunkCounter, blocksCompressed);
      cv := mode.kernel.compressInPlace(cv, block, BLOCK_LEN, chunkCounter, mode.flags | MaybeStartFlag());
      data := data + block;
      assert data[64 * blocksCompressed..64 * blocksCompressed + 64] == block;
      blocksCompressed := blocksCompressed + 1;
    }

    /** Fill a started buffer and, when more input follows, compress it. */
    method TopUp(input: seq<byte>) returns (rest: seq<byte>)
      requires Consistent() && bufLen > 0 && |data| + |input| <= CHUNK_LEN
      modifies this`cv, this`blocksCompressed, this`bufLen, this`data, buf
      ensures Consistent() && |rest| <= |input| && data + rest == old(data) + input
      ensures if |rest| > 0 then bufLen == 0 else bufLen > 0
    {
      var take := FillBuf(input);
      rest := input[take..];
      if |rest| > 0 {
        FlushBuf();
      }
    }

    method Update(input0: seq<byte>)
      requires Valid() && |data| + |input0| <= CHUNK_LEN
      modifies this, buf
      ensures Valid() && data == old(data) + input0
      ensures chunkCounter == old(chunkCounter)
    {
      var input := input0;
      if bufLen > 0 {
        input := TopUp(input);
      }
      while |input| > BLOCK_LEN
        invariant Consistent() && chunkCounter == old(chunkCounter)
        invariant data + input == old(data) + input0
        invariant |input| > 0 ==> bufLen == 0
        invariant |input| == 0 ==> Valid()
      {
        CompressBlock(input[..BLOCK_LEN]);
        input := input[BLOCK_LEN..];
      }
      var _ := FillBuf(input);
    }

    method GetOutput() returns (o: Output)
      requires Valid()
      ensures o == ChunkOutput(mode, data, chunkCounter)
    {
      o := Output(cv, buf[..], bufLen, chunkCounter, mode.flags | MaybeStartFlag() | CHUNK_END);
      assert buf[..] == data[64 * blocksCompressed..] + Zeros(64 - bufLen);
      assert blocksCompressed == FullBlocks(|data|);
    }
  }
}
