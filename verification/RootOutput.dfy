/** Extendable output from any byte position: c/blake3/blake3.c, output_root_bytes, and
  * c/blake3/blake3_dispatch.c, blake3_xof_many. */
module RootOutput {
  import opened Basics
  import opened Tree

  /** Bytes lo to hi of out hold the output stream shifted by base. */
  ghost predicate Holds(m: Mode, o: Output, out: seq<byte>, lo: nat, hi: nat, base: int)
    requires hi <= |out| && 0 <= base + lo
  {
    forall j :: lo <= j < hi ==> out[j] == RootByte(m, o, base + j)
  }

  /** One more block in the right place extends the stretch. */
  lemma HoldsMore(m: Mode, o: Output, before: seq<byte>, after: seq<byte>, lo: nat, mid: nat, hi: nat, base: int,
                  counter: nat, from: nat)
    requires lo <= mid <= hi <= |before| == |after| && 0 <= base + lo
    requires Holds(m, o, before, lo, mid, base)
    requires base + mid == 64 * counter + from && from + hi - mid <= 64
    requires forall j :: 0 <= j < |after| ==>
      after[j] == if mid <= j < hi then RootBlock(m, o, counter)[from + j - mid] else before[j]
    ensures Holds(m, o, after, lo, hi, base)
  {
    forall j | mid <= j < hi
      ensures after[j] == RootByte(m, o, base + j)
    {
      assert base + j == 64 * counter + (from + j - mid);
    }
  }

  /** One output block. */
  method CompressXof(m: Mode, o: Output, counter: nat) returns (block: Block)
    ensures block == RootBlock(m, o, counter)
  {
    block := m.kernel.compressXof(o.inputCv, o.block, o.blockLen, counter, o.flags | ROOT);
  }

  /** Copy n bytes of a block into the output. */
  method CopyOut(block: seq<byte>, from: nat, n: nat, out: array<byte>, pos: nat)
    requires from + n <= |block| && pos + n <= out.Length
    modifies out
    ensures forall k :: 0 <= k < out.Length ==>
      out[k] == if pos <= k < pos + n then block[from + k - pos] else old(out[k])
  {
    forall k | 0 <= k < n {
      out[pos + k] := block[from + k];
    }
  }

  /** Consecutive output blocks, one compression each. */
  method XofMany(m: Mode, o: Output, counter: nat, out: array<byte>, pos: nat, outBlocks: nat)
    requires pos + 64 * outBlocks <= out.Length
    modifies out
    ensures Holds(m, o, out[..], pos, pos + 64 * outBlocks, 64 * counter - pos)
    ensures forall k :: 0 <= k < pos || pos + 64 * outBlocks <= k < out.Length ==> out[k] == old(out[k])
  {
    for i := 0 to outBlocks
      invariant Holds(m, o, out[..], pos, pos + 64 * i, 64 * counter - pos)
      invariant forall k :: 0 <= k < pos || pos + 64 * i <= k < out.Length ==> out[k] == old(out[k])
    {
      ghost var before := out[..];
      var block := CompressXof(m, o, counter + i);
      CopyOut(block, 0, 64, out, pos + 64 * i);
      HoldsMore(m, o, before, out[..], pos, pos + 64 * i, pos + 64 * (i + 1), 64 * counter - pos, counter + i, 0);
    }
  }

  lemma HoldsJoin(m: Mode, o: Output, before: seq<byte>, after: seq<byte>, mid: nat, hi: nat, base: nat)
    requires mid <= hi <= |before| == |after|
    requires Holds(m, o, before, 0, mid, base) && Holds(m, o, after, mid, hi, base)
    requires forall j :: 0 <= j < mid ==> after[j] == before[j]
    ensures Holds(m, o, after, 0, hi, base)
  {
  }

  lemma HoldsNone(m: Mode, o: Output, out: seq<byte>, base: nat)
    ensures Holds(m, o, out, 0, 0, base)
  {
  }

  lemma HoldsAll(m: Mode, o: Output, out: seq<byte>, seek: nat)
    requires Holds(m, o, out, 0, |out|, seek)
    ensures out == RootBytes(m, o, seek, |out|)
  {
  }

  /** Fill out with the root's output stream from byte seek on: a partial first block, whole
    * blocks, and a partial last block. */
  method OutputRootBytes(m: Mode, o: Output, seek: nat, out: array<byte>)
    modifies out
    ensures out[..] == RootBytes(m, o, seek, out.Length)
  {
    if out.Length == 0 {
      return;
    }
    var counter := seek / 64;
    var offsetWithinBlock := seek % 64;
    var pos := 0;
    ghost var before := out[..];
    HoldsNone(m, o, before, seek);
    hide Holds, RootBlock, RootByte, RootBytes;
    if offsetWithinBlock != 0 {
      var wide := CompressXof(m, o, counter);
      var available := 64 - offsetWithinBlock;
      var bytes := if out.Length > available then available else out.Length;
      CopyOut(wide, offsetWithinBlock, bytes, out, 0);
      HoldsMore(m, o, before, out[..], 0, 0, bytes, seek, counter, offsetWithinBlock);
      pos := bytes;
      counter := counter + 1;
    }
    assert pos == out.Length || seek + pos == 64 * counter;
    var blocks := (out.Length - pos) / 64;
    before := out[..];
    if blocks != 0 {
      XofMany(m, o, counter, out, pos, blocks);
      HoldsJoin(m, o, before, out[..], pos, pos + 64 * blocks, seek);
    }
    counter := counter + blocks;
    pos := pos + 64 * blocks;
    before := out[..];
    if pos < out.Length {
      var wide := CompressXof(m, o, counter);
      CopyOut(wide, 0, out.Length - pos, out, pos);
      HoldsMore(m, o, before, out[..], 0, pos, out.Length, seek, counter, 0);
    }
    HoldsAll(m, o, out[..], seek);
  }
}
