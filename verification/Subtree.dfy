/** Hashing a whole subtree at once: c/blake3/blake3.c, compress_chunks_parallel to
  * compress_subtree_to_parent_node.  Buffers of chaining values are arrays with one element per
  * 32-byte slot, written in place at an offset. */
module Subtrees {
  import opened Basics
  import opened Bits
  import opened Tree
  import opened ChunkStates
  import opened HashMany

  const MAX_SIMD_DEGREE: nat := 16

  function Max(a: nat, b: nat): nat {
    if a >= b then a else b
  }

  function Min(a: nat, b: nat): nat {
    if a <= b then a else b
  }

  // Left-full trees over a layer of chaining values

  /** The root of the left-full binary tree over a layer of nodes, not yet compressed. */
  function FoldOutput(m: Mode, cvs: seq<Cv>): Output
    requires |cvs| >= 2
    decreases |cvs|, 0
  {
    var l := LeftCount(|cvs|);
    ParentOutput(m, FoldCv(m, cvs[..l]), FoldCv(m, cvs[l..]))
  }

  function FoldCv(m: Mode, cvs: seq<Cv>): Cv
    requires |cvs| >= 1
    decreases |cvs|, 1
  {
    if |cvs| == 1 then cvs[0] else ChainingValue(m, FoldOutput(m, cvs))
  }

  /** One layer up: neighbours paired into parents, an odd last node kept. */
  function PairUp(m: Mode, cvs: seq<Cv>): (r: seq<Cv>)
    ensures |r| == (|cvs| + 1) / 2
  {
    seq((|cvs| + 1) / 2, i requires 0 <= i < (|cvs| + 1) / 2 =>
      if 2 * i + 1 < |cvs| then ParentCv(m, cvs[2 * i], cvs[2 * i + 1]) else cvs[2 * i])
  }

  lemma FoldSplit(m: Mode, left: seq<Cv>, right: seq<Cv>)
    requires IsPow2(|left|) && 1 <= |right| <= |left|
    ensures FoldOutput(m, left + right) == ParentOutput(m, FoldCv(m, left), FoldCv(m, right))
  {
    LeftCountUnique(|left + right|, |left|);
    assert (left + right)[..|left|] == left && (left + right)[|left|..] == right;
  }

  lemma PairUpSplit(m: Mode, left: seq<Cv>, right: seq<Cv>)
    requires |left| % 2 == 0
    ensures PairUp(m, left + right) == PairUp(m, left) + PairUp(m, right)
  {
    var all, h := left + right, |left| / 2;
    forall i | 0 <= i < (|right| + 1) / 2
      ensures PairUp(m, all)[h + i] == PairUp(m, right)[i]
    {
      assert all[2 * (h + i)] == right[2 * i];
      assert 2 * i + 1 < |right| ==> all[2 * (h + i) + 1] == right[2 * i + 1];
    }
  }

  lemma FoldPair(m: Mode, x: Cv, y: Cv)
    ensures FoldOutput(m, [x, y]) == ParentOutput(m, x, y)
    ensures FoldCv(m, [x, y]) == ParentCv(m, x, y)
  {
    FoldSplit(m, [x], [y]);
    assert [x, y] == [x] + [y];
  }

  /** Two layers whose halves fold alike fold alike. */
  lemma FoldHalves(m: Mode, left: seq<Cv>, right: seq<Cv>, left': seq<Cv>, right': seq<Cv>)
    requires IsPow2(|left|) && 1 <= |right| <= |left|
    requires IsPow2(|left'|) && 1 <= |right'| <= |left'|
    requires FoldCv(m, left) == FoldCv(m, left') && FoldCv(m, right) == FoldCv(m, right')
    ensures FoldOutput(m, left + right) == FoldOutput(m, left' + right')
  {
    FoldSplit(m, left, right);
    FoldSplit(m, left', right');
  }

  lemma PairUpSmall(m: Mode, cvs: seq<Cv>)
    requires 1 <= |cvs| <= 2
    ensures FoldCv(m, PairUp(m, cvs)) == FoldCv(m, cvs)
  {
    if |cvs| == 1 {
      assert PairUp(m, cvs) == cvs;
    } else {
      FoldPair(m, cvs[0], cvs[1]);
      assert cvs == [cvs[0], cvs[1]];
      assert PairUp(m, cvs) == [ParentCv(m, cvs[0], cvs[1])];
    }
  }

  /** Where a layer of more than two nodes splits. */
  lemma LayerSplit(cvs: seq<Cv>) returns (left: seq<Cv>, right: seq<Cv>)
    requires |cvs| >= 3
    ensures cvs == left + right && IsPow2(|left|) && 1 <= |right| <= |left|
    ensures |left| % 2 == 0 && IsPow2(|left| / 2) && |left| < |cvs|
  {
    var l := LeftCount(|cvs|);
    LeftCountPow2(|cvs|);
    left, right := cvs[..l], cvs[l..];
  }

  lemma PairUpStep(m: Mode, left: seq<Cv>, right: seq<Cv>, a: seq<Cv>, b: seq<Cv>)
    requires IsPow2(|left|) && |left| % 2 == 0 && 1 <= |right| <= |left|
    requires IsPow2(|a|) && 1 <= |b| <= |a|
    requires a == PairUp(m, left) && b == PairUp(m, right)
    requires FoldCv(m, a) == FoldCv(m, left) && FoldCv(m, b) == FoldCv(m, right)
    ensures FoldOutput(m, PairUp(m, left + right)) == FoldOutput(m, left + right)
  {
    PairUpSplit(m, left, right);
    FoldHalves(m, left, right, a, b);
  }

  /** Pairing a layer keeps the tree above it. */
  lemma {:induction false} PairUpKeepsTree(m: Mode, cvs: seq<Cv>)
    requires |cvs| >= 1
    ensures FoldCv(m, PairUp(m, cvs)) == FoldCv(m, cvs)
    ensures |cvs| >= 3 ==> FoldOutput(m, PairUp(m, cvs)) == FoldOutput(m, cvs)
    decreases |cvs|
  {
    if |cvs| <= 2 {
      PairUpSmall(m, cvs);
    } else {
      var left, right := LayerSplit(cvs);
      PairUpKeepsTree(m, left);
      PairUpKeepsTree(m, right);
      PairUpStep(m, left, right, PairUp(m, left), PairUp(m, right));
    }
  }

  // The chunk layer

  function ChunkAt(input: seq<byte>, i: nat): (r: seq<byte>)
    requires i < ChunkCount(|input|)
    ensures 1 <= |r| <= 1024
  {
    input[1024 * i..Min(1024 * (i + 1), |input|)]
  }

  /** The chaining values of the input's chunks. */
  function ChunkCvs(m: Mode, input: seq<byte>, counter: nat): (r: seq<Cv>)
    ensures |r| == ChunkCount(|input|)
  {
    seq(ChunkCount(|input|), i requires 0 <= i < ChunkCount(|input|) =>
      SubtreeCv(m, ChunkAt(input, i), counter + i))
  }

  lemma ChunkCvsSplit(m: Mode, input: seq<byte>, counter: nat, l: nat)
    requires 1024 * l <= |input|
    ensures ChunkCvs(m, input, counter)
            == ChunkCvs(m, input[..1024 * l], counter) + ChunkCvs(m, input[1024 * l..], counter + l)
  {
    var left, right := input[..1024 * l], input[1024 * l..];
    assert ChunkCount(|left|) == l;
    forall i | 0 <= i < l
      ensures ChunkAt(left, i) == ChunkAt(input, i)
    {
    }
    forall i | 0 <= i < ChunkCount(|right|)
      ensures ChunkAt(right, i) == ChunkAt(input, l + i)
    {
    }
  }

  lemma ChunkLayerStep(m: Mode, left: seq<byte>, right: seq<byte>, counter: nat, l: nat)
    requires IsPow2(l) && |left| == 1024 * l && 1 <= |right| <= |left|
    requires FoldCv(m, ChunkCvs(m, left, counter)) == SubtreeCv(m, left, counter)
    requires FoldCv(m, ChunkCvs(m, right, counter + l)) == SubtreeCv(m, right, counter + l)
    ensures FoldOutput(m, ChunkCvs(m, left + right, counter)) == SubtreeOutput(m, left + right, counter)
  {
    ChunkCvsSplit(m, left + right, counter, l);
    assert (left + right)[..1024 * l] == left && (left + right)[1024 * l..] == right;
    FoldSplit(m, ChunkCvs(m, left, counter), ChunkCvs(m, right, counter + l));
    SubtreeSplit(m, left, right, counter, l);
  }

  /** Where an input longer than one chunk splits. */
  lemma InputSplit(input: seq<byte>) returns (left: seq<byte>, right: seq<byte>, l: nat)
    requires |input| > CHUNK_LEN
    ensures input == left + right && IsPow2(l) && |left| == 1024 * l && 1 <= |right| <= |left|
    ensures 1 <= |left| < |input|
  {
    l := LeftCount(ChunkCount(|input|));
    LeftCountPow2(ChunkCount(|input|));
    left, right := input[..1024 * l], input[1024 * l..];
  }

  /** The left-full tree over the chunk layer is the input's subtree. */
  lemma {:induction false} ChunkLayerIsSubtree(m: Mode, input: seq<byte>, counter: nat)
    requires |input| > 0
    ensures FoldCv(m, ChunkCvs(m, input, counter)) == SubtreeCv(m, input, counter)
    ensures |input| > CHUNK_LEN ==>
              FoldOutput(m, ChunkCvs(m, input, counter)) == SubtreeOutput(m, input, counter)
    decreases |input|
  {
    if |input| <= CHUNK_LEN {
      assert ChunkAt(input, 0) == input;
    } else {
      var left, right, l := InputSplit(input);
      ChunkLayerIsSubtree(m, left, counter);
      ChunkLayerIsSubtree(m, right, counter + l);
      ChunkLayerStep(m, left, right, counter, l);
    }
  }

  // The compressor

  ghost predicate ValidDegree(degree: nat) {
    IsPow2(degree) && degree <= MAX_SIMD_DEGREE
  }

  /** All slots but the n from off on are as they were. */
  twostate predicate OnlyWrites(out: array<Cv>, off: nat, n: nat)
    reads out
  {
    forall j :: 0 <= j < out.Length && (j < off || off + n <= j) ==> out[j] == old(out[j])
  }

  /** hash_many over the whole chunks of an input yields their chaining values. */
  lemma WholeChunks(m: Mode, input: seq<byte>, counter: nat, chunks: seq<seq<byte>>)
    requires 1024 * |chunks| <= |input|
    requires forall i :: 0 <= i < |chunks| ==> chunks[i] == input[1024 * i..1024 * (i + 1)]
    ensures HashAll(m.kernel, m.key, chunks, 16, counter, true, m.flags, CHUNK_START, CHUNK_END)
            == ChunkCvs(m, input[..1024 * |chunks|], counter)
  {
    var whole := input[..1024 * |chunks|];
    forall i | 0 <= i < |chunks|
      ensures HashOne(m.kernel, m.key, chunks[i], 16, CounterOf(counter, true, i), m.flags, CHUNK_START, CHUNK_END)
              == SubtreeCv(m, ChunkAt(whole, i), counter + i)
    {
      assert ChunkAt(whole, i) == chunks[i];
      HashOneIsChunk(m, chunks[i], counter + i);
    }
  }

  lemma OneChunk(m: Mode, input: seq<byte>, counter: nat)
    requires 1 <= |input| <= CHUNK_LEN
    ensures ChunkCvs(m, input, counter) == [SubtreeCv(m, input, counter)]
  {
    assert ChunkAt(input, 0) == input;
  }

  /** Hash at most one chunk that is not the root with a chunk state of its own. */
  method HashChunk(m: Mode, input: seq<byte>, counter: nat) returns (cv: Cv)
    requires |input| <= CHUNK_LEN
    ensures cv == SubtreeCv(m, input, counter)
  {
    var chunkState := new ChunkState(m, counter);
    chunkState.Update(input);
    assert chunkState.data == input;
    var output := chunkState.GetOutput();
    cv := ChainingValue(m, output);
  }

  /** Hash up to a SIMD width of chunks side by side, and a last partial chunk by itself. */
  method CompressChunksParallel(m: Mode, degree: nat, input: seq<byte>, counter: nat, out: array<Cv>, off: nat)
    returns (n: nat)
    requires 0 < |input| <= degree * CHUNK_LEN && degree <= MAX_SIMD_DEGREE
    requires off + ChunkCount(|input|) <= out.Length
    modifies out
    ensures n == ChunkCount(|input|)
    ensures out[off..off + n] == ChunkCvs(m, input, counter)
    ensures OnlyWrites(out, off, n)
  {
    hide SubtreeCv, HashOne;
    var chunks: seq<seq<byte>> := [];
    var position := 0;
    while |input| - position >= CHUNK_LEN
      invariant position == 1024 * |chunks| <= |input|
      invariant forall i :: 0 <= i < |chunks| ==> chunks[i] == input[1024 * i..1024 * (i + 1)]
    {
      chunks := chunks + [input[position..position + CHUNK_LEN]];
      position := position + CHUNK_LEN;
    }
    n := |chunks|;
    HashManyPortable(m.kernel, m.key, chunks, CHUNK_LEN / BLOCK_LEN, counter, true,
                     m.flags, CHUNK_START, CHUNK_END, out, off);
    WholeChunks(m, input, counter, chunks);
    ChunkCvsSplit(m, input, counter, n);
    if |input| > position {
      OneChunk(m, input[position..], counter + n);
      ghost var whole := out[off..off + n];
      var cv := HashChunk(m, input[position..], counter + n);
      out[off + n] := cv;
      assert out[off..off + n + 1] == whole + [out[off + n]];
      n := n + 1;
    } else {
      assert ChunkCvs(m, input[position..], counter + n) == [];
    }
  }

  /** The blocks of the parents of neighbouring nodes. */
  function Join(left: Cv, right: Cv): (r: seq<byte>)
    ensures |r| == 64
  {
    left + right
  }

  /** hash_many over parent blocks, plus the odd child, is one layer up. */
  lemma WholeParents(m: Mode, cvs: seq<Cv>, parents: seq<seq<byte>>)
    requires |parents| == |cvs| / 2
    requires forall i :: 0 <= i < |parents| ==> |parents[i]| == 64 && parents[i] == Join(cvs[2 * i], cvs[2 * i + 1])
    ensures PairUp(m, cvs) == HashAll(m.kernel, m.key, parents, 1, 0, false, m.flags | PARENT, 0, 0)
                              + if |cvs| % 2 == 1 then [cvs[|cvs| - 1]] else []
  {
    forall i | 0 <= i < |parents|
      ensures HashOne(m.kernel, m.key, parents[i], 1, CounterOf(0, false, i), m.flags | PARENT, 0, 0)
              == PairUp(m, cvs)[i]
    {
      HashOneIsParent(m, cvs[2 * i], cvs[2 * i + 1]);
    }
  }

  /** Hash neighbours into parents side by side; an odd child left over becomes an output. */
  method CompressParentsParallel(m: Mode, cvs: array<Cv>, num: nat, out: array<Cv>, off: nat) returns (n: nat)
    requires 2 <= num <= cvs.Length && num <= 2 * MAX_SIMD_DEGREE && cvs != out
    requires off + (num + 1) / 2 <= out.Length
    modifies out
    ensures n == (num + 1) / 2
    ensures out[off..off + n] == PairUp(m, cvs[..num])
    ensures OnlyWrites(out, off, n)
  {
    var parents: seq<seq<byte>> := [];
    while num - 2 * |parents| >= 2
      invariant 2 * |parents| <= num
      invariant forall i :: 0 <= i < |parents| ==> parents[i] == Join(cvs[2 * i], cvs[2 * i + 1])
    {
      parents := parents + [Join(cvs[2 * |parents|], cvs[2 * |parents| + 1])];
    }
    n := |parents|;
    HashManyPortable(m.kernel, m.key, parents, 1, 0, false, m.flags | PARENT, 0, 0, out, off);
    WholeParents(m, cvs[..num], parents);
    if num > 2 * n {
      ghost var whole := out[off..off + n];
      out[off + n] := cvs[2 * n];
      assert out[off..off + n + 1] == whole + [out[off + n]];
      n := n + 1;
    }
  }

  /** Compute the left subtree's length from the number of chunks before the last byte. */
  method LeftSubtreeLen(inputLen: nat) returns (l: nat)
    requires CHUNK_LEN < inputLen < TWO_64
    ensures l == LeftLen(inputLen)
  {
    var fullChunks := (inputLen - 1) / CHUNK_LEN;
    var r := RoundDownToPowerOf2(fullChunks);
    l := r * CHUNK_LEN;
    assert ChunkCount(inputLen) - 1 == fullChunks;
  }

  /** A layer of nodes whose left-full tree is the input's subtree.  A layer over more than one
    * chunk never contains the subtree's own root. */
  ghost predicate IsLayer(m: Mode, cvs: seq<Cv>, input: seq<byte>, counter: nat) {
    && |cvs| >= 1
    && FoldCv(m, cvs) == SubtreeCv(m, input, counter)
    && (|input| <= CHUNK_LEN ==> |cvs| == 1)
    && (|input| > CHUNK_LEN ==> |cvs| >= 2 && FoldOutput(m, cvs) == SubtreeOutput(m, input, counter))
  }

  /** The width of a layer over a power-of-two number of chunks. */
  ghost predicate ExactWidth(degree: nat, inputLen: nat, n: nat) {
    forall p: nat :: IsPow2(p) && inputLen == 1024 * p ==> n == Min(p, Max(degree, 2))
  }

  lemma LayerJoin(m: Mode, left: seq<byte>, right: seq<byte>, counter: nat, chunks: nat, l: seq<Cv>, r: seq<Cv>)
    requires IsPow2(chunks) && |left| == 1024 * chunks && 1 <= |right| <= |left|
    requires IsLayer(m, l, left, counter) && IsLayer(m, r, right, counter + chunks)
    requires IsPow2(|l|) && |r| <= |l|
    ensures IsLayer(m, l + r, left + right, counter)
  {
    IsPow2Positive(chunks);
    FoldSplit(m, l, r);
    SubtreeSplit(m, left, right, counter, chunks);
  }

  lemma LayerUp(m: Mode, cvs: seq<Cv>, input: seq<byte>, counter: nat)
    requires IsLayer(m, cvs, input, counter) && |cvs| >= 3
    ensures IsLayer(m, PairUp(m, cvs), input, counter)
  {
    PairUpKeepsTree(m, cvs);
  }

  lemma SmallerPow2(a: nat, b: nat)
    requires IsPow2(a) && IsPow2(b) && a < b
    ensures 2 * a <= b
  {
    if 2 * a > b {
      Pow2Unique(a, b);
    }
  }

  /** The left part of an input wider than the SIMD degree fills a whole layer, except that a
    * single chunk yields a single chaining value. */
  lemma LeftWidth(degree: nat, inputLen: nat, chunks: nat, leftN: nat)
    requires ValidDegree(degree) && IsPow2(chunks)
    requires degree * 1024 < inputLen && 1024 * chunks < inputLen <= 2048 * chunks
    requires ExactWidth(degree, 1024 * chunks, leftN)
    ensures if chunks == 1 then degree == 1 && leftN == 1 else leftN == Max(degree, 2)
    ensures IsPow2(leftN)
  {
    IsPow2Positive(degree);
    assert leftN == Min(chunks, Max(degree, 2));
    if chunks < degree {
      SmallerPow2(chunks, degree);
    }
    if 1 < chunks {
      SmallerPow2(1, chunks);
    }
  }

  lemma WholeWidth(degree: nat, rightLen: nat, chunks: nat, leftN: nat, rightN: nat)
    requires ValidDegree(degree) && IsPow2(chunks) && 1 <= rightLen <= 1024 * chunks
    requires leftN == Max(degree, 2) && 1 < chunks && degree <= chunks
    requires ExactWidth(degree, rightLen, rightN)
    ensures ExactWidth(degree, 1024 * chunks + rightLen, (leftN + rightN + 1) / 2)
  {
    forall p: nat | IsPow2(p) && 1024 * chunks + rightLen == 1024 * p
      ensures (leftN + rightN + 1) / 2 == Min(p, Max(degree, 2))
    {
      SmallerPow2(chunks, p);
      SmallerPow2(1, chunks);
      assert p == 2 * chunks;
    }
  }

  lemma ChunkWidth(degree: nat, inputLen: nat)
    requires inputLen <= 1024 * degree
    ensures ExactWidth(degree, inputLen, ChunkCount(inputLen))
  {
  }

  const ZERO_CV: Cv := Zeros(32)

  lemma PairWidth(degree: nat, inputLen: nat)
    requires 1024 < inputLen <= 2048
    ensures ExactWidth(degree, inputLen, 2)
  {
  }

  ghost predicate IsWideLayer(m: Mode, degree: nat, cvs: seq<Cv>, input: seq<byte>, counter: nat) {
    && |cvs| <= Max(degree, 2) && ExactWidth(degree, |input|, |cvs|)
    && IsLayer(m, cvs, input, counter)
  }

  /** What a call writes: a layer for the input in the slots from off on. */
  twostate predicate Wrote(m: Mode, degree: nat, input: seq<byte>, counter: nat, out: array<Cv>, off: nat, n: nat)
    reads out
  {
    && off + n <= out.Length
    && IsWideLayer(m, degree, out[off..off + n], input, counter)
    && OnlyWrites(out, off, n)
  }

  /** Hash an input into a layer of chaining values as wide as the SIMD degree, or at least two. */
  method CompressSubtreeWide(m: Mode, degree: nat, input: seq<byte>, counter: nat, out: array<Cv>, off: nat)
    returns (n: nat)
    requires ValidDegree(degree) && 0 < |input| < TWO_64
    requires off + Max(degree, 2) <= out.Length
    modifies out
    ensures Wrote(m, degree, input, counter, out, off, n)
    decreases |input|, 1
  {
    if |input| <= degree * CHUNK_LEN {
      n := CompressChunksParallel(m, degree, input, counter, out, off);
      ChunkLayerIsSubtree(m, input, counter);
      ChunkWidth(degree, |input|);
    } else {
      IsPow2Positive(degree);
      var cvArray := new Cv[2 * MAX_SIMD_DEGREE](_ => ZERO_CV);
      var leftN, rightN := CompressHalves(m, degree, input, counter, cvArray);
      n := CombineHalves(m, degree, input, counter, cvArray, leftN, rightN, out, off);
    }
  }

  /** The children of the input's root: left at the front of the array, right right after it. */
  ghost predicate IsHalves(m: Mode, degree: nat, input: seq<byte>, counter: nat, cvs: seq<Cv>, leftN: nat, rightN: nat) {
    && 1 <= leftN && 1 <= rightN <= leftN <= Max(degree, 2) && |cvs| == leftN + rightN
    && |input| > CHUNK_LEN
    && IsLayer(m, cvs, input, counter)
    && (leftN == 1 ==> |input| <= 2048)
    && (leftN > 1 ==> ExactWidth(degree, |input|, (leftN + rightN + 1) / 2))
  }

  lemma HalvesJoin(m: Mode, degree: nat, input: seq<byte>, counter: nat, l: seq<Cv>, r: seq<Cv>)
    requires ValidDegree(degree) && |input| > CHUNK_LEN && degree * 1024 < |input|
    requires var ll := LeftLen(|input|);
             && IsWideLayer(m, degree, l, input[..ll], counter)
             && IsWideLayer(m, degree, r, input[ll..], counter + ll / 1024)
    ensures IsHalves(m, degree, input, counter, l + r, |l|, |r|)
    ensures |l| == if LeftLen(|input|) > 1024 then Max(degree, 2) else degree
  {
    var chunks := LeftCount(ChunkCount(|input|));
    LeftCountPow2(ChunkCount(|input|));
    var left, right := input[..1024 * chunks], input[1024 * chunks..];
    LeftWidth(degree, |input|, chunks, |l|);
    LayerJoin(m, left, right, counter, chunks, l, r);
    assert input == left + right;
    if 1 < chunks {
      WholeWidth(degree, |right|, chunks, |l|, |r|);
    }
  }

  /** Recurse into both subtrees; the right one is written where the left one is known to end. */
  method CompressHalves(m: Mode, degree: nat, input: seq<byte>, counter: nat, cvArray: array<Cv>)
    returns (leftN: nat, rightN: nat)
    requires ValidDegree(degree) && degree * CHUNK_LEN < |input| < TWO_64 && 1 <= degree
    requires cvArray.Length == 2 * MAX_SIMD_DEGREE
    modifies cvArray
    ensures leftN + rightN <= cvArray.Length
    ensures IsHalves(m, degree, input, counter, cvArray[..leftN + rightN], leftN, rightN)
    decreases |input|, 0
  {
    hide IsHalves, IsLayer, ExactWidth;
    var leftLen := LeftSubtreeLen(|input|);
    var rightCounter := counter + leftLen / CHUNK_LEN;
    var d := degree;
    if leftLen > CHUNK_LEN && d == 1 {
      d := 2;
    }
    leftN := CompressSubtreeWide(m, degree, input[..leftLen], counter, cvArray, 0);
    ghost var l := cvArray[..leftN];
    rightN := CompressSubtreeWide(m, degree, input[leftLen..], rightCounter, cvArray, d);
    ghost var r := cvArray[d..d + rightN];
    HalvesJoin(m, degree, input, counter, l, r);
    assert cvArray[..leftN] == l;
    assert cvArray[..leftN + rightN] == l + r;
  }

  lemma HalvesUp(m: Mode, degree: nat, input: seq<byte>, counter: nat, cvs: seq<Cv>, leftN: nat, rightN: nat)
    requires IsHalves(m, degree, input, counter, cvs, leftN, rightN)
    ensures leftN == 1 ==> |cvs| == 2 && IsWideLayer(m, degree, cvs, input, counter)
    ensures leftN > 1 ==> IsWideLayer(m, degree, PairUp(m, cvs), input, counter)
  {
    if leftN == 1 {
      PairWidth(degree, |input|);
    } else {
      LayerUp(m, cvs, input, counter);
    }
  }

  /** One layer of parents, except that two single chunks are returned as they are. */
  method CombineHalves(m: Mode, degree: nat, input: seq<byte>, counter: nat,
                       cvArray: array<Cv>, leftN: nat, rightN: nat, out: array<Cv>, off: nat)
    returns (n: nat)
    requires ValidDegree(degree) && cvArray.Length == 2 * MAX_SIMD_DEGREE && cvArray != out
    requires leftN + rightN <= cvArray.Length
    requires IsHalves(m, degree, input, counter, cvArray[..leftN + rightN], leftN, rightN)
    requires off + Max(degree, 2) <= out.Length
    modifies out
    ensures Wrote(m, degree, input, counter, out, off, n)
  {
    ghost var cvs := cvArray[..leftN + rightN];
    HalvesUp(m, degree, input, counter, cvs, leftN, rightN);
    if leftN == 1 {
      out[off], out[off + 1] := cvArray[0], cvArray[1];
      n := 2;
      assert out[off..off + n] == cvs;
    } else {
      n := CompressParentsParallel(m, cvArray, leftN + rightN, out, off);
      assert out[off..off + n] == PairUp(m, cvs);
    }
  }

  lemma ParentOutputInjective(m: Mode, l: Cv, r: Cv, l': Cv, r': Cv)
    requires ParentOutput(m, l, r) == ParentOutput(m, l', r')
    ensures l == l' && r == r'
  {
    assert l == Join(l, r)[..32] && r == Join(l, r)[32..];
    assert l' == Join(l', r')[..32] && r' == Join(l', r')[32..];
  }

  /** A layer of two is the pair of the root's children. */
  lemma LayerOfTwo(m: Mode, cvs: seq<Cv>, input: seq<byte>, counter: nat)
    requires |cvs| == 2 && |input| > CHUNK_LEN && IsLayer(m, cvs, input, counter)
    ensures SubtreeOutput(m, input, counter) == ParentOutput(m, cvs[0], cvs[1])
  {
    FoldPair(m, cvs[0], cvs[1]);
    assert cvs == [cvs[0], cvs[1]];
  }

  method CopyCvs(from: array<Cv>, n: nat, to: array<Cv>)
    requires n <= from.Length && n <= to.Length && from != to
    modifies to
    ensures to[..n] == from[..n]
  {
    forall i | 0 <= i < n {
      to[i] := from[i];
    }
  }

  /** One layer up, in place by way of a second buffer. */
  method Condense(m: Mode, cvArray: array<Cv>, numCvs: nat, outArray: array<Cv>, ghost input: seq<byte>, ghost counter: nat)
    returns (n: nat)
    requires cvArray != outArray && 3 <= numCvs <= cvArray.Length && numCvs <= MAX_SIMD_DEGREE
    requires (numCvs + 1) / 2 <= outArray.Length
    requires IsLayer(m, cvArray[..numCvs], input, counter)
    modifies cvArray, outArray
    ensures n == (numCvs + 1) / 2 && IsLayer(m, cvArray[..n], input, counter)
  {
    LayerUp(m, cvArray[..numCvs], input, counter);
    n := CompressParentsParallel(m, cvArray, numCvs, outArray, 0);
    CopyCvs(outArray, n, cvArray);
  }

  /** Condense a subtree to the children of its root, leaving the root itself uncompressed. */
  method CompressSubtreeToParentNode(m: Mode, degree: nat, input: seq<byte>, counter: nat)
    returns (left: Cv, right: Cv)
    requires ValidDegree(degree) && CHUNK_LEN < |input| < TWO_64
    ensures SubtreeOutput(m, input, counter) == ParentOutput(m, left, right)
  {
    var cvArray := new Cv[MAX_SIMD_DEGREE](_ => ZERO_CV);
    var numCvs := CompressSubtreeWide(m, degree, input, counter, cvArray, 0);
    var outArray := new Cv[MAX_SIMD_DEGREE / 2](_ => ZERO_CV);
    while numCvs > 2
      invariant 2 <= numCvs <= MAX_SIMD_DEGREE
      invariant IsLayer(m, cvArray[..numCvs], input, counter)
      decreases numCvs
    {
      numCvs := Condense(m, cvArray, numCvs, outArray, input, counter);
    }
    left, right := cvArray[0], cvArray[1];
    LayerOfTwo(m, cvArray[..2], input, counter);
  }
}
