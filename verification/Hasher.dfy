/** The incremental hasher of c/blake3/blake3.c: update, finalize at any position, and reset. */
module Hashers {
  import opened Basics
  import opened Bits
  import opened Tree
  import opened ChunkStates
  import opened Subtrees
  import opened CvStacks
  import opened RootOutput

  const MAX_DEPTH: nat := 54

  lemma Pow2Exponent(p: nat) returns (e: nat)
    requires IsPow2(p)
    ensures Pow2(e) == p
  {
    if p == 1 {
      e := 0;
    } else {
      e := Pow2Exponent(p / 2);
      e := e + 1;
    }
  }

  lemma ScaleDivides(n: nat, p: nat)
    requires p > 0 && (1024 * n) % (1024 * p) == 0
    ensures n % p == 0
  {
    DivModDef(n, p);
    var q, r := n / p, n % p;
    MulAssoc(1024, p, q);
    DivModUnique(1024 * n, 1024 * p, q, 1024 * r);
  }

  /** The largest power of two that is at most the input length and divides the bytes so far. */
  method ShrinkSubtree(inputLen: nat, chunksSoFar: nat) returns (subtreeLen: nat)
    requires CHUNK_LEN < inputLen < TWO_64
    ensures IsPow2(subtreeLen) && CHUNK_LEN <= subtreeLen <= inputLen
    ensures (chunksSoFar * CHUNK_LEN) % subtreeLen == 0
    ensures forall t: nat :: IsPow2(t) && t <= inputLen && (chunksSoFar * CHUNK_LEN) % t == 0 ==> t <= subtreeLen
  {
    subtreeLen := RoundDownToPowerOf2(inputLen);
    FloorPow2IsLargest(inputLen);
    var countSoFar := chunksSoFar * CHUNK_LEN;
    ghost var largest := subtreeLen;
    assert forall t: nat :: IsPow2(t) && t <= inputLen ==> t <= largest by {
      forall t: nat | IsPow2(t) && t <= inputLen
        ensures t <= largest
      {
        if t > largest {
          SmallerPow2(largest, t);
        }
      }
    }
    assert IsPow2(1024);
    if subtreeLen < 1024 {
      SmallerPow2(subtreeLen, 1024);
    }
    BitAndMask(subtreeLen, countSoFar);
    while BitAnd(subtreeLen - 1, countSoFar) != 0
      invariant IsPow2(subtreeLen) && 1024 <= subtreeLen <= inputLen
      invariant BitAnd(subtreeLen - 1, countSoFar) == countSoFar % subtreeLen
      invariant forall t: nat :: IsPow2(t) && t <= inputLen && countSoFar % t == 0 ==> t <= subtreeLen
      decreases subtreeLen
    {
      DividesChunks(countSoFar, chunksSoFar);
      if subtreeLen > 1024 {
        SmallerPow2(1024, subtreeLen);
      }
      ghost var s := subtreeLen;
      forall t: nat | IsPow2(t) && t <= inputLen && countSoFar % t == 0
        ensures t <= s / 2
      {
        if t < s {
          SmallerPow2(t, s);
        }
      }
      subtreeLen := subtreeLen / 2;
      BitAndMask(subtreeLen, countSoFar);
    }
  }

  lemma DividesChunks(count: nat, chunks: nat)
    requires count == chunks * 1024
    ensures count % 1024 == 0
  {
  }

  /** The children of a whole power-of-two subtree are the two half-size nodes. */
  lemma ChildrenAreNodes(m: Mode, data: seq<byte>, start: nat, h: nat, left: Cv, right: Cv)
    requires IsPow2(h) && 1024 * (start + 2 * h) <= |data|
    requires SubtreeOutput(m, data[1024 * start..1024 * (start + 2 * h)], start) == ParentOutput(m, left, right)
    ensures left == NodeCv(m, data, start, h) && right == NodeCv(m, data, start + h, h)
  {
    IsPow2Positive(h);
    var a, b := data[1024 * start..1024 * (start + h)], data[1024 * (start + h)..1024 * (start + h + h)];
    assert data[1024 * start..1024 * (start + 2 * h)] == a + b;
    SubtreeSplit(m, a, b, start, h);
    ParentOutputInjective(m, left, right, SubtreeCv(m, a, start), SubtreeCv(m, b, start + h));
  }

  /** Where the stack stands after pushing the node of the next 2^e chunks. */
  lemma PushedUnit(m: Mode, data: seq<byte>, n: nat, k: nat, e: nat)
    requires n == Shl(k, e) && 1024 * (n + Pow2(e)) <= |data|
    ensures IsLazy(m, data, Spine(m, data, n, 0) + [NodeCv(m, data, n, Pow2(e))], n + Pow2(e), k, e)
  {
    ShlHalve(k + 1, e);
    SpineUnits(m, data, k, e);
  }

  /** The merge loop's test: one entry too many exactly when the two topmost can be merged. */
  lemma LazyTest(m: Mode, data: seq<byte>, stack: seq<Cv>, total: nat, k: nat, e: nat)
    requires IsLazy(m, data, stack, total, k, e)
    ensures |stack| > PopCount(total) <==> k % 2 == 1
    ensures k % 2 == 0 ==> stack == Spine(m, data, total, 0)
  {
    SpineUnits(m, data, k + 1, e);
    PopCountStep(k);
    if k % 2 == 0 {
      LazyDone(m, data, k, e);
    } else {
      PopCountStep(k / 2);
    }
  }

  lemma SubtreeChunks(subtreeLen: nat, n: nat)
    requires IsPow2(subtreeLen) && CHUNK_LEN <= subtreeLen && (n * CHUNK_LEN) % subtreeLen == 0
    ensures var chunks := subtreeLen / 1024;
            subtreeLen == 1024 * chunks && IsPow2(chunks) && n % chunks == 0
  {
    assert IsPow2(1024);
    Pow2Divides(1024, subtreeLen);
    ScaleDivides(n, subtreeLen / 1024);
  }

  lemma MultipleIsShl(n: nat, chunks: nat, e: nat) returns (j: nat)
    requires chunks == Pow2(e) && n % chunks == 0
    ensures n == Shl(j, e)
  {
    j := n / chunks;
    DivModDef(n, chunks);
    ShlIsTimes(j, e);
  }

  lemma HalfExponent(chunks: nat) returns (e: nat)
    requires IsPow2(chunks) && chunks > 1
    ensures chunks == 2 * Pow2(e) == Pow2(e + 1) && IsPow2(Pow2(e))
  {
    e := Pow2Exponent(chunks / 2);
    Pow2IsPow2(e);
  }

  lemma PairPosition(n: nat, chunks: nat, e: nat) returns (k: nat)
    requires chunks == Pow2(e + 1) && n % chunks == 0
    ensures k % 2 == 0 && n == Shl(k, e) && n + Pow2(e) == Shl(k + 1, e)
  {
    var j := MultipleIsShl(n, chunks, e + 1);
    k := 2 * j;
    ShlDouble(j, e);
    ShlHalve(k + 1, e);
  }

  lemma {:induction false} PopCountPositive(n: nat)
    requires n > 0
    ensures PopCount(n) > 0
  {
    if n > 1 {
      PopCountPositive(n / 2);
    }
  }

  /** Without an open chunk, the parent of the two topmost entries, left uncompressed, rolls up
    * the rest of the stack to the root. */
  lemma LazyTop(m: Mode, data: seq<byte>, stack: seq<Cv>, total: nat, k: nat, e: nat)
    requires IsLazy(m, data, stack, total, k, e) && |data| == 1024 * total && k % 2 == 1
    ensures |stack| >= 2
    ensures RollUp(m, stack[..|stack| - 2], ParentOutput(m, stack[|stack| - 2], stack[|stack| - 1]))
            == SubtreeOutput(m, data, 0)
  {
    ShlHalve(k + 1, e);
    PopCountPositive(k);
    Pow2IsPow2(e);
    var lower, last := Spine(m, data, k, e), NodeCv(m, data, Shl(k, e), Pow2(e));
    assert data[1024 * Shl(k, e)..] == data[1024 * Shl(k, e)..1024 * (Shl(k, e) + Pow2(e))];
    assert stack == lower + [last];
    assert stack[..|stack| - 2] == lower[..|lower| - 1];
    RolledIsRoot(m, data, k, e);
  }

  /** An open chunk rolls up the whole stack to the root. */
  lemma OpenTop(m: Mode, data: seq<byte>, rest: seq<byte>, total: nat)
    requires 1024 * total + |rest| == |data| && 1 <= |rest| <= CHUNK_LEN && rest == data[1024 * total..]
    ensures RollUp(m, Spine(m, data, total, 0), ChunkOutput(m, rest, total)) == SubtreeOutput(m, data, 0)
  {
    RolledIsRoot(m, data, total, 0);
  }

  class Hasher {
    const mode: Mode
    /** The SIMD degree detected at run time. */
    const degree: nat
    const chunk: ChunkState
    const cvStack: array<Cv>
    var cvStackLen: nat

    /** The whole message since the last reset. */
    ghost var contents: seq<byte>
    /** When no chunk is open, the stack is a lazy decomposition of this shape. */
    ghost var lazyK: nat
    ghost var lazyE: nat

    ghost predicate StackFits()
      reads this
    {
      cvStack.Length == MAX_DEPTH + 1 && cvStackLen <= MAX_DEPTH && |contents| < TWO_64 && ValidDegree(degree)
    }

    ghost predicate Core()
      reads this, chunk, chunk.buf
    {
      chunk.Valid() && chunk.mode == mode && StackFits()
    }

    ghost function Stack(): seq<Cv>
      reads this, cvStack
      requires cvStackLen <= cvStack.Length
    {
      cvStack[..cvStackLen]
    }

    /** The entries of the stack cover exactly chunkCounter chunks; what follows is in the chunk
      * state.  An open chunk sits on a fully merged stack.  Without one, the two topmost entries
      * are siblings that have not been merged, so that the root, whatever follows, is still
      * uncompressed. */
    ghost predicate Valid()
      reads this, chunk, chunk.buf, cvStack
    {
      && Core()
      && 1024 * chunk.chunkCounter + |chunk.data| == |contents|
      && chunk.data == contents[1024 * chunk.chunkCounter..]
      && (chunk.data != [] ==> Stack() == Spine(mode, contents, chunk.chunkCounter, 0))
      && (chunk.data == [] && chunk.chunkCounter > 0 ==>
            lazyK % 2 == 1 && IsLazy(mode, contents, Stack(), chunk.chunkCounter, lazyK, lazyE))
      && (chunk.chunkCounter == 0 ==> cvStackLen == 0)
    }

    constructor (mode: Mode, degree: nat)
      requires ValidDegree(degree)
      ensures Valid() && contents == [] && this.mode == mode && this.degree == degree
      ensures fresh(chunk) && fresh(chunk.buf) && fresh(cvStack)
    {
      this.mode := mode;
      this.degree := degree;
      chunk := new ChunkState(mode, 0);
      cvStack := new Cv[MAX_DEPTH + 1](_ => ZERO_CV);
      cvStackLen := 0;
      contents := [];
    }

    /** Replace the two topmost entries by their parent. */
    method MergeTop(ghost total: nat, ghost k: nat, ghost e: nat)
      requires StackFits()
      requires k % 2 == 1 && IsLazy(mode, contents, Stack(), total, k, e)
      modifies this`cvStackLen, cvStack
      ensures cvStackLen == old(cvStackLen) - 1
      ensures IsLazy(mode, contents, Stack(), total, k / 2, e + 1)
    {
      LazyMerge(mode, contents, Stack(), k, e);
      ghost var before := Stack();
      cvStack[cvStackLen - 2] :=
        ChainingValue(mode, ParentOutput(mode, cvStack[cvStackLen - 2], cvStack[cvStackLen - 1]));
      cvStackLen := cvStackLen - 1;
      assert Stack() == before[..|before| - 2] + [ParentCv(mode, before[|before| - 2], before[|before| - 1])];
    }

    /** Merge from the top until as many entries are left as total has one bits. */
    method MergeCvStack(total: nat)
      requires StackFits()
      requires Mergeable(mode, contents, Stack(), total)
      modifies this`cvStackLen, cvStack
      ensures cvStackLen <= old(cvStackLen)
      ensures Stack() == Spine(mode, contents, total, 0)
    {
      var postMergeStackLen := PopCnt(total);
      ghost var k: nat, e: nat := 0, 0;
      ghost var done := Stack() == Spine(mode, contents, total, 0);
      if !done {
        k, e :| IsLazy(mode, contents, Stack(), total, k, e);
        LazyTest(mode, contents, Stack(), total, k, e);
      }
      while cvStackLen > postMergeStackLen
        invariant cvStackLen <= old(cvStackLen)
        invariant if done then Stack() == Spine(mode, contents, total, 0)
                  else && IsLazy(mode, contents, Stack(), total, k, e)
                       && (cvStackLen > postMergeStackLen <==> k % 2 == 1)
                       && (k % 2 == 0 ==> Stack() == Spine(mode, contents, total, 0))
        decreases cvStackLen
      {
        MergeTop(total, k, e);
        k, e := k / 2, e + 1;
        LazyTest(mode, contents, Stack(), total, k, e);
      }
    }

    method PushCv(newCv: Cv, chunkCounter: nat)
      requires StackFits()
      requires Mergeable(mode, contents, Stack(), chunkCounter) && 1024 * (chunkCounter + 1) <= |contents|
      modifies this`cvStackLen, cvStack
      ensures StackFits()
      ensures Stack() == Spine(mode, contents, chunkCounter, 0) + [newCv]
    {
      MergeCvStack(chunkCounter);
      Pow2Values();
      PopCountBound(chunkCounter, 54);
      cvStack[cvStackLen] := newCv;
      cvStackLen := cvStackLen + 1;
    }

    /** In the middle of an update: contents already includes the input still to be taken in. */
    ghost predicate Open(rest: seq<byte>)
      reads this, chunk, chunk.buf, cvStack
    {
      && Core()
      && 1024 * chunk.chunkCounter + |chunk.data| + |rest| == |contents|
      && contents[1024 * chunk.chunkCounter..] == chunk.data + rest
      && Mergeable(mode, contents, Stack(), chunk.chunkCounter)
      && (chunk.data != [] ==> Stack() == Spine(mode, contents, chunk.chunkCounter, 0))
    }

    /** Announce the input of an update. */
    ghost method Extend(input: seq<byte>)
      requires Valid() && |contents| + |input| < TWO_64
      modifies this`contents
      ensures contents == old(contents) + input && Open(input)
    {
      var n := chunk.chunkCounter;
      assert Mergeable(mode, contents, Stack(), n) by {
        if n == 0 {
          assert Stack() == Spine(mode, contents, 0, 0);
        }
      }
      if chunk.data != [] {
        SpineExtend(mode, contents, input, n, 0);
      }
      MergeableExtend(mode, contents, input, Stack(), n);
      contents := contents + input;
    }

    /** Push the node of the next 2^e chunks. */
    method PushUnit(cv: Cv, chunkCounter: nat, ghost k: nat, ghost e: nat)
      requires StackFits() && Mergeable(mode, contents, Stack(), chunkCounter)
      requires chunkCounter == Shl(k, e) && 1024 * (chunkCounter + Pow2(e)) <= |contents|
      requires cv == NodeCv(mode, contents, chunkCounter, Pow2(e))
      modifies this`cvStackLen, cvStack
      ensures StackFits() && IsLazy(mode, contents, Stack(), chunkCounter + Pow2(e), k, e)
      ensures Mergeable(mode, contents, Stack(), chunkCounter + Pow2(e))
    {
      PushCv(cv, chunkCounter);
      PushedUnit(mode, contents, chunkCounter, k, e);
    }

    /** The chaining value of the full chunk in the chunk state, one unit of a single chunk. */
    method FullChunkCv(ghost rest: seq<byte>) returns (cv: Cv)
      requires Open(rest) && |chunk.data| == CHUNK_LEN
      ensures var n := chunk.chunkCounter;
              cv == NodeCv(mode, contents, n, Pow2(0)) && Pow2(0) == 1 && Shl(n, 0) == n && contents[1024 * (n + 1)..] == rest
    {
      var output := chunk.GetOutput();
      cv := ChainingValue(mode, output);
      ghost var n := chunk.chunkCounter;
      assert contents[1024 * n..1024 * (n + 1)] == contents[1024 * n..][..1024] == chunk.data;
      assert contents[1024 * (n + 1)..] == contents[1024 * n..][1024..];
      assert Pow2(0) == 1 && cv == SubtreeCv(mode, chunk.data, n);
    }

    /** Finalize a full chunk that is not the root. */
    method FinishChunk(ghost rest: seq<byte>)
      requires Open(rest) && |chunk.data| == CHUNK_LEN
      modifies this, chunk, chunk.buf, cvStack
      ensures Open(rest) && chunk.data == [] && contents == old(contents)
    {
      hide Mergeable, IsLazy, Shl, Pow2, Spine, NodeCv, ValidDegree;
      var chunkCv := FullChunkCv(rest);
      PushUnit(chunkCv, chunk.chunkCounter, chunk.chunkCounter, 0);
      assert [] + rest == rest;
      chunk.Reset(chunk.chunkCounter + 1);
    }

    /** Push both children of the root of a subtree of 2^(e + 1) chunks. */
    method PushPair(left: Cv, right: Cv, n: nat, subtreeChunks: nat, ghost k: nat, ghost e: nat)
      requires StackFits() && Mergeable(mode, contents, Stack(), n)
      requires subtreeChunks == 2 * Pow2(e) && 1024 * (n + subtreeChunks) <= |contents|
      requires k % 2 == 0 && n == Shl(k, e) && n + Pow2(e) == Shl(k + 1, e)
      requires left == NodeCv(mode, contents, n, Pow2(e))
      requires right == NodeCv(mode, contents, n + Pow2(e), Pow2(e))
      modifies this`cvStackLen, this`lazyK, this`lazyE, cvStack
      ensures StackFits() && lazyK % 2 == 1
      ensures IsLazy(mode, contents, Stack(), n + subtreeChunks, lazyK, lazyE)
    {
      hide Mergeable, IsLazy, NodeCv, Shl;
      PushUnit(left, n, k, e);
      PushUnit(right, n + subtreeChunks / 2, k + 1, e);
      lazyK, lazyE := k + 1, e;
    }

    /** The two halves of the next subtree, hashed. */
    method SubtreePair(input: seq<byte>, n: nat, ghost h: nat) returns (left: Cv, right: Cv)
      requires StackFits() && IsPow2(h) && 1024 * (n + 2 * h) <= |contents|
      requires input == contents[1024 * n..1024 * (n + 2 * h)]
      ensures left == NodeCv(mode, contents, n, h) && right == NodeCv(mode, contents, n + h, h)
    {
      IsPow2Positive(h);
      left, right := CompressSubtreeToParentNode(mode, degree, input, n);
      ChildrenAreNodes(mode, contents, n, h, left, right);
    }

    /** Hash the next power-of-two number of chunks and push the result: one chaining value for a
      * single chunk, and otherwise the pair of the subtree's root. */
    method PushSubtree(input: seq<byte>, n: nat, subtreeChunks: nat)
      requires StackFits() && Mergeable(mode, contents, Stack(), n)
      requires IsPow2(subtreeChunks) && n % subtreeChunks == 0
      requires 1024 * (n + subtreeChunks) <= |contents|
      requires input == contents[1024 * n..1024 * (n + subtreeChunks)]
      modifies this`cvStackLen, this`lazyK, this`lazyE, cvStack
      ensures StackFits() && Mergeable(mode, contents, Stack(), n + subtreeChunks)
      ensures subtreeChunks > 1 ==>
        lazyK % 2 == 1 && IsLazy(mode, contents, Stack(), n + subtreeChunks, lazyK, lazyE)
    {
      if |input| <= CHUNK_LEN {
        var cv := HashChunk(mode, input, n);
        PushUnit(cv, n, n, 0);
      } else {
        ghost var e := HalfExponent(subtreeChunks);
        ghost var k := PairPosition(n, subtreeChunks, e);
        var left, right := SubtreePair(input, n, Pow2(e));
        PushPair(left, right, n, subtreeChunks, k, e);
      }
    }

    /** Take in the largest whole subtree the position allows. */
    method HashSubtree(input: seq<byte>) returns (subtreeLen: nat)
      requires Open(input) && chunk.data == [] && |input| > CHUNK_LEN
      modifies this, chunk`chunkCounter, cvStack
      ensures 0 < subtreeLen <= |input| && Open(input[subtreeLen..]) && contents == old(contents)
      ensures subtreeLen == |input| ==> Valid()
    {
      hide Shl, Spine, LazySpine, IsLazy, IsPow2, SubtreeCv;
      var n := chunk.chunkCounter;
      assert input == contents[1024 * n..];
      subtreeLen := ShrinkSubtree(|input|, chunk.chunkCounter);
      var subtreeChunks := subtreeLen / CHUNK_LEN;
      SubtreeChunks(subtreeLen, n);
      assert input[..subtreeLen] == contents[1024 * n..1024 * (n + subtreeChunks)];
      assert contents[1024 * (n + subtreeChunks)..] == input[subtreeLen..];
      PushSubtree(input[..subtreeLen], n, subtreeChunks);
      chunk.Advance(subtreeChunks);
    }

    /** Finish the open chunk, as far as the input goes. */
    method FillChunk(input: seq<byte>) returns (rest: seq<byte>)
      requires Open(input) && chunk.data != [] && |input| > 0
      modifies this, chunk, chunk.buf, cvStack
      ensures Open(rest) && |rest| <= |input| && contents == old(contents)
      ensures if |rest| > 0 then chunk.data == [] else Valid()
    {
      var chunkLen := chunk.Len();
      var take := CHUNK_LEN - chunkLen;
      if take > |input| {
        take := |input|;
      }
      chunk.Update(input[..take]);
      rest := input[take..];
      assert chunk.data + rest == old(chunk.data) + input;
      if |rest| > 0 {
        FinishChunk(rest);
      } else {
        assert chunk.data + rest == chunk.data;
      }
    }

    /** Keep at most a chunk of input in the chunk state, on a fully merged stack. */
    method KeepTail(input: seq<byte>)
      requires Open(input) && chunk.data == [] && 0 < |input| <= CHUNK_LEN
      modifies this, chunk, chunk.buf, cvStack
      ensures Valid() && contents == old(contents)
    {
      chunk.Update(input);
      MergeCvStack(chunk.chunkCounter);
    }

    method Update(input0: seq<byte>)
      requires Valid() && |contents| + |input0| < TWO_64
      modifies this, chunk, chunk.buf, cvStack
      ensures Valid() && contents == old(contents) + input0
    {
      if |input0| == 0 {
        assert contents == contents + input0;
        return;
      }
      var input := input0;
      Extend(input);
      var chunkLen := chunk.Len();
      if chunkLen > 0 {
        input := FillChunk(input);
        if |input| == 0 {
          return;
        }
      }
      while |input| > CHUNK_LEN
        invariant Open(input) && chunk.data == []
        invariant |input| == 0 ==> Valid()
        invariant contents == old(contents) + input0
        decreases |input|
      {
        var subtreeLen := HashSubtree(input);
        input := input[subtreeLen..];
      }
      if |input| > 0 {
        KeepTail(input);
      }
    }

    /** Combine an unfinished node with the lowest entries of the stack, from the top down. */
    method RollUpStack(output0: Output, count: nat) returns (output: Output)
      requires count <= cvStack.Length
      ensures output == RollUp(mode, cvStack[..count], output0)
    {
      output := output0;
      var cvsRemaining := count;
      while cvsRemaining > 0
        invariant 0 <= cvsRemaining <= count
        invariant RollUp(mode, cvStack[..cvsRemaining], output) == RollUp(mode, cvStack[..count], output0)
      {
        cvsRemaining := cvsRemaining - 1;
        assert cvStack[..cvsRemaining + 1][..cvsRemaining] == cvStack[..cvsRemaining];
        output := ParentOutput(mode, cvStack[cvsRemaining], ChainingValue(mode, output));
      }
    }

    /** The root of the whole message's tree, not yet compressed. */
    method RootNode() returns (output: Output)
      requires Valid()
      ensures output == SubtreeOutput(mode, contents, 0)
    {
      if chunk.chunkCounter > 0 {
        PopCountPositive(chunk.chunkCounter);
      }
      var chunkLen := chunk.Len();
      if cvStackLen == 0 {
        assert chunk.chunkCounter == 0 && contents[0..] == contents;
        output := chunk.GetOutput();
      } else if chunkLen > 0 {
        output := chunk.GetOutput();
        OpenTop(mode, contents, chunk.data, chunk.chunkCounter);
        output := RollUpStack(output, cvStackLen);
      } else {
        ghost var stack := Stack();
        LazyTop(mode, contents, stack, chunk.chunkCounter, lazyK, lazyE);
        assert stack[..|stack| - 2] == cvStack[..cvStackLen - 2];
        output := ParentOutput(mode, cvStack[cvStackLen - 2], cvStack[cvStackLen - 1]);
        output := RollUpStack(output, cvStackLen - 2);
      }
    }

    method FinalizeSeek(seek: nat, out: array<byte>)
      requires Valid() && out != chunk.buf
      modifies out
      ensures out[..] == Hash(mode, contents, seek, out.Length)
    {
      if out.Length == 0 {
        return;
      }
      var output := RootNode();
      OutputRootBytes(mode, output, seek, out);
    }

    method Finalize(out: array<byte>)
      requires Valid() && out != chunk.buf
      modifies out
      ensures out[..] == Hash(mode, contents, 0, out.Length)
    {
      FinalizeSeek(0, out);
    }

    method Reset()
      requires Valid()
      modifies this, chunk, chunk.buf
      ensures Valid() && contents == []
    {
      chunk.Reset(0);
      cvStackLen := 0;
      contents := [];
    }
  }
}
