/** Different messages have different hashes, unless the compression function does not tell two of
  * its inputs apart: the tree itself adds no collisions. */
module Collisions {
  import opened Basics
  import opened Tree
  import opened Compressions

  predicate Collide(k: Kernel, x: Output, y: Output) {
    x != y && Compressed(k, x) == Compressed(k, y)
  }

  ghost predicate Takes(calls: seq<Call>, x: Output) {
    exists c :: c in calls && c.input == x
  }

  /** One call of each side has another input and the same result. */
  ghost predicate Found(k: Kernel, a: seq<Call>, b: seq<Call>) {
    exists x, y :: Takes(a, x) && Takes(b, y) && Collide(k, x, y)
  }

  /** Storing a chaining value loses nothing. */
  ghost predicate Lossless(k: Kernel) {
    forall v, w :: k.storeCv(v) == k.storeCv(w) ==> v == w
  }

  lemma FoundWithin(k: Kernel, a: seq<Call>, b: seq<Call>, a': seq<Call>, b': seq<Call>)
    requires Found(k, a, b) && (forall c :: c in a ==> c in a') && (forall c :: c in b ==> c in b')
    ensures Found(k, a', b')
  {
    var x, y :| Takes(a, x) && Takes(b, y) && Collide(k, x, y);
    assert Takes(a', x) && Takes(b', y);
  }

  lemma FoundHere(k: Kernel, a: seq<Call>, b: seq<Call>, c: Call, d: Call)
    requires c in a && d in b && Collide(k, c.input, d.input)
    ensures Found(k, a, b)
  {
    assert Takes(a, c.input) && Takes(b, d.input);
  }

  lemma FirstShows(flags: byte, i: nat, j: nat)
    requires flags & 1 == 0 && flags | StartFlag(i) == flags | StartFlag(j)
    ensures i == 0 <==> j == 0
  {
  }

  lemma {:induction false} ChainsCollide(m: Mode, a: seq<byte>, b: seq<byte>, ca: nat, cb: nat, i: nat, j: nat)
    requires m.flags & 1 == 0 && 64 * i <= |a| && 64 * j <= |b| && (i == 0 <==> j == 0)
    requires ChunkChain(m, a, ca, i) == ChunkChain(m, b, cb, j)
    ensures (i == j && a[..64 * i] == b[..64 * j])
            || Found(m.kernel, BlockCalls(m, a, ca, i), BlockCalls(m, b, cb, j))
    decreases i
  {
    hide ChunkChain, Found, StartFlag, FullBlocks, Compressed;
    if i > 0 {
      var c, d := BlockCall(m, a, ca, i), BlockCall(m, b, cb, j);
      ChainNext(m, a, ca, i - 1);
      ChainNext(m, b, cb, j - 1);
      if c.input != d.input {
        FoundHere(m.kernel, BlockCalls(m, a, ca, i), BlockCalls(m, b, cb, j), c, d);
      } else {
        FirstShows(m.flags, i - 1, j - 1);
        ChainsCollide(m, a, b, ca, cb, i - 1, j - 1);
        if i == j && a[..64 * (i - 1)] == b[..64 * (j - 1)] {
          assert a[..64 * i] == a[..64 * (i - 1)] + c.input.block;
          assert b[..64 * j] == b[..64 * (j - 1)] + d.input.block;
        } else {
          FoundWithin(m.kernel, BlockCalls(m, a, ca, i - 1), BlockCalls(m, b, cb, j - 1),
                      BlockCalls(m, a, ca, i), BlockCalls(m, b, cb, j));
        }
      }
    }
  }

  lemma LastShows(flags: byte, i: nat, j: nat)
    requires flags & 1 == 0 && flags | StartFlag(i) | CHUNK_END == flags | StartFlag(j) | CHUNK_END
    ensures i == 0 <==> j == 0
  {
  }

  lemma ChunksCollide(m: Mode, a: seq<byte>, b: seq<byte>, ca: nat, cb: nat)
    requires m.flags & 1 == 0 && ChunkOutput(m, a, ca) == ChunkOutput(m, b, cb)
    ensures a == b || Found(m.kernel, BlockCalls(m, a, ca, FullBlocks(|a|)), BlockCalls(m, b, cb, FullBlocks(|b|)))
  {
    hide ChunkChain, Found, StartFlag, FullBlocks;
    var i, j := FullBlocks(|a|), FullBlocks(|b|);
    var x, y := ChunkOutput(m, a, ca), ChunkOutput(m, b, cb);
    LastShows(m.flags, i, j);
    ChainsCollide(m, a, b, ca, cb, i, j);
    if i == j && a[..64 * i] == b[..64 * j] {
      assert a[64 * i..] == x.block[..x.blockLen];
      assert b[64 * j..] == y.block[..y.blockLen];
      assert a == a[..64 * i] + a[64 * i..] && b == b[..64 * j] + b[64 * j..];
    }
  }

  lemma KindsOfNode(m: Mode, chunk: seq<byte>, counter: nat, left: Cv, right: Cv)
    requires m.flags & 7 == 0
    ensures ChunkOutput(m, chunk, counter) != ParentOutput(m, left, right)
  {
    hide ChunkChain;
    assert ChunkOutput(m, chunk, counter).flags & 2 == 2;
    assert ParentOutput(m, left, right).flags & 2 == 0;
  }

  lemma ParentHalves(m: Mode, l: Cv, r: Cv, l': Cv, r': Cv)
    requires ParentOutput(m, l, r) == ParentOutput(m, l', r')
    ensures l == l' && r == r'
  {
    assert l == (l + r)[..32] && r == (l + r)[32..];
    assert l' == (l' + r')[..32] && r' == (l' + r')[32..];
  }

  /** Two subtrees with the same last compression hold the same bytes, or one of the compressions
    * below collides with one of the other side. */
  lemma {:induction false} RootsCollide(m: Mode, a: seq<byte>, b: seq<byte>, ca: nat, cb: nat)
    requires m.flags & 7 == 0 && Lossless(m.kernel) && SubtreeOutput(m, a, ca) == SubtreeOutput(m, b, cb)
    ensures a == b || Found(m.kernel, Below(m, a, ca), Below(m, b, cb))
    decreases |a|, 0
  {
    hide ChunkOutput, ParentOutput, Found, Lossless, LeftLen, BlockCalls;
    if |a| <= CHUNK_LEN && |b| <= CHUNK_LEN {
      ChunksCollide(m, a, b, ca, cb);
    } else if |a| <= CHUNK_LEN {
      var n := LeftLen(|b|);
      KindsOfNode(m, a, ca, SubtreeCv(m, b[..n], cb), SubtreeCv(m, b[n..], cb + n / 1024));
    } else if |b| <= CHUNK_LEN {
      var n := LeftLen(|a|);
      KindsOfNode(m, b, cb, SubtreeCv(m, a[..n], ca), SubtreeCv(m, a[n..], ca + n / 1024));
    } else {
      var i, j := LeftLen(|a|), LeftLen(|b|);
      ParentHalves(m, SubtreeCv(m, a[..i], ca), SubtreeCv(m, a[i..], ca + i / 1024),
                   SubtreeCv(m, b[..j], cb), SubtreeCv(m, b[j..], cb + j / 1024));
      CvsCollide(m, a[..i], b[..j], ca, cb);
      CvsCollide(m, a[i..], b[j..], ca + i / 1024, cb + j / 1024);
      if a[..i] == b[..j] && a[i..] == b[j..] {
        assert a == a[..i] + a[i..] && b == b[..j] + b[j..];
      } else if a[..i] != b[..j] {
        FoundWithin(m.kernel, Calls(m, a[..i], ca), Calls(m, b[..j], cb), Below(m, a, ca), Below(m, b, cb));
      } else {
        FoundWithin(m.kernel, Calls(m, a[i..], ca + i / 1024), Calls(m, b[j..], cb + j / 1024),
                    Below(m, a, ca), Below(m, b, cb));
      }
    }
  }

  lemma {:induction false} CvsCollide(m: Mode, a: seq<byte>, b: seq<byte>, ca: nat, cb: nat)
    requires m.flags & 7 == 0 && Lossless(m.kernel) && SubtreeCv(m, a, ca) == SubtreeCv(m, b, cb)
    ensures a == b || Found(m.kernel, Calls(m, a, ca), Calls(m, b, cb))
    decreases |a|, 1
  {
    hide SubtreeOutput, Found, Below;
    var c := Call(LastPlace(|a|, ca), SubtreeOutput(m, a, ca));
    var d := Call(LastPlace(|b|, cb), SubtreeOutput(m, b, cb));
    assert c in Calls(m, a, ca) && d in Calls(m, b, cb);
    if c.input == d.input {
      RootsCollide(m, a, b, ca, cb);
      if a != b {
        FoundWithin(m.kernel, Below(m, a, ca), Below(m, b, cb), Calls(m, a, ca), Calls(m, b, cb));
      }
    } else {
      FoundHere(m.kernel, Calls(m, a, ca), Calls(m, b, cb), c, d);
    }
  }

  // Whole messages

  /** The last compression of a message yields its output stream, block by block, under the flag 8. */
  lemma StreamOfRoot(m: Mode, message: seq<byte>, seek: nat, n: nat, j: nat)
    requires j < n
    ensures var x := SubtreeOutput(m, message, 0);
            Hash(m, message, seek, n)[j]
            == m.kernel.compressXof(x.inputCv, x.block, x.blockLen, (seek + j) / 64, x.flags | 8)[(seek + j) % 64]
  {
    hide SubtreeOutput;
    var x := SubtreeOutput(m, message, 0);
    assert RootBytes(m, x, seek, n)[j] == RootByte(m, x, seek + j);
  }

  /** Block i of the output stream by a root's own compression. */
  function RootStream(k: Kernel, x: Output, i: nat): Block {
    k.compressXof(x.inputCv, x.block, x.blockLen, i, x.flags | 8)
  }

  lemma SameFirstBlock(m: Mode, a: seq<byte>, b: seq<byte>)
    requires Hash(m, a, 0, 64) == Hash(m, b, 0, 64)
    ensures RootStream(m.kernel, SubtreeOutput(m, a, 0), 0) == RootStream(m.kernel, SubtreeOutput(m, b, 0), 0)
  {
    hide SubtreeOutput, Hash;
    var x, y := RootStream(m.kernel, SubtreeOutput(m, a, 0), 0), RootStream(m.kernel, SubtreeOutput(m, b, 0), 0);
    forall j | 0 <= j < 64
      ensures x[j] == y[j]
    {
      StreamOfRoot(m, a, 0, 64, j);
      StreamOfRoot(m, b, 0, 64, j);
    }
  }

  /** Two messages whose output streams start alike are the same, or their roots differ and collide,
    * or two compressions below collide. */
  lemma DigestsCollide(m: Mode, a: seq<byte>, b: seq<byte>)
    requires m.flags & 7 == 0 && Lossless(m.kernel) && Hash(m, a, 0, 64) == Hash(m, b, 0, 64)
    ensures var x, y := SubtreeOutput(m, a, 0), SubtreeOutput(m, b, 0);
            || a == b
            || (x != y && RootStream(m.kernel, x, 0) == RootStream(m.kernel, y, 0))
            || Found(m.kernel, Below(m, a, 0), Below(m, b, 0))
  {
    hide SubtreeOutput, Hash, RootStream, Found, Lossless;
    SameFirstBlock(m, a, b);
    if SubtreeOutput(m, a, 0) == SubtreeOutput(m, b, 0) {
      RootsCollide(m, a, b, 0, 0);
    }
  }
}
