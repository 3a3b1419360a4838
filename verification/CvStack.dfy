/** What the stack of chaining values of c/blake3/blake3.c holds: the binary decomposition of the
  * number of chunks so far, with the merges that the last push made possible still undone. */
module CvStacks {
  import opened Basics
  import opened Bits
  import opened Tree

  // Counting in units of 2^e chunks

  lemma {:induction false} ShlAdd(x: nat, y: nat, e: nat)
    ensures Shl(x + y, e) == Shl(x, e) + Shl(y, e)
  {
    if e > 0 {
      ShlAdd(x, y, e - 1);
    }
  }

  lemma {:induction false} ShlOne(e: nat)
    ensures Shl(1, e) == Pow2(e)
  {
    if e > 0 {
      ShlOne(e - 1);
    }
  }

  lemma {:induction false} ShlDouble(x: nat, e: nat)
    ensures Shl(2 * x, e) == Shl(x, e + 1)
  {
    ShlAdd(x, x, e);
  }

  /** n units of size 2^e are n / 2 units of twice the size and perhaps one unit more. */
  lemma ShlHalve(n: nat, e: nat)
    ensures Shl(n / 2, e + 1) + (if n % 2 == 1 then Pow2(e) else 0) == Shl(n, e)
    ensures n % 2 == 1 ==> Shl(n - 1, e) == Shl(n / 2, e + 1)
    ensures n > 0 ==> Shl(n - 1, e) + Pow2(e) == Shl(n, e)
  {
    ShlDouble(n / 2, e);
    ShlOne(e);
    if n > 0 {
      ShlAdd(n - 1, 1, e);
    }
  }

  // The stack

  /** The chaining value of the subtree over count chunks from chunk start on. */
  function NodeCv(m: Mode, data: seq<byte>, start: nat, count: nat): Cv
    requires 1024 * (start + count) <= |data|
  {
    SubtreeCv(m, data[1024 * start..1024 * (start + count)], start)
  }

  /** The binary decomposition of the first n units of 2^e chunks: one node for every one bit of
    * n, the largest at the bottom. */
  function Spine(m: Mode, data: seq<byte>, n: nat, e: nat): (r: seq<Cv>)
    requires 1024 * Shl(n, e) <= |data|
    ensures |r| == PopCount(n)
  {
    if n == 0 then []
    else
      ShlHalve(n, e);
      Spine(m, data, n / 2, e + 1) + if n % 2 == 1 then [NodeCv(m, data, Shl(n - 1, e), Pow2(e))] else []
  }

  /** The decomposition of k units of 2^e chunks with one more unit, unmerged, on top. */
  function LazySpine(m: Mode, data: seq<byte>, k: nat, e: nat): (r: seq<Cv>)
    requires 1024 * Shl(k + 1, e) <= |data|
    ensures |r| == PopCount(k) + 1
  {
    ShlHalve(k + 1, e);
    Spine(m, data, k, e) + [NodeCv(m, data, Shl(k, e), Pow2(e))]
  }

  /** A stack from which merging can reach the decomposition of total chunks. */
  ghost predicate Mergeable(m: Mode, data: seq<byte>, stack: seq<Cv>, total: nat) {
    && 1024 * total <= |data|
    && (stack == Spine(m, data, total, 0) || exists k, e :: IsLazy(m, data, stack, total, k, e))
  }

  ghost predicate IsLazy(m: Mode, data: seq<byte>, stack: seq<Cv>, total: nat, k: nat, e: nat) {
    1024 * total <= |data| && Shl(k + 1, e) == total && stack == LazySpine(m, data, k, e)
  }

  /** Later input does not change the nodes already on the stack. */
  lemma {:induction false} SpineExtend(m: Mode, data: seq<byte>, more: seq<byte>, n: nat, e: nat)
    requires 1024 * Shl(n, e) <= |data|
    ensures Spine(m, data + more, n, e) == Spine(m, data, n, e)
  {
    if n > 0 {
      ShlHalve(n, e);
      SpineExtend(m, data, more, n / 2, e + 1);
      if n % 2 == 1 {
        NodeExtend(m, data, more, Shl(n - 1, e), Pow2(e));
      }
    }
  }

  lemma NodeExtend(m: Mode, data: seq<byte>, more: seq<byte>, start: nat, count: nat)
    requires 1024 * (start + count) <= |data|
    ensures NodeCv(m, data + more, start, count) == NodeCv(m, data, start, count)
  {
    assert (data + more)[1024 * start..1024 * (start + count)] == data[1024 * start..1024 * (start + count)];
  }

  lemma LazyExtend(m: Mode, data: seq<byte>, more: seq<byte>, k: nat, e: nat)
    requires 1024 * Shl(k + 1, e) <= |data|
    ensures LazySpine(m, data + more, k, e) == LazySpine(m, data, k, e)
  {
    ShlHalve(k + 1, e);
    SpineExtend(m, data, more, k, e);
    NodeExtend(m, data, more, Shl(k, e), Pow2(e));
  }

  lemma MergeableExtend(m: Mode, data: seq<byte>, more: seq<byte>, stack: seq<Cv>, total: nat)
    requires Mergeable(m, data, stack, total)
    ensures Mergeable(m, data + more, stack, total)
  {
    if stack == Spine(m, data, total, 0) {
      SpineExtend(m, data, more, total, 0);
    } else {
      var k, e :| IsLazy(m, data, stack, total, k, e);
      LazyExtend(m, data, more, k, e);
      assert IsLazy(m, data + more, stack, total, k, e);
    }
  }

  /** Counting in larger units gives the same decomposition. */
  lemma {:induction false} SpineUnits(m: Mode, data: seq<byte>, n: nat, e: nat)
    requires 1024 * Shl(n, e) <= |data|
    ensures Spine(m, data, Shl(n, e), 0) == Spine(m, data, n, e)
    ensures PopCount(Shl(n, e)) == PopCount(n)
    decreases e
  {
    if e > 0 {
      ShlDouble(n, e - 1);
      SpineUnits(m, data, 2 * n, e - 1);
      assert Spine(m, data, 2 * n, e - 1) == Spine(m, data, n, e);
    }
  }

  /** Merging two neighbouring nodes of 2^e chunks gives the node of 2^(e + 1) chunks. */
  lemma MergeNodes(m: Mode, data: seq<byte>, start: nat, e: nat)
    requires 1024 * (start + Pow2(e + 1)) <= |data|
    ensures ParentCv(m, NodeCv(m, data, start, Pow2(e)), NodeCv(m, data, start + Pow2(e), Pow2(e)))
            == NodeCv(m, data, start, Pow2(e + 1))
  {
    var p := Pow2(e);
    Pow2IsPow2(e);
    var left, right := data[1024 * start..1024 * (start + p)], data[1024 * (start + p)..1024 * (start + p + p)];
    assert data[1024 * start..1024 * (start + Pow2(e + 1))] == left + right;
    SubtreeSplit(m, left, right, start, p);
  }

  /** With k even the lazy stack is already the decomposition of k + 1 units. */
  lemma LazyDone(m: Mode, data: seq<byte>, k: nat, e: nat)
    requires 1024 * Shl(k + 1, e) <= |data| && k % 2 == 0
    ensures LazySpine(m, data, k, e) == Spine(m, data, k + 1, e)
  {
    assert (k + 1) / 2 == k / 2;
    ShlHalve(k + 1, e);
    if k > 0 {
      assert Spine(m, data, k, e) == Spine(m, data, k / 2, e + 1);
    }
  }

  /** Positions of the two topmost units when k is odd. */
  lemma LazyPositions(k: nat, e: nat)
    requires k % 2 == 1
    ensures Shl(k / 2 + 1, e + 1) == Shl(k + 1, e)
    ensures Shl(k - 1, e) == Shl(k / 2, e + 1) && Shl(k, e) == Shl(k - 1, e) + Pow2(e)
    ensures Shl(k / 2 + 1, e + 1) == Shl(k / 2, e + 1) + Pow2(e + 1)
  {
    ShlHalve(k + 1, e);
    ShlHalve(k, e);
    assert (k + 1) / 2 == k / 2 + 1;
    ShlHalve(k / 2 + 1, e + 1);
  }

  /** With k odd the two topmost nodes merge, which again leaves a lazy stack. */
  lemma LazyMerge(m: Mode, data: seq<byte>, stack: seq<Cv>, k: nat, e: nat)
    requires 1024 * Shl(k + 1, e) <= |data| && k % 2 == 1
    requires stack == LazySpine(m, data, k, e)
    ensures Shl(k / 2 + 1, e + 1) == Shl(k + 1, e)
    ensures |stack| >= 2
    ensures stack[..|stack| - 2] + [ParentCv(m, stack[|stack| - 2], stack[|stack| - 1])]
            == LazySpine(m, data, k / 2, e + 1)
  {
    LazyPositions(k, e);
    var start := Shl(k - 1, e);
    MergeNodes(m, data, start, e);
    var lower := Spine(m, data, k / 2, e + 1);
    var a, b := NodeCv(m, data, start, Pow2(e)), NodeCv(m, data, start + Pow2(e), Pow2(e));
    assert stack == lower + [a] + [b];
  }

  // Roll-up

  /** Combine a node still to be finished with everything on the stack, from the top down. */
  function RollUp(m: Mode, stack: seq<Cv>, o: Output): Output {
    if stack == [] then o
    else RollUp(m, stack[..|stack| - 1], ParentOutput(m, stack[|stack| - 1], ChainingValue(m, o)))
  }

  /** The input after n whole units as one node, rolled up the decomposition of those units. */
  function Rolled(m: Mode, data: seq<byte>, n: nat, e: nat): Output
    requires 1024 * Shl(n, e) <= |data|
  {
    RollUp(m, Spine(m, data, n, e), SubtreeOutput(m, data[1024 * Shl(n, e)..], Shl(n, e)))
  }

  lemma OddSpine(m: Mode, data: seq<byte>, n: nat, e: nat, start: nat)
    requires n % 2 == 1 && start == Shl(n - 1, e) == Shl(n / 2, e + 1) && Shl(n, e) == start + Pow2(e)
    requires 1024 * (start + Pow2(e)) <= |data|
    ensures Spine(m, data, n, e) == Spine(m, data, n / 2, e + 1) + [NodeCv(m, data, start, Pow2(e))]
  {
  }

  /** What follows a whole node of p chunks hangs to the right of it. */
  lemma NodeAndRest(m: Mode, data: seq<byte>, start: nat, p: nat)
    requires IsPow2(p) && 1024 * (start + p) < |data| <= 1024 * (start + 2 * p)
    ensures SubtreeOutput(m, data[1024 * start..], start)
            == ParentOutput(m, NodeCv(m, data, start, p), ChainingValue(m, SubtreeOutput(m, data[1024 * (start + p)..], start + p)))
  {
    var left, right := data[1024 * start..1024 * (start + p)], data[1024 * (start + p)..];
    assert data[1024 * start..] == left + right;
    SubtreeSplit(m, left, right, start, p);
  }

  lemma RollTop(m: Mode, lower: seq<Cv>, cv: Cv, o: Output)
    ensures RollUp(m, lower + [cv], o) == RollUp(m, lower, ParentOutput(m, cv, ChainingValue(m, o)))
  {
    var stack := lower + [cv];
    assert stack[..|stack| - 1] == lower;
  }

  lemma RolledOdd(m: Mode, data: seq<byte>, n: nat, e: nat, start: nat)
    requires n % 2 == 1 && start == Shl(n - 1, e) == Shl(n / 2, e + 1) && Shl(n, e) == start + Pow2(e)
    requires 1024 * (start + Pow2(e)) < |data| <= 1024 * (start + 2 * Pow2(e))
    ensures Rolled(m, data, n, e) == Rolled(m, data, n / 2, e + 1)
  {
    hide SubtreeOutput, NodeCv, ParentOutput, ChainingValue;
    Pow2IsPow2(e);
    OddSpine(m, data, n, e, start);
    NodeAndRest(m, data, start, Pow2(e));
    RollTop(m, Spine(m, data, n / 2, e + 1), NodeCv(m, data, start, Pow2(e)),
            SubtreeOutput(m, data[1024 * (start + Pow2(e))..], start + Pow2(e)));
  }

  lemma RolledEven(m: Mode, data: seq<byte>, n: nat, e: nat)
    requires n % 2 == 0 && n > 0 && Shl(n, e) == Shl(n / 2, e + 1) && 1024 * Shl(n, e) <= |data|
    ensures Rolled(m, data, n, e) == Rolled(m, data, n / 2, e + 1)
  {
    assert Spine(m, data, n, e) == Spine(m, data, n / 2, e + 1);
  }

  lemma RolledNone(m: Mode, data: seq<byte>, e: nat)
    requires Shl(0, e) == 0
    ensures Rolled(m, data, 0, e) == SubtreeOutput(m, data, 0)
  {
    assert data[0..] == data;
  }

  /** Rolling a last node of at most 2^e chunks up a full decomposition gives the root of the
    * whole input. */
  lemma {:induction false} RolledIsRoot(m: Mode, data: seq<byte>, n: nat, e: nat)
    requires 1024 * Shl(n, e) < |data| <= 1024 * Shl(n + 1, e)
    ensures Rolled(m, data, n, e) == SubtreeOutput(m, data, 0)
    decreases n
  {
    hide Rolled, SubtreeOutput;
    ShlHalve(n, e);
    ShlHalve(n + 1, e);
    if n == 0 {
      RolledNone(m, data, e);
    } else {
      ShlHalve(n / 2 + 1, e + 1);
      RolledIsRoot(m, data, n / 2, e + 1);
      if n % 2 == 1 {
        RolledOdd(m, data, n, e, Shl(n - 1, e));
      } else {
        RolledEven(m, data, n, e);
      }
    }
  }
}
