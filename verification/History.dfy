/** Whole runs of one hasher, and the repository's own use of it. */
module Histories {
  import opened Basics
  import opened Bits
  import opened Tree
  import opened Subtrees
  import opened Hashers

  datatype Op = Update(input: seq<byte>) | FinalizeSeek(seek: nat, n: nat) | Reset

  /** The message after an operation. */
  function After(message: seq<byte>, op: Op): seq<byte> {
    match op
    case Update(input) => message + input
    case FinalizeSeek(_, _) => message
    case Reset => []
  }

  /** What an operation returns: a read yields a stretch of the message's output stream. */
  function Returned(m: Mode, message: seq<byte>, op: Op): seq<seq<byte>> {
    match op
    case Update(_) => []
    case FinalizeSeek(seek, n) => [Hash(m, message, seek, n)]
    case Reset => []
  }

  /** The outputs of a history, by the tree hash of the message since the last reset. */
  function Replay(m: Mode, message: seq<byte>, ops: seq<Op>): seq<seq<byte>>
    decreases |ops|
  {
    if ops == [] then []
    else Returned(m, message, ops[0]) + Replay(m, After(message, ops[0]), ops[1..])
  }

  /** No message of the history reaches 2^64 bytes, the length BLAKE3 is defined for. */
  predicate Fits(message: seq<byte>, ops: seq<Op>)
    decreases |ops|
  {
    |message| < TWO_64 && (ops == [] || Fits(After(message, ops[0]), ops[1..]))
  }

  method Perform(h: Hasher, op: Op) returns (outs: seq<seq<byte>>)
    requires h.Valid() && |After(h.contents, op)| < TWO_64
    modifies h, h.chunk, h.chunk.buf, h.cvStack
    ensures h.Valid() && h.contents == After(old(h.contents), op)
    ensures outs == Returned(h.mode, old(h.contents), op)
  {
    outs := [];
    match op
    case Update(input) =>
      h.Update(input);
    case FinalizeSeek(seek, n) =>
      var out := new byte[n];
      h.FinalizeSeek(seek, out);
      outs := [out[..]];
    case Reset =>
      h.Reset();
  }

  /** Any interleaving of updates, reads and resets yields exactly the specified outputs. */
  method Run(h: Hasher, ops0: seq<Op>) returns (outs: seq<seq<byte>>)
    requires h.Valid() && Fits(h.contents, ops0)
    modifies h, h.chunk, h.chunk.buf, h.cvStack
    ensures h.Valid()
    ensures outs == Replay(h.mode, old(h.contents), ops0)
  {
    var ops := ops0;
    outs := [];
    while ops != []
      invariant h.Valid() && Fits(h.contents, ops)
      invariant outs + Replay(h.mode, h.contents, ops) == Replay(h.mode, old(h.contents), ops0)
      decreases |ops|
    {
      FitsNow(After(h.contents, ops[0]), ops[1..]);
      var returned := Perform(h, ops[0]);
      outs := outs + returned;
      ops := ops[1..];
    }
  }

  lemma FitsNow(message: seq<byte>, ops: seq<Op>)
    requires Fits(message, ops)
    ensures |message| < TWO_64
  {
  }

  /** How the input is split over updates never matters. */
  lemma SplitNeverMatters(m: Mode, message: seq<byte>, a: seq<byte>, b: seq<byte>, rest: seq<Op>)
    ensures Replay(m, message, [Update(a), Update(b)] + rest) == Replay(m, message, [Update(a + b)] + rest)
  {
    assert message + a + b == message + (a + b);
    var two := [Update(a), Update(b)] + rest;
    assert two[1..][1..] == rest && ([Update(a + b)] + rest)[1..] == rest;
  }

  /** Two reads side by side return the two parts of what one longer read returns. */
  lemma ReadsJoin(m: Mode, message: seq<byte>, seek: nat, a: nat, b: nat, rest: seq<Op>)
    ensures var two := Replay(m, message, [FinalizeSeek(seek, a), FinalizeSeek(seek + a, b)] + rest);
            var one := Replay(m, message, [FinalizeSeek(seek, a + b)] + rest);
            |two| >= 2 && |one| >= 1 && two[0] + two[1] == one[0] && two[2..] == one[1..]
  {
    RootBytesAdjacent(m, SubtreeOutput(m, message, 0), seek, a, b);
    var two, one := [FinalizeSeek(seek, a), FinalizeSeek(seek + a, b)] + rest, [FinalizeSeek(seek, a + b)] + rest;
    assert two[1..][1..] == rest && one[1..] == rest;
  }

  /** The key derivation of the handshake: the info label first, then the key material. */
  method Blake3Kdf(kernel: Kernel, degree: nat, ikm: seq<byte>, info: seq<byte>, out: array<byte>)
    requires ValidDegree(degree) && |info| + |ikm| < TWO_64 && out.Length == 32
    modifies out
    ensures out[..] == Hash(Mode(kernel, IV, 0), info + ikm, 0, 32)
  {
    var hasher := new Hasher(Mode(kernel, IV, 0), degree);
    hasher.Update(info);
    hasher.Update(ikm);
    assert hasher.contents == info + ikm;
    hasher.Finalize(out);
  }
}
