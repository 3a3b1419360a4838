/** What the compression function starts from, in numbers: c/blake3/blake3_portable.c and the first
  * four vectors of the row kernels; and what follows for the hash that is built from it. */
module StartStates {
  import opened Basics
  import opened Bits
  import opened Tree
  import opened Rounds
  import opened RowKernel
  import opened Compress
  import opened Compressions
  import opened Collisions

  // Words and their numbers

  function Value(w: word): nat {
    w as nat
  }

  lemma Doubled(w: word)
    requires w < 0x8000_0000
    ensures (w << 1) as nat == 2 * w as nat
  {
  }

  lemma DoubledAndOne(w: word)
    requires w < 0x8000_0000
    ensures ((w << 1) | 1) as nat == 2 * w as nat + 1
  {
  }

  lemma SmallWord(w: word)
    requires w as nat < 0x8000_0000
    ensures w < 0x8000_0000
  {
  }

  lemma Next(w: word)
    requires Value(w) < 0x8000_0000
    ensures Value(w << 1) == 2 * Value(w) && Value((w << 1) | 1) == 2 * Value(w) + 1
  {
    SmallWord(w);
    Doubled(w);
    DoubledAndOne(w);
  }

  lemma ZeroValue()
    ensures Value(0) == 0
  {
  }

  /** Every number below 2^32 is that of a word, found bit by bit. */
  lemma {:induction false} WordOf(n: nat) returns (w: word)
    requires n < TWO_32
    ensures Value(w) == n
  {
    hide Value;
    if n == 0 {
      w := 0;
      ZeroValue();
    } else {
      var half := WordOf(n / 2);
      Next(half);
      w := if n % 2 == 0 then half << 1 else (half << 1) | 1;
    }
  }

  lemma BackAgain(w: word)
    ensures (w as nat) as word == w
  {
  }

  lemma ToWordNumber(n: nat)
    requires n < TWO_32
    ensures Value(ToWord(n)) == n
  {
    var w := WordOf(n);
    BackAgain(w);
  }

  lemma FourBytes(b0: byte, b1: byte, b2: byte, b3: byte)
    ensures ((b0 as word) | ((b1 as word) << 8) | ((b2 as word) << 16) | ((b3 as word) << 24)) as nat
            == b0 as nat + 0x100 * b1 as nat + 0x1_0000 * b2 as nat + 0x100_0000 * b3 as nat
  {
  }

  /** A loaded word is the little-endian number of its bytes. */
  lemma LoadedNumber(bytes: seq<byte>, i: nat)
    requires 4 * i + 4 <= |bytes|
    ensures Value(LoadWord(bytes, i))
            == bytes[4 * i] as nat + 0x100 * bytes[4 * i + 1] as nat + 0x1_0000 * bytes[4 * i + 2] as nat
               + 0x100_0000 * bytes[4 * i + 3] as nat
  {
    FourBytes(bytes[4 * i], bytes[4 * i + 1], bytes[4 * i + 2], bytes[4 * i + 3]);
  }

  // The start state

  function Start(x: Output): State<word> {
    InitState(x.inputCv, LenByte(x.blockLen), x.counter, x.flags)
  }

  lemma LenNumber(n: nat)
    requires n <= 64
    ensures Value(LenByte(n) as word) == n
  {
  }

  lemma CounterNumber(n: nat)
    ensures Value(CounterLow(n)) + 0x1_0000_0000 * Value(CounterHigh(n)) == n % 0x1_0000_0000_0000_0000
  {
    hide ToWord, Value;
    ToWordNumber(n % TWO_32);
    ToWordNumber(n / TWO_32 % TWO_32);
  }

  lemma FlagsNumber(f: byte)
    ensures Value(f as word) == f as nat
  {
  }

  /** By their numbers: the state holds the chaining value, half of the initial words, the low 64 bits
    * of the counter, the block length and the flags. */
  lemma StartHolds(x: Output)
    requires x.blockLen <= 64
    ensures var s := Start(x);
      && [s.v0, s.v1, s.v2, s.v3, s.v4, s.v5, s.v6, s.v7] == CvWords(x.inputCv)
      && [s.v8, s.v9, s.v10, s.v11] == [0x6A09E667, 0xBB67AE85, 0x3C6EF372, 0xA54FF53A]
      && Value(s.v12) + 0x1_0000_0000 * Value(s.v13) == x.counter % 0x1_0000_0000_0000_0000
      && Value(s.v14) == x.blockLen
      && Value(s.v15) == x.flags as nat
  {
    hide LenByte, CounterLow, CounterHigh, Value;
    LenNumber(x.blockLen);
    CounterNumber(x.counter);
    FlagsNumber(x.flags);
  }

  /** The row kernels start from the same words. */
  lemma RowsStart(x: Output)
    ensures ToState(InitRows(x.inputCv, LenByte(x.blockLen), x.counter, x.flags)) == Start(x)
  {
  }

  /** The state determines what it was made from. */
  lemma StartDetermines(x: Output, y: Output)
    requires x.blockLen <= 64 && y.blockLen <= 64
    requires x.counter < 0x1_0000_0000_0000_0000 && y.counter < 0x1_0000_0000_0000_0000
    requires Start(x) == Start(y) && x.block == y.block
    ensures x == y
  {
    hide Start, Value;
    StartHolds(x);
    StartHolds(y);
    SameFlags(x.flags, y.flags);
  }

  lemma SameFlags(f: byte, g: byte)
    requires f as nat == g as nat
    ensures f == g
  {
  }

  // The initial words

  /** f is the first 32 bits of the fraction of the square root of p, whose whole part is s. */
  predicate RootFraction(p: nat, s: nat, f: nat) {
    var x := s * 0x1_0000_0000 + f;
    f < 0x1_0000_0000 && x * x <= p * 0x1_0000_0000_0000_0000 < (x + 1) * (x + 1)
  }

  /** The IV is that of SHA-256, FIPS 180-4 section 5.3.3: the square roots of the first eight primes. */
  lemma InitialWords()
    ensures RootFraction(2, 1, Value(IV.w0)) && RootFraction(3, 1, Value(IV.w1))
    ensures RootFraction(5, 2, Value(IV.w2)) && RootFraction(7, 2, Value(IV.w3))
    ensures RootFraction(11, 3, Value(IV.w4)) && RootFraction(13, 3, Value(IV.w5))
    ensures RootFraction(17, 4, Value(IV.w6)) && RootFraction(19, 4, Value(IV.w7))
  {
  }

  // What a digest tells about its message

  lemma StoreLossless(p: Ops<word>)
    ensures Lossless(KernelOf(p))
  {
    forall v: Words8, w: Words8 | StoreCv(v) == StoreCv(w)
      ensures v == w
    {
      LoadStored(CvWords(v));
      LoadStored(CvWords(w));
    }
  }

  /** A start state and a block: all that the compression function works on. */
  datatype Started = Started(state: State<word>, block: seq<byte>)

  function StartedFrom(x: Output): Started {
    Started(Start(x), x.block)
  }

  /** The compression that yields the first block of an output stream. */
  function AsRoot(x: Output): Output {
    x.(counter := 0, flags := x.flags | 8)
  }

  function FirstBlock(k: Kernel, x: Output): Block {
    k.compressXof(x.inputCv, x.block, x.blockLen, x.counter, x.flags)
  }

  /** Compressions of the two messages, both below the root or both at it, that start differently and
    * end in the same chaining value or output block. */
  ghost predicate Clash(m: Mode, a: seq<byte>, b: seq<byte>, x: Output, y: Output) {
    && StartedFrom(x) != StartedFrom(y)
    && ((Takes(Below(m, a, 0), x) && Takes(Below(m, b, 0), y) && Compressed(m.kernel, x) == Compressed(m.kernel, y))
        || (&& x == AsRoot(SubtreeOutput(m, a, 0)) && y == AsRoot(SubtreeOutput(m, b, 0))
            && FirstBlock(m.kernel, x) == FirstBlock(m.kernel, y)))
  }

  lemma InputBounds(m: Mode, message: seq<byte>, c: Call)
    requires |message| < TWO_64 && c in Calls(m, message, 0)
    ensures c.input.blockLen <= 64 && c.input.counter < TWO_64
  {
    hide Calls;
    CallsLawful(m, message, 0);
    CallCounters(m, message, 0);
    assert Lawful(m, c);
  }

  lemma BelowStartsApart(m: Mode, a: seq<byte>, b: seq<byte>, x: Output, y: Output)
    requires |a| < TWO_64 && |b| < TWO_64 && Takes(Below(m, a, 0), x) && Takes(Below(m, b, 0), y) && x != y
    ensures StartedFrom(x) != StartedFrom(y)
  {
    hide Below, Start;
    var c :| c in Below(m, a, 0) && c.input == x;
    var d :| d in Below(m, b, 0) && d.input == y;
    assert c in Calls(m, a, 0) && d in Calls(m, b, 0);
    InputBounds(m, a, c);
    InputBounds(m, b, d);
    if StartedFrom(x) == StartedFrom(y) {
      StartDetermines(x, y);
    }
  }

  lemma RootFlags(f: byte, g: byte)
    requires f & 8 == 0 && g & 8 == 0 && f | 8 == g | 8
    ensures f == g
  {
  }

  lemma RootsStartApart(m: Mode, a: seq<byte>, b: seq<byte>)
    requires m.flags & 8 == 0 && SubtreeOutput(m, a, 0) != SubtreeOutput(m, b, 0)
    ensures StartedFrom(AsRoot(SubtreeOutput(m, a, 0))) != StartedFrom(AsRoot(SubtreeOutput(m, b, 0)))
  {
    hide SubtreeOutput, Start;
    var x, y := SubtreeOutput(m, a, 0), SubtreeOutput(m, b, 0);
    RootIs(m, a);
    RootIs(m, b);
    if StartedFrom(AsRoot(x)) == StartedFrom(AsRoot(y)) {
      StartDetermines(AsRoot(x), AsRoot(y));
      RootFlags(x.flags, y.flags);
    }
  }

  lemma RootIs(m: Mode, message: seq<byte>)
    requires m.flags & 8 == 0
    ensures var x := SubtreeOutput(m, message, 0); x.blockLen <= 64 && x.counter == 0 && x.flags & 8 == 0
  {
    hide SubtreeOutput;
    LastLawful(m, message, 0);
  }

  /** If two messages have the same digest, of 64 bytes, they are the same message, or the compression
    * function brings two different start states or blocks to the same end. */
  lemma DigestsTell(p: Ops<word>, key: Words8, flags: byte, a: seq<byte>, b: seq<byte>)
    requires flags & 15 == 0 && |a| < TWO_64 && |b| < TWO_64
    requires var m := Mode(KernelOf(p), key, flags); Hash(m, a, 0, 64) == Hash(m, b, 0, 64)
    ensures a == b || exists x, y :: Clash(Mode(KernelOf(p), key, flags), a, b, x, y)
  {
    hide KernelOf, Hash, SubtreeOutput, Below, Takes, Lossless, StartedFrom;
    var m := Mode(KernelOf(p), key, flags);
    StoreLossless(p);
    DigestsCollide(m, a, b);
    var x, y := SubtreeOutput(m, a, 0), SubtreeOutput(m, b, 0);
    if a != b {
      if Found(m.kernel, Below(m, a, 0), Below(m, b, 0)) {
        var u, v :| Takes(Below(m, a, 0), u) && Takes(Below(m, b, 0), v) && Collide(m.kernel, u, v);
        BelowStartsApart(m, a, b, u, v);
        assert Clash(m, a, b, u, v);
      } else {
        RootsStartApart(m, a, b);
        assert Clash(m, a, b, AsRoot(x), AsRoot(y));
      }
    }
  }
}
