/** Keyed hashing and key derivation: c/blake3/blake3.c, the hasher's other constructors. */
module KeyedHashes {
  import opened Basics
  import opened Bits
  import opened Tree
  import opened Subtrees
  import opened Compress
  import opened Compressions
  import opened Collisions
  import opened Hashers
  import opened Histories

  const KEY_LEN: nat := 32

  /** load_key_words. */
  function KeyWords(key: seq<byte>): Words8
    requires |key| == KEY_LEN
  {
    ToWords8(LoadWords(key, 8))
  }

  /** Keyed hashing is marked by the flag 16, a context by 32 and key material by 64. */
  function KeyedMode(kernel: Kernel, key: seq<byte>): Mode
    requires |key| == KEY_LEN
  {
    Mode(kernel, KeyWords(key), 16)
  }

  /** The key that a context stands for is its hash, of a kind of its own: BLAKE3 paper, section 2.3. */
  function ContextKey(kernel: Kernel, context: seq<byte>): (r: seq<byte>)
    ensures |r| == KEY_LEN
  {
    Hash(Mode(kernel, IV, 32), context, 0, KEY_LEN)
  }

  function DeriveMode(kernel: Kernel, context: seq<byte>): Mode {
    Mode(kernel, KeyWords(ContextKey(kernel, context)), 64)
  }

  /** blake3_hasher_init_keyed. */
  method InitKeyed(kernel: Kernel, degree: nat, key: seq<byte>) returns (h: Hasher)
    requires ValidDegree(degree) && |key| == KEY_LEN
    ensures h.Valid() && h.contents == [] && h.mode == KeyedMode(kernel, key) && h.degree == degree
    ensures fresh(h) && fresh(h.chunk) && fresh(h.chunk.buf) && fresh(h.cvStack)
  {
    h := new Hasher(Mode(kernel, KeyWords(key), KEYED_HASH), degree);
  }

  /** blake3_hasher_init_derive_key_raw: one hasher for the context, whose hash is the key of the other. */
  method InitDeriveKeyRaw(kernel: Kernel, degree: nat, context: seq<byte>) returns (h: Hasher)
    requires ValidDegree(degree) && |context| < TWO_64
    ensures h.Valid() && h.contents == [] && h.mode == DeriveMode(kernel, context) && h.degree == degree
    ensures fresh(h) && fresh(h.chunk) && fresh(h.chunk.buf) && fresh(h.cvStack)
  {
    var contextHasher := new Hasher(Mode(kernel, IV, DERIVE_KEY_CONTEXT), degree);
    contextHasher.Update(context);
    assert [] + context == context;
    var contextKey := new byte[KEY_LEN];
    contextHasher.Finalize(contextKey);
    h := new Hasher(Mode(kernel, KeyWords(contextKey[..]), DERIVE_KEY_MATERIAL), degree);
  }

  /** Any history of a keyed hasher, and of one that derives keys. */
  method RunKeyed(kernel: Kernel, degree: nat, key: seq<byte>, ops: seq<Op>) returns (outs: seq<seq<byte>>)
    requires ValidDegree(degree) && |key| == KEY_LEN && Fits([], ops)
    ensures outs == Replay(KeyedMode(kernel, key), [], ops)
  {
    var h := InitKeyed(kernel, degree, key);
    outs := Run(h, ops);
  }

  method RunDerived(kernel: Kernel, degree: nat, context: seq<byte>, ops: seq<Op>) returns (outs: seq<seq<byte>>)
    requires ValidDegree(degree) && |context| < TWO_64 && Fits([], ops)
    ensures outs == Replay(DeriveMode(kernel, context), [], ops)
  {
    var h := InitDeriveKeyRaw(kernel, degree, context);
    outs := Run(h, ops);
  }

  // What keeps the kinds of hash apart

  /** The key words hold every byte of the key. */
  lemma KeyWordsLossless(a: seq<byte>, b: seq<byte>)
    requires |a| == |b| == KEY_LEN && KeyWords(a) == KeyWords(b)
    ensures a == b
  {
    hide StoreWords, LoadWord;
    assert LoadWords(a, 8) == CvWords(KeyWords(a)) && LoadWords(b, 8) == CvWords(KeyWords(b));
    StoreLoaded(a, 8);
    StoreLoaded(b, 8);
  }

  /** The kernels agree wherever the flags are those of a kind of hash: below the root, where 8 is not
    * among them, and at the root, where it is.  Anywhere else they may differ. */
  ghost predicate AgreeOn(kind: byte, k: Kernel, l: Kernel) {
    && k.storeCv == l.storeCv
    && (forall cv, block, len, counter, flags :: flags & 0x78 == kind ==>
          k.compressInPlace(cv, block, len, counter, flags) == l.compressInPlace(cv, block, len, counter, flags))
    && (forall cv, block, len, counter, flags :: flags & 0x78 == kind | 8 ==>
          k.compressXof(cv, block, len, counter, flags) == l.compressXof(cv, block, len, counter, flags))
  }

  /** The flags that mark a node's place in the tree do not disturb those of its kind. */
  lemma FlagsKeep(flags: byte, c: Call, m: Mode)
    requires Lawful(m, c) && m.flags == flags && flags & 8 == 0
    ensures c.input.flags & 0x78 == flags & 0x70 && (c.input.flags | 8) & 0x78 == (flags & 0x70) | 8
  {
  }

  lemma BelowAgrees(m: Mode, l: Kernel, message: seq<byte>)
    requires m.flags & 8 == 0 && AgreeOn(m.flags & 0x70, m.kernel, l)
    ensures AgreeAt(m.kernel, l, Below(m, message, 0))
  {
    hide Lawful, Below, AllLawful;
    var calls := Calls(m, message, 0);
    CallsLawful(m, message, 0);
    forall c | c in Below(m, message, 0)
      ensures Compressed(m.kernel, c.input) == Compressed(l, c.input)
    {
      assert c in calls;
      ThatLawful(m, calls, c);
      FlagsKeep(m.flags, c, m);
    }
  }

  lemma ThatLawful(m: Mode, calls: seq<Call>, c: Call)
    requires AllLawful(m, calls) && c in calls
    ensures Lawful(m, c)
  {
  }

  /** A hash of one kind calls the compression function only with the flags of that kind, whatever the
    * message, and only its output is taken under the flag of the root: it does not change when the
    * function is changed everywhere else.  So plain hashes, keyed ones, contexts and key material never
    * share a compression, and neither do an output and a chaining value. */
  lemma KindsApart(flags: byte, k: Kernel, l: Kernel, key: Words8, message: seq<byte>, seek: nat, n: nat)
    requires flags & 8 == 0 && AgreeOn(flags & 0x70, k, l)
    ensures Hash(Mode(k, key, flags), message, seek, n) == Hash(Mode(l, key, flags), message, seek, n)
  {
    hide SubtreeOutput, AgreeOn, Hash, Below, AgreeAt, Lawful, LastPlace;
    var m, m' := Mode(k, key, flags), Mode(l, key, flags);
    BelowAgrees(m, l, message);
    StoreAgrees(flags & 0x70, k, l);
    RootDepends(m, m', message, 0);
    var x, a, b := SubtreeOutput(m, message, 0), Hash(m, message, seek, n), Hash(m', message, seek, n);
    LastLawful(m, message, 0);
    FlagsKeep(flags, Call(LastPlace(|message|, 0), x), m);
    forall j | 0 <= j < n
      ensures a[j] == b[j]
    {
      StreamOfRoot(m, message, seek, n, j);
      StreamOfRoot(m', message, seek, n, j);
      XofAgrees(flags & 0x70, k, l, x, (seek + j) / 64);
    }
  }

  lemma StoreAgrees(kind: byte, k: Kernel, l: Kernel)
    requires AgreeOn(kind, k, l)
    ensures k.storeCv == l.storeCv
  {
  }

  lemma XofAgrees(kind: byte, k: Kernel, l: Kernel, x: Output, i: nat)
    requires AgreeOn(kind, k, l) && (x.flags | 8) & 0x78 == kind | 8
    ensures k.compressXof(x.inputCv, x.block, x.blockLen, i, x.flags | 8)
            == l.compressXof(x.inputCv, x.block, x.blockLen, i, x.flags | 8)
  {
  }
}
