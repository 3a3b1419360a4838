# Verification of the hashing, JSON and hand-off code

Dafny models of three components of the repository, with proofs of what each promises.

**BLAKE3.** `Tree.dfy` states the tree hash as a short recursive function, following the BLAKE3
paper (sections 2.1, 2.2 and 2.4 to 2.6), over an arbitrary compression function. `Bits`,
`ChunkState`, `HashMany`, `Subtree`, `CvStack`, `RootOutput`, `Hasher` and `History` model
`c/blake3/blake3.c` and prove that any interleaving of updates, seeking reads and resets returns
what that function prescribes, for every SIMD degree; `KeyedHash` does so for keyed hashing and key
derivation. `Compressions` lists the compressions that a hash takes, with what the flags, counters and
lengths of each have to be in numbers; `Collisions` and `StartState` prove from that list that the tree
adds no collisions to those of the compression function; and `KnownAnswer` follows a published test
vector through the seven rounds. `Rounds`, `RowKernel`, `Words`, `Compress`, `Portable`, `Transpose`,
`Lanes`, `Counters`, `WideHash`, `Cascades` and `Dispatch` prove that the sse2, sse41, avx2 and avx512
kernels compute what the portable code computes, for every kernel the dispatch layer may select;
`Dispatch` also closes the circle, from the histories of a hasher on any host back to the portable
compression.

**cJSON.** `Json` and `JsonParser` say which text the printer writes and what the parser reads;
`JsonRoundTrip`, `JsonString` and `JsonGrammar` prove the round trip and the agreement with RFC 8259,
RFC 2781 and RFC 3629, `JsonAccepted` that the parser accepts exactly the texts of a syntax that takes
three liberties with RFC 8259, and `JsonPrinted` that the printer takes none. `PrintBuffer` and
`ParseBuffer` are the code's own buffers with their moving offsets, proved against those functions, and
`JsonCycle` puts the two together. `ChildList` are the linked nodes with their child lists, `Trees` the
values that whole trees of them stand for, `TreeCopy` duplicates and deletes them, `TreeReplace`
replaces one below another, and `TreeCompare` compares them as `JsonCompare` specifies, which by
`JsonSimilar` is equality up to the order of members. A node holds C strings: its value is what a reader
sees of them, the bytes before the first zero (`Json.Seen`).

**Worker pool and routing.** `Engine` specifies one key exchange, sequential, handed over, or routed;
`Pool` is the two-thread protocol as a state machine with spurious wakeups, and `PoolRuns` states
what holds over all of its runs, from one initialisation to the next. Key agreement and key
encapsulation are oracles; the pool asks a new one for every call, since every call makes new keys.

Quantities that the C code keeps in 64-bit words are natural numbers; a message is shorter than
2^64 bytes, the length the hash is defined for, and counters are reduced to their low 64 bits where a
kernel uses them. Bytes of JSON text are characters below 256, and masks and shifts on code points are
written as sums and remainders (`JsonString.BitForms`).

## Findings

- `cv_stack` reserves 55 slots, and no history of fewer than 2^64 bytes uses more than 54.
- The 10 ms sleep in `engine_init` is not needed for the hand-off to be correct: the worker may start
  at any time.
- `has_work` and `work_done` are set together for an instant, between the worker's two stores
  (`c_dispatch/src/engine.c:180-181`); the mutex hides it.
- A combo marked pure classical or pure quantum that nevertheless names both primitives gets
  different results from the two engines; the router sends it to the sequential one. No combo of the
  built-in table is of this kind.
- After a failed request the parallel engine may leave a KEM secret in the struct where the sequential
  one leaves zeros.
- The routing rules described at the top of `c_dispatch/include/dispatcher.h` and
  `c_dispatch/src/dispatcher.c` differ from each other; the model follows the code.
- Appending does not clear the `next` pointer of the appended item, so an item that still points
  somewhere breaks the list (`c/cjson/cJSON.c:2047-2054`); detached and new items do not.
- No list operation refuses an item that is already in the list, and the list is then broken;
  inserting in front of an item, unlike appending, does not refuse the array itself either
  (`c/cjson/cJSON.c:2334-2366`).
- Detaching an item with the wrong parent keeps both lists intact exactly if it is neither the first
  nor the last item of its own list; a last item and a parent without children make the code follow a
  null pointer (`c/cjson/cJSON.c:2279-2283`).
- A tree with a repeated key and two values does not compare equal to its own copy, but does to
  itself, because identical pointers are equal without a look (`c/cjson/cJSON.c:3095-3099`).
- Malformed string literals are accepted: a `\uXXXX` without four hexadecimal digits is read as a zero
  byte (`c/cjson/cJSON.c:666-699`), and may even take the backslash of a later escape with it, so that
  the closing quote counts as escaped. `JsonString.AcceptedIsLiteral` says exactly when an accepted
  literal is well formed. No step writes beyond the estimated buffer, well formed or not.
- A well-formed `\u0000` in a string literal ends the string for every reader of the node, because
  all of them take it for a C string: `"a\u0000b"` parses to a node that prints, copies and compares as
  "a" (`c/cjson/cJSON.c:195-211`, `1963`, `3123`), and two keys that differ only behind a zero byte
  count as one. `JsonString.ReadsAsMeaning` says exactly when a literal reads as its meaning.
- Replacing an item by a node that hangs below it links that node into the list and then frees it,
  along with the rest of the list (`c/cjson/cJSON.c:2380-2411`).
- A byte order mark is skipped only if two more bytes follow, so a marked text of one digit without a
  terminating zero is refused (`c/cjson/cJSON.c:1123`).
- Raw control characters in string literals, which RFC 8259 section 7 excludes, are accepted.
- Outside string literals the parser takes two liberties more, and no others: every character up to
  32 is white space, and a number is whatever strtod makes of a run of number characters. Behind the
  value anything may follow, unless the caller asks for a terminating zero.
- Growing a print buffer without `realloc` copies one byte more than the text
  (`c/cjson/cJSON.c:566`); that byte lies behind the buffer exactly if the buffer is empty, as in
  `cJSON_PrintBuffered` with a size of zero.
- Two bytes more than the text are enough for `cJSON_PrintPreallocated`.

## Model

| member | source | states |
|---|---|---|
| Bits.HighestOne | c/blake3/blake3_impl.h:102-129 | for every non-zero 64-bit value the halving cascade returns the exponent of the highest one bit: 2^c <= x < 2^(c+1) |
| Bits.PopCnt | c/blake3/blake3_impl.h:132-144 | clearing the lowest one bit until nothing is left counts the one bits of the value |
| Bits.RoundDownToPowerOf2 | c/blake3/blake3_impl.h:147-149 | for every 64-bit value the largest power of two not above it, and 1 for 0 |
| Bits.FloorPow2IsLargest | c/blake3/blake3_impl.h:147-149 | that function is a power of two, at most x, and more than half of x, which singles it out |
| Tree.LeftLenUnique | c/blake3/blake3.c:162-169 | the split point is the only power-of-two number of chunks that leaves between one byte and as much again on the right |
| Compressions.RootDepends | c/blake3/blake3.c:119-337 | the listed compressions are all that the root of a message depends on: a compression function that agrees on them gives the same root |
| Compressions.CallsLawful | c/blake3/blake3_impl.h:17-25 | every compression below the root carries the flag 1 exactly on the first block of a chunk, 2 exactly on its last, 4 exactly on a parent and 8 never, beside those of the mode; its counter is the number of its chunk and 0 on parents, its length that of its bytes, and chunks and parents start from the key |
| Compressions.BytesOnce | c/blake3/blake3.c:119-145 | the blocks of the listed compressions, without their padding, are the message: every byte once and in order |
| Collisions.StreamOfRoot | c/blake3/blake3.c:90-117 | byte k of the output is byte k % 64 of the root's compression under the counter k / 64 and the flag 8 |
| Collisions.RootsCollide | c/blake3/blake3.c:269-324 | two inputs with the same last compression are the same, or two of the compressions below differ in their input and agree in their result |
| StartStates.StartHolds | c/blake3/blake3_portable.c:58-75 | the compression starts from the chaining value, four initial words, the counter's low 64 bits in two words, the block length and the flags, by their numbers |
| StartStates.RowsStart | c/blake3/blake3_sse2.c:92-96 | the row kernels start from the same state |
| StartStates.StartDetermines | c/blake3/blake3_portable.c:58-75 | start state and block determine chaining value, length, counter and flags |
| StartStates.DigestsTell | c/blake3/blake3.c:476-651 | two messages with the same first 64 bytes of output are the same message, or two compressions of theirs, both below the root or both at it, start from different states or blocks and end alike |
| StartStates.LoadedNumber | c/blake3/blake3_impl.h:157-173 | a loaded word is the little-endian number of its four bytes |
| StartStates.InitialWords | c/blake3/blake3_impl.h:86-88 | the initial words are the first 32 fractional bits of the square roots of the first eight primes |
| KnownAnswer.CountingHash | c/blake3/blake3_portable.c:37-123 | the hash of the 64 bytes 0 to 63 by the portable compression is the published one, all 64 bytes of its first output block |
| Tree.SubtreeSplit | c/blake3/blake3.c:269-324 | a subtree split at any power of two satisfying that rule is the parent of its two halves, with the right counter |
| ChunkStates.ChunkState.Update | c/blake3/blake3.c:119-145 | however a chunk of at most 1024 bytes is split over calls, the state stands for the concatenated bytes: chaining value, buffer and block count are those of the whole |
| ChunkStates.ChunkState.GetOutput | c/blake3/blake3.c:147-152 | the output of the chunk state is the reference chunk output of the bytes taken in |
| HashMany.HashOnePortable | c/blake3/blake3_portable.c:125-143 | the block loop with start and end flags computes the reference chain of compressions |
| HashMany.HashManyPortable | c/blake3/blake3_portable.c:145-160 | slot i gets the chaining value of input i under counter + i (or counter), and no other slot changes |
| HashMany.HashOneIsChunk | c/blake3/blake3.c:173-210 | on a full chunk, hash_one with start and end flags gives the chunk's own chaining value |
| HashMany.HashOneIsParent | c/blake3/blake3.c:217-253 | on a pair of chaining values, hash_one without counter gives their parent |
| Subtrees.CompressChunksParallel | c/blake3/blake3.c:173-210 | writes the chaining values of the chunks in order with consecutive counters, a partial last chunk included |
| Subtrees.CompressParentsParallel | c/blake3/blake3.c:217-253 | writes the paired-up layer, carrying an odd last value over |
| Subtrees.LeftSubtreeLen | c/blake3/blake3.c:162-169 | the C formula yields the left length of the specification |
| Subtrees.PairUpKeepsTree | c/blake3/blake3.c:217-253 | pairing the nodes of a layer of any width leaves the left-full tree above it, and its root, unchanged |
| Subtrees.ChunkLayerIsSubtree | c/blake3/blake3.c:275-280 | the layer of all chunk chaining values folds to the subtree of the input |
| Subtrees.CompressSubtreeWide | c/blake3/blake3.c:269-337 | for every power-of-two SIMD degree, input and start counter, the layer returned folds to the input's subtree, has at most max(degree, 2) entries and touches no other slot |
| Subtrees.CompressSubtreeToParentNode | c/blake3/blake3.c:348-381 | condensing that layer gives exactly the two children of the subtree's root, whatever the degree |
| CvStacks.SpineUnits | c/blake3/blake3.c:425-466 | the binary decomposition does not depend on the unit it is counted in |
| CvStacks.LazyMerge | c/blake3/blake3.c:425-466 | merging the two topmost entries of a lazy stack with an odd unit count yields a lazy stack of units twice as large |
| CvStacks.LazyDone | c/blake3/blake3.c:425-466 | with an even unit count the lazy stack is the binary decomposition of the total |
| CvStacks.RolledIsRoot | c/blake3/blake3.c:614-645 | rolling a last partial node up the decomposition gives the root of the whole input |
| Hashers.LazyTest | c/blake3/blake3.c:460-466 | the popcount test of the merge loop is true exactly while the unit count is odd |
| Hashers.LazyTop | c/blake3/blake3.c:629-645 | without an open chunk the stack has at least two entries, whose parent rolled up the rest is the root |
| Hashers.ShrinkSubtree | c/blake3/blake3.c:524-547 | terminates with the largest power of two not above the remaining input that divides the bytes so far, at least one chunk |
| Hashers.Hasher.MergeCvStack | c/blake3/blake3.c:425-466 | any stack that lazy merging can leave behind becomes the binary decomposition of the total |
| Hashers.Hasher.PushCv | c/blake3/blake3.c:468-474 | pushing merges first and stays within 54 entries |
| Hashers.Hasher.HashSubtree | c/blake3/blake3.c:524-569 | one turn of the subtree loop takes in the largest whole subtree and leaves a mergeable stack; if nothing remains, the top two entries are unmerged siblings |
| Hashers.Hasher.FillChunk | c/blake3/blake3.c:488-508 | an open chunk is finished, and pushed only when more input follows |
| Hashers.Hasher.KeepTail | c/blake3/blake3.c:576-582 | the tail goes into the chunk state and the stack is fully merged |
| Hashers.Hasher.Update | c/blake3/blake3.c:476-583 | appends the input to the message and keeps the hasher invariant, for inputs of any length up to 2^64 bytes in all |
| Hashers.Hasher.RootNode | c/blake3/blake3.c:614-644 | the node that gets the ROOT flag is the root of the tree over the whole message, never compressed before |
| Hashers.Hasher.FinalizeSeek | c/blake3/blake3.c:604-646 | yields bytes [seek, seek + n) of the tree hash of the message and changes nothing |
| Hashers.Hasher.Reset | c/blake3/blake3.c:648-651 | starts an empty message under the same key and flags |
| RootOutput.XofMany | c/blake3/blake3_dispatch.c:227-248 | one compression per output block with consecutive counters |
| RootOutput.OutputRootBytes | c/blake3/blake3.c:90-117 | for every seek and length the bytes are those of the stream whose block i is the root compression with counter i |
| Histories.Run | c/blake3/blake3.c:476-651 | every interleaving of updates, seeking reads and resets returns exactly what the recursive tree hash of the concatenated input since the last reset prescribes |
| Histories.SplitNeverMatters | c/blake3/blake3.c:476-583 | replacing two updates by one of the concatenation changes no output of any history |
| Histories.ReadsJoin | c/blake3/blake3.c:604-646 | in any history, reading [seek, seek + a) and then the next b bytes returns the two parts of what one read of a + b bytes returns, and leaves all later outputs as they are |
| KeyedHashes.InitKeyed | c/blake3/blake3.c:392-397 | an empty hasher whose key words are those of the key bytes |
| KeyedHashes.InitDeriveKeyRaw | c/blake3/blake3.c:399-409 | an empty hasher whose key words are the specified 32-byte hash of the context |
| KeyedHashes.RunKeyed | c/blake3/blake3.c:392-397 | every history of a keyed hasher returns what the tree hash under the key prescribes |
| KeyedHashes.RunDerived | c/blake3/blake3.c:399-409 | every history of a hasher that derives keys returns what the tree hash under the hash of the context prescribes |
| KeyedHashes.KeyWordsLossless | c/blake3/blake3_impl.h:163-173 | different keys have different key words |
| KeyedHashes.KindsApart | c/blake3/blake3_impl.h:17-25 | for every message and mode, a hash depends on chaining-value compressions only where the flags show its kind (plain, keyed, context or key material) and not 8, and on output compressions only where they show its kind and 8 |
| Histories.Blake3Kdf | c_dispatch/src/crypto_engine.c:159-168 | the key derivation is the tree hash of the info label followed by the key material |
| Rounds.SchedulePermutes | c/blake3/blake3_impl.h:90-98 | every row of the schedule table is the previous row under one fixed permutation |
| RowKernel.RowCompressPreAgrees | c/blake3/blake3_sse2.c:89-258 | diagonalising, shuffling message vectors between rounds and undiagonalising compute the table-driven rounds, for any word arithmetic |
| RowKernel.RowKernelSound | c/blake3/blake3_sse2.c:260-280 | the row kernel built on any arithmetic that agrees with the reference produces the sixteen reference output words |
| Words.SameOps | c/blake3/blake3_sse41.c:19-46 | byte shuffles, exclusive-ors of shifts and rotate instructions are the same rotations, and message-first addition the same sum |
| Words.RowKernelsSound | c/blake3/blake3_sse41.c:83-274 | the sse2, sse41 and avx512 row kernels compute the portable compression |
| Compress.RowKernelAgrees | c/blake3/blake3_sse2.c:89-280 | for every chaining value, block, length, counter and flags the row kernels give the sixteen output words of the portable one |
| Compress.BlendEmulated | c/blake3/blake3_sse2.c:81-87 | the emulated 16-bit blends with 0xCC and 0xC0 select the 32-bit lanes the kernel relies on |
| Compress.LoadStored | c/blake3/blake3_impl.h:157-197 | loading words undoes storing them |
| Compress.StoreLoaded | c/blake3/blake3_impl.h:157-197 | and storing undoes loading |
| Portable.RoundInPlace | c/blake3/blake3_portable.c:8-35 | the eight in-place quarter rounds compute the reference round |
| Portable.CompressInPlace | c/blake3/blake3_portable.c:37-98 | in-place compression leaves the first eight reference output words in the chaining value |
| Transposes.TransposeIsTransposition | c/blake3/blake3_avx512.c:1037-1117 | the 4 x 4, 8 x 8 and 16 x 16 unpack networks are matrix transposition |
| Lanes.LaneRounds | c/blake3/blake3_avx2.c:42-156 | the seven rounds on vectors of lanes do to every lane what the reference rounds do to one word |
| Lanes.LaneRoundFn | c/blake3/blake3_sse2.c:282-396 | the interleaved instruction order of round_fn computes one round |
| Counters.LaneCounters | c/blake3/blake3_sse2.c:446-457 | adding the lane number with the sign-flipped comparison (sse2, sse41, avx2) or the top-bit test (avx512) gives lane i the 64-bit counter of input i, carry included |
| Counters.WideCounters | c/blake3/blake3_avx512.c:483-494 | so does counting in 64 bits |
| WideHash.MsgVecsColumn | c/blake3/blake3_avx2.c:192-215 | lane i of the transposed message vectors holds the sixteen words of input i |
| WideHash.OutWordsAre | c/blake3/blake3_avx512.c:1217-1242 | the stored words of lane i are its chaining value, also through the zero-padded 16 x 16 transposition |
| WideHash.HashLanes | c/blake3/blake3_sse2.c:460-519 | hash4, hash8 and hash16 give each lane's input its own portable chaining value, for any number of blocks |
| Cascades.RowKernelSame | c/blake3/blake3_sse41.c:254-274 | compression by rows and word by word are the same function of all their arguments |
| Cascades.HashGroups | c/blake3/blake3_avx512.c:1318-1328 | each pass over a group of inputs completes the same buffer as the portable loop over all of them |
| Cascades.HashManySse2 | c/blake3/blake3_sse2.c:541-566 | hash_many writes exactly what the portable per-input loop writes and nothing else |
| Cascades.HashManySse41 | c/blake3/blake3_sse41.c:535-560 | hash_many writes exactly what the portable per-input loop writes and nothing else |
| Cascades.HashManyAvx2 | c/blake3/blake3_avx2.c:303-326 | eight lanes and then the sse41 kernel write exactly what the portable loop writes |
| Cascades.HashManyAvx512 | c/blake3/blake3_avx512.c:1313-1358 | the cascade 16, 8, 4, 1 writes exactly what the portable loop writes |
| Cascades.XofLanes | c/blake3/blake3_avx512.c:1246-1285 | n counters at a time give n consecutive output blocks |
| Cascades.XofManyAvx512 | c/blake3/blake3_avx512.c:1360-1388 | the batched output cascade writes the blocks of the one-block form |
| Dispatch.DispatchHashMany | c/blake3/blake3_dispatch.c:250-300 | whichever kernel feature detection selects, the chaining values written are the portable ones |
| Dispatch.DispatchXofMany | c/blake3/blake3_dispatch.c:227-248 | whichever kernel is selected, the output blocks written are the portable ones |
| Dispatch.HashManyHost | c/blake3/blake3_dispatch.c:250-300 | hash_many by the selected single-block kernel and by the portable one are the same chaining values |
| Dispatch.HostHashMany | c/blake3/blake3_dispatch.c:250-300 | the dispatched hash_many meets the contract that the tree code relies on, over the host's own single-block kernel |
| Dispatch.XofIsRootStream | c/blake3/blake3_dispatch.c:227-248 | from any counter on, the batched output is the root's output stream whose block i is the root compression with counter i, whichever kernel is selected |
| Dispatch.SimdDegree | c/blake3/blake3_dispatch.c:303-330 | every reported degree is one the tree code is proved for |
| Dispatch.SameHashEverywhere | c/blake3/blake3_dispatch.c:168-225 | the hash of every message is the same on every host |
| Dispatch.RunOnHost | c/blake3/blake3.c:476-651 | on every host, at its kernels and its degree, every history of updates, seeking reads and resets returns what the portable compression prescribes |
| Engine.SharedResult.PerformKemLocal | c_dispatch/src/engine.c:217-268 | on success the length is that of the secret or 64, whichever is less, so many bytes of the secret stand at the start of the buffer and what was behind them stays; on failure nothing is written |
| Engine.SharedResult.ExecuteSequential | c_dispatch/src/engine.c:327-358 | fills the struct as specified: success exactly when every wanted primitive succeeds, and no KEM after a failed ECDH |
| Engine.SequentialServes | c_dispatch/src/engine.c:327-358 | what each kind of combo gets, in numbers: marked 1 or without an algorithm, status 0 exactly if its ECDH succeeds, and its bytes; otherwise, marked 2 or without a curve, the same of its KEM; otherwise both |
| Engine.JoinedServesBoth | c_dispatch/src/engine.c:399-416 | a request that is handed over gets status 0 exactly if both succeed, and then the 48 bytes of the ECDH, up to 64 of the KEM secret, and zeros behind it |
| Engine.JoinedAgrees | c_dispatch/src/engine.c:364-416 | for all libraries the parallel engine gives the sequential status and secrets exactly when a handed-over combo is neither marked pure classical nor pure quantum |
| Engine.JoinedOnFailure | c_dispatch/src/engine.c:348-350 | the two engines leave identical structs behind exactly unless ECDH failed and the KEM succeeded |
| Engine.AdaptiveDispatch | c_dispatch/src/dispatcher.c:25-85 | parallel exactly for a hybrid suite heavier than X25519 with ML-KEM-768 on at least two cores, three when virtualised; the default rule never applies |
| Engine.DispatchAgrees | c_dispatch/src/dispatcher.c:25-99 | for all libraries routing never changes status or secrets, exactly when the engine is initialised or the route is sequential |
| Engine.TableRoutes | c_dispatch/src/dispatcher.c:25-85 | of the ten rows of the table exactly rows 1 to 4 are handed over on two cores, or three virtual ones, and none on fewer |
| Engine.TableAgrees | c_dispatch/src/dispatcher.c:91-99 | every combo of the built-in table gets the same status and secrets from the sequential, parallel and routed engines, on any host |
| Pool.NextKeepsInv | c_dispatch/src/engine.c:144-187 | every action of either thread and every spurious wakeup keeps the pool invariant |
| Pool.ReturnServes | c_dispatch/src/engine.c:410-415 | the result a request returns is built from its own KEM run and its own ECDH |
| PoolRuns.FlagsExclude | c_dispatch/src/engine.c:178-183 | has_work and work_done are both set exactly between the worker's two stores, while it holds the mutex |
| PoolRuns.NoDataRace | c_dispatch/src/engine.c:389-413 | in no reachable state can one thread write a plain field of the pool that the other is about to use; no move changes a field beyond those listed as written |
| PoolRuns.NoDeadlock | c_dispatch/src/engine.c:162-184 | the threads are both blocked exactly when the dispatcher has joined an exited worker |
| PoolRuns.RunLength | c_dispatch/src/engine.c:162-184 | a run is no longer than a bound on its start plus three moves per spurious wakeup |
| PoolRuns.EveryRunServes | c_dispatch/src/engine.c:364-416 | over all interleavings the i-th request returns what the parallel engine is specified to return with the i-th KEM run and ECDH, whatever these answered to earlier requests with the same arguments; no byte of an earlier one is left |
| PoolRuns.EveryRunDelivers | c_dispatch/src/engine.c:364-416 | so in every run the i-th request gets status 0 exactly if its own ECDH and KEM run succeed, and then the bytes and lengths of these, with zeros behind the KEM secret |
| PoolRuns.EveryRunCounts | c_dispatch/src/engine.c:144-187 | the worker runs the KEM exactly once for each request, and never ahead of one |
| PoolRuns.EveryRunEnds | c_dispatch/src/engine.c:304-321 | n requests and shutdown take at most 1000 n + 208 moves plus three per spurious wakeup, and end with every request served by a KEM run of its own and the worker gone |
| PoolRuns.EveryCycleServes | c_dispatch/src/engine.c:274-321 | over any number of initialisations and shutdowns, each with its own interleaving, the i-th request of all is served by the i-th KEM run of all and its own ECDH, and every request has been served when the last shutdown has returned |
| PoolRuns.EveryCycleDelivers | c_dispatch/src/engine.c:274-321 | and so over any number of initialisations and shutdowns |
| JsonRoundTrip.QuotedParses | c/cjson/cJSON.c:954-1073 | parse_string undoes print_string_ptr for every string |
| JsonRoundTrip.ValueParses | c/cjson/cJSON.c:1368-1592 | a printed value is parsed back in place, and the offset stops right behind it |
| JsonRoundTrip.DeepRefused | c/cjson/cJSON.c:1502-1506 | the parser refuses every printed text that nests beyond the limit at which the printer stops |
| JsonRoundTrip.ParsePrinted | c/cjson/cJSON.c:1147-1225 | the text of a value with int numbers and zero-free strings, formatted or not, parses to the same value if it nests within the limit, and is refused otherwise |
| JsonString.LiteralParses | c/cjson/cJSON.c:824-951 | every well-formed literal yields the unescaping of RFC 8259 section 7, with surrogates paired as in RFC 2781 section 2.2, and fails exactly on a lone surrogate |
| JsonString.AcceptedIsLiteral | c/cjson/cJSON.c:666-699 | a literal that is accepted is a sequence of plain characters and RFC 8259 escapes exactly when every \u that the first pass pairs up has its four hexadecimal digits |
| JsonString.AcceptedIsWellFormed | c/cjson/cJSON.c:824-951 | and it is one that RFC 8259 section 7 derives exactly when it moreover holds no raw control character |
| JsonString.MalformedAccepted | c/cjson/cJSON.c:688-691 | three malformed literals that are accepted, with what they are read as |
| JsonString.Utf8Sound | c/cjson/cJSON.c:763-815 | every code point but a surrogate gets a UTF-8 form that RFC 3629 derives for it |
| JsonString.Utf8Unique | c/cjson/cJSON.c:763-815 | and no other byte sequence that RFC 3629 derives stands for the same code point |
| JsonString.BitForms | c/cjson/cJSON.c:752-815 | the masks and shifts of the C code are the sums and remainders of the model |
| JsonString.ReadsAsMeaning | c/cjson/cJSON.c:195-211 | a parsed literal, read as a C string, is the meaning of its elements exactly when none of them stands for a zero byte |
| JsonString.ZeroCutsOff | c/cjson/cJSON.c:824-951 | a well-formed literal of three characters that reads as one |
| JsonGrammar.DerivedIsLoose | c/cjson/cJSON.c:306-407 | everything that RFC 8259 derives belongs to the looser syntax of the parser, if strtod reads every number of its section 6 to the end |
| JsonGrammar.RfcText | c/cjson/cJSON.c:824-951 | the text of a string that RFC 8259 derives is the meaning of its elements |
| JsonGrammar.ValueReads | c/cjson/cJSON.c:1368-1420 | every value of that syntax, and so every value that RFC 8259 derives with any white space inside, is read as what it stands for, with the offset right behind it, and refused exactly when a string in it cannot be decoded or it nests beyond 1000 |
| JsonGrammar.DocumentReads | c/cjson/cJSON.c:1147-1225 | the same for whole texts of RFC 8259, with white space around the value, with or without a terminating zero and a byte order mark, but for a marked text of a single byte |
| JsonAcceptance.AcceptedValues | c/cjson/cJSON.c:1368-1777 | a value is read, with an end offset, exactly where the syntax derives a text that ends there and stands for it within the limits; nothing else is accepted |
| JsonAcceptance.AcceptedTexts | c/cjson/cJSON.c:1147-1225 | a whole text is accepted as a value exactly if it is a mark or none, white space, a derived value standing for it and anything behind it, or only white space up to a zero byte at the end if that is asked for |
| JsonAcceptance.StringsRegular | c/cjson/cJSON.c:824-951 | a string of an accepted text is one of RFC 8259 exactly when its escapes have their digits and it holds no raw control character |
| JsonPrinted.PrintedIsJson | c/cjson/cJSON.c:954-1073 | the text of every value whose numbers print as numbers, formatted or not and at every depth, is derived by RFC 8259, and what is derived stands for the value |
| JsonPrinted.DigitsRight | c/cjson/cJSON.c:596-663 | the decimal digits of a number stand for it, without a zero in front |
| JsonPrinted.IntsAre | c/cjson/cJSON.c:386-400 | a number is printed as an int exactly if it is a whole number of 32 bits |
| JsonPrinted.ObjectLayout | c/cjson/cJSON.c:1780-1896 | a formatted object at depth d has one line for each member, indented by d + 1 bytes of value 9, with another one behind the colon, a byte of value 10 at the end of each line, and d of value 9 before the closing brace |
| JsonPrinted.ArrayLayout | c/cjson/cJSON.c:1595-1659 | between two elements stands a byte of value 44, and one of value 32 behind it exactly if the text is formatted |
| JsonPrinted.FormattingIsSpace | c/cjson/cJSON.c:1595-1896 | without the white space outside its literals the formatted text of a value is the unformatted one |
| Json.NestedLevels | c/cjson/cJSON.h:136-138 | the nesting limit of printer and parser allows exactly 1000 levels |
| ParseBuffers.WriteUtf8 | c/cjson/cJSON.c:787-815 | writing bytes backwards with shifts produces the UTF-8 form and leaves what precedes it |
| ParseBuffers.TwoOn | c/cjson/cJSON.c:840-868 | any two characters of any literal leave at least one byte of room in the estimate of the first pass |
| ParseBuffers.DecodeStep | c/cjson/cJSON.c:872-925 | no step of the second pass writes beyond the estimate, well-formed literal or not |
| ParseBuffers.ParseBuffer.ParseStringLiteral | c/cjson/cJSON.c:824-951 | two passes over a buffer of the estimated size compute the specified bytes and offset |
| ParseBuffers.ParseBuffer.Parse | c/cjson/cJSON.c:1368-1420 | builds a separate tree of nodes for exactly the specified value as its readers see it, strings and keys up to the first zero byte, with the specified end offset and depth |
| ParseBuffers.ParseBuffer.ParseElements | c/cjson/cJSON.c:1497-1592 | parse_array builds an array node whose children are well linked and stand for the specified elements as their readers see them, and restores the depth |
| ParseBuffers.ParseBuffer.ParseElementList | c/cjson/cJSON.c:1534-1568 | the loop links each new element behind the last one; only the first one's prev is still open |
| ParseBuffers.ParseBuffer.ParseFields | c/cjson/cJSON.c:1662-1777 | parse_object builds an object node whose children are well linked and hold the specified keys and values as their readers see them, and restores the depth |
| ParseBuffers.ParseWithLength | c/cjson/cJSON.c:1147-1225 | parsing a whole text gives a separate, well-linked tree for the specified value as its readers see it, byte order mark and termination check included, and null exactly if none is specified |
| PrintBuffers.PrintBuffer.Ensure | c/cjson/cJSON.c:490-573 | growing keeps all bytes below the offset, room is found whenever the size limit allows, and copying reads behind the old buffer exactly if that is empty and there is no realloc |
| PrintBuffers.PrintBuffer.UpdateOffset | c/cjson/cJSON.c:576-586 | the offset lands at the end of the text just printed |
| PrintBuffers.PrintBuffer.PrintString | c/cjson/cJSON.c:954-1073 | counting escapes first and writing second produces the quoted string, terminated |
| PrintBuffers.PrintBuffer.PrintValue | c/cjson/cJSON.c:1423-1494 | on success the text specified for the value that the linked nodes stand for is terminated behind the earlier one, whatever the buffer size was; with room for two more bytes it succeeds for every value within the limits |
| PrintBuffers.PrintBuffer.PrintArray | c/cjson/cJSON.c:1595-1659 | the same for arrays, with the depth restored |
| PrintBuffers.PrintBuffer.PrintObject | c/cjson/cJSON.c:1780-1896 | the same for objects, with the depth restored |
| PrintBuffers.Print | c/cjson/cJSON.c:1239-1305 | returns the specified text, and exactly for values within the nesting and number limits |
| PrintBuffers.PrintBuffered | c/cjson/cJSON.c:1317-1346 | the text does not depend on the initial size, even zero, nor on what fresh memory holds; a byte behind a buffer is read exactly if the size is zero and there is no realloc |
| PrintBuffers.PrintPreallocated | c/cjson/cJSON.c:1348-1365 | the text does not depend on the caller's buffer; two bytes more than the text always suffice |
| JsonCycle.PrintThenParse | c/cjson/cJSON.c:1239-1305 | printing a tree of nodes into the growing buffer and parsing the result gives another well-linked tree for the same value exactly when it nests within the limit |
| JsonCompare.CompareSymmetric | c/cjson/cJSON.c:3072-3195 | comparison does not depend on the order of its arguments |
| JsonSimilarity.CompareSimilar | c/cjson/cJSON.c:3072-3195 | two values without repeated keys compare equal exactly if they are the same up to the order of members: members paired one to one by their keys |
| JsonCompare.NumbersClose | c/cjson/cJSON.c:589-593 | numbers are the same when their difference is at most 2^-52 of the larger one |
| JsonCompare.CaseFolds | c/cjson/cJSON.c:133-154 | ignoring case, two characters are the same exactly if they are equal or a letter in its two cases |
| JsonCompare.CopyAccepted | c/cjson/cJSON.c:3072-3195 | a value compares equal to a copy of itself exactly when no object in it holds different values under one key, keys being read up to a first zero byte |
| JsonCompare.DistinctCopyAccepted | c/cjson/cJSON.c:3072-3195 | distinct keys, under the comparison's case mode, are enough |
| JsonCompare.RepeatedKeyRefused | c/cjson/cJSON.c:3147-3189 | an object with two values under two keys compares unequal to its copy exactly when the keys are the same up to a first zero byte, under the case mode |
| ChildLists.AddItemToArray | c/cjson/cJSON.c:2027-2058 | appending yields the well-linked list with the item last exactly when the item was not in the list and its next pointer was null or the list was empty |
| ChildLists.GetArraySize | c/cjson/cJSON.c:1898-1920 | the length of the abstract sequence, and zero for no parent |
| ChildLists.GetItem | c/cjson/cJSON.c:1922-1939 | the item at an index of the abstract sequence, or null |
| ChildLists.DetachItem | c/cjson/cJSON.c:2258-2292 | the list without the item, well linked, and the item unlinked; an item of no list changes nothing; for an item of another list, exactly which of the two lists stays well linked |
| ChildLists.DetachItemFromArray | c/cjson/cJSON.c:2294-2302 | the same by index |
| ChildLists.InsertItemInArray | c/cjson/cJSON.c:2334-2366 | the list with the item in front of the index, or appended behind the last one, exactly when the item was not in it already |
| ChildLists.ReplaceLinks | c/cjson/cJSON.c:2380-2411 | the list with the item's place taken by the replacement exactly when that was not in it, and the item unlinked |
| Trees.SameValue | c/cjson/cJSON.c:2789-2873 | trees of the same structure and data, strings copied up to their first zero byte, stand for the same value |
| TreeCopies.Duplicate | c/cjson/cJSON.c:2789-2873 | a separate, well-linked tree of the same structure and data, strings and keys cut at a first zero byte, and none exactly when something is more than 10000 steps below the item |
| TreeCopies.ShallowHeight | c/cjson/cJSON.h:142-144 | no node at the depth limit has children exactly when nothing is more than 10000 steps below |
| TreeCopies.Delete | c/cjson/cJSON.c:253-276 | frees what hangs below a node, then its strings and the node, then its later siblings, and reads no node that has been freed |
| TreeCopies.FreedOnce | c/cjson/cJSON.c:253-276 | every owned node, value string and key is freed exactly once and nothing else |
| TreeCopies.NodeFreed | c/cjson/cJSON.c:253-276 | each node below is freed once, its value string once if it has one and its key once if it has one, and nothing of any other node |
| TreeReplacements.ReplaceItemViaPointer | c/cjson/cJSON.c:2368-2415 | the replaced item is unlinked and deleted with what it then leads to; the list with the replacement in its place is well linked and holds no freed node exactly when the replacement is the item itself, or is neither another item of the list nor below the replaced one |
| TreeReplacements.ReplaceItemInArray | c/cjson/cJSON.c:2417-2425 | the same by index |
| TreeReplacements.ReplacementFreed | c/cjson/cJSON.c:2380-2411 | a replacement from below the replaced item is freed with it, and so is every later item of the list |
| TreeCompares.GetObjectItem | c/cjson/cJSON.c:1951-1983 | the first child with the key, both read up to a first zero byte, or null |
| TreeCompares.CompareNodes | c/cjson/cJSON.c:3072-3195 | the walk along the linked nodes of two separate trees gives the specified comparison of their values, strings and keys read up to a first zero byte; a node compared with itself is accepted unseen |
| TreeCompares.CompareCopy | c/cjson/cJSON.c:2789-2873 | a tree compares equal to the copy that was made of it exactly when no object in it holds different values under one key |

## Left out

- Messages of 2^64 bytes or more, for which the hash is not defined.
- The TBB path and the NEON and assembly kernels: other ways to run the same calls.
- Feature detection by cpuid: the model takes any combination of features.
- Byte addresses inside output buffers: an array slot holds one 32-byte chaining value or one 64-byte output block.
- Pointers and aliasing between a kernel's input and output: inputs are sequences.
- In-place vector registers: a vector is a sequence of words, and the instruction-by-instruction text of round_fn, the transpositions and the row shuffles is over values.
- The position and message of a failed parse: a failure is one value.
- Failures of memory allocation, custom allocators, and reference or constant-string flags.
- A node's valueint, which the printer compares with valuedouble (`c/cjson/cJSON.c:616-618`): it is assumed to be the saturated valuedouble that parsing and cJSON_CreateNumber store there.
- Floating-point text: strtod and the %g forms are oracles; the round trip covers numbers that are ints, and NaN and infinity are not modelled.
- ParseBuffers.ParseBuffer.Parse: makes a node when its content is known and links it then; the code makes and links it first and fills it in afterwards.
- JsonCompare.CompareDouble: compares real numbers, without the rounding of double arithmetic.
- Numbers: strtod is an oracle that is assumed to read every number of RFC 8259 section 6 to its end (`JsonGrammar.ReadsNumerals`), in a locale whose decimal point is the one put in.
- TreeCompares.CompareNodes: nodes without the value string or key that their type calls for, which the code refuses.
- TreeCopies.Duplicate: the deletion of a copy that is given up half-way, and valueint.
- ChildLists.GetArraySize: the cast of the size to int, for lists of more than 2^31 - 1 items.
- cJSON_Raw items, insertion and replacement by key, and cJSON_Minify.
- OpenSSL and liboqs, CPU pinning, affinity telemetry, and the sockets and handshake of the clients and servers.
- More than one dispatching thread: nothing in the engine locks a whole request.
