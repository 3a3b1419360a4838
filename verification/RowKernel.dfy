/** The row-vectorised compression of c/blake3/blake3_sse2.c (and its sse41 and avx512 copies):
  * the state is four rows of four words, and the message words are shuffled between rounds. */
module RowKernel {
  import opened Rounds

  datatype V4<W> = V4(x0: W, x1: W, x2: W, x3: W)

  datatype Rows<W> = Rows(r0: V4<W>, r1: V4<W>, r2: V4<W>, r3: V4<W>)

  /** The four message vectors as they stand at the start of a round. */
  datatype Msg<W> = Msg(m0: V4<W>, m1: V4<W>, m2: V4<W>, m3: V4<W>)

  function Lane<W>(v: V4<W>, i: nat): W {
    if i == 0 then v.x0 else if i == 1 then v.x1 else if i == 2 then v.x2 else v.x3
  }

  function Map2<W>(f: (W, W) -> W, a: V4<W>, b: V4<W>): V4<W> {
    V4(f(a.x0, b.x0), f(a.x1, b.x1), f(a.x2, b.x2), f(a.x3, b.x3))
  }

  function Map3<W>(f: (W, W, W) -> W, a: V4<W>, b: V4<W>, x: V4<W>): V4<W> {
    V4(f(a.x0, b.x0, x.x0), f(a.x1, b.x1, x.x1), f(a.x2, b.x2, x.x2), f(a.x3, b.x3, x.x3))
  }

  function Map1<W>(f: W -> W, a: V4<W>): V4<W> {
    V4(f(a.x0), f(a.x1), f(a.x2), f(a.x3))
  }

  // The shuffles, with their selectors written from the highest lane down as in _MM_SHUFFLE

  function ShuffleEpi32<W>(a: V4<W>, z: nat, y: nat, x: nat, w: nat): V4<W> {
    V4(Lane(a, w), Lane(a, x), Lane(a, y), Lane(a, z))
  }

  function ShufflePs<W>(a: V4<W>, b: V4<W>, z: nat, y: nat, x: nat, w: nat): V4<W> {
    V4(Lane(a, w), Lane(a, x), Lane(b, y), Lane(b, z))
  }

  function UnpackLoEpi32<W>(a: V4<W>, b: V4<W>): V4<W> {
    V4(a.x0, b.x0, a.x1, b.x1)
  }

  function UnpackHiEpi32<W>(a: V4<W>, b: V4<W>): V4<W> {
    V4(a.x2, b.x2, a.x3, b.x3)
  }

  function UnpackLoEpi64<W>(a: V4<W>, b: V4<W>): V4<W> {
    V4(a.x0, a.x1, b.x0, b.x1)
  }

  /** Blend by 16-bit lanes with selector 0xCC: 32-bit lanes 1 and 3 from b. */
  function BlendCC<W>(a: V4<W>, b: V4<W>): V4<W> {
    V4(a.x0, b.x1, a.x2, b.x3)
  }

  /** Blend with selector 0xC0: 32-bit lane 3 from b. */
  function BlendC0<W>(a: V4<W>, b: V4<W>): V4<W> {
    V4(a.x0, a.x1, a.x2, b.x3)
  }

  // Rounds on rows

  function G1<W>(o: Ops<W>, s: Rows<W>, m: V4<W>): Rows<W> {
    var row0 := Map3(o.add3, s.r0, s.r1, m);
    var row3 := Map1(o.rot16, Map2(o.xor, s.r3, row0));
    var row2 := Map2(o.add, s.r2, row3);
    Rows(row0, Map1(o.rot12, Map2(o.xor, s.r1, row2)), row2, row3)
  }

  function G2<W>(o: Ops<W>, s: Rows<W>, m: V4<W>): Rows<W> {
    var row0 := Map3(o.add3, s.r0, s.r1, m);
    var row3 := Map1(o.rot8, Map2(o.xor, s.r3, row0));
    var row2 := Map2(o.add, s.r2, row3);
    Rows(row0, Map1(o.rot7, Map2(o.xor, s.r1, row2)), row2, row3)
  }

  function Diagonalize<W>(s: Rows<W>): Rows<W> {
    Rows(ShuffleEpi32(s.r0, 2, 1, 0, 3), s.r1, ShuffleEpi32(s.r2, 0, 3, 2, 1), ShuffleEpi32(s.r3, 1, 0, 3, 2))
  }

  function Undiagonalize<W>(s: Rows<W>): Rows<W> {
    Rows(ShuffleEpi32(s.r0, 0, 3, 2, 1), s.r1, ShuffleEpi32(s.r2, 2, 1, 0, 3), ShuffleEpi32(s.r3, 1, 0, 3, 2))
  }

  function RowRound<W>(o: Ops<W>, s: Rows<W>, t: Msg<W>): Rows<W> {
    var s1 := G2(o, G1(o, s, t.m0), t.m1);
    var s2 := G2(o, G1(o, Diagonalize(s1), t.m2), t.m3);
    Undiagonalize(s2)
  }

  /** Round 1 groups the words of the block. */
  function FirstMsg<W>(m: Msg<W>): Msg<W> {
    var t0 := ShufflePs(m.m0, m.m1, 2, 0, 2, 0);
    var t1 := ShufflePs(m.m0, m.m1, 3, 1, 3, 1);
    var t2 := ShuffleEpi32(ShufflePs(m.m2, m.m3, 2, 0, 2, 0), 2, 1, 0, 3);
    var t3 := ShuffleEpi32(ShufflePs(m.m2, m.m3, 3, 1, 3, 1), 2, 1, 0, 3);
    Msg(t0, t1, t2, t3)
  }

  /** Every later round permutes the groups of the round before. */
  function NextMsg<W>(m: Msg<W>): Msg<W> {
    var t0 := ShuffleEpi32(ShufflePs(m.m0, m.m1, 3, 1, 1, 2), 0, 3, 2, 1);
    var t1 := BlendCC(ShuffleEpi32(m.m0, 0, 0, 3, 3), ShufflePs(m.m2, m.m3, 3, 3, 2, 2));
    var t2 := ShuffleEpi32(BlendC0(UnpackLoEpi64(m.m3, m.m1), m.m2), 1, 3, 2, 0);
    var t3 := ShuffleEpi32(UnpackLoEpi32(m.m2, UnpackHiEpi32(m.m1, m.m3)), 0, 1, 3, 2);
    Msg(t0, t1, t2, t3)
  }

  /** Rounds r to 6, given the groups of round r. */
  function RowRoundsFrom<W>(o: Ops<W>, s: Rows<W>, t: Msg<W>, r: nat): Rows<W>
    requires r < 7
    decreases 7 - r, t
  {
    var s' := RowRound(o, s, t);
    if r == 6 then s' else RowRoundsFrom(o, s', NextMsg(t), r + 1)
  }

  function LoadMsg<W>(m: seq<W>): Msg<W>
    requires |m| == 16
  {
    Msg(V4(m[0], m[1], m[2], m[3]), V4(m[4], m[5], m[6], m[7]),
        V4(m[8], m[9], m[10], m[11]), V4(m[12], m[13], m[14], m[15]))
  }

  function RowCompressPre<W>(o: Ops<W>, s: Rows<W>, m: seq<W>): Rows<W>
    requires |m| == 16
  {
    RowRoundsFrom(o, s, FirstMsg(LoadMsg(m)), 0)
  }

  // Agreement with the word-by-word rounds

  function ToState<W>(s: Rows<W>): State<W> {
    State(s.r0.x0, s.r0.x1, s.r0.x2, s.r0.x3, s.r1.x0, s.r1.x1, s.r1.x2, s.r1.x3,
          s.r2.x0, s.r2.x1, s.r2.x2, s.r2.x3, s.r3.x0, s.r3.x1, s.r3.x2, s.r3.x3)
  }

  /** The groups for a round that uses the words p in this order. */
  function Grouped<W>(p: seq<W>): Msg<W>
    requires |p| == 16
  {
    Msg(V4(p[0], p[2], p[4], p[6]), V4(p[1], p[3], p[5], p[7]),
        V4(p[14], p[8], p[10], p[12]), V4(p[15], p[9], p[11], p[13]))
  }

  lemma ColumnsAgree<W(!new)>(o: Ops<W>, s: Rows<W>, p: seq<W>)
    requires |p| == 16
    ensures ToState(G2(o, G1(o, s, Grouped(p).m0), Grouped(p).m1)) == Columns(o, ToState(s), p)
  {
  }

  lemma DiagonalsAgree<W(!new)>(o: Ops<W>, s: Rows<W>, p: seq<W>)
    requires |p| == 16
    ensures ToState(Undiagonalize(G2(o, G1(o, Diagonalize(s), Grouped(p).m2), Grouped(p).m3)))
            == Diagonals(o, ToState(s), p)
  {
  }

  lemma FirstMsgGroups<W>(m: seq<W>)
    requires |m| == 16
    ensures FirstMsg(LoadMsg(m)) == Grouped(Scheduled(m, 0))
  {
    assert MSG_SCHEDULE[0] == [0, 1, 2, 3, 4, 5, 6, 7, 8, 9, 10, 11, 12, 13, 14, 15];
  }

  lemma NextMsgGroups<W>(p: seq<W>)
    requires |p| == 16
    ensures NextMsg(Grouped(p)) == Grouped(Scheduled(p, 1))
  {
    assert MSG_SCHEDULE[1] == [2, 6, 3, 10, 7, 0, 4, 13, 1, 11, 12, 5, 9, 14, 15, 8];
  }

  lemma RowRoundAgrees<W(!new)>(o: Ops<W>, s: Rows<W>, p: seq<W>)
    requires |p| == 16
    ensures ToState(RowRound(o, s, Grouped(p))) == Round(o, ToState(s), p)
  {
    ColumnsAgree(o, s, p);
    DiagonalsAgree(o, G2(o, G1(o, s, Grouped(p).m0), Grouped(p).m1), p);
  }

  ghost predicate RoundsMatch<W(!new)>(o: Ops<W>) {
    forall s: Rows<W>, p: seq<W> :: |p| == 16 ==> ToState(RowRound(o, s, Grouped(p))) == Round(o, ToState(s), p)
  }

  lemma RowStep<W>(o: Ops<W>, s: Rows<W>, t: Msg<W>, r: nat, s': Rows<W>, t': Msg<W>)
    requires r < 6 && s' == RowRound(o, s, t) && t' == NextMsg(t)
    ensures RowRoundsFrom(o, s, t, r) == RowRoundsFrom(o, s', t', r + 1)
  {
  }

  lemma WordStep<W>(o: Ops<W>, s: State<W>, m: seq<W>, r: nat, s': State<W>)
    requires |m| == 16 && r < 7 && s' == Round(o, s, Scheduled(m, r))
    ensures RoundsFrom(o, s, m, r) == RoundsFrom(o, s', m, r + 1)
  {
  }

  lemma LastWordStep<W>(o: Ops<W>, s: State<W>, m: seq<W>)
    requires |m| == 16
    ensures RoundsFrom(o, s, m, 7) == s
  {
  }

  lemma LastStep<W>(o: Ops<W>, s: Rows<W>, t: Msg<W>, m: seq<W>, s': Rows<W>)
    requires |m| == 16 && s' == RowRound(o, s, t)
    ensures RowRoundsFrom(o, s, t, 6) == s' && RoundsFrom(o, ToState(s'), m, 7) == ToState(s')
  {
  }

  lemma {:induction false} RowRoundsAgree<W(!new)>(o: Ops<W>, s: Rows<W>, m: seq<W>, r: nat)
    requires |m| == 16 && r < 7 && RoundsMatch(o)
    ensures ToState(RowRoundsFrom(o, s, Grouped(Scheduled(m, r)), r)) == RoundsFrom(o, ToState(s), m, r)
    decreases 7 - r
  {
    var p := Scheduled(m, r);
    var s' := RowRound(o, s, Grouped(p));
    WordStep(o, ToState(s), m, r, ToState(s'));
    if r == 6 {
      LastStep(o, s, Grouped(p), m, s');
    } else {
      NextMsgGroups(p);
      SchedulePermutes(m, r);
      RowStep(o, s, Grouped(p), r, s', NextMsg(Grouped(p)));
      RowRoundsAgree(o, s', m, r + 1);
    }
  }

  /** The row-vectorised rounds compute what the word-by-word rounds compute. */
  lemma RowCompressPreAgrees<W(!new)>(o: Ops<W>, s: Rows<W>, m: seq<W>)
    requires |m| == 16
    ensures ToState(RowCompressPre(o, s, m)) == RoundsFrom(o, ToState(s), m, 0)
  {
    assert RoundsMatch(o) by {
      forall s: Rows<W>, p: seq<W> | |p| == 16
        ensures ToState(RowRound(o, s, Grouped(p))) == Round(o, ToState(s), p)
      {
        RowRoundAgrees(o, s, p);
      }
    }
    FirstMsgGroups(m);
    RowRoundsAgree(o, s, m, 0);
  }

  // The output words

  /** Sixteen output words: the halves of the state combined, and the second half combined with
    * the input chaining value. */
  function FeedForward<W>(o: Ops<W>, s: State<W>, cv: seq<W>): (r: seq<W>)
    requires |cv| == 8
    ensures |r| == 16
  {
    [o.xor(s.v0, s.v8), o.xor(s.v1, s.v9), o.xor(s.v2, s.v10), o.xor(s.v3, s.v11),
     o.xor(s.v4, s.v12), o.xor(s.v5, s.v13), o.xor(s.v6, s.v14), o.xor(s.v7, s.v15),
     o.xor(s.v8, cv[0]), o.xor(s.v9, cv[1]), o.xor(s.v10, cv[2]), o.xor(s.v11, cv[3]),
     o.xor(s.v12, cv[4]), o.xor(s.v13, cv[5]), o.xor(s.v14, cv[6]), o.xor(s.v15, cv[7])]
  }

  function V4Words<W>(v: V4<W>): (r: seq<W>)
    ensures |r| == 4
  {
    [v.x0, v.x1, v.x2, v.x3]
  }

  function LoadV4<W>(ws: seq<W>, i: nat): V4<W>
    requires i + 4 <= |ws|
  {
    V4(ws[i], ws[i + 1], ws[i + 2], ws[i + 3])
  }

  /** The four vectors that compress_xof stores; compress_in_place stores the first two. */
  function RowFeedForward<W>(o: Ops<W>, s: Rows<W>, cv: seq<W>): (r: seq<W>)
    requires |cv| == 8
    ensures |r| == 16
  {
    V4Words(Map2(o.xor, s.r0, s.r2)) + V4Words(Map2(o.xor, s.r1, s.r3))
    + V4Words(Map2(o.xor, s.r2, LoadV4(cv, 0))) + V4Words(Map2(o.xor, s.r3, LoadV4(cv, 4)))
  }

  lemma RowFeedAgrees<W>(o: Ops<W>, s: Rows<W>, cv: seq<W>)
    requires |cv| == 8
    ensures RowFeedForward(o, s, cv) == FeedForward(o, ToState(s), cv)
  {
  }

  // Two arithmetics that agree on every word

  ghost predicate Same<W(!new)>(o: Ops<W>, p: Ops<W>) {
    && (forall a, b :: o.add(a, b) == p.add(a, b)) && (forall a, b, x :: o.add3(a, b, x) == p.add3(a, b, x))
    && (forall a, b :: o.xor(a, b) == p.xor(a, b))
    && (forall w :: o.rot16(w) == p.rot16(w)) && (forall w :: o.rot12(w) == p.rot12(w))
    && (forall w :: o.rot8(w) == p.rot8(w)) && (forall w :: o.rot7(w) == p.rot7(w))
  }

  lemma SameG<W(!new)>(o: Ops<W>, p: Ops<W>)
    requires Same(o, p)
    ensures forall a, b, c, d, x, y :: G(o, a, b, c, d, x, y) == G(p, a, b, c, d, x, y)
  {
  }

  lemma SameRound<W(!new)>(o: Ops<W>, p: Ops<W>, s: State<W>, m: seq<W>)
    requires |m| == 16
    requires forall a, b, c, d, x, y :: G(o, a, b, c, d, x, y) == G(p, a, b, c, d, x, y)
    ensures Round(o, s, m) == Round(p, s, m)
  {
  }

  lemma {:induction false} SameRounds<W(!new)>(o: Ops<W>, p: Ops<W>, s: State<W>, m: seq<W>, r: nat)
    requires |m| == 16 && r <= 7
    requires forall s, q: seq<W> :: |q| == 16 ==> Round(o, s, q) == Round(p, s, q)
    ensures RoundsFrom(o, s, m, r) == RoundsFrom(p, s, m, r)
    decreases 7 - r
  {
    if r < 7 {
      SameRounds(o, p, Round(o, s, Scheduled(m, r)), m, r + 1);
    }
  }

  lemma SameAllRounds<W(!new)>(o: Ops<W>, p: Ops<W>, s: State<W>, m: seq<W>)
    requires |m| == 16 && Same(o, p)
    ensures RoundsFrom(o, s, m, 0) == RoundsFrom(p, s, m, 0)
  {
    SameG(o, p);
    forall s: State<W>, q: seq<W> | |q| == 16
      ensures Round(o, s, q) == Round(p, s, q)
    {
      SameRound(o, p, s, q);
    }
    SameRounds(o, p, s, m, 0);
  }

  ghost predicate RowSoundFor<W(!new)>(o: Ops<W>, p: Ops<W>, s: Rows<W>, m: seq<W>, cv: seq<W>)
    requires |m| == 16 && |cv| == 8
  {
    RowFeedForward(o, RowCompressPre(o, s, m), cv) == FeedForward(p, RoundsFrom(p, ToState(s), m, 0), cv)
  }

  /** The row kernel built on o is sound for the reference arithmetic p: whatever the state and
    * the message, it produces the sixteen output words of the reference compression. */
  ghost predicate RowSound<W(!new)>(o: Ops<W>, p: Ops<W>) {
    forall s: Rows<W>, m: seq<W>, cv: seq<W> :: |m| == 16 && |cv| == 8 ==> RowSoundFor(o, p, s, m, cv)
  }

  lemma RowKernelSoundFor<W(!new)>(o: Ops<W>, p: Ops<W>, s: Rows<W>, m: seq<W>, cv: seq<W>)
    requires Same(o, p) && |m| == 16 && |cv| == 8
    ensures RowSoundFor(o, p, s, m, cv)
  {
    RowCompressPreAgrees(o, s, m);
    var final := RowCompressPre(o, s, m);
    SameAllRounds(o, p, ToState(s), m);
    RowFeedAgrees(o, final, cv);
    SameFeed(o, p, ToState(final), cv);
  }

  lemma SameFeed<W(!new)>(o: Ops<W>, p: Ops<W>, s: State<W>, cv: seq<W>)
    requires Same(o, p) && |cv| == 8
    ensures FeedForward(o, s, cv) == FeedForward(p, s, cv)
  {
  }

  /** The row-vectorised compression equals the word-by-word one, for every arithmetic. */
  lemma RowKernelSound<W(!new)>(o: Ops<W>, p: Ops<W>)
    requires Same(o, p)
    ensures RowSound(o, p)
  {
    forall s: Rows<W>, m: seq<W>, cv: seq<W> | |m| == 16 && |cv| == 8
      ensures RowSoundFor(o, p, s, m, cv)
    {
      RowKernelSoundFor(o, p, s, m, cv);
    }
  }
}
