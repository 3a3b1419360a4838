/** Vectors of lanes: the round function of the hash_many kernels works on whole vectors and does
  * to every lane what the word-by-word round does. */
module Lanes {
  import opened Rounds
  import opened RowKernel
  import opened Transposes

  function Zip1<W>(n: nat, f: W -> W, a: seq<W>): seq<W> {
    if |a| == n then seq(n, i requires 0 <= i < n => f(a[i])) else a
  }

  function Zip2<W>(n: nat, f: (W, W) -> W, a: seq<W>, b: seq<W>): seq<W> {
    if |a| == |b| == n then seq(n, i requires 0 <= i < n => f(a[i], b[i])) else a
  }

  function Zip3<W>(n: nat, f: (W, W, W) -> W, a: seq<W>, b: seq<W>, x: seq<W>): seq<W> {
    if |a| == |b| == |x| == n then seq(n, i requires 0 <= i < n => f(a[i], b[i], x[i])) else a
  }

  /** Vector instructions on n lanes. */
  function VecOps<W>(n: nat, o: Ops<W>): Ops<seq<W>> {
    Ops((a, b) => Zip2(n, o.add, a, b), (a, b, x) => Zip3(n, o.add3, a, b, x), (a, b) => Zip2(n, o.xor, a, b),
        a => Zip1(n, o.rot16, a), a => Zip1(n, o.rot12, a), a => Zip1(n, o.rot8, a), a => Zip1(n, o.rot7, a))
  }

  ghost predicate Wide<W>(s: State<seq<W>>, n: nat) {
    && |s.v0| == n && |s.v1| == n && |s.v2| == n && |s.v3| == n && |s.v4| == n && |s.v5| == n && |s.v6| == n && |s.v7| == n
    && |s.v8| == n && |s.v9| == n && |s.v10| == n && |s.v11| == n
    && |s.v12| == n && |s.v13| == n && |s.v14| == n && |s.v15| == n
  }

  function LaneState<W>(s: State<seq<W>>, n: nat, i: nat): State<W>
    requires Wide(s, n) && i < n
  {
    State(s.v0[i], s.v1[i], s.v2[i], s.v3[i], s.v4[i], s.v5[i], s.v6[i], s.v7[i],
          s.v8[i], s.v9[i], s.v10[i], s.v11[i], s.v12[i], s.v13[i], s.v14[i], s.v15[i])
  }

  ghost predicate IsLaneQuad<W>(q: Quad<seq<W>>, n: nat, i: nat, r: Quad<W>) {
    && |q.a| == |q.b| == |q.c| == |q.d| == n && i < n
    && q.a[i] == r.a && q.b[i] == r.b && q.c[i] == r.c && q.d[i] == r.d
  }

  lemma LaneG<W>(n: nat, o: Ops<W>, a: seq<W>, b: seq<W>, c: seq<W>, d: seq<W>, x: seq<W>, y: seq<W>, i: nat)
    requires |a| == |b| == |c| == |d| == |x| == |y| == n && i < n
    ensures IsLaneQuad(G(VecOps(n, o), a, b, c, d, x, y), n, i, G(o, a[i], b[i], c[i], d[i], x[i], y[i]))
  {
    var v := VecOps(n, o);
    var q := Half1(v, a, b, c, d, x);
    assert IsLaneQuad(q, n, i, Half1(o, a[i], b[i], c[i], d[i], x[i]));
  }

  lemma LaneColumns<W>(n: nat, o: Ops<W>, s: State<seq<W>>, p: seq<seq<W>>, i: nat)
    requires Wide(s, n) && Matrix(p, 16, n) && i < n
    ensures Wide(Columns(VecOps(n, o), s, p), n)
    ensures LaneState(Columns(VecOps(n, o), s, p), n, i) == Columns(o, LaneState(s, n, i), Column(p, i))
  {
    LaneG(n, o, s.v0, s.v4, s.v8, s.v12, p[0], p[1], i);
    LaneG(n, o, s.v1, s.v5, s.v9, s.v13, p[2], p[3], i);
    LaneG(n, o, s.v2, s.v6, s.v10, s.v14, p[4], p[5], i);
    LaneG(n, o, s.v3, s.v7, s.v11, s.v15, p[6], p[7], i);
  }

  lemma LaneDiagonals<W>(n: nat, o: Ops<W>, s: State<seq<W>>, p: seq<seq<W>>, i: nat)
    requires Wide(s, n) && Matrix(p, 16, n) && i < n
    ensures Wide(Diagonals(VecOps(n, o), s, p), n)
    ensures LaneState(Diagonals(VecOps(n, o), s, p), n, i) == Diagonals(o, LaneState(s, n, i), Column(p, i))
  {
    LaneG(n, o, s.v0, s.v5, s.v10, s.v15, p[8], p[9], i);
    LaneG(n, o, s.v1, s.v6, s.v11, s.v12, p[10], p[11], i);
    LaneG(n, o, s.v2, s.v7, s.v8, s.v13, p[12], p[13], i);
    LaneG(n, o, s.v3, s.v4, s.v9, s.v14, p[14], p[15], i);
  }

  lemma ScheduledColumn<W>(m: seq<seq<W>>, r: nat, n: nat, i: nat)
    requires Matrix(m, 16, n) && i < n && r < 7
    ensures Matrix(Scheduled(m, r), 16, n)
    ensures Column(Scheduled(m, r), i) == Scheduled(Column(m, i), r)
  {
    ScheduleShape();
  }

  /** The new chaining value vectors: the first eight of the sixteen output vectors. */
  function LaneFeed<V>(o: Ops<V>, s: State<V>): (r: seq<V>)
    ensures |r| == 8
  {
    [o.xor(s.v0, s.v8), o.xor(s.v1, s.v9), o.xor(s.v2, s.v10), o.xor(s.v3, s.v11),
     o.xor(s.v4, s.v12), o.xor(s.v5, s.v13), o.xor(s.v6, s.v14), o.xor(s.v7, s.v15)]
  }

  lemma LaneFeedIsHalf<V>(o: Ops<V>, s: State<V>, h: seq<V>)
    requires |h| == 8
    ensures LaneFeed(o, s) == FeedForward(o, s, h)[..8]
  {
  }

  lemma LaneFeedColumn<W>(n: nat, o: Ops<W>, s: State<seq<W>>, h: seq<seq<W>>, i: nat)
    requires Wide(s, n) && Matrix(h, 8, n) && i < n
    ensures Matrix(FeedForward(VecOps(n, o), s, h), 16, n)
    ensures Column(FeedForward(VecOps(n, o), s, h), i) == FeedForward(o, LaneState(s, n, i), Column(h, i))
  {
  }

  /** The vector arithmetic vo does to each of its n lanes what p does to one word. */
  ghost predicate Lifted<W(!new)>(n: nat, vo: Ops<seq<W>>, p: Ops<W>) {
    && (forall v: State<seq<W>>, m: seq<seq<W>>, i: nat :: LiftedRound(n, vo, p, v, m, i))
    && (forall v: State<seq<W>>, h: seq<seq<W>>, i: nat :: LiftedFeed(n, vo, p, v, h, i))
  }

  ghost predicate LiftedRound<W>(n: nat, vo: Ops<seq<W>>, p: Ops<W>, v: State<seq<W>>, m: seq<seq<W>>, i: nat) {
    Wide(v, n) && Matrix(m, 16, n) && i < n ==>
      Wide(Round(vo, v, m), n) && LaneState(Round(vo, v, m), n, i) == Round(p, LaneState(v, n, i), Column(m, i))
  }

  ghost predicate LiftedFeed<W>(n: nat, vo: Ops<seq<W>>, p: Ops<W>, v: State<seq<W>>, h: seq<seq<W>>, i: nat) {
    Wide(v, n) && Matrix(h, 8, n) && i < n ==>
      && Matrix(FeedForward(vo, v, h), 16, n)
      && Column(FeedForward(vo, v, h), i) == FeedForward(p, LaneState(v, n, i), Column(h, i))
  }

  lemma LaneRound<W>(n: nat, o: Ops<W>, v: State<seq<W>>, m: seq<seq<W>>, i: nat)
    ensures LiftedRound(n, VecOps(n, o), o, v, m, i)
  {
    if Wide(v, n) && Matrix(m, 16, n) && i < n {
      LaneColumns(n, o, v, m, i);
      LaneDiagonals(n, o, Columns(VecOps(n, o), v, m), m, i);
    }
  }

  lemma LiftSame<W(!new)>(n: nat, vo: Ops<seq<W>>, o: Ops<W>, p: Ops<W>, v: State<seq<W>>, m: seq<seq<W>>, i: nat)
    requires Same(o, p) && LiftedRound(n, vo, o, v, m, i)
    ensures LiftedRound(n, vo, p, v, m, i)
  {
    if Wide(v, n) && Matrix(m, 16, n) && i < n {
      RoundsAgree(o, p, LaneState(v, n, i), Column(m, i));
    }
  }

  lemma RoundsAgree<W(!new)>(o: Ops<W>, p: Ops<W>, s: State<W>, m: seq<W>)
    requires Same(o, p) && |m| == 16
    ensures Round(o, s, m) == Round(p, s, m)
  {
    SameG(o, p);
    SameRound(o, p, s, m);
  }

  lemma VecFeedLifted<W(!new)>(n: nat, o: Ops<W>, p: Ops<W>, v: State<seq<W>>, h: seq<seq<W>>, i: nat)
    requires Same(o, p)
    ensures LiftedFeed(n, VecOps(n, o), p, v, h, i)
  {
    if Wide(v, n) && Matrix(h, 8, n) && i < n {
      LaneFeedColumn(n, o, v, h, i);
      SameFeed(o, p, LaneState(v, n, i), Column(h, i));
    }
  }

  /** Vector instructions built on an arithmetic that agrees with p. */
  lemma VecOpsLifted<W(!new)>(n: nat, o: Ops<W>, p: Ops<W>)
    requires Same(o, p)
    ensures Lifted(n, VecOps(n, o), p)
  {
    var vo := VecOps(n, o);
    forall v: State<seq<W>>, m: seq<seq<W>>, i: nat
      ensures LiftedRound(n, vo, p, v, m, i)
    {
      LaneRound(n, o, v, m, i);
      LiftSame(n, vo, o, p, v, m, i);
    }
    forall v: State<seq<W>>, h: seq<seq<W>>, i: nat
      ensures LiftedFeed(n, vo, p, v, h, i)
    {
      VecFeedLifted(n, o, p, v, h, i);
    }
  }

  /** Lane i of the rounds over vectors is the reference rounds of lane i. */
  lemma {:induction false} LaneRounds<W(!new)>(n: nat, vo: Ops<seq<W>>, p: Ops<W>, s: State<seq<W>>, m: seq<seq<W>>,
                                               r: nat, i: nat)
    requires Lifted(n, vo, p) && Wide(s, n) && Matrix(m, 16, n) && i < n && r <= 7
    ensures Wide(RoundsFrom(vo, s, m, r), n)
    ensures LaneState(RoundsFrom(vo, s, m, r), n, i) == RoundsFrom(p, LaneState(s, n, i), Column(m, i), r)
    decreases 7 - r
  {
    if r < 7 {
      ScheduledColumn(m, r, n, i);
      assert LiftedRound(n, vo, p, s, Scheduled(m, r), i);
      LaneRounds(n, vo, p, Round(vo, s, Scheduled(m, r)), m, r + 1, i);
    }
  }

  /** The kernels' round_fn: four quarter rounds side by side, instruction by instruction. */
  method LaneRoundFn<V>(o: Ops<V>, v: State<V>, m: seq<V>, r: nat) returns (v': State<V>)
    requires |m| == 16 && r < 7
    ensures v' == Round(o, v, Scheduled(m, r))
  {
    ScheduleShape();
    var s := MSG_SCHEDULE[r];
    var State(v0, v1, v2, v3, v4, v5, v6, v7, v8, v9, v10, v11, v12, v13, v14, v15) := v;
    v0, v1, v2, v3 :=
      o.add3(v0, v4, m[s[0]]), o.add3(v1, v5, m[s[2]]), o.add3(v2, v6, m[s[4]]), o.add3(v3, v7, m[s[6]]);
    v12, v13, v14, v15 :=
      o.xor(v12, v0), o.xor(v13, v1), o.xor(v14, v2), o.xor(v15, v3);
    v12, v13, v14, v15 :=
      o.rot16(v12), o.rot16(v13), o.rot16(v14), o.rot16(v15);
    v8, v9, v10, v11 :=
      o.add(v8, v12), o.add(v9, v13), o.add(v10, v14), o.add(v11, v15);
    v4, v5, v6, v7 :=
      o.xor(v4, v8), o.xor(v5, v9), o.xor(v6, v10), o.xor(v7, v11);
    v4, v5, v6, v7 :=
      o.rot12(v4), o.rot12(v5), o.rot12(v6), o.rot12(v7);
    v0, v1, v2, v3 :=
      o.add3(v0, v4, m[s[1]]), o.add3(v1, v5, m[s[3]]), o.add3(v2, v6, m[s[5]]), o.add3(v3, v7, m[s[7]]);
    v12, v13, v14, v15 :=
      o.xor(v12, v0), o.xor(v13, v1), o.xor(v14, v2), o.xor(v15, v3);
    v12, v13, v14, v15 :=
      o.rot8(v12), o.rot8(v13), o.rot8(v14), o.rot8(v15);
    v8, v9, v10, v11 :=
      o.add(v8, v12), o.add(v9, v13), o.add(v10, v14), o.add(v11, v15);
    v4, v5, v6, v7 :=
      o.xor(v4, v8), o.xor(v5, v9), o.xor(v6, v10), o.xor(v7, v11);
    v4, v5, v6, v7 :=
      o.rot7(v4), o.rot7(v5), o.rot7(v6), o.rot7(v7);
    assert State(v0, v1, v2, v3, v4, v5, v6, v7, v8, v9, v10, v11, v12, v13, v14, v15)
           == Columns(o, v, Scheduled(m, r));
    v0, v1, v2, v3 :=
      o.add3(v0, v5, m[s[8]]), o.add3(v1, v6, m[s[10]]), o.add3(v2, v7, m[s[12]]), o.add3(v3, v4, m[s[14]]);
    v15, v12, v13, v14 :=
      o.xor(v15, v0), o.xor(v12, v1), o.xor(v13, v2), o.xor(v14, v3);
    v15, v12, v13, v14 :=
      o.rot16(v15), o.rot16(v12), o.rot16(v13), o.rot16(v14);
    v10, v11, v8, v9 :=
      o.add(v10, v15), o.add(v11, v12), o.add(v8, v13), o.add(v9, v14);
    v5, v6, v7, v4 :=
      o.xor(v5, v10), o.xor(v6, v11), o.xor(v7, v8), o.xor(v4, v9);
    v5, v6, v7, v4 :=
      o.rot12(v5), o.rot12(v6), o.rot12(v7), o.rot12(v4);
    v0, v1, v2, v3 :=
      o.add3(v0, v5, m[s[9]]), o.add3(v1, v6, m[s[11]]), o.add3(v2, v7, m[s[13]]), o.add3(v3, v4, m[s[15]]);
    v15, v12, v13, v14 :=
      o.xor(v15, v0), o.xor(v12, v1), o.xor(v13, v2), o.xor(v14, v3);
    v15, v12, v13, v14 :=
      o.rot8(v15), o.rot8(v12), o.rot8(v13), o.rot8(v14);
    v10, v11, v8, v9 :=
      o.add(v10, v15), o.add(v11, v12), o.add(v8, v13), o.add(v9, v14);
    v5, v6, v7, v4 :=
      o.xor(v5, v10), o.xor(v6, v11), o.xor(v7, v8), o.xor(v4, v9);
    v5, v6, v7, v4 :=
      o.rot7(v5), o.rot7(v6), o.rot7(v7), o.rot7(v4);
    v' := State(v0, v1, v2, v3, v4, v5, v6, v7, v8, v9, v10, v11, v12, v13, v14, v15);
  }

  method LaneAllRounds<V>(o: Ops<V>, v: State<V>, m: seq<V>) returns (s: State<V>)
    requires |m| == 16
    ensures s == RoundsFrom(o, v, m, 0)
  {
    s := v;
    ghost var s0 := s;
    s0 := s;
    s := LaneRoundFn(o, s, m, 0);
    WordStep(o, s0, m, 0, s);
    s0 := s;
    s := LaneRoundFn(o, s, m, 1);
    WordStep(o, s0, m, 1, s);
    s0 := s;
    s := LaneRoundFn(o, s, m, 2);
    WordStep(o, s0, m, 2, s);
    s0 := s;
    s := LaneRoundFn(o, s, m, 3);
    WordStep(o, s0, m, 3, s);
    s0 := s;
    s := LaneRoundFn(o, s, m, 4);
    WordStep(o, s0, m, 4, s);
    s0 := s;
    s := LaneRoundFn(o, s, m, 5);
    WordStep(o, s0, m, 5, s);
    s0 := s;
    s := LaneRoundFn(o, s, m, 6);
    WordStep(o, s0, m, 6, s);
    LastWordStep(o, s, m);
  }

  /** One block in every lane: lane i of the output vectors is the reference compression of lane i. */
  lemma LaneBlock<W(!new)>(n: nat, vo: Ops<seq<W>>, p: Ops<W>, v: State<seq<W>>, m: seq<seq<W>>, h: seq<seq<W>>, i: nat)
    requires Lifted(n, vo, p) && Wide(v, n) && Matrix(m, 16, n) && Matrix(h, 8, n) && i < n
    ensures Matrix(FeedForward(vo, RoundsFrom(vo, v, m, 0), h), 16, n)
    ensures Column(FeedForward(vo, RoundsFrom(vo, v, m, 0), h), i)
            == FeedForward(p, RoundsFrom(p, LaneState(v, n, i), Column(m, i), 0), Column(h, i))
  {
    LaneRounds(n, vo, p, v, m, 0, i);
    assert LiftedFeed(n, vo, p, RoundsFrom(vo, v, m, 0), h, i);
  }
}
