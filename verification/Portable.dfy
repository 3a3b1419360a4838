/** The in-place form of the word-by-word compression: c/blake3/blake3_portable.c. */
module Portable {
  import opened Basics
  import opened Tree
  import opened Rounds
  import opened RowKernel
  import opened Compress

  function StateOf<W>(s: seq<W>): State<W>
    requires |s| == 16
  {
    State(s[0], s[1], s[2], s[3], s[4], s[5], s[6], s[7],
          s[8], s[9], s[10], s[11], s[12], s[13], s[14], s[15])
  }

  /** The quarter round on four elements of the state array. */
  method MixQuad<W>(o: Ops<W>, state: array<W>, a: nat, b: nat, c: nat, d: nat, x: W, y: W)
    requires state.Length == 16 && a < 4 <= b < 8 <= c < 12 <= d < 16
    modifies state
    ensures var q := G(o, old(state[a]), old(state[b]), old(state[c]), old(state[d]), x, y);
            state[..] == old(state[..])[a := q.a][b := q.b][c := q.c][d := q.d]
  {
    ghost var was := state[..];
    state[a] := o.add3(state[a], state[b], x);
    state[d] := o.rot16(o.xor(state[d], state[a]));
    state[c] := o.add(state[c], state[d]);
    state[b] := o.rot12(o.xor(state[b], state[c]));
    state[a] := o.add3(state[a], state[b], y);
    state[d] := o.rot8(o.xor(state[d], state[a]));
    state[c] := o.add(state[c], state[d]);
    state[b] := o.rot7(o.xor(state[b], state[c]));
    ghost var q := G(o, was[a], was[b], was[c], was[d], x, y);
    assert state[a] == q.a && state[b] == q.b && state[c] == q.c && state[d] == q.d;
    hide G;
    assert forall k :: 0 <= k < 16 && k != a && k != b && k != c && k != d ==> state[k] == was[k];
  }

  /** One round: the columns, then the diagonals. */
  method RoundInPlace<W>(o: Ops<W>, state: array<W>, msg: seq<W>, round: nat)
    requires state.Length == 16 && |msg| == 16 && round < 7
    modifies state
    ensures StateOf(state[..]) == Round(o, StateOf(old(state[..])), Scheduled(msg, round))
  {
    ScheduleShape();
    var schedule := MSG_SCHEDULE[round];
    ghost var p := Scheduled(msg, round);
    ghost var s0 := state[..];
    MixQuad(o, state, 0, 4, 8, 12, msg[schedule[0]], msg[schedule[1]]);
    MixQuad(o, state, 1, 5, 9, 13, msg[schedule[2]], msg[schedule[3]]);
    MixQuad(o, state, 2, 6, 10, 14, msg[schedule[4]], msg[schedule[5]]);
    MixQuad(o, state, 3, 7, 11, 15, msg[schedule[6]], msg[schedule[7]]);
    ghost var s1 := state[..];
    assert StateOf(s1) == Columns(o, StateOf(s0), p);
    MixQuad(o, state, 0, 5, 10, 15, msg[schedule[8]], msg[schedule[9]]);
    MixQuad(o, state, 1, 6, 11, 12, msg[schedule[10]], msg[schedule[11]]);
    MixQuad(o, state, 2, 7, 8, 13, msg[schedule[12]], msg[schedule[13]]);
    MixQuad(o, state, 3, 4, 9, 14, msg[schedule[14]], msg[schedule[15]]);
    assert StateOf(state[..]) == Diagonals(o, StateOf(s1), p);
  }

  /** The seven rounds of the compression. */
  method AllRounds<W>(o: Ops<W>, state: array<W>, msg: seq<W>)
    requires state.Length == 16 && |msg| == 16
    modifies state
    ensures StateOf(state[..]) == RoundsFrom(o, StateOf(old(state[..])), msg, 0)
  {
    ghost var s0 := StateOf(state[..]);
    RoundInPlace(o, state, msg, 0);
    WordStep(o, s0, msg, 0, StateOf(state[..]));
    ghost var s1 := StateOf(state[..]);
    RoundInPlace(o, state, msg, 1);
    WordStep(o, s1, msg, 1, StateOf(state[..]));
    ghost var s2 := StateOf(state[..]);
    RoundInPlace(o, state, msg, 2);
    WordStep(o, s2, msg, 2, StateOf(state[..]));
    ghost var s3 := StateOf(state[..]);
    RoundInPlace(o, state, msg, 3);
    WordStep(o, s3, msg, 3, StateOf(state[..]));
    ghost var s4 := StateOf(state[..]);
    RoundInPlace(o, state, msg, 4);
    WordStep(o, s4, msg, 4, StateOf(state[..]));
    ghost var s5 := StateOf(state[..]);
    RoundInPlace(o, state, msg, 5);
    WordStep(o, s5, msg, 5, StateOf(state[..]));
    ghost var s6 := StateOf(state[..]);
    RoundInPlace(o, state, msg, 6);
    WordStep(o, s6, msg, 6, StateOf(state[..]));
    LastWordStep(o, StateOf(state[..]), msg);
  }

  /** The initial state of a compression. */
  method FillState(cv: array<word>, blockLen: byte, counter: nat, flags: byte) returns (state: array<word>)
    requires cv.Length == 8
    ensures fresh(state) && state.Length == 16
    ensures StateOf(state[..]) == InitState(ToWords8(cv[..]), blockLen, counter, flags)
  {
    state := new word[16](i => 0);
    forall i | 0 <= i < 8 {
      state[i] := cv[i];
    }
    state[8], state[9], state[10], state[11] := IV.w0, IV.w1, IV.w2, IV.w3;
    state[12], state[13] := CounterLow(counter), CounterHigh(counter);
    state[14], state[15] := blockLen as word, flags as word;
  }

  /** Compress a block into the chaining value. */
  method CompressInPlace(p: Ops<word>, cv: array<word>, block: Block, blockLen: byte, counter: nat, flags: byte)
    requires cv.Length == 8
    modifies cv
    ensures cv[..] == OutputWords(p, ToWords8(old(cv[..])), block, blockLen, counter, flags)[..8]
  {
    var words := LoadWords(block, 16);
    ghost var input := ToWords8(cv[..]);
    var state := FillState(cv, blockLen, counter, flags);
    AllRounds(p, state, words);
    FeedBack(p, cv, state, CvWords(input));
  }

  method FeedBack<W>(p: Ops<W>, cv: array<W>, state: array<W>, ghost input: seq<W>)
    requires cv.Length == 8 && state.Length == 16 && cv != state && |input| == 8
    modifies cv
    ensures cv[..] == FeedForward(p, StateOf(state[..]), input)[..8]
  {
    forall i | 0 <= i < 8 {
      cv[i] := p.xor(state[i], state[i + 8]);
    }
  }
}
