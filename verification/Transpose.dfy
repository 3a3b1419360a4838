/** The transposition networks of the lane kernels: 4 x 4 (c/blake3/blake3_sse2.c), 8 x 8
  * (c/blake3/blake3_avx2.c) and 16 x 16 (c/blake3/blake3_avx512.c).  Vectors are sequences of
  * words; the unpack instructions work on each group of four words separately. */
module Transposes {
  ghost predicate Matrix<W>(v: seq<seq<W>>, rows: nat, columns: nat) {
    |v| == rows && forall i :: 0 <= i < rows ==> |v[i]| == columns
  }

  /** Column i of a matrix. */
  function Column<W>(v: seq<seq<W>>, i: nat): (r: seq<W>)
    requires forall k :: 0 <= k < |v| ==> i < |v[k]|
    ensures |r| == |v|
  {
    seq(|v|, k requires 0 <= k < |v| => v[k][i])
  }

  // Instructions

  function UnpackLo32<W>(a: seq<W>, b: seq<W>): (r: seq<W>)
    requires |a| == |b| && |a| % 4 == 0
    ensures |r| == |a|
  {
    seq(|a|, k requires 0 <= k < |a| =>
      var t := k % 4; if t == 0 then a[k] else if t == 1 then b[k - 1] else if t == 2 then a[k - 1] else b[k - 2])
  }

  function UnpackHi32<W>(a: seq<W>, b: seq<W>): (r: seq<W>)
    requires |a| == |b| && |a| % 4 == 0
    ensures |r| == |a|
  {
    seq(|a|, k requires 0 <= k < |a| =>
      var t := k % 4; if t == 0 then a[k + 2] else if t == 1 then b[k + 1] else if t == 2 then a[k + 1] else b[k])
  }

  function UnpackLo64<W>(a: seq<W>, b: seq<W>): (r: seq<W>)
    requires |a| == |b| && |a| % 4 == 0
    ensures |r| == |a|
  {
    seq(|a|, k requires 0 <= k < |a| => if k % 4 < 2 then a[k] else b[k - 2])
  }

  function UnpackHi64<W>(a: seq<W>, b: seq<W>): (r: seq<W>)
    requires |a| == |b| && |a| % 4 == 0
    ensures |r| == |a|
  {
    seq(|a|, k requires 0 <= k < |a| => if k % 4 < 2 then a[k + 2] else b[k])
  }

  /** _mm256_permute2x128 with selector 0x20 or 0x31: the low or the high halves. */
  function LowHalves<W>(a: seq<W>, b: seq<W>): seq<W>
    requires |a| == |b| == 8
  {
    a[..4] + b[..4]
  }

  function HighHalves<W>(a: seq<W>, b: seq<W>): seq<W>
    requires |a| == |b| == 8
  {
    a[4..] + b[4..]
  }

  /** _mm512_shuffle_i32x4 with selector 0x88 or 0xdd: the even or the odd groups of four. */
  function UnpackLo128<W>(a: seq<W>, b: seq<W>): (r: seq<W>)
    requires |a| == |b| == 16
    ensures |r| == 16
  {
    a[0..4] + a[8..12] + b[0..4] + b[8..12]
  }

  function UnpackHi128<W>(a: seq<W>, b: seq<W>): (r: seq<W>)
    requires |a| == |b| == 16
    ensures |r| == 16
  {
    a[4..8] + a[12..16] + b[4..8] + b[12..16]
  }

  // What each unpack does to the group of four from p on words

  lemma FourFrom<W>(r: seq<W>, p: nat)
    requires p % 4 == 0 && p + 4 <= |r|
    ensures r[p..p + 4] == [r[p], r[p + 1], r[p + 2], r[p + 3]]
    ensures (p + 1) % 4 == 1 && (p + 2) % 4 == 2 && (p + 3) % 4 == 3
  {
  }

  lemma Lo32At<W>(a: seq<W>, b: seq<W>, p: nat)
    requires |a| == |b| && |a| % 4 == 0 && p % 4 == 0 && p + 4 <= |a|
    ensures UnpackLo32(a, b)[p..p + 4] == [a[p], b[p], a[p + 1], b[p + 1]]
  {
    FourFrom(UnpackLo32(a, b), p);
  }

  lemma Hi32At<W>(a: seq<W>, b: seq<W>, p: nat)
    requires |a| == |b| && |a| % 4 == 0 && p % 4 == 0 && p + 4 <= |a|
    ensures UnpackHi32(a, b)[p..p + 4] == [a[p + 2], b[p + 2], a[p + 3], b[p + 3]]
  {
    FourFrom(UnpackHi32(a, b), p);
  }

  lemma Lo64At<W>(a: seq<W>, b: seq<W>, p: nat, x: seq<W>, y: seq<W>)
    requires |a| == |b| && |a| % 4 == 0 && p % 4 == 0 && p + 4 <= |a| && |x| == |y| == 4
    requires a[p..p + 4] == x && b[p..p + 4] == y
    ensures UnpackLo64(a, b)[p..p + 4] == [x[0], x[1], y[0], y[1]]
    ensures UnpackHi64(a, b)[p..p + 4] == [x[2], x[3], y[2], y[3]]
  {
    hide UnpackLo64, UnpackHi64;
    UnpackLo64At(a, b, p);
    UnpackHi64At(a, b, p);
    assert x[0] == a[p] && x[1] == a[p + 1] && x[2] == a[p + 2] && x[3] == a[p + 3];
    assert y[0] == b[p] && y[1] == b[p + 1] && y[2] == b[p + 2] && y[3] == b[p + 3];
  }

  lemma UnpackLo64At<W>(a: seq<W>, b: seq<W>, p: nat)
    requires |a| == |b| && |a| % 4 == 0 && p % 4 == 0 && p + 4 <= |a|
    ensures UnpackLo64(a, b)[p..p + 4] == [a[p], a[p + 1], b[p], b[p + 1]]
  {
    FourFrom(UnpackLo64(a, b), p);
  }

  lemma UnpackHi64At<W>(a: seq<W>, b: seq<W>, p: nat)
    requires |a| == |b| && |a| % 4 == 0 && p % 4 == 0 && p + 4 <= |a|
    ensures UnpackHi64(a, b)[p..p + 4] == [a[p + 2], a[p + 3], b[p + 2], b[p + 3]]
  {
    FourFrom(UnpackHi64(a, b), p);
  }

  /** The two stages over four vectors transpose each 4 x 4 group. */
  lemma StagesAt<W>(a: seq<W>, b: seq<W>, c: seq<W>, d: seq<W>, p: nat)
    requires |a| == |b| == |c| == |d| && |a| % 4 == 0 && p % 4 == 0 && p + 4 <= |a|
    ensures var lo, lo' := UnpackLo32(a, b), UnpackLo32(c, d);
            && UnpackLo64(lo, lo')[p..p + 4] == [a[p], b[p], c[p], d[p]]
            && UnpackHi64(lo, lo')[p..p + 4] == [a[p + 1], b[p + 1], c[p + 1], d[p + 1]]
    ensures var hi, hi' := UnpackHi32(a, b), UnpackHi32(c, d);
            && UnpackLo64(hi, hi')[p..p + 4] == [a[p + 2], b[p + 2], c[p + 2], d[p + 2]]
            && UnpackHi64(hi, hi')[p..p + 4] == [a[p + 3], b[p + 3], c[p + 3], d[p + 3]]
  {
    Lo32At(a, b, p);
    Lo32At(c, d, p);
    Hi32At(a, b, p);
    Hi32At(c, d, p);
    Lo64At(UnpackLo32(a, b), UnpackLo32(c, d), p,
           [a[p], b[p], a[p + 1], b[p + 1]], [c[p], d[p], c[p + 1], d[p + 1]]);
    Lo64At(UnpackHi32(a, b), UnpackHi32(c, d), p,
           [a[p + 2], b[p + 2], a[p + 3], b[p + 3]], [c[p + 2], d[p + 2], c[p + 3], d[p + 3]]);
  }

  // 4 x 4

  function Transpose4<W>(v: seq<seq<W>>): seq<seq<W>>
    requires Matrix(v, 4, 4)
  {
    var ab_01 := UnpackLo32(v[0], v[1]);
    var ab_23 := UnpackHi32(v[0], v[1]);
    var cd_01 := UnpackLo32(v[2], v[3]);
    var cd_23 := UnpackHi32(v[2], v[3]);
    [UnpackLo64(ab_01, cd_01), UnpackHi64(ab_01, cd_01), UnpackLo64(ab_23, cd_23), UnpackHi64(ab_23, cd_23)]
  }

  lemma Transpose4Columns<W>(v: seq<seq<W>>, i: nat)
    requires Matrix(v, 4, 4) && i < 4
    ensures Transpose4(v)[i] == Column(v, i)
  {
    StagesAt(v[0], v[1], v[2], v[3], 0);
    assert Transpose4(v)[i] == Transpose4(v)[i][0..4];
  }

  // 8 x 8

  function Transpose8<W>(v: seq<seq<W>>): (r: seq<seq<W>>)
    requires Matrix(v, 8, 8)
    ensures |r| == 8
  {
    var ab_0145 := UnpackLo32(v[0], v[1]);
    var ab_2367 := UnpackHi32(v[0], v[1]);
    var cd_0145 := UnpackLo32(v[2], v[3]);
    var cd_2367 := UnpackHi32(v[2], v[3]);
    var ef_0145 := UnpackLo32(v[4], v[5]);
    var ef_2367 := UnpackHi32(v[4], v[5]);
    var gh_0145 := UnpackLo32(v[6], v[7]);
    var gh_2367 := UnpackHi32(v[6], v[7]);
    var abcd_04 := UnpackLo64(ab_0145, cd_0145);
    var abcd_15 := UnpackHi64(ab_0145, cd_0145);
    var abcd_26 := UnpackLo64(ab_2367, cd_2367);
    var abcd_37 := UnpackHi64(ab_2367, cd_2367);
    var efgh_04 := UnpackLo64(ef_0145, gh_0145);
    var efgh_15 := UnpackHi64(ef_0145, gh_0145);
    var efgh_26 := UnpackLo64(ef_2367, gh_2367);
    var efgh_37 := UnpackHi64(ef_2367, gh_2367);
    [LowHalves(abcd_04, efgh_04), LowHalves(abcd_15, efgh_15), LowHalves(abcd_26, efgh_26), LowHalves(abcd_37, efgh_37),
     HighHalves(abcd_04, efgh_04), HighHalves(abcd_15, efgh_15), HighHalves(abcd_26, efgh_26), HighHalves(abcd_37, efgh_37)]
  }

  lemma Transpose8Columns<W>(v: seq<seq<W>>, i: nat)
    requires Matrix(v, 8, 8) && i < 8
    ensures Transpose8(v)[i] == Column(v, i)
  {
    hide UnpackLo32, UnpackHi32, UnpackLo64, UnpackHi64;
    var p := i - i % 4;
    StagesAt(v[0], v[1], v[2], v[3], p);
    StagesAt(v[4], v[5], v[6], v[7], p);
    assert p == 0 || p == 4;
    assert Column(v, i) == [v[0][i], v[1][i], v[2][i], v[3][i]] + [v[4][i], v[5][i], v[6][i], v[7][i]];
    assert i == p || i == p + 1 || i == p + 2 || i == p + 3;
  }

  // 16 x 16

  /** The four vectors that the first two stages make of four input vectors. */
  function Stage2<W>(a: seq<W>, b: seq<W>, c: seq<W>, d: seq<W>): (r: seq<seq<W>>)
    requires |a| == |b| == |c| == |d| == 16
    ensures Matrix(r, 4, 16)
  {
    var ab_0 := UnpackLo32(a, b);
    var ab_2 := UnpackHi32(a, b);
    var cd_0 := UnpackLo32(c, d);
    var cd_2 := UnpackHi32(c, d);
    [UnpackLo64(ab_0, cd_0), UnpackHi64(ab_0, cd_0), UnpackLo64(ab_2, cd_2), UnpackHi64(ab_2, cd_2)]
  }

  function Transpose16<W>(v: seq<seq<W>>): (r: seq<seq<W>>)
    requires Matrix(v, 16, 16)
    ensures |r| == 16
  {
    var abcd := Stage2(v[0], v[1], v[2], v[3]);
    var efgh := Stage2(v[4], v[5], v[6], v[7]);
    var ijkl := Stage2(v[8], v[9], v[10], v[11]);
    var mnop := Stage2(v[12], v[13], v[14], v[15]);
    var abcdefgh_0 := UnpackLo128(abcd[0], efgh[0]);
    var abcdefgh_1 := UnpackLo128(abcd[1], efgh[1]);
    var abcdefgh_2 := UnpackLo128(abcd[2], efgh[2]);
    var abcdefgh_3 := UnpackLo128(abcd[3], efgh[3]);
    var abcdefgh_4 := UnpackHi128(abcd[0], efgh[0]);
    var abcdefgh_5 := UnpackHi128(abcd[1], efgh[1]);
    var abcdefgh_6 := UnpackHi128(abcd[2], efgh[2]);
    var abcdefgh_7 := UnpackHi128(abcd[3], efgh[3]);
    var ijklmnop_0 := UnpackLo128(ijkl[0], mnop[0]);
    var ijklmnop_1 := UnpackLo128(ijkl[1], mnop[1]);
    var ijklmnop_2 := UnpackLo128(ijkl[2], mnop[2]);
    var ijklmnop_3 := UnpackLo128(ijkl[3], mnop[3]);
    var ijklmnop_4 := UnpackHi128(ijkl[0], mnop[0]);
    var ijklmnop_5 := UnpackHi128(ijkl[1], mnop[1]);
    var ijklmnop_6 := UnpackHi128(ijkl[2], mnop[2]);
    var ijklmnop_7 := UnpackHi128(ijkl[3], mnop[3]);
    [UnpackLo128(abcdefgh_0, ijklmnop_0), UnpackLo128(abcdefgh_1, ijklmnop_1),
     UnpackLo128(abcdefgh_2, ijklmnop_2), UnpackLo128(abcdefgh_3, ijklmnop_3),
     UnpackLo128(abcdefgh_4, ijklmnop_4), UnpackLo128(abcdefgh_5, ijklmnop_5),
     UnpackLo128(abcdefgh_6, ijklmnop_6), UnpackLo128(abcdefgh_7, ijklmnop_7),
     UnpackHi128(abcdefgh_0, ijklmnop_0), UnpackHi128(abcdefgh_1, ijklmnop_1),
     UnpackHi128(abcdefgh_2, ijklmnop_2), UnpackHi128(abcdefgh_3, ijklmnop_3),
     UnpackHi128(abcdefgh_4, ijklmnop_4), UnpackHi128(abcdefgh_5, ijklmnop_5),
     UnpackHi128(abcdefgh_6, ijklmnop_6), UnpackHi128(abcdefgh_7, ijklmnop_7)]
  }

  /** Two stages of 128-bit shuffles collect group q of four vectors. */
  lemma CollectGroups<W>(a: seq<W>, b: seq<W>, c: seq<W>, d: seq<W>)
    requires |a| == |b| == |c| == |d| == 16
    ensures UnpackLo128(UnpackLo128(a, b), UnpackLo128(c, d)) == a[0..4] + b[0..4] + c[0..4] + d[0..4]
    ensures UnpackLo128(UnpackHi128(a, b), UnpackHi128(c, d)) == a[4..8] + b[4..8] + c[4..8] + d[4..8]
    ensures UnpackHi128(UnpackLo128(a, b), UnpackLo128(c, d)) == a[8..12] + b[8..12] + c[8..12] + d[8..12]
    ensures UnpackHi128(UnpackHi128(a, b), UnpackHi128(c, d)) == a[12..16] + b[12..16] + c[12..16] + d[12..16]
  {
  }

  lemma Stage2Group<W>(a: seq<W>, b: seq<W>, c: seq<W>, d: seq<W>, j: nat, p: nat)
    requires |a| == |b| == |c| == |d| == 16 && j < 4 && p <= 12 && p % 4 == 0
    ensures Stage2(a, b, c, d)[j][p..p + 4] == [a[p + j], b[p + j], c[p + j], d[p + j]]
  {
    StagesAt(a, b, c, d, p);
  }

  lemma Transpose16Groups<W>(v: seq<seq<W>>, j: nat)
    requires Matrix(v, 16, 16) && j < 4
    ensures var a, b := Stage2(v[0], v[1], v[2], v[3])[j], Stage2(v[4], v[5], v[6], v[7])[j];
            var c, d := Stage2(v[8], v[9], v[10], v[11])[j], Stage2(v[12], v[13], v[14], v[15])[j];
            && Transpose16(v)[j] == a[0..4] + b[0..4] + c[0..4] + d[0..4]
            && Transpose16(v)[4 + j] == a[4..8] + b[4..8] + c[4..8] + d[4..8]
            && Transpose16(v)[8 + j] == a[8..12] + b[8..12] + c[8..12] + d[8..12]
            && Transpose16(v)[12 + j] == a[12..16] + b[12..16] + c[12..16] + d[12..16]
  {
    var a, b := Stage2(v[0], v[1], v[2], v[3])[j], Stage2(v[4], v[5], v[6], v[7])[j];
    var c, d := Stage2(v[8], v[9], v[10], v[11])[j], Stage2(v[12], v[13], v[14], v[15])[j];
    CollectGroups(a, b, c, d);
    if j == 0 {
    } else if j == 1 {
    } else if j == 2 {
    }
  }

  lemma Column16<W>(v: seq<seq<W>>, i: nat)
    requires Matrix(v, 16, 16) && i < 16
    ensures Column(v, i) == [v[0][i], v[1][i], v[2][i], v[3][i]] + [v[4][i], v[5][i], v[6][i], v[7][i]]
                            + [v[8][i], v[9][i], v[10][i], v[11][i]] + [v[12][i], v[13][i], v[14][i], v[15][i]]
  {
  }

  lemma Transpose16Columns<W>(v: seq<seq<W>>, i: nat)
    requires Matrix(v, 16, 16) && i < 16
    ensures Transpose16(v)[i] == Column(v, i)
  {
    var j := i % 4;
    var p := i - j;
    Transpose16Groups(v, j);
    Stage2Group(v[0], v[1], v[2], v[3], j, p);
    Stage2Group(v[4], v[5], v[6], v[7], j, p);
    Stage2Group(v[8], v[9], v[10], v[11], j, p);
    Stage2Group(v[12], v[13], v[14], v[15], j, p);
    assert p == 0 || p == 4 || p == 8 || p == 12;
    Column16(v, i);
  }

  // By degree

  /** transpose_vecs of the kernel with n lanes. */
  function TransposeVecs<W>(n: nat, v: seq<seq<W>>): (r: seq<seq<W>>)
    requires (n == 4 || n == 8 || n == 16) && Matrix(v, n, n)
  {
    if n == 4 then Transpose4(v) else if n == 8 then Transpose8(v) else Transpose16(v)
  }

  /** Every network is the matrix transposition. */
  lemma TransposeIsTransposition<W>(n: nat, v: seq<seq<W>>)
    requires (n == 4 || n == 8 || n == 16) && Matrix(v, n, n)
    ensures TransposeVecs(n, v) == seq(n, i requires 0 <= i < n => Column(v, i))
  {
    forall i | 0 <= i < n
      ensures TransposeVecs(n, v)[i] == Column(v, i)
    {
      if n == 4 {
        Transpose4Columns(v, i);
      } else if n == 8 {
        Transpose8Columns(v, i);
      } else {
        Transpose16Columns(v, i);
      }
    }
  }
}
