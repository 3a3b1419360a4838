/** The integer helpers of c/blake3/blake3_impl.h: highest set bit, population count and
  * rounding down to a power of two.  Unsigned machine integers are modelled as natural numbers
  * with an explicit 64-bit bound where the C code relies on one. */
module Bits {
  const TWO_64 := 0x1_0000_0000_0000_0000

  function Pow2(e: nat): (r: nat)
    ensures r >= 1
  {
    if e == 0 then 1 else 2 * Pow2(e - 1)
  }

  predicate IsPow2(n: nat) {
    n == 1 || (n > 1 && n % 2 == 0 && IsPow2(n / 2))
  }

  function Shl(x: nat, k: nat): nat {
    if k == 0 then x else 2 * Shl(x, k - 1)
  }

  function Shr(x: nat, k: nat): nat {
    if k == 0 then x else Shr(x / 2, k - 1)
  }

  /** Bitwise conjunction of two unsigned integers. */
  function BitAnd(x: nat, y: nat): nat {
    if x == 0 || y == 0 then 0
    else 2 * BitAnd(x / 2, y / 2) + if x % 2 == 1 && y % 2 == 1 then 1 else 0
  }

  /** The number of one bits. */
  function PopCount(n: nat): nat {
    if n == 0 then 0 else PopCount(n / 2) + n % 2
  }

  /** The largest power of two not above x; 1 when x is 0. */
  function FloorPow2(x: nat): nat {
    if x <= 1 then 1 else 2 * FloorPow2(x / 2)
  }

  lemma {:induction false} FloorPow2IsLargest(x: nat)
    ensures IsPow2(FloorPow2(x)) && x < 2 * FloorPow2(x)
    ensures x > 0 ==> FloorPow2(x) <= x
  {
    if x > 1 {
      FloorPow2IsLargest(x / 2);
    }
  }

  lemma {:induction false} Pow2IsPow2(e: nat)
    ensures IsPow2(Pow2(e))
  {
    if e > 0 {
      Pow2IsPow2(e - 1);
    }
  }

  lemma {:induction false} Pow2Add(a: nat, b: nat)
    ensures Pow2(a + b) == Pow2(a) * Pow2(b)
  {
    if a > 0 {
      Pow2Add(a - 1, b);
    }
  }

  lemma {:induction false} IsPow2Positive(n: nat)
    requires IsPow2(n)
    ensures n >= 1
  {
  }

  /** Two powers of two within a factor below two of each other are equal. */
  lemma {:induction false} Pow2Unique(a: nat, b: nat)
    requires IsPow2(a) && IsPow2(b)
    requires a < 2 * b && b < 2 * a
    ensures a == b
  {
    if a > 1 && b > 1 {
      Pow2Unique(a / 2, b / 2);
    }
  }

  /** The smaller of two powers of two divides the larger. */
  lemma {:induction false} Pow2Divides(a: nat, b: nat)
    requires IsPow2(a) && IsPow2(b) && a <= b
    ensures b % a == 0 && IsPow2(b / a) && b == a * (b / a)
  {
    if a > 1 {
      Pow2Divides(a / 2, b / 2);
      var q := (b / 2) / (a / 2);
      assert b == a * q;
      MulDivExact(a, q);
    }
  }

  lemma MulDivExact(a: nat, q: nat)
    requires a > 0
    ensures (a * q) / a == q && (a * q) % a == 0
  {
    DivModUnique(a * q, a, q, 0);
  }

  lemma MulAtLeast(d: nat, k: nat)
    requires k >= 1
    ensures d * k >= d
  {
  }

  lemma MulDiff(d: int, q: int, p: int)
    ensures d * (q - p) == d * q - d * p
  {
  }

  lemma DivModUnique(x: int, d: nat, q: int, r: int)
    requires d > 0 && 0 <= r < d && x == d * q + r
    ensures x / d == q && x % d == r
  {
    DivModOf(d, q, r, x / d, x % d);
  }

  lemma DivModOf(d: nat, q: int, r: int, p: int, s: int)
    requires 0 <= r < d && 0 <= s < d && d * q + r == d * p + s
    ensures q == p && r == s
  {
    MulDiff(d, q, p);
    MulDiff(d, p, q);
    if q > p {
      MulAtLeast(d, q - p);
    } else if q < p {
      MulAtLeast(d, p - q);
    }
  }

  lemma DivModDef(x: nat, d: nat)
    requires d > 0
    ensures x == d * (x / d) + x % d && x % d < d
  {
  }

  lemma MulAssoc(a: int, b: int, c: int)
    ensures a * (b * c) == (a * b) * c
  {
  }

  lemma HalveDivMod(x: nat, h: nat)
    requires h > 0
    ensures x / (2 * h) == (x / 2) / h
    ensures x % (2 * h) == 2 * ((x / 2) % h) + x % 2
  {
    DivModDef(x / 2, h);
    var q, r := (x / 2) / h, (x / 2) % h;
    MulAssoc(2, h, q);
    DivModUnique(x, 2 * h, q, 2 * r + x % 2);
  }

  lemma {:induction false} Pow2Product(a: nat, b: nat)
    requires IsPow2(a) && IsPow2(b)
    ensures IsPow2(a * b)
  {
    if a > 1 {
      Pow2Product(a / 2, b);
      assert a * b == 2 * ((a / 2) * b);
    }
  }

  lemma {:induction false} BitAndSelf(x: nat)
    ensures BitAnd(x, x) == x
  {
    if x > 0 {
      BitAndSelf(x / 2);
    }
  }

  lemma BitAndOddEven(y: nat, x: nat)
    ensures BitAnd(2 * y + 1, x) == 2 * BitAnd(y, x / 2) + x % 2
    ensures BitAnd(x, 2 * y + 1) == 2 * BitAnd(x / 2, y) + x % 2
    ensures BitAnd(x, 2 * y) == 2 * BitAnd(x / 2, y)
  {
  }

  /** Masking with s - 1, for a power of two s, is the remainder modulo s. */
  lemma {:induction false} BitAndMask(s: nat, x: nat)
    requires IsPow2(s)
    ensures BitAnd(s - 1, x) == x % s && BitAnd(x, s - 1) == x % s
  {
    if s > 1 {
      var h := s / 2;
      BitAndMask(h, x / 2);
      HalveDivMod(x, h);
      BitAndOddEven(h - 1, x);
    }
  }

  lemma {:induction false} BitAndShifted(x: nat, y: nat, k: nat)
    ensures BitAnd(x, Shl(y, k)) == Shl(BitAnd(Shr(x, k), y), k)
  {
    if k > 0 {
      BitAndShifted(x / 2, y, k - 1);
      BitAndOddEven(Shl(y, k - 1), x);
    }
  }

  lemma {:induction false} BitAndAllOnes(x: nat, k: nat)
    requires x < Pow2(k)
    ensures BitAnd(x, Pow2(k) - 1) == x
  {
    if k > 0 {
      BitAndAllOnes(x / 2, k - 1);
      BitAndOddEven(Pow2(k - 1) - 1, x);
    }
  }

  lemma {:induction false} ShrBounds(x: nat, k: nat, e: nat)
    ensures x < Pow2(k + e) ==> Shr(x, k) < Pow2(e)
    ensures Shr(x, k) > 0 <==> x >= Pow2(k)
    ensures Shr(x, k) == 1 ==> x < Pow2(k + 1)
  {
    if k > 0 {
      ShrBounds(x / 2, k - 1, e);
    }
  }

  lemma {:induction false} ShrAdd(x: nat, c: nat, k: nat)
    ensures Shr(Shr(x, c), k) == Shr(x, c + k)
  {
    if c > 0 {
      ShrAdd(x / 2, c - 1, k);
    }
  }

  /** Masking with the upper half of a 2k-bit word tells whether the upper half is used. */
  lemma {:induction false} UpperHalfMask(x: nat, k: nat)
    requires x < Pow2(2 * k)
    ensures BitAnd(x, Shl(Pow2(k) - 1, k)) != 0 <==> x >= Pow2(k)
  {
    ShrBounds(x, k, k);
    BitAndShifted(x, Pow2(k) - 1, k);
    BitAndAllOnes(Shr(x, k), k);
    ShlZero(Shr(x, k), k);
  }

  lemma {:induction false} ShlIsTimes(y: nat, k: nat)
    ensures Shl(y, k) == y * Pow2(k)
  {
    if k > 0 {
      ShlIsTimes(y, k - 1);
    }
  }

  lemma {:induction false} ShlZero(y: nat, k: nat)
    ensures Shl(y, k) == 0 <==> y == 0
  {
    if k > 0 {
      ShlZero(y, k - 1);
    }
  }

  lemma {:induction false} ClearLowestBit(x: nat)
    requires x > 0
    ensures BitAnd(x, x - 1) < x
    ensures PopCount(BitAnd(x, x - 1)) == PopCount(x) - 1
  {
    if x % 2 == 1 {
      BitAndSelf(x / 2);
      assert BitAnd(x, x - 1) == 2 * (x / 2);
    } else {
      ClearLowestBit(x / 2);
      assert (x - 1) / 2 == x / 2 - 1;
      var y := BitAnd(x / 2, x / 2 - 1);
      assert BitAnd(x, x - 1) == 2 * y;
    }
  }

  /** Find the highest set bit by halving the word: the portable fallback. */
  method HighestOne(x0: nat) returns (c: nat)
    requires 0 < x0 < TWO_64
    ensures c < 64 && Pow2(c) <= x0 < Pow2(c + 1)
  {
    hide Pow2, Shl, BitAnd;
    Masks();
    var x;
    x, c := ShiftIfUpper(x0, x0, 0, 32, 0xffff_ffff_0000_0000);
    x, c := ShiftIfUpper(x0, x, c, 16, 0xffff_0000);
    x, c := ShiftIfUpper(x0, x, c, 8, 0xff00);
    x, c := ShiftIfUpper(x0, x, c, 4, 0xf0);
    x, c := ShiftIfUpper(x0, x, c, 2, 0xc);
    x, c := ShiftIfUpper(x0, x, c, 1, 0x2);
    OnlyOne(x);
    ShrBounds(x0, c, 1);
  }

  lemma OnlyOne(x: nat)
    requires 1 <= x < Pow2(1)
    ensures x == 1
  {
  }

  /** One line of the cascade: x is x0 shifted by c and fits in 2k bits; shift by k more when
    * one of the upper k bits is set. */
  method ShiftIfUpper(ghost x0: nat, x: nat, c: nat, k: nat, mask: nat) returns (y: nat, d: nat)
    requires Shr(x0, c) == x && 1 <= x < Pow2(2 * k)
    requires mask == Shl(Pow2(k) - 1, k)
    ensures c <= d <= c + k && Shr(x0, d) == y && 1 <= y < Pow2(k)
  {
    HalveStep(x0, x, c, k);
    y, d := x, c;
    if BitAnd(x, mask) != 0 {
      y, d := Shr(x, k), c + k;
    }
  }

  lemma Pow2Values()
    ensures Pow2(2) == 4 && Pow2(4) == 16 && Pow2(8) == 256 && Pow2(16) == 0x1_0000
    ensures Pow2(32) == 0x1_0000_0000 && Pow2(54) == 0x40_0000_0000_0000 && Pow2(64) == TWO_64
  {
    hide Pow2;
    SmallPow2Values();
    Pow2Add(8, 8);
    Pow2Add(16, 16);
    Pow2Add(32, 32);
    Pow2Add(16, 6);
    Pow2Add(32, 22);
  }

  lemma SmallPow2Values()
    ensures Pow2(2) == 4 && Pow2(4) == 16 && Pow2(6) == 64 && Pow2(8) == 256
  {
  }

  lemma Masks()
    ensures Pow2(64) == TWO_64
    ensures Shl(Pow2(32) - 1, 32) == 0xffff_ffff_0000_0000
    ensures Shl(Pow2(16) - 1, 16) == 0xffff_0000
    ensures Shl(Pow2(8) - 1, 8) == 0xff00
    ensures Shl(Pow2(4) - 1, 4) == 0xf0
    ensures Shl(Pow2(2) - 1, 2) == 0xc
    ensures Shl(Pow2(1) - 1, 1) == 0x2
  {
    Pow2Values();
    ShlIsTimes(0xffffffff, 32);
    ShlIsTimes(0xffff, 16);
    ShlIsTimes(0xff, 8);
    ShlIsTimes(0xf, 4);
    ShlIsTimes(0x3, 2);
  }

  lemma {:induction false} HalveStep(x0: nat, x: nat, c: nat, k: nat)
    requires Shr(x0, c) == x && 1 <= x < Pow2(2 * k)
    ensures BitAnd(x, Shl(Pow2(k) - 1, k)) == 0 ==> x < Pow2(k)
    ensures BitAnd(x, Shl(Pow2(k) - 1, k)) != 0 ==>
              Shr(x0, c + k) == Shr(x, k) && 1 <= Shr(x, k) < Pow2(k)
  {
    UpperHalfMask(x, k);
    ShrBounds(x, k, k);
    ShrAdd(x0, c, k);
  }

  /** Count the one bits by clearing the lowest one until none is left: the portable fallback. */
  method PopCnt(x0: nat) returns (count: nat)
    ensures count == PopCount(x0)
  {
    var x := x0;
    count := 0;
    while x != 0
      invariant count + PopCount(x) == PopCount(x0)
      decreases x
    {
      ClearLowestBit(x);
      count := count + 1;
      x := BitAnd(x, x - 1);
    }
  }

  /** Largest power of two not above x, and 1 for x == 0.  x | 1 sets the lowest bit. */
  method RoundDownToPowerOf2(x: nat) returns (r: nat)
    requires x < TWO_64
    ensures r == FloorPow2(x)
  {
    var c := HighestOne(x + 1 - x % 2);
    r := Pow2(c);
    FloorPow2IsLargest(x);
    Pow2IsPow2(c);
    if x > 0 {
      assert c > 0 ==> Pow2(c) == 2 * Pow2(c - 1);
      Pow2Unique(r, FloorPow2(x));
    }
  }

  // Population counts along a binary counter

  lemma {:induction false} PopCountStep(k: nat)
    ensures PopCount(k + 1) <= PopCount(k) + 1
    ensures k % 2 == 0 ==> PopCount(k + 1) == PopCount(k) + 1
    ensures k % 2 == 1 ==> PopCount(k + 1) == PopCount(k / 2 + 1) && PopCount(k) == PopCount(k / 2) + 1
  {
    if k % 2 == 0 {
      assert (k + 1) / 2 == k / 2;
    } else {
      PopCountStep(k / 2);
      assert (k + 1) / 2 == k / 2 + 1;
    }
  }

  lemma {:induction false} PopCountScale(k: nat, q: nat)
    requires IsPow2(q)
    ensures PopCount(k * q) == PopCount(k)
  {
    if q > 1 {
      PopCountScale(k, q / 2);
      assert k * q == 2 * (k * (q / 2));
    }
  }

  lemma {:induction false} PopCountBound(n: nat, e: nat)
    requires n < Pow2(e)
    ensures PopCount(n) <= e
    ensures PopCount(n) == e ==> n == Pow2(e) - 1
  {
    if n > 0 {
      PopCountBound(n / 2, e - 1);
    }
  }
}
