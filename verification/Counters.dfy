/** Per-lane block counters: load_counters of c/blake3/blake3_sse2.c, blake3_avx2.c and
  * blake3_avx512.c, one lane at a time.  Here a 32-bit word is its unsigned value. */
module Counters {
  import opened Compress

  const TWO_31: nat := 0x8000_0000

  type u32 = n: nat | n < TWO_32

  function Add32(a: u32, b: u32): u32 {
    (a + b) % TWO_32
  }

  function Sub32(a: u32, b: u32): u32 {
    (a + TWO_32 - b) % TWO_32
  }

  /** Exclusive or with 0x80000000: flip the sign bit. */
  function FlipSign(a: u32): u32 {
    if a >= TWO_31 then a - TWO_31 else a + TWO_31
  }

  function Signed(a: u32): int {
    if a >= TWO_31 then a - TWO_32 else a
  }

  /** _mm_cmpgt_epi32: a signed comparison yielding all ones or all zeros. */
  function CmpGt(a: u32, b: u32): u32 {
    if Signed(a) > Signed(b) then TWO_32 - 1 else 0
  }

  /** What is added in lane i: the lane number under the mask. */
  function Delta(increment: bool, i: nat): nat {
    if increment then i else 0
  }

  /** The low words, the same in all kernels that add 32 bits at a time. */
  function LaneLow(counter: nat, increment: bool, i: nat): u32
    requires i < 16
  {
    Add32(counter % TWO_32, Delta(increment, i))
  }

  /** sse2, sse41 and avx2: the low word wrapped when it is below what was added, unsigned. */
  function LaneHighSse(counter: nat, increment: bool, i: nat): u32
    requires i < 16
  {
    var carry := CmpGt(FlipSign(Delta(increment, i)), FlipSign(LaneLow(counter, increment, i)));
    Sub32(counter / TWO_32 % TWO_32, carry)
  }

  /** avx512 with 16 lanes: the top bit was one before the addition and zero after. */
  function LaneHigh16(counter: nat, increment: bool, i: nat): u32
    requires i < 16
  {
    var low := LaneLow(counter, increment, i);
    var carry := if low < TWO_31 && counter % TWO_32 >= TWO_31 then 1 else 0;
    Add32(counter / TWO_32 % TWO_32, carry)
  }

  /** avx512 with 4 or 8 lanes: 64-bit additions, split afterwards. */
  function LaneWide(counter: nat, increment: bool, i: nat): nat {
    (counter % (TWO_32 * TWO_32) + Delta(increment, i)) % (TWO_32 * TWO_32)
  }

  /** Adding a small number carries at most one into the high part. */
  lemma CarryStep(counter: nat, d: nat)
    requires d < 16
    ensures var low, high := counter % TWO_32, counter / TWO_32;
            if low + d < TWO_32 then (counter + d) % TWO_32 == low + d && (counter + d) / TWO_32 == high
            else (counter + d) % TWO_32 == low + d - TWO_32 && (counter + d) / TWO_32 == high + 1
  {
    var low, high := counter % TWO_32, counter / TWO_32;
    assert counter == TWO_32 * high + low;
  }

  lemma HighStep(high: nat)
    ensures (high + 1) % TWO_32 == if high % TWO_32 == TWO_32 - 1 then 0 else high % TWO_32 + 1
  {
  }

  /** The 32-bit ways of counting give lane i the counter of input i, carry included. */
  lemma LaneCounters(counter: nat, increment: bool, i: nat)
    requires i < 16
    ensures LaneLow(counter, increment, i) == (counter + Delta(increment, i)) % TWO_32
    ensures LaneHighSse(counter, increment, i) == (counter + Delta(increment, i)) / TWO_32 % TWO_32
    ensures LaneHigh16(counter, increment, i) == (counter + Delta(increment, i)) / TWO_32 % TWO_32
  {
    CarryStep(counter, Delta(increment, i));
    HighStep(counter / TWO_32);
  }

  lemma Mod64(x: nat)
    ensures x % (TWO_32 * TWO_32) % TWO_32 == x % TWO_32
    ensures x % (TWO_32 * TWO_32) / TWO_32 == x / TWO_32 % TWO_32
  {
    var q, r := x / (TWO_32 * TWO_32), x % (TWO_32 * TWO_32);
    assert x == TWO_32 * (TWO_32 * q) + r;
    assert x / TWO_32 == TWO_32 * q + r / TWO_32;
  }

  /** So does 64-bit counting. */
  lemma WideCounters(counter: nat, increment: bool, i: nat)
    requires i < 16
    ensures LaneWide(counter, increment, i) % TWO_32 == (counter + Delta(increment, i)) % TWO_32
    ensures LaneWide(counter, increment, i) / TWO_32 == (counter + Delta(increment, i)) / TWO_32 % TWO_32
  {
    assert LaneWide(counter, increment, i) == (counter + Delta(increment, i)) % (TWO_32 * TWO_32);
    Mod64(counter + Delta(increment, i));
  }
}
