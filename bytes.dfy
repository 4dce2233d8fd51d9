/**
 * Little-endian byte order and two's-complement widening, shared by the
 * memory (integer data is serialised before it is stored) and by the CPU
 * (instruction fetch and `loadint`).
 */
module Bytes {

  const ALL_ONES: bv64 := 0xFFFF_FFFF_FFFF_FFFF

  /** The unsigned little-endian value of a byte string (`int.from_bytes(b, 'little')`), modulo 2^64. */
  function LeValue(b: seq<bv8>): bv64
  {
    if b == [] then 0 else (LeValue(b[1..]) << 8) | b[0] as bv64
  }

  /** The first `n` bytes of `v` in little-endian order (`np.uint64(v).tobytes()` on a little-endian host, for n == 8). */
  function LeBytes(v: bv64, n: nat): (r: seq<bv8>)
    ensures |r| == n
    ensures n > 0 ==> r[0] == (v & 0xFF) as bv8
    decreases n
  {
    if n == 0 then [] else [(v & 0xFF) as bv8] + LeBytes(v >> 8, n - 1)
  }

  /** A mask of the low `n` bytes (all ones from n == 8 on). */
  function ByteMask(n: nat): bv64
    decreases n
  {
    if n == 0 then 0 else (ByteMask(n - 1) << 8) | 0xFF
  }

  lemma MaskStep(v: bv64, m: bv64)
    ensures ((((v >> 8) & m) << 8) | (v & 0xFF)) == v & ((m << 8) | 0xFF)
  {}

  /** Serialising and reading back keeps exactly the low `n` bytes. */
  lemma {:induction false} LeValueOfBytes(v: bv64, n: nat)
    ensures LeValue(LeBytes(v, n)) == v & ByteMask(n)
    decreases n
  {
    if n > 0 {
      var r := LeBytes(v, n);
      assert r[1..] == LeBytes(v >> 8, n - 1);
      LeValueOfBytes(v >> 8, n - 1);
      MaskStep(v, ByteMask(n - 1));
    }
  }

  /** The eight-byte serialisation of a 64-bit value is lossless. */
  lemma LeRoundTrip(v: bv64)
    ensures LeValue(LeBytes(v, 8)) == v
  {
    LeValueOfBytes(v, 8);
    assert ByteMask(8) == ALL_ONES;
  }

  /** Four bytes cover the low 32 bits. */
  lemma ByteMaskWord()
    ensures ByteMask(4) == 0xFFFF_FFFF
  {}

  /** The first four bytes of a serialisation hold the low 32 bits of the value. */
  lemma LowWord(v: bv64)
    ensures LeValue(LeBytes(v, 4)) == v & 0xFFFF_FFFF
  {
    LeValueOfBytes(v, 4);
    ByteMaskWord();
  }

  /** A shorter serialisation is a prefix of a longer one. */
  lemma {:induction false} LeBytesPrefix(v: bv64, n: nat, m: nat)
    requires n <= m
    ensures LeBytes(v, m)[..n] == LeBytes(v, n)
    decreases n
  {
    if n > 0 {
      LeBytesPrefix(v >> 8, n - 1, m - 1);
      assert LeBytes(v, m)[..n] == [(v & 0xFF) as bv8] + LeBytes(v >> 8, m - 1)[..n - 1];
    }
  }

  /** NumPy `uint64` addition: wraps modulo 2^64. */
  function Add(a: bv64, b: bv64): bv64
  {
    a + b
  }

  /** NumPy `uint64` subtraction: wraps modulo 2^64. */
  function Sub(a: bv64, b: bv64): bv64
  {
    a - b
  }

  /**
   * Two's-complement sign extension to 64 bits of the field whose sign bit is `top`
   * (a single set bit): the bits below `top` are kept, `top` and every bit above it
   * become copies of the field's sign.
   */
  function SignExtend(v: bv64, top: bv64): bv64
  {
    ((v & ((top << 1) - 1)) ^ top) - top
  }

  /** The sign bit of an `n`-byte value. */
  function SignBit(n: nat): (top: bv64)
    requires 0 < n <= 8
  {
    match n
    case 1 => 0x80
    case 2 => 0x8000
    case 3 => 0x80_0000
    case 4 => 0x8000_0000
    case 5 => 0x80_0000_0000
    case 6 => 0x8000_0000_0000
    case 7 => 0x80_0000_0000_0000
    case 8 => 0x8000_0000_0000_0000
  }

  /**
   * `int.from_bytes(b, 'little', signed=True)` followed by `np.uint64`, taken as
   * exact two's-complement wrap-around: the bytes in little-endian order, with
   * every higher bit a copy of the top bit of the last byte; the empty string gives 0.
   */
  function SignedLe(b: seq<bv8>): (v: bv64)
    requires |b| <= 8
    ensures b == [] ==> v == 0
  {
    if b == [] then 0 else SignExtend(LeValue(b), SignBit(|b|))
  }

  /** One step of a little-endian read keeps the value within one more byte. */
  lemma FitsStep(x: bv64, y: bv8, m: bv64)
    ensures x & !m == 0 ==> ((x << 8) | y as bv64) & !((m << 8) | 0xFF) == 0
  {}

  /** `n` bytes read in little-endian order have no bit set above the low `n` bytes. */
  lemma {:induction false} LeValueFits(b: seq<bv8>)
    ensures LeValue(b) & !ByteMask(|b|) == 0
  {
    if b != [] {
      LeValueFits(b[1..]);
      FitsStep(LeValue(b[1..]), b[0], ByteMask(|b| - 1));
    }
  }

  lemma SignBitStep(n: nat)
    requires 0 < n < 8
    ensures SignBit(n + 1) == SignBit(n) << 8
  {}

  /** One step of a little-endian read moves the sign bit up by a byte. */
  lemma SignStep(x: bv64, y: bv8, s: bv64)
    ensures s & 0xFF00_0000_0000_0000 == 0 ==> ((((x << 8) | y as bv64) & (s << 8) == 0) <==> (x & s == 0))
  {}

  /** The sign bit of an `n`-byte little-endian value is the top bit of its last byte. */
  lemma {:induction false} LeValueSign(b: seq<bv8>)
    requires 0 < |b| <= 8
    ensures (LeValue(b) & SignBit(|b|) == 0) <==> (b[|b| - 1] & 0x80 == 0)
  {
    var t := b[1..];
    if t != [] {
      LeValueSign(t);
      SignBitStep(|t|);
      SignStep(LeValue(t), b[0], SignBit(|t|));
    }
  }

  /** The masks of one to eight bytes are the bits below the next sign bit. */
  lemma SignBitMask(n: nat)
    requires 0 < n <= 8
    ensures ByteMask(n) == (SignBit(n) << 1) - 1
  {}

  /** Every sign bit is a single bit. */
  lemma SignBitSingle(n: nat)
    requires 0 < n <= 8
    ensures SignBit(n) != 0 && SignBit(n) & (SignBit(n) - 1) == 0
  {}

  /** Sign-extending a non-negative field with nothing above it leaves it unchanged. */
  lemma SignExtendNonNegative(x: bv64, top: bv64)
    ensures top != 0 && top & (top - 1) == 0 && x & !((top << 1) - 1) == 0 && x & top == 0 ==> SignExtend(x, top) == x
  {}

  /* The negative case of sign extension for each width below eight bytes, on literal masks. */

  lemma SignExtendNegative1(x: bv64)
    ensures x & !0xFF == 0 && x & 0x80 != 0 ==> SignExtend(x, 0x80) == x | !0xFF
  {}

  lemma SignExtendNegative2(x: bv64)
    ensures x & !0xFFFF == 0 && x & 0x8000 != 0 ==> SignExtend(x, 0x8000) == x | !0xFFFF
  {}

  lemma SignExtendNegative3(x: bv64)
    ensures x & !0xFF_FFFF == 0 && x & 0x80_0000 != 0 ==> SignExtend(x, 0x80_0000) == x | !0xFF_FFFF
  {}

  lemma SignExtendNegative4(x: bv64)
    ensures x & !0xFFFF_FFFF == 0 && x & 0x8000_0000 != 0 ==> SignExtend(x, 0x8000_0000) == x | !0xFFFF_FFFF
  {}

  lemma SignExtendNegative5(x: bv64)
    ensures x & !0xFF_FFFF_FFFF == 0 && x & 0x80_0000_0000 != 0 ==> SignExtend(x, 0x80_0000_0000) == x | !0xFF_FFFF_FFFF
  {}

  lemma SignExtendNegative6(x: bv64)
    ensures x & !0xFFFF_FFFF_FFFF == 0 && x & 0x8000_0000_0000 != 0 ==> SignExtend(x, 0x8000_0000_0000) == x | !0xFFFF_FFFF_FFFF
  {}

  lemma SignExtendNegative7(x: bv64)
    ensures x & !0xFF_FFFF_FFFF_FFFF == 0 && x & 0x80_0000_0000_0000 != 0 ==> SignExtend(x, 0x80_0000_0000_0000) == x | !0xFF_FFFF_FFFF_FFFF
  {}

  /** Sign-extending a negative field of `n` bytes with nothing above it sets every higher bit. */
  lemma SignExtendNegative(x: bv64, n: nat)
    requires 0 < n <= 8
    ensures x & !ByteMask(n) == 0 && x & SignBit(n) != 0 ==> SignExtend(x, SignBit(n)) == x | !ByteMask(n)
  {
    SignBitMask(n);
    match n
    case 1 => SignExtendNegative1(x);
    case 2 => SignExtendNegative2(x);
    case 3 => SignExtendNegative3(x);
    case 4 => SignExtendNegative4(x);
    case 5 => SignExtendNegative5(x);
    case 6 => SignExtendNegative6(x);
    case 7 => SignExtendNegative7(x);
    case 8 =>
  }

  /** One to eight bytes whose last byte has its top bit clear read as their unsigned little-endian value. */
  lemma SignedLeNonNegative(b: seq<bv8>)
    requires 0 < |b| <= 8 && b[|b| - 1] & 0x80 == 0
    ensures SignedLe(b) == LeValue(b)
  {
    LeValueFits(b);
    LeValueSign(b);
    SignBitMask(|b|);
    SignBitSingle(|b|);
    SignExtendNonNegative(LeValue(b), SignBit(|b|));
  }

  /**
   * One to eight bytes whose last byte has its top bit set read as their unsigned
   * little-endian value with every bit above the last byte set.
   */
  lemma SignedLeNegative(b: seq<bv8>)
    requires 0 < |b| <= 8 && b[|b| - 1] & 0x80 != 0
    ensures SignedLe(b) == LeValue(b) | !ByteMask(|b|)
  {
    LeValueFits(b);
    LeValueSign(b);
    SignBitMask(|b|);
    SignBitSingle(|b|);
    SignExtendNegative(LeValue(b), |b|);
  }

  /** A four-byte read is the little-endian word sign-extended from bit 31. */
  lemma SignedLeWord(b: seq<bv8>)
    requires |b| == 4
    ensures SignedLe(b) == SignExtend(LeValue(b), 0x8000_0000)
  {}

  /** Sign extension from bit 31 keeps the low word and copies bit 31 into the high word. */
  lemma SignExtendWord(x: bv64)
    requires x <= 0xFFFF_FFFF
    ensures SignExtend(x, 0x8000_0000) & 0xFFFF_FFFF == x
    ensures SignExtend(x, 0x8000_0000) >> 32 == if x & 0x8000_0000 == 0 then 0 else 0xFFFF_FFFF
  {}
}
