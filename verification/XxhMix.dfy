/** Arithmetic at the bottom of xxHash (external/xxhash.h): the portable wide multiply and the final mix. */
module XxhMix {
  import opened Bits
  import opened Bytes
  import opened Modular

  // ---- XXH_mult64to128, portable path

  /**
   Grade-school multiply in base 2^32; the halves of `(cross << 32) | (lo_lo & 0xFFFFFFFF)` are disjoint, hence the
   sum.
   */
  method Mult64To128(lhs: nat, rhs: nat) returns (low: nat, high: nat)
    requires lhs < TWO64 && rhs < TWO64
    ensures low < TWO64 && high < TWO64
    ensures high * TWO64 + low == lhs * rhs
  {
    var lhsLo, lhsHi, rhsLo, rhsHi := lhs % TWO32, lhs / TWO32, rhs % TWO32, rhs / TWO32;
    var loLo, hiLo := Product(lhsLo, rhsLo), Product(lhsHi, rhsLo);
    var loHi, hiHi := Product(lhsLo, rhsHi), Product(lhsHi, rhsHi);
    Split(lhs); Split(rhs);
    HalfProduct(lhsLo, rhsLo); HalfProduct(lhsHi, rhsLo); HalfProduct(lhsLo, rhsHi); HalfProduct(lhsHi, rhsHi);
    Schoolbook(lhsHi, lhsLo, rhsHi, rhsLo);
    hide Product;
    var cross := loLo / TWO32 + hiLo % TWO32 + loHi;
    assert cross < TWO64;
    var upper := hiLo / TWO32 + cross / TWO32 + hiHi;
    assert upper < TWO64;
    low := cross % TWO32 * TWO32 + loLo % TWO32;
    high := upper;
  }

  /** XXH_mult32to64. */
  function Product(a: nat, b: nat): (p: nat) {
    a * b
  }

  lemma Split(x: nat)
    requires x < TWO64
    ensures x == x / TWO32 * TWO32 + x % TWO32 && x / TWO32 < TWO32
  {
  }

  /** A product of two 32-bit halves leaves room for two more 32-bit terms. */
  lemma HalfProduct(a: nat, b: nat)
    requires a < TWO32 && b < TWO32
    ensures Product(a, b) <= TWO64 - 2 * TWO32 + 1
  {
    ProductMonotone(a, b, TWO32 - 1, TWO32 - 1);
  }

  lemma Foil(p: nat, b: nat, q: nat, d: nat)
    ensures (p + b) * (q + d) == p * q + p * d + b * q + b * d
  {
    Distribute(p, b, q + d);
    Distribute(q, d, p);
    Distribute(q, d, b);
  }

  lemma Expand(a: nat, b: nat, c: nat, d: nat, base: nat)
    ensures (a * base + b) * (c * base + d) == a * c * (base * base) + (a * d + b * c) * base + b * d
  {
    Foil(a * base, b, c * base, d);
    Regroup(a, base, c * base);
    Regroup(c, base, base);
    Regroup(a, c, base * base);
    Regroup(base, a, d);
    Regroup(b, c, base);
    Distribute(a * d, b * c, base);
  }

  lemma Schoolbook(hi: nat, lo: nat, hi': nat, lo': nat)
    ensures (hi * TWO32 + lo) * (hi' * TWO32 + lo')
         == Product(hi, hi') * TWO64 + (Product(hi, lo') + Product(lo, hi')) * TWO32 + Product(lo, lo')
  {
    Expand(hi, lo, hi', lo', TWO32);
  }

  // ---- XXH64_avalanche

  const PRIME64_2: Word64 := 0xC2B2AE3D27D4EB4F
  const PRIME64_3: Word64 := 0x165667B19E3779F9
  const INVERSE64_2: Word64 := 0x0BA79078168D4BAF
  const INVERSE64_3: Word64 := 0xE9E9F4C41D6DF849

  /** 64-bit multiplication. */
  function Times(x: Word64, k: Word64): Word64 {
    (x * k) % TWO64
  }

  /** x ^ (x >> s) */
  function XorShift(x: Word64, s: nat): (r: Word64) {
    Power64();
    ShrBound(x, s, 64);
    XorBound(x, Shr(x, s), 64);
    Xor(x, Shr(x, s))
  }

  function Avalanche64(h: Word64): Word64 {
    XorShift(Times(XorShift(Times(XorShift(h, 33), PRIME64_2), 29), PRIME64_3), 32)
  }

  /** Undoes x ^ (x >> 29). */
  function UnXorShift29(x: Word64): (r: Word64) {
    Power64();
    ShrBound(x, 29, 64);
    ShrBound(x, 58, 64);
    XorBound(x, Shr(x, 29), 64);
    XorBound(Xor(x, Shr(x, 29)), Shr(x, 58), 64);
    Xor(Xor(x, Shr(x, 29)), Shr(x, 58))
  }

  /** The word the mix came from. */
  function Unavalanche64(h: Word64): Word64 {
    XorShift(Times(UnXorShift29(Times(XorShift(h, 32), INVERSE64_3)), INVERSE64_2), 33)
  }

  /** Shifting by at least half a word: the operation undoes itself. */
  lemma XorShiftTwice(x: Word64, s: nat)
    requires s >= 32
    ensures XorShift(XorShift(x, s), s) == x
  {
    var t := Shr(x, s);
    Power64();
    ShrXor(x, t, s);
    ShrShr(x, s, s);
    ShrBound(x, s + s, 64);
    XorZero(t);
    XorCancel(x, t);
  }

  lemma XorShift29Undone(x: Word64)
    ensures UnXorShift29(XorShift(x, 29)) == x
    ensures XorShift(UnXorShift29(x), 29) == x
  {
    var a, b := Shr(x, 29), Shr(x, 58);
    Power64();
    ShrShr(x, 29, 29); ShrShr(x, 29, 58); ShrShr(x, 58, 29);
    ShrBound(x, 87, 64);
    // x ^ a, shifted by 29 and by 58
    ShrXor(x, a, 29); ShrXor(x, a, 58);
    XorZero(b);
    XorAssoc(Xor(x, a), Xor(a, b), b); XorCancel(a, b); XorCancel(x, a);
    // x ^ a ^ b, shifted by 29
    ShrXor(Xor(x, a), b, 29);
    XorZero(Xor(a, b));
    XorAssoc(x, a, b); XorCancel(x, Xor(a, b));
  }

  /** Multiplying by an inverse modulo 2^64 undoes a multiplication. */
  lemma TimesInverse(x: Word64, k: Word64, k': Word64)
    requires (k * k') % TWO64 == 1
    ensures Times(Times(x, k), k') == x
  {
    InverseUndoes(x, k, k', TWO64);
  }

  lemma Inverses()
    ensures (PRIME64_2 * INVERSE64_2) % TWO64 == 1 && (INVERSE64_2 * PRIME64_2) % TWO64 == 1
    ensures (PRIME64_3 * INVERSE64_3) % TWO64 == 1 && (INVERSE64_3 * PRIME64_3) % TWO64 == 1
  {
  }

  /** The mix is a bijection on 64-bit words. */
  lemma AvalancheBijective(h: Word64)
    ensures Unavalanche64(Avalanche64(h)) == h
    ensures Avalanche64(Unavalanche64(h)) == h
  {
    hide Times, XorShift, UnXorShift29;
    Inverses();
    var a := XorShift(h, 33);
    var b := Times(a, PRIME64_2);
    var c := XorShift(b, 29);
    XorShiftTwice(Times(c, PRIME64_3), 32);
    TimesInverse(c, PRIME64_3, INVERSE64_3);
    XorShift29Undone(b);
    TimesInverse(a, PRIME64_2, INVERSE64_2);
    XorShiftTwice(h, 33);
    var d := XorShift(h, 32);
    var e := Times(d, INVERSE64_3);
    var f := UnXorShift29(e);
    XorShiftTwice(Times(f, INVERSE64_2), 33);
    TimesInverse(f, INVERSE64_2, PRIME64_2);
    XorShift29Undone(e);
    TimesInverse(d, INVERSE64_3, PRIME64_3);
    XorShiftTwice(h, 32);
  }

  // ---- XXH3_len_1to3_64b

  /** Four byte fields; they are disjoint, hence sums for `|` and products for `<<`. */
  function Pack(b0: Byte, b1: Byte, b2: Byte, b3: Byte): Word32 {
    b0 + 256 * (b1 + 256 * (b2 + 256 * b3))
  }

  /** Last byte, length, first byte and middle byte, from the low end up. */
  function Combined(input: seq<Byte>): Word32
    requires 1 <= |input| <= 3
  {
    Pack(input[|input| - 1], |input|, input[0], input[|input| / 2])
  }

  /** XXH3_len_1to3_64b. */
  function Hash1To3(input: seq<Byte>, secret: seq<Byte>, seed: Word64): Word64
    requires 1 <= |input| <= 3 && |secret| >= 8
  {
    Avalanche64(Keyed(Combined(input), Bitflip(secret, seed)))
  }

  function Bitflip(secret: seq<Byte>, seed: Word64): Word64
    requires |secret| >= 8
  {
    WordSizes();
    Power64();
    XorBound(ReadLE(secret[..4]), ReadLE(secret[4..8]), 64);
    Add64(Xor(ReadLE(secret[..4]), ReadLE(secret[4..8])), seed)
  }

  function Keyed(combined: Word64, bitflip: Word64): (k: Word64) {
    Power64();
    XorBound(combined, bitflip, 64);
    Xor(combined, bitflip)
  }

  lemma PackInjective(b0: Byte, b1: Byte, b2: Byte, b3: Byte, c0: Byte, c1: Byte, c2: Byte, c3: Byte)
    requires Pack(b0, b1, b2, b3) == Pack(c0, c1, c2, c3)
    ensures b0 == c0 && b1 == c1 && b2 == c2 && b3 == c3
  {
    LowByte(b0, b1 + 256 * (b2 + 256 * b3)); LowByte(c0, c1 + 256 * (c2 + 256 * c3));
    LowByte(b1, b2 + 256 * b3); LowByte(c1, c2 + 256 * c3);
  }

  lemma CombinedInjective(a: seq<Byte>, b: seq<Byte>)
    requires 1 <= |a| <= 3 && 1 <= |b| <= 3 && Combined(a) == Combined(b)
    ensures a == b
  {
    PackInjective(a[|a| - 1], |a|, a[0], a[|a| / 2], b[|b| - 1], |b|, b[0], b[|b| / 2]);
  }

  /** For every secret and seed, no two inputs of one to three bytes share a hash. */
  lemma NoShortCollision(a: seq<Byte>, b: seq<Byte>, secret: seq<Byte>, seed: Word64)
    requires 1 <= |a| <= 3 && 1 <= |b| <= 3 && |secret| >= 8
    ensures Hash1To3(a, secret, seed) == Hash1To3(b, secret, seed) <==> a == b
  {
    hide Avalanche64, Unavalanche64, Combined, Bitflip;
    var bitflip := Bitflip(secret, seed);
    AvalancheBijective(Keyed(Combined(a), bitflip));
    AvalancheBijective(Keyed(Combined(b), bitflip));
    XorCancel(Combined(a), bitflip);
    XorCancel(Combined(b), bitflip);
    if Combined(a) == Combined(b) {
      CombinedInjective(a, b);
    }
  }
}
