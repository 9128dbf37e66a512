/** external/random.h: the Lehmer generator x -> 16807 x mod (2^31 - 1), by shift and mask. */
module Lehmer {
  import opened Bits
  import opened Bytes
  import opened Modular

  const M: nat := 0x7fff_ffff
  const A: nat := 16807
  /** The inverse of A modulo M. */
  const B: nat := 1407677000

  /** The recurrence that Next computes. */
  function Step(x: nat): (y: nat)
    ensures y < M
  {
    x * A % M
  }

  lemma StepUndone(x: nat)
    requires x < M
    ensures Step(x) * B % M == x
  {
    assert (A * B) % M == 1;
    InverseUndoes(x, A, B, M);
  }

  /** The recurrence permutes [1, M - 1]. */
  lemma StepPermutes(x: nat, y: nat)
    requires x < M && y < M
    ensures Step(x) == Step(y) <==> x == y
    ensures Step(x) == 0 <==> x == 0
  {
    StepUndone(x);
    StepUndone(y);
    StepUndone(0);
  }

  /** Adding the part above bit 31 to the part below keeps the residue. */
  lemma FoldKeepsResidue(hi: nat, lo: nat)
    ensures (hi * (M + 1) + lo) % M == (hi + lo) % M
  {
    DropMultiple(hi, hi + lo, M);
  }

  lemma Folded(product: nat, hi: nat, lo: nat)
    requires product == hi * (M + 1) + lo && lo <= M && hi <= M
    ensures var r := if hi + lo > M then hi + lo - M else hi + lo;
            r <= M && (r == M || r == product % M) && (r == M ==> product % M == 0)
  {
    FoldKeepsResidue(hi, lo);
    var v := hi + lo;
    if v > M {
      QuotientRemainder(v - M, if v - M == M then 1 else 0, if v - M == M then 0 else v - M, M);
      DropMultiple(1, v - M, M);
    } else if v == M {
      QuotientRemainder(v, 1, 0, M);
    } else {
      QuotientRemainder(v, 0, v, M);
    }
  }

  /** The low 31 bits, or one if they are all zero. */
  function GoodSeed(s: Word32): (r: Word32)
    ensures 0 < r <= M
  {
    MaskedSeed(s);
    if And(s, M) != 0 then And(s, M) else 1
  }

  lemma MaskedSeed(s: nat)
    ensures And(s, M) == s % (M + 1)
  {
    Powers();
    AndMask(s, 31);
  }

  /** GoodSeed keeps a seed already in range and lets M itself through. */
  lemma GoodSeeds(s: Word32)
    ensures 0 < s <= M ==> GoodSeed(s) == s
    ensures GoodSeed(s) == M <==> s % (M + 1) == M
  {
    MaskedSeed(s);
  }

  lemma SplitProduct(product: nat)
    ensures Shr(product, 31) == product / (M + 1) && And(product, M) == product % (M + 1)
  {
    Powers();
    ShrDivides(product, 31);
    MaskedSeed(product);
  }

  lemma ProductBound(x: nat)
    requires 0 < x <= M
    ensures x * A / (M + 1) < A
    ensures x == M ==> x * A / (M + 1) + x * A % (M + 1) == M
  {
    if x == M {
      QuotientRemainder(x * A, A - 1, M + 1 - A, M + 1);
    }
  }

  class Random {
    var seed: Word32

    ghost predicate Valid()
      reads this
    {
      0 < seed <= M
    }

    constructor (s: Word32)
      ensures Valid() && seed == GoodSeed(s)
    {
      seed := GoodSeed(s);
    }

    method Reset(s: Word32)
      modifies this
      ensures Valid() && seed == GoodSeed(s)
    {
      seed := GoodSeed(s);
    }

    /** The state follows the recurrence; M is a fixed point, and never reached from elsewhere. */
    method Next() returns (r: Word32)
      requires Valid()
      modifies this
      ensures Valid() && r == seed
      ensures seed == if old(seed) == M then M else Step(old(seed))
      ensures seed == M <==> old(seed) == M
    {
      hide And, Shr;
      var product := seed * A;
      SplitProduct(product);
      ProductBound(seed);
      Folded(product, Shr(product, 31), And(product, M));
      if seed < M {
        StepPermutes(seed, 0);
      }
      seed := Shr(product, 31) + And(product, M);
      if seed > M {
        seed := seed - M;
      }
      r := seed;
    }
  }
}
