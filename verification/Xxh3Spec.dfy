/**
 The value-level view of XXH3 (external/xxhash.h).

 The accumulate and scramble routines are parameters, as they are in the source (`f_acc`, `f_scramble`),
 and so are the short-input hashes and the final mix.  Everything proved here and in `Xxh3` holds for every
 choice of them, hence for the 64-bit and the 128-bit results alike.
 */
module Xxh3Spec {
  import opened Bytes

  type Lanes = seq<Word64>

  const STRIPE_LEN := 64
  const SECRET_CONSUME_RATE := 8
  const SECRET_LASTACC_START := 7
  const SECRET_SIZE_MIN := 136
  const SECRET_DEFAULT_SIZE := 192
  const MIDSIZE_MAX := 240
  const INTERNALBUFFER_SIZE := 256

  datatype Kernel = Kernel(
    init: Lanes,
    accumulate512: (Lanes, seq<Byte>, seq<Byte>) -> Lanes,
    scramble: (Lanes, seq<Byte>) -> Lanes)

  datatype Finisher<!H> = Finisher(
    shortHash: (seq<Byte>, seq<Byte>, Word64) -> H,
    finalizeLong: (Lanes, seq<Byte>, nat) -> H)

  type Secret = s: seq<Byte> | |s| >= SECRET_SIZE_MIN witness seq(SECRET_SIZE_MIN, _ => 0)

  /** Accumulators together with the number of stripes already taken from the current block. */
  datatype Progress = Progress(acc: Lanes, soFar: nat)

  function StripesPerBlock(secret: Secret): (n: nat)
    ensures n >= 9
  {
    (|secret| - STRIPE_LEN) / SECRET_CONSUME_RATE
  }

  function SecretAt(secret: Secret, off: nat): seq<Byte>
    requires off + STRIPE_LEN <= |secret|
  {
    secret[off..off + STRIPE_LEN]
  }

  function Accumulate512(k: Kernel, acc: Lanes, stripe: seq<Byte>, secret: Secret, off: nat): Lanes
    requires off + STRIPE_LEN <= |secret|
  {
    k.accumulate512(acc, stripe, SecretAt(secret, off))
  }

  function Scramble(k: Kernel, acc: Lanes, secret: Secret): Lanes {
    k.scramble(acc, SecretAt(secret, |secret| - STRIPE_LEN))
  }

  /** One stripe: accumulate with the sliding secret, scramble when it completes a block. */
  function Absorb(k: Kernel, secret: Secret, p: Progress, stripe: seq<Byte>): (r: Progress)
    requires p.soFar < StripesPerBlock(secret)
    ensures r.soFar < StripesPerBlock(secret)
  {
    var acc := Accumulate512(k, p.acc, stripe, secret, p.soFar * SECRET_CONSUME_RATE);
    if p.soFar + 1 == StripesPerBlock(secret) then Progress(Scramble(k, acc, secret), 0)
    else Progress(acc, p.soFar + 1)
  }

  /** The first `n` stripes of `input`, one at a time. */
  function Feed(k: Kernel, secret: Secret, p: Progress, input: seq<Byte>, n: nat): (r: Progress)
    requires p.soFar < StripesPerBlock(secret)
    requires n * STRIPE_LEN <= |input|
    ensures r.soFar < StripesPerBlock(secret)
  {
    if n == 0 then p
    else Absorb(k, secret, Feed(k, secret, p, input, n - 1), input[(n - 1) * STRIPE_LEN..n * STRIPE_LEN])
  }

  lemma {:induction false} FeedPrefix(k: Kernel, secret: Secret, p: Progress, a: seq<Byte>, b: seq<Byte>, n: nat)
    requires p.soFar < StripesPerBlock(secret)
    requires n * STRIPE_LEN <= |a| && n * STRIPE_LEN <= |b|
    requires a[..n * STRIPE_LEN] == b[..n * STRIPE_LEN]
    ensures Feed(k, secret, p, a, n) == Feed(k, secret, p, b, n)
  {
    if n > 0 {
      var lo, hi := (n - 1) * STRIPE_LEN, n * STRIPE_LEN;
      assert a[..lo] == a[..hi][..lo] == b[..hi][..lo] == b[..lo];
      assert a[lo..hi] == a[..hi][lo..] == b[..hi][lo..] == b[lo..hi];
      FeedPrefix(k, secret, p, a, b, n - 1);
    }
  }

  lemma {:induction false} FeedSplit(k: Kernel, secret: Secret, p: Progress, input: seq<Byte>, n: nat, m: nat)
    requires p.soFar < StripesPerBlock(secret)
    requires (n + m) * STRIPE_LEN <= |input|
    ensures Feed(k, secret, p, input, n + m)
         == Feed(k, secret, Feed(k, secret, p, input, n), input[n * STRIPE_LEN..], m)
  {
    hide Absorb;
    if m > 0 {
      FeedSplit(k, secret, p, input, n, m - 1);
      var rest := input[n * STRIPE_LEN..];
      assert rest[(m - 1) * STRIPE_LEN..m * STRIPE_LEN]
          == input[(n + m - 1) * STRIPE_LEN..(n + m) * STRIPE_LEN];
    }
  }

  /** The accumulators of a long input: every stripe but the last, then the last 64 bytes. */
  function LongAcc(k: Kernel, secret: Secret, input: seq<Byte>): Lanes
    requires |input| > MIDSIZE_MAX
  {
    Accumulate512(k, Feed(k, secret, Progress(k.init, 0), input, (|input| - 1) / STRIPE_LEN).acc,
                  input[|input| - STRIPE_LEN..], secret, |secret| - STRIPE_LEN - SECRET_LASTACC_START)
  }

  // ---- secrets derived from a seed

  /** One round of XXH3_initCustomSecret_scalar: the seed is added to one word and taken from the next. */
  function DeriveGroup(group: seq<Byte>, seed: Word64): (r: seq<Byte>)
    requires |group| == 16
    ensures |r| == 16
  {
    WriteLE(Add64(Word(group[..8]), seed), 8) + WriteLE(Sub64(Word(group[8..]), seed), 8)
  }

  /** The first `rounds` 16-byte groups written by XXH3_initCustomSecret_scalar. */
  function DeriveRounds(kSecret: Secret, seed: Word64, rounds: nat): (r: seq<Byte>)
    requires 16 * rounds <= |kSecret|
    ensures |r| == 16 * rounds
  {
    if rounds == 0 then []
    else DeriveRounds(kSecret, seed, rounds - 1) + DeriveGroup(kSecret[16 * (rounds - 1)..16 * rounds], seed)
  }

  type DefaultSecret = s: seq<Byte> | |s| == SECRET_DEFAULT_SIZE witness seq(SECRET_DEFAULT_SIZE, _ => 0)

  function DeriveSecret(kSecret: DefaultSecret, seed: Word64): (r: seq<Byte>)
    ensures |r| == SECRET_DEFAULT_SIZE
  {
    DeriveRounds(kSecret, seed, |kSecret| / 16)
  }

  lemma ZeroSeedGroup(group: seq<Byte>)
    requires |group| == 16
    ensures DeriveGroup(group, 0) == group
  {
    WriteReadLE(group[..8]);
    WriteReadLE(group[8..]);
    assert group == group[..8] + group[8..];
  }

  lemma {:induction false} ZeroSeedRounds(kSecret: DefaultSecret, rounds: nat)
    requires 16 * rounds <= |kSecret|
    ensures DeriveRounds(kSecret, 0, rounds) == kSecret[..16 * rounds]
  {
    if rounds > 0 {
      ZeroSeedRounds(kSecret, rounds - 1);
      ZeroSeedGroup(kSecret[16 * (rounds - 1)..16 * rounds]);
    }
  }

  // ---- the one-shot entry points

  datatype Mode =
    | Default
    | WithSeed(seed: Word64)
    | WithSecret(secret: seq<Byte>)
    | WithSecretAndSeed(secret: seq<Byte>, seed: Word64)
  {
    predicate SecretLongEnough() {
      (WithSecret? || WithSecretAndSeed?) ==> |secret| >= SECRET_SIZE_MIN
    }
  }

  function HashLong<H>(k: Kernel, fin: Finisher<H>, secret: Secret, input: seq<Byte>): H
    requires MIDSIZE_MAX < |input|
  {
    fin.finalizeLong(LongAcc(k, secret, input), secret, |input|)
  }

  /** XXH3_64bits, _withSeed, _withSecret and _withSecretandSeed (and their 128-bit twins). */
  function OneShot<H>(k: Kernel, kSecret: DefaultSecret, fin: Finisher<H>, mode: Mode, input: seq<Byte>): H
    requires mode.SecretLongEnough()
  {
    match mode
    case Default =>
      if |input| <= MIDSIZE_MAX then fin.shortHash(input, kSecret, 0) else HashLong(k, fin, kSecret, input)
    case WithSeed(seed) =>
      if |input| <= MIDSIZE_MAX then fin.shortHash(input, kSecret, seed)
      else if seed == 0 then HashLong(k, fin, kSecret, input)
      else HashLong(k, fin, DeriveSecret(kSecret, seed), input)
    case WithSecret(secret) =>
      if |input| <= MIDSIZE_MAX then fin.shortHash(input, secret, 0) else HashLong(k, fin, secret, input)
    case WithSecretAndSeed(secret, seed) =>
      if |input| <= MIDSIZE_MAX then fin.shortHash(input, kSecret, seed) else HashLong(k, fin, secret, input)
  }

  /** The secret of seed 0 is the default secret, so the seeded path may skip deriving it. */
  lemma ZeroSeedSecret(kSecret: DefaultSecret)
    ensures DeriveSecret(kSecret, 0) == kSecret
  {
    ZeroSeedRounds(kSecret, |kSecret| / 16);
  }

  /** Pairing a seed with the secret generated from it is a pure speed-up, at every length and seed. */
  lemma GeneratedSecretAndSeed<H>(k: Kernel, kSecret: DefaultSecret, fin: Finisher<H>, seed: Word64, input: seq<Byte>)
    ensures OneShot(k, kSecret, fin, WithSecretAndSeed(DeriveSecret(kSecret, seed), seed), input)
         == OneShot(k, kSecret, fin, WithSeed(seed), input)
  {
    if seed == 0 {
      ZeroSeedSecret(kSecret);
    }
  }
}
