/** The loops and the streaming state of XXH3 (external/xxhash.h), proved against `Xxh3Spec`. */
module Xxh3 {
  import opened Bytes
  import opened Modular
  import opened Xxh3Spec

  // ---- stripe loops

  function Accumulated(k: Kernel, acc: Lanes, input: seq<Byte>, secret: Secret, off: nat, n: nat): Lanes
    requires n * STRIPE_LEN <= |input|
    requires n > 0 ==> off + (n - 1) * SECRET_CONSUME_RATE + STRIPE_LEN <= |secret|
  {
    if n == 0 then acc
    else Accumulate512(k, Accumulated(k, acc, input, secret, off, n - 1),
                       input[(n - 1) * STRIPE_LEN..n * STRIPE_LEN], secret, off + (n - 1) * SECRET_CONSUME_RATE)
  }

  lemma {:induction false} AccumulatedInsideBlock(k: Kernel, secret: Secret, p: Progress, input: seq<Byte>, n: nat)
    requires p.soFar + n < StripesPerBlock(secret)
    requires n * STRIPE_LEN <= |input|
    ensures Feed(k, secret, p, input, n)
         == Progress(Accumulated(k, p.acc, input, secret, p.soFar * SECRET_CONSUME_RATE, n), p.soFar + n)
  {
    if n > 0 {
      AccumulatedInsideBlock(k, secret, p, input, n - 1);
    }
  }

  lemma AccumulatedToBlockEnd(k: Kernel, secret: Secret, p: Progress, input: seq<Byte>, n: nat)
    requires n > 0 && p.soFar + n == StripesPerBlock(secret)
    requires n * STRIPE_LEN <= |input|
    ensures Feed(k, secret, p, input, n)
         == Progress(Scramble(k, Accumulated(k, p.acc, input, secret, p.soFar * SECRET_CONSUME_RATE, n), secret), 0)
  {
    AccumulatedInsideBlock(k, secret, p, input, n - 1);
  }

  /** XXH3_accumulate: `n` stripes, the secret sliding by eight bytes a stripe. */
  method Accumulate(k: Kernel, acc: Lanes, input: seq<Byte>, secret: Secret, off: nat, n: nat) returns (r: Lanes)
    requires n * STRIPE_LEN <= |input|
    requires n > 0 ==> off + (n - 1) * SECRET_CONSUME_RATE + STRIPE_LEN <= |secret|
    ensures r == Accumulated(k, acc, input, secret, off, n)
  {
    r := acc;
    for i := 0 to n
      invariant r == Accumulated(k, acc, input, secret, off, i)
    {
      r := Accumulate512(k, r, input[i * STRIPE_LEN..(i + 1) * STRIPE_LEN], secret, off + i * SECRET_CONSUME_RATE);
    }
  }

  /** `f_acc` then `f_scramble`: the `n` stripes that complete the current block. */
  method FinishBlock(k: Kernel, acc0: Lanes, soFar: nat, input: seq<Byte>, pos: nat, n: nat, secret: Secret,
                     ghost p0: Progress, ghost done: nat)
    returns (acc: Lanes)
    requires n > 0 && soFar + n == StripesPerBlock(secret) && p0.soFar < StripesPerBlock(secret)
    requires pos == done * STRIPE_LEN && pos + n * STRIPE_LEN <= |input|
    requires Progress(acc0, soFar) == Feed(k, secret, p0, input, done)
    ensures Progress(acc, 0) == Feed(k, secret, p0, input, done + n)
  {
    FeedSplit(k, secret, p0, input, done, n);
    AccumulatedToBlockEnd(k, secret, Progress(acc0, soFar), input[pos..], n);
    acc := Accumulate(k, acc0, input[pos..], secret, soFar * SECRET_CONSUME_RATE, n);
    acc := Scramble(k, acc, secret);
  }

  /** `f_acc` on `n` stripes that stay inside the current block. */
  method PartialBlock(k: Kernel, acc0: Lanes, soFar: nat, input: seq<Byte>, pos: nat, n: nat, secret: Secret,
                      ghost p0: Progress, ghost done: nat)
    returns (acc: Lanes)
    requires soFar + n < StripesPerBlock(secret) && p0.soFar < StripesPerBlock(secret)
    requires pos == done * STRIPE_LEN && pos + n * STRIPE_LEN <= |input|
    requires Progress(acc0, soFar) == Feed(k, secret, p0, input, done)
    ensures Progress(acc, soFar + n) == Feed(k, secret, p0, input, done + n)
  {
    FeedSplit(k, secret, p0, input, done, n);
    AccumulatedInsideBlock(k, secret, Progress(acc0, soFar), input[pos..], n);
    acc := Accumulate(k, acc0, input[pos..], secret, soFar * SECRET_CONSUME_RATE, n);
  }

  /** XXH3_consumeStripes: crosses block boundaries; `end` is how far the input pointer moved. */
  method ConsumeStripes(k: Kernel, acc0: Lanes, soFar0: nat, perBlock: nat, input: seq<Byte>, count: nat,
                        secret: Secret)
    returns (acc: Lanes, soFar: nat, end: nat)
    requires perBlock == StripesPerBlock(secret) && soFar0 < perBlock
    requires count * STRIPE_LEN <= |input|
    ensures Progress(acc, soFar) == Feed(k, secret, Progress(acc0, soFar0), input, count)
    ensures end == count * STRIPE_LEN
  {
    hide Absorb;
    ghost var p0 := Progress(acc0, soFar0);
    acc, soFar, end := acc0, soFar0, 0;
    var nbStripes := count;
    if nbStripes >= perBlock - soFar {
      var nbStripesThisIter := perBlock - soFar;
      acc := FinishBlock(k, acc, soFar, input, end, nbStripesThisIter, secret, p0, 0);
      end, nbStripes := end + nbStripesThisIter * STRIPE_LEN, nbStripes - nbStripesThisIter;
      while nbStripes >= perBlock
        invariant 0 <= nbStripes <= count && end == (count - nbStripes) * STRIPE_LEN
        invariant Progress(acc, 0) == Feed(k, secret, p0, input, count - nbStripes)
      {
        acc := FinishBlock(k, acc, 0, input, end, perBlock, secret, p0, count - nbStripes);
        end, nbStripes := end + perBlock * STRIPE_LEN, nbStripes - perBlock;
      }
      soFar := 0;
    }
    if nbStripes > 0 {
      acc := PartialBlock(k, acc, soFar, input, end, nbStripes, secret, p0, count - nbStripes);
      end, soFar := end + nbStripes * STRIPE_LEN, soFar + nbStripes;
    }
  }

  /** XXH3_hashLong_internal_loop: whole blocks, a partial block, then the overlapping last stripe. */
  method HashLongLoop(k: Kernel, input: seq<Byte>, secret: Secret) returns (acc: Lanes)
    requires |input| > MIDSIZE_MAX
    ensures acc == LongAcc(k, secret, input)
  {
    hide Absorb, Accumulate512, StripesPerBlock, BlocksIn, BlockStart;
    var perBlock := StripesPerBlock(secret);
    var blockLen := STRIPE_LEN * perBlock;
    var nbBlocks := BlocksIn(|input| - 1, blockLen);
    ghost var p0 := Progress(k.init, 0);
    ghost var done := 0;
    acc := k.init;
    BlocksFit(|input| - 1, blockLen);
    for n := 0 to nbBlocks
      invariant BlockStart(n, blockLen) == done * STRIPE_LEN <= |input|
      invariant Progress(acc, 0) == Feed(k, secret, p0, input, done)
    {
      NextBlockFits(n, nbBlocks, blockLen);
      acc := FinishBlock(k, acc, 0, input, BlockStart(n, blockLen), perBlock, secret, p0, done);
      done := done + perBlock;
    }
    var start := BlockStart(nbBlocks, blockLen);
    var nbStripes := (|input| - 1 - start) / STRIPE_LEN;
    assert done + nbStripes == (|input| - 1) / STRIPE_LEN;
    acc := PartialBlock(k, acc, 0, input, start, nbStripes, secret, p0, done);
    acc := Accumulate512(k, acc, input[|input| - STRIPE_LEN..], secret, |secret| - STRIPE_LEN - SECRET_LASTACC_START);
  }

  /** nb_blocks, and the offset of block `n`. */
  function BlocksIn(len: nat, blockLen: nat): nat
    requires blockLen > 0
  {
    len / blockLen
  }

  function BlockStart(n: nat, blockLen: nat): nat {
    n * blockLen
  }

  lemma BlocksFit(len: nat, blockLen: nat)
    requires blockLen > 0
    ensures BlockStart(0, blockLen) == 0
    ensures var start := BlockStart(BlocksIn(len, blockLen), blockLen); start <= len < start + blockLen
  {
  }

  lemma NextBlockFits(n: nat, nbBlocks: nat, blockLen: nat)
    requires n < nbBlocks
    ensures BlockStart(n + 1, blockLen) == BlockStart(n, blockLen) + blockLen <= BlockStart(nbBlocks, blockLen)
  {
    Distribute(n, 1, blockLen);
    ProductMonotone(n + 1, blockLen, nbBlocks, blockLen);
  }

  /** XXH3_64bits and its variants: the long path runs the block loop, with the secret the mode asks for. */
  method HashOnce<H>(k: Kernel, kSecret: DefaultSecret, fin: Finisher<H>, mode: Mode, input: seq<Byte>) returns (h: H)
    requires mode.SecretLongEnough()
    ensures h == OneShot(k, kSecret, fin, mode, input)
  {
    if |input| <= MIDSIZE_MAX {
      var seed := if mode.WithSeed? || mode.WithSecretAndSeed? then mode.seed else 0;
      return fin.shortHash(input, if mode.WithSecret? then mode.secret else kSecret, seed);
    }
    var secret := kSecret;
    if mode.WithSeed? && mode.seed != 0 {
      secret := DeriveSecret(kSecret, mode.seed);
    } else if mode.WithSecret? || mode.WithSecretAndSeed? {
      h := HashLongWith(k, fin, mode.secret, input);
      return;
    }
    h := HashLongWith(k, fin, secret, input);
  }

  /** XXH3_hashLong_64b_internal. */
  method HashLongWith<H>(k: Kernel, fin: Finisher<H>, secret: Secret, input: seq<Byte>) returns (h: H)
    requires |input| > MIDSIZE_MAX
    ensures h == HashLong(k, fin, secret, input)
  {
    var acc := HashLongLoop(k, input, secret);
    return fin.finalizeLong(acc, secret, |input|);
  }
}
