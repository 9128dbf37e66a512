/**
 XXH32 and XXH64 (external/xxhash.h), one-shot and streaming.

 The two share their shape: fixed-size stripes are mixed into four lanes, the lanes are merged, and a
 tail shorter than a stripe is folded in.  The stripe mix, the merge and the tail mix are parameters;
 what is proved holds for every choice of them.
 */
module XxhClassic {
  import opened Bytes
  import opened Modular

  type Lanes = s: seq<nat> | |s| == 4 witness [0, 0, 0, 0]

  datatype Family = Family(
    modulus: nat,
    stripeLen: nat,
    prime1: nat, prime2: nat, prime5: nat,
    consume: (Lanes, seq<Byte>) -> Lanes,
    merge: Lanes -> nat,
    finalize: (nat, seq<Byte>) -> nat)
  {
    ghost predicate Valid() {
      stripeLen > 0 && prime1 < modulus && prime2 < modulus && prime5 < modulus
    }
  }

  /** Arithmetic of an unsigned word. */
  function Wrap(modulus: nat, n: nat): (r: nat)
    requires modulus > 0
    ensures r < modulus
  {
    n % modulus
  }

  /** XXH32_initAccs, XXH64_initAccs. */
  function InitAccs(f: Family, seed: nat): Lanes
    requires f.Valid()
  {
    [Wrap(f.modulus, seed + f.prime1 + f.prime2), Wrap(f.modulus, seed + f.prime2), seed,
     Wrap(f.modulus, seed + f.modulus - f.prime1)]
  }

  function Consume(f: Family, acc: Lanes, stripe: seq<Byte>): Lanes {
    f.consume(acc, stripe)
  }

  /** All whole stripes of `input`, in order. */
  function Fold(f: Family, acc: Lanes, input: seq<Byte>): Lanes
    requires f.Valid()
    decreases |input|
  {
    if |input| < f.stripeLen then acc
    else Fold(f, Consume(f, acc, input[..f.stripeLen]), input[f.stripeLen..])
  }

  /** What is left after the whole stripes. */
  function Rest(f: Family, input: seq<Byte>): (r: seq<Byte>)
    requires f.Valid()
    ensures |r| < f.stripeLen
    decreases |input|
  {
    if |input| < f.stripeLen then input else Rest(f, input[f.stripeLen..])
  }

  /** The hash of the whole input at once. */
  function OneShot(f: Family, seed: nat, input: seq<Byte>): nat
    requires f.Valid()
  {
    var h := if |input| >= f.stripeLen then f.merge(Fold(f, InitAccs(f, seed), input)) else seed + f.prime5;
    f.finalize(Wrap(f.modulus, h + |input|), Rest(f, input))
  }

  /** Cutting the input anywhere and carrying the unfinished stripe over changes nothing. */
  lemma {:induction false} FoldAppend(f: Family, acc: Lanes, a: seq<Byte>, b: seq<Byte>)
    requires f.Valid()
    ensures Fold(f, acc, a + b) == Fold(f, Fold(f, acc, a), Rest(f, a) + b)
    ensures Rest(f, a + b) == Rest(f, Rest(f, a) + b)
    decreases |a|
  {
    if |a| >= f.stripeLen {
      assert (a + b)[..f.stripeLen] == a[..f.stripeLen];
      assert (a + b)[f.stripeLen..] == a[f.stripeLen..] + b;
      FoldAppend(f, Consume(f, acc, a[..f.stripeLen]), a[f.stripeLen..], b);
    }
  }

  lemma {:induction false} ShortFold(f: Family, input: seq<Byte>)
    requires f.Valid() && |input| < f.stripeLen
    ensures Rest(f, input) == input && forall acc: Lanes :: Fold(f, acc, input) == acc
  {
  }

  /** XXH32_consumeLong, XXH64_consumeLong. */
  method ConsumeLong(f: Family, acc0: Lanes, input: seq<Byte>) returns (acc: Lanes, pos: nat)
    requires f.Valid() && |input| >= f.stripeLen
    ensures acc == Fold(f, acc0, input)
    ensures pos <= |input| && input[pos..] == Rest(f, input)
  {
    acc, pos := Consume(f, acc0, input[..f.stripeLen]), f.stripeLen;
    while pos < |input| - (f.stripeLen - 1)
      invariant pos <= |input|
      invariant Fold(f, acc0, input) == Fold(f, acc, input[pos..])
      invariant Rest(f, input) == Rest(f, input[pos..])
    {
      ghost var rest := input[pos..];
      assert rest[..f.stripeLen] == input[pos..pos + f.stripeLen] && rest[f.stripeLen..] == input[pos + f.stripeLen..];
      acc, pos := Consume(f, acc, input[pos..pos + f.stripeLen]), pos + f.stripeLen;
    }
  }

  /** XXH32_endian_align, XXH64_endian_align. */
  method HashOnce(f: Family, seed: nat, input: seq<Byte>) returns (h: nat)
    requires f.Valid()
    ensures h == OneShot(f, seed, input)
  {
    var pos := 0;
    if |input| >= f.stripeLen {
      var acc;
      acc, pos := ConsumeLong(f, InitAccs(f, seed), input);
      h := f.merge(acc);
    } else {
      h := seed + f.prime5;
    }
    assert input[pos..] == Rest(f, input);
    h := f.finalize(Wrap(f.modulus, h + |input|), input[pos..]);
  }

  /** The part of XXH32_update and XXH64_update after the length bookkeeping. */
  method Ingest(f: Family, acc0: Lanes, buffer: array<Byte>, size0: nat, input: seq<Byte>)
    returns (acc: Lanes, size: nat)
    requires f.Valid() && buffer.Length == f.stripeLen && size0 < f.stripeLen
    modifies buffer
    ensures acc == Fold(f, acc0, old(buffer[..size0]) + input)
    ensures size < f.stripeLen && buffer[..size] == Rest(f, old(buffer[..size0]) + input)
  {
    ghost var held := buffer[..size0];
    acc, size := acc0, size0;
    if |input| < f.stripeLen - size {
      CopyInto(buffer, size, input);
      size := size + |input|;
      assert buffer[..size] == held + input;
      return;
    }
    var pos := 0;
    if size > 0 {
      pos := f.stripeLen - size;
      CopyInto(buffer, size, input[..pos]);
      var full := buffer[..];
      assert full == held + input[..pos] && held + input == full + input[pos..];
      FoldAppend(f, acc0, full, input[pos..]);
      var end;
      acc, end := ConsumeLong(f, acc, full);
      assert Rest(f, full) + input[pos..] == input[pos..];
      size := 0;
    } else {
      assert held + input == input[pos..];
    }
    acc, size := IngestDirect(f, acc, buffer, input[pos..]);
  }

  /** The rest of the update once the buffer is empty. */
  method IngestDirect(f: Family, acc0: Lanes, buffer: array<Byte>, input: seq<Byte>) returns (acc: Lanes, size: nat)
    requires f.Valid() && buffer.Length == f.stripeLen
    modifies buffer
    ensures acc == Fold(f, acc0, input)
    ensures size < f.stripeLen && buffer[..size] == Rest(f, input)
  {
    acc, size := acc0, 0;
    var pos := 0;
    if |input| >= buffer.Length {
      acc, pos := ConsumeLong(f, acc, input);
    }
    assert input[pos..] == Rest(f, input);
    if pos < |input| {
      CopyInto(buffer, 0, input[pos..]);
      size := |input| - pos;
      assert buffer[..size] == buffer[0..0 + |input[pos..]|];
    }
  }

  // ---- XXH64

  lemma {:induction false} RestLength(f: Family, input: seq<Byte>)
    requires f.Valid() && f.stripeLen == 32
    ensures |Rest(f, input)| == |input| % 32
    decreases |input|
  {
    if |input| >= 32 {
      RestLength(f, input[32..]);
    }
  }

  class Xxh64State {
    const f: Family
    var totalLen: Word64
    var acc: Lanes
    const buffer: array<Byte>
    var bufferedSize: nat
    ghost var seed: nat
    ghost var stream: seq<Byte>

    ghost predicate Valid()
      reads this, buffer
    {
      && f.Valid() && f.stripeLen == 32 && f.modulus == TWO64 && buffer.Length == 32
      && bufferedSize < 32 && seed < TWO64
      && totalLen == |stream| % TWO64
      && acc == Fold(f, InitAccs(f, seed), stream)
      && buffer[..bufferedSize] == Rest(f, stream)
    }

    /** XXH64_createState and XXH64_reset. */
    constructor (f: Family, seed: nat)
      requires f.Valid() && f.stripeLen == 32 && f.modulus == TWO64 && seed < TWO64
      ensures Valid() && this.f == f && this.seed == seed && stream == [] && fresh(buffer)
    {
      this.f := f;
      totalLen, acc, bufferedSize := 0, InitAccs(f, seed), 0;
      buffer := new Byte[32];
      this.seed, stream := seed, [];
    }

    /** XXH64_update. */
    method Update(input: seq<Byte>)
      requires Valid() && |input| < TWO64
      modifies this, buffer
      ensures Valid() && stream == old(stream) + input && seed == old(seed)
    {
      AddModulo(|stream|, |input|);
      FoldAppend(f, InitAccs(f, seed), stream, input);
      totalLen := Add64(totalLen, |input|);
      acc, bufferedSize := Ingest(f, acc, buffer, bufferedSize, input);
      stream := stream + input;
    }

    /** XXH64_digest: the third lane is still the seed while no stripe has been consumed. */
    method Digest() returns (h: nat)
      requires Valid() && |stream| < TWO64
      ensures h == OneShot(f, seed, stream)
    {
      hide Wrap, Fold, Rest;
      RestLength(f, stream);
      if totalLen >= 32 {
        h := f.merge(acc);
      } else {
        ShortFold(f, stream);
        h := acc[2] + f.prime5;
      }
      h := f.finalize(Wrap(TWO64, h + totalLen), buffer[..totalLen % 32]);
    }
  }

  /** For every seed and every way of cutting the input, streaming XXH64 is one-shot XXH64. */
  method HashChunks64(f: Family, seed: nat, chunks: seq<seq<Byte>>) returns (h: nat)
    requires f.Valid() && f.stripeLen == 32 && f.modulus == TWO64 && seed < TWO64
    requires |Concat(chunks)| < TWO64
    ensures h == OneShot(f, seed, Concat(chunks))
  {
    hide OneShot, Fold, Rest, Wrap;
    var s := new Xxh64State(f, seed);
    for i := 0 to |chunks|
      invariant fresh(s) && fresh(s.buffer) && s.Valid() && s.f == f && s.seed == seed
      invariant s.stream + Concat(chunks[i..]) == Concat(chunks)
    {
      assert chunks[i..][0] == chunks[i] && chunks[i..][1..] == chunks[i + 1..];
      s.Update(chunks[i]);
    }
    assert s.stream == Concat(chunks);
    h := s.Digest();
  }

  // ---- XXH32

  lemma WrapAdd(a: nat, b: nat)
    ensures Wrap(TWO32, Wrap(TWO32, a) + b) == Wrap(TWO32, a + b)
  {
    var q, r := a / TWO32, Wrap(TWO32, a) + b;
    assert a + b == q * TWO32 + r;
    DropMultiple(q, r, TWO32);
  }

  /** The test of XXH32_update, although it looks at the wrapped counter. */
  lemma LargeFlag(before: nat, len: nat)
    ensures before >= 16 || len >= 16 || Wrap(TWO32, before + len) >= 16 <==> before + len >= 16
  {
  }

  class Xxh32State {
    const f: Family
    var totalLen32: Word32
    var largeLen: bool
    var acc: Lanes
    const buffer: array<Byte>
    var bufferedSize: nat
    ghost var seed: nat
    ghost var stream: seq<Byte>

    /** The length counter wraps at 2^32, `largeLen` does not. */
    ghost predicate Valid()
      reads this, buffer
    {
      && f.Valid() && f.stripeLen == 16 && f.modulus == TWO32 && buffer.Length == 16
      && bufferedSize < 16 && seed < TWO32
      && totalLen32 == Wrap(TWO32, |stream|)
      && (largeLen <==> |stream| >= 16)
      && acc == Fold(f, InitAccs(f, seed), stream)
      && buffer[..bufferedSize] == Rest(f, stream)
    }

    /** XXH32_createState and XXH32_reset. */
    constructor (f: Family, seed: nat)
      requires f.Valid() && f.stripeLen == 16 && f.modulus == TWO32 && seed < TWO32
      ensures Valid() && this.f == f && this.seed == seed && stream == [] && fresh(buffer)
    {
      this.f := f;
      totalLen32, largeLen, acc, bufferedSize := 0, false, InitAccs(f, seed), 0;
      buffer := new Byte[16];
      this.seed, stream := seed, [];
    }

    /** XXH32_update. */
    method Update(input: seq<Byte>)
      requires Valid()
      modifies this, buffer
      ensures Valid() && stream == old(stream) + input && seed == old(seed)
    {
      hide Wrap, Fold, Rest;
      WrapAdd(|stream|, |input|);
      WrapAdd(|input|, totalLen32);
      LargeFlag(|stream|, |input|);
      FoldAppend(f, InitAccs(f, seed), stream, input);
      totalLen32 := Wrap(TWO32, Wrap(TWO32, |input|) + totalLen32);
      largeLen := largeLen || |input| >= 16 || totalLen32 >= 16;
      acc, bufferedSize := Ingest(f, acc, buffer, bufferedSize, input);
      stream := stream + input;
    }

    /** XXH32_digest. */
    method Digest() returns (h: nat)
      requires Valid()
      ensures h == OneShot(f, seed, stream)
    {
      hide Wrap, Fold, Rest;
      if largeLen {
        h := f.merge(acc);
      } else {
        ShortFold(f, stream);
        h := acc[2] + f.prime5;
      }
      WrapAdd(|stream|, h);
      h := f.finalize(Wrap(TWO32, totalLen32 + h), buffer[..bufferedSize]);
    }
  }

  /** For every seed, every length and every way of cutting the input, streaming XXH32 is one-shot XXH32. */
  method HashChunks32(f: Family, seed: nat, chunks: seq<seq<Byte>>) returns (h: nat)
    requires f.Valid() && f.stripeLen == 16 && f.modulus == TWO32 && seed < TWO32
    ensures h == OneShot(f, seed, Concat(chunks))
  {
    hide OneShot, Fold, Rest, Wrap;
    var s := new Xxh32State(f, seed);
    for i := 0 to |chunks|
      invariant fresh(s) && fresh(s.buffer) && s.Valid() && s.f == f && s.seed == seed
      invariant s.stream + Concat(chunks[i..]) == Concat(chunks)
    {
      assert chunks[i..][0] == chunks[i] && chunks[i..][1..] == chunks[i + 1..];
      s.Update(chunks[i]);
    }
    assert s.stream == Concat(chunks);
    h := s.Digest();
  }

  function Concat(chunks: seq<seq<Byte>>): seq<Byte> {
    if chunks == [] then [] else chunks[0] + Concat(chunks[1..])
  }
}
