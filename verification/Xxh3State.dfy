/** XXH3_state_t (external/xxhash.h): resets, update and digest, in place over the internal buffer. */
module Xxh3State {
  import opened Bytes
  import opened Xxh3Spec
  import opened Xxh3
  import opened Options

  // ---- what the state knows about the bytes it has been given

  /** `consumed` stripes of `all` have gone into the accumulators. */
  ghost predicate Drained(k: Kernel, secret: Secret, all: seq<Byte>, consumed: nat, p: Progress) {
    && consumed * STRIPE_LEN <= |all|
    && p == Feed(k, secret, Progress(k.init, 0), all, consumed)
  }

  /** The stale end of the buffer still shows the last consumed stripe. */
  ghost predicate TailKept(all: seq<Byte>, consumed: nat, buf: seq<Byte>, size: nat)
    requires |buf| == INTERNALBUFFER_SIZE
    requires consumed > 0 && consumed * STRIPE_LEN <= |all|
  {
    forall j :: INTERNALBUFFER_SIZE - STRIPE_LEN <= j < INTERNALBUFFER_SIZE && size <= j ==>
      buf[j] == all[consumed * STRIPE_LEN - INTERNALBUFFER_SIZE + j]
  }

  /** Everything is either consumed or buffered, and something is always buffered once consuming has begun. */
  ghost predicate Holds(k: Kernel, secret: Secret, all: seq<Byte>, consumed: nat, p: Progress, buf: seq<Byte>,
                        size: nat)
  {
    && |buf| == INTERNALBUFFER_SIZE && size <= INTERNALBUFFER_SIZE
    && |all| == consumed * STRIPE_LEN + size
    && buf[..size] == all[consumed * STRIPE_LEN..]
    && Drained(k, secret, all, consumed, p)
    && (consumed > 0 ==> size > 0 && |all| > INTERNALBUFFER_SIZE && TailKept(all, consumed, buf, size))
  }

  lemma HoldsAppend(k: Kernel, secret: Secret, all: seq<Byte>, consumed: nat, p: Progress,
                    buf: seq<Byte>, size: nat, input: seq<Byte>, buf': seq<Byte>)
    requires Holds(k, secret, all, consumed, p, buf, size)
    requires size + |input| <= INTERNALBUFFER_SIZE
    requires buf' == buf[..size] + input + buf[size + |input|..]
    ensures Holds(k, secret, all + input, consumed, p, buf', size + |input|)
  {
    assert (all + input)[..consumed * STRIPE_LEN] == all[..consumed * STRIPE_LEN];
    FeedPrefix(k, secret, Progress(k.init, 0), all, all + input, consumed);
    assert buf'[..size + |input|] == buf[..size] + input == (all + input)[consumed * STRIPE_LEN..];
  }

  lemma DrainMore(k: Kernel, secret: Secret, all: seq<Byte>, consumed: nat, p: Progress, piece: seq<Byte>, n: nat)
    requires Drained(k, secret, all, consumed, p)
    requires n * STRIPE_LEN <= |piece| && (consumed + n) * STRIPE_LEN <= |all|
    requires piece[..n * STRIPE_LEN] == all[consumed * STRIPE_LEN..(consumed + n) * STRIPE_LEN]
    ensures Drained(k, secret, all, consumed + n, Feed(k, secret, p, piece, n))
  {
    var rest := all[consumed * STRIPE_LEN..];
    assert rest[..n * STRIPE_LEN] == all[consumed * STRIPE_LEN..(consumed + n) * STRIPE_LEN];
    FeedSplit(k, secret, Progress(k.init, 0), all, consumed, n);
    FeedPrefix(k, secret, p, piece, rest, n);
  }

  lemma HoldsAfterDrain(k: Kernel, secret: Secret, all: seq<Byte>, consumed: nat, p: Progress,
                        buf: seq<Byte>, rest: seq<Byte>, buf': seq<Byte>)
    requires Drained(k, secret, all, consumed, p) && consumed > 0
    requires |buf| == INTERNALBUFFER_SIZE && TailKept(all, consumed, buf, 0)
    requires rest == all[consumed * STRIPE_LEN..] && 0 < |rest| <= INTERNALBUFFER_SIZE < |all|
    requires buf' == rest + buf[|rest|..]
    ensures Holds(k, secret, all, consumed, p, buf', |rest|)
  {
    assert buf'[..|rest|] == rest;
  }

  /** The last 64 bytes of the input, rebuilt from the buffer alone. */
  lemma LastStripe(k: Kernel, secret: Secret, all: seq<Byte>, consumed: nat, p: Progress, buf: seq<Byte>, size: nat)
    requires Holds(k, secret, all, consumed, p, buf, size)
    requires |all| >= STRIPE_LEN
    ensures size >= STRIPE_LEN ==> buf[size - STRIPE_LEN..size] == all[|all| - STRIPE_LEN..]
    ensures size < STRIPE_LEN ==>
      buf[INTERNALBUFFER_SIZE - (STRIPE_LEN - size)..] + buf[..size] == all[|all| - STRIPE_LEN..]
  {
    var tail := all[consumed * STRIPE_LEN..];
    if size >= STRIPE_LEN {
      assert buf[size - STRIPE_LEN..size] == buf[..size][size - STRIPE_LEN..] == tail[size - STRIPE_LEN..];
    } else {
      var catchup := STRIPE_LEN - size;
      var mid := consumed * STRIPE_LEN;
      assert |all| - STRIPE_LEN == mid - catchup;
      assert all[mid - catchup..] == all[mid - catchup..mid] + all[mid..];
      assert buf[INTERNALBUFFER_SIZE - catchup..] == all[consumed * STRIPE_LEN - catchup..consumed * STRIPE_LEN];
    }
  }

  /** A tail, filled up from what comes after it. */
  lemma Joined(before: seq<Byte>, input: seq<Byte>, lo: nat, cut: nat)
    requires lo <= |before| && cut <= |input|
    ensures (before + input)[lo..|before| + cut] == before[lo..] + input[..cut]
    ensures (before + input)[|before| + cut..] == input[cut..]
    ensures (before + input)[..lo] == before[..lo]
  {
  }

  lemma TailOfSlice(all: seq<Byte>, consumed: nat, n: nat, full: seq<Byte>)
    requires n * STRIPE_LEN == INTERNALBUFFER_SIZE && (consumed + n) * STRIPE_LEN <= |all|
    requires full == all[consumed * STRIPE_LEN..(consumed + n) * STRIPE_LEN]
    ensures |full| == INTERNALBUFFER_SIZE && TailKept(all, consumed + n, full, 0)
  {
  }

  /** Completing the buffer from the input and consuming it whole. */
  lemma FilledBuffer(k: Kernel, secret: Secret, before: seq<Byte>, consumed: nat, p: Progress,
                     buf: seq<Byte>, size: nat, input: seq<Byte>, full: seq<Byte>, n: nat)
    requires Holds(k, secret, before, consumed, p, buf, size)
    requires n * STRIPE_LEN == INTERNALBUFFER_SIZE
    requires |input| > INTERNALBUFFER_SIZE - size
    requires full == buf[..size] + input[..INTERNALBUFFER_SIZE - size]
    ensures var all := before + input;
            && Drained(k, secret, all, consumed + n, Feed(k, secret, p, full, n))
            && all[(consumed + n) * STRIPE_LEN..] == input[INTERNALBUFFER_SIZE - size..]
            && TailKept(all, consumed + n, full, 0)
  {
    hide Absorb, TailKept;
    var all := before + input;
    Joined(before, input, consumed * STRIPE_LEN, INTERNALBUFFER_SIZE - size);
    assert full[..n * STRIPE_LEN] == full;
    FeedPrefix(k, secret, Progress(k.init, 0), before, all, consumed);
    DrainMore(k, secret, all, consumed, p, full, n);
    TailOfSlice(all, consumed, n, full);
  }

  /** Consuming `n` stripes straight from the input and copying the last of them to the buffer end. */
  lemma DirectStripes(k: Kernel, secret: Secret, all: seq<Byte>, consumed: nat, p: Progress,
                      input: seq<Byte>, pos: nat, n: nat, buf: seq<Byte>)
    requires Drained(k, secret, all, consumed, p)
    requires pos <= |input| && all[consumed * STRIPE_LEN..] == input[pos..]
    requires 0 < n && n * STRIPE_LEN < |input| - pos
    requires |buf| == INTERNALBUFFER_SIZE
    requires buf[INTERNALBUFFER_SIZE - STRIPE_LEN..] == input[pos + (n - 1) * STRIPE_LEN..pos + n * STRIPE_LEN]
    ensures Drained(k, secret, all, consumed + n, Feed(k, secret, p, input[pos..], n))
    ensures all[(consumed + n) * STRIPE_LEN..] == input[pos + n * STRIPE_LEN..]
    ensures TailKept(all, consumed + n, buf, 0)
  {
    var lo, rest := consumed * STRIPE_LEN, input[pos..];
    assert all[lo..][..n * STRIPE_LEN] == all[lo..(consumed + n) * STRIPE_LEN];
    DrainMore(k, secret, all, consumed, p, rest, n);
    assert all[(consumed + n) * STRIPE_LEN..] == rest[n * STRIPE_LEN..];
    forall j | INTERNALBUFFER_SIZE - STRIPE_LEN <= j < INTERNALBUFFER_SIZE
      ensures buf[j] == all[(consumed + n) * STRIPE_LEN - INTERNALBUFFER_SIZE + j]
    {
      var t := j - (INTERNALBUFFER_SIZE - STRIPE_LEN);
      assert buf[j] == buf[INTERNALBUFFER_SIZE - STRIPE_LEN..][t] == rest[(n - 1) * STRIPE_LEN + t];
      assert all[lo..][(n - 1) * STRIPE_LEN + t] == all[lo + (n - 1) * STRIPE_LEN + t];
    }
  }

  /** The stripes still whole in the buffer, before the digest's last stripe. */
  lemma BufferedStripes(k: Kernel, secret: Secret, all: seq<Byte>, consumed: nat, p: Progress,
                        buf: seq<Byte>, size: nat, n: nat)
    requires Holds(k, secret, all, consumed, p, buf, size)
    requires n * STRIPE_LEN <= size
    ensures Drained(k, secret, all, consumed + n, Feed(k, secret, p, buf, n))
  {
    assert buf[..n * STRIPE_LEN] == buf[..size][..n * STRIPE_LEN]
        == all[consumed * STRIPE_LEN..(consumed + n) * STRIPE_LEN];
    DrainMore(k, secret, all, consumed, p, buf, n);
  }

  /** Mid-update: the buffer is empty and `input[pos..]` is all that is left to take in. */
  ghost predicate Poised(k: Kernel, secret: Secret, all: seq<Byte>, consumed: nat, p: Progress, buf: seq<Byte>,
                         input: seq<Byte>, pos: nat)
  {
    && |buf| == INTERNALBUFFER_SIZE < |all|
    && Drained(k, secret, all, consumed, p)
    && pos < |input| && all[consumed * STRIPE_LEN..] == input[pos..]
    && (consumed > 0 ==> TailKept(all, consumed, buf, 0))
  }

  /** The stripes taken straight from the input leave at least one byte and at most a stripe. */
  lemma DirectCount(length: nat, n: nat)
    requires length > INTERNALBUFFER_SIZE && n == (length - 1) / STRIPE_LEN
    ensures 0 < n && n * STRIPE_LEN < length <= n * STRIPE_LEN + INTERNALBUFFER_SIZE
  {
  }

  /** The new end of the buffer. */
  lemma CopiedEnd(was: seq<Byte>, src: seq<Byte>, buf: seq<Byte>, at: nat)
    requires at + |src| == |was| && buf == was[..at] + src + was[at + |src|..]
    ensures |buf| == |was| && buf[at..] == src
  {
  }

  /** XXH3_update: completes a partly filled buffer from the input and consumes it. */
  method FillAndConsume(k: Kernel, secret: Secret, perBlock: nat, acc0: Lanes, soFar0: nat, buffer: array<Byte>,
                        size: nat, input: seq<Byte>, ghost before: seq<Byte>, ghost consumed0: nat)
    returns (acc: Lanes, soFar: nat, pos: nat, ghost consumed: nat)
    requires perBlock == StripesPerBlock(secret)
    requires Holds(k, secret, before, consumed0, Progress(acc0, soFar0), buffer[..], size)
    requires |input| > INTERNALBUFFER_SIZE - size
    modifies buffer
    ensures Poised(k, secret, before + input, consumed, Progress(acc, soFar), buffer[..], input, pos)
  {
    if size > 0 {
      ghost var buf := buffer[..];
      pos := INTERNALBUFFER_SIZE - size;
      CopyInto(buffer, size, input[..pos]);
      var full, nbStripes := buffer[..], buffer.Length / STRIPE_LEN;
      assert full == buf[..size] + input[..pos];
      FilledBuffer(k, secret, before, consumed0, Progress(acc0, soFar0), buf, size, input, full, nbStripes);
      var end;
      acc, soFar, end := ConsumeStripes(k, acc0, soFar0, perBlock, full, nbStripes, secret);
      consumed := consumed0 + nbStripes;
    } else {
      assert before + input == input;
      acc, soFar, pos, consumed := acc0, soFar0, 0, 0;
    }
  }

  /** XXH3_update: consumes straight from the input, keeping back between 1 and 256 bytes. */
  method ConsumeDirect(k: Kernel, secret: Secret, perBlock: nat, acc0: Lanes, soFar0: nat, buffer: array<Byte>,
                       input: seq<Byte>, from: nat, ghost all: seq<Byte>, ghost consumed0: nat)
    returns (acc: Lanes, soFar: nat, pos: nat, ghost consumed: nat)
    requires perBlock == StripesPerBlock(secret)
    requires Poised(k, secret, all, consumed0, Progress(acc0, soFar0), buffer[..], input, from)
    modifies buffer
    ensures Poised(k, secret, all, consumed, Progress(acc, soFar), buffer[..], input, pos)
    ensures |input| - pos <= INTERNALBUFFER_SIZE && consumed > 0
  {
    hide TailKept;
    acc, soFar, pos, consumed := acc0, soFar0, from, consumed0;
    if |input| - pos > INTERNALBUFFER_SIZE {
      var nbStripes := (|input| - 1 - pos) / STRIPE_LEN;
      DirectCount(|input| - pos, nbStripes);
      var end;
      acc, soFar, end := ConsumeStripes(k, acc0, soFar0, perBlock, input[pos..], nbStripes, secret);
      consumed := consumed0 + nbStripes;
      pos := pos + end;
      var stripe := input[pos - STRIPE_LEN..pos];
      ghost var was := buffer[..];
      CopyInto(buffer, INTERNALBUFFER_SIZE - STRIPE_LEN, stripe);
      CopiedEnd(was, stripe, buffer[..], INTERNALBUFFER_SIZE - STRIPE_LEN);
      DirectStripes(k, secret, all, consumed0, Progress(acc0, soFar0), input, from, nbStripes, buffer[..]);
    }
  }

  /** XXH3_update on the parts of the state it changes. */
  method Ingest(k: Kernel, secret: Secret, perBlock: nat, acc0: Lanes, soFar0: nat, buffer: array<Byte>, size0: nat,
                input: seq<Byte>, ghost before: seq<Byte>, ghost consumed0: nat)
    returns (acc: Lanes, soFar: nat, size: nat, ghost consumed: nat)
    requires perBlock == StripesPerBlock(secret)
    requires Holds(k, secret, before, consumed0, Progress(acc0, soFar0), buffer[..], size0)
    modifies buffer
    ensures Holds(k, secret, before + input, consumed, Progress(acc, soFar), buffer[..], size)
  {
    if |input| <= INTERNALBUFFER_SIZE - size0 {
      ghost var buf := buffer[..];
      CopyInto(buffer, size0, input);
      HoldsAppend(k, secret, before, consumed0, Progress(acc0, soFar0), buf, size0, input, buffer[..]);
      acc, soFar, size, consumed := acc0, soFar0, size0 + |input|, consumed0;
    } else {
      var pos;
      acc, soFar, pos, consumed :=
        FillAndConsume(k, secret, perBlock, acc0, soFar0, buffer, size0, input, before, consumed0);
      acc, soFar, pos, consumed :=
        ConsumeDirect(k, secret, perBlock, acc, soFar, buffer, input, pos, before + input, consumed);
      size := |input| - pos;
      ghost var buf := buffer[..];
      CopyInto(buffer, 0, input[pos..]);
      HoldsAfterDrain(k, secret, before + input, consumed, Progress(acc, soFar), buf, input[pos..], buffer[..]);
    }
  }

  /** XXH3_digest_long: works on copies, the state can go on taking input. */
  method DigestLong(k: Kernel, secret: Secret, perBlock: nat, acc: Lanes, soFar: nat, buf: seq<Byte>, size: nat,
                    ghost all: seq<Byte>, ghost consumed: nat)
    returns (r: Lanes)
    requires perBlock == StripesPerBlock(secret)
    requires Holds(k, secret, all, consumed, Progress(acc, soFar), buf, size)
    requires |all| > MIDSIZE_MAX
    ensures r == LongAcc(k, secret, all)
  {
    ghost var p := Progress(acc, soFar);
    LastStripe(k, secret, all, consumed, p, buf, size);
    var lastStripe;
    r := acc;
    if size >= STRIPE_LEN {
      var nbStripes := (size - 1) / STRIPE_LEN;
      BufferedStripes(k, secret, all, consumed, p, buf, size, nbStripes);
      var soFar', end;
      r, soFar', end := ConsumeStripes(k, acc, soFar, perBlock, buf, nbStripes, secret);
      lastStripe := buf[size - STRIPE_LEN..size];
      assert consumed + nbStripes == (|all| - 1) / STRIPE_LEN;
    } else {
      var catchupSize := STRIPE_LEN - size;
      lastStripe := buf[INTERNALBUFFER_SIZE - catchupSize..] + buf[..size];
      assert consumed == (|all| - 1) / STRIPE_LEN;
    }
    r := Accumulate512(k, r, lastStripe, secret, |secret| - STRIPE_LEN - SECRET_LASTACC_START);
  }

  class State {
    const kernel: Kernel
    const kSecret: DefaultSecret
    var acc: Lanes
    const customSecret: array<Byte>
    const buffer: array<Byte>
    var bufferedSize: nat
    var useSeed: bool
    var nbStripesSoFar: nat
    var totalLen: Word64
    var nbStripesPerBlock: nat
    var secretLimit: nat
    var seed: Word64
    var extSecret: Option<seq<Byte>>

    ghost var mode: Mode           // how the last successful reset was made
    ghost var stream: seq<Byte>    // the bytes given since then
    ghost var consumed: nat        // how many of their stripes have been accumulated

    /** XXH3_createState: only `seed` and `extSecret` are initialised. */
    constructor (k: Kernel, defaultSecret: DefaultSecret)
      ensures kernel == k && kSecret == defaultSecret
      ensures Allocated() && CacheSound() && fresh(customSecret) && fresh(buffer)
    {
      kernel, kSecret := k, defaultSecret;
      acc := [];
      customSecret := new Byte[SECRET_DEFAULT_SIZE];
      buffer := new Byte[INTERNALBUFFER_SIZE];
      bufferedSize, useSeed, nbStripesSoFar, totalLen, nbStripesPerBlock, secretLimit := 0, false, 0, 0, 0, 0;
      seed, extSecret := 0, None;
      mode, stream, consumed := Default, [], 0;
    }

    ghost predicate Allocated() {
      customSecret.Length == SECRET_DEFAULT_SIZE && buffer.Length == INTERNALBUFFER_SIZE && customSecret != buffer
    }

    function CurrentSecret(): seq<Byte>
      reads this`extSecret, customSecret
    {
      if extSecret.None? then customSecret[..] else extSecret.value
    }

    /** Skipping the derivation in ResetWithSeed is sound as long as this holds. */
    ghost predicate CacheSound()
      reads this`extSecret, this`seed, customSecret
    {
      extSecret.None? && seed != 0 ==> customSecret[..] == DeriveSecret(kSecret, seed)
    }

    ghost predicate Sized()
      reads this`extSecret, this`secretLimit, this`nbStripesPerBlock, customSecret
    {
      && Allocated()
      && |CurrentSecret()| >= SECRET_SIZE_MIN
      && secretLimit == |CurrentSecret()| - STRIPE_LEN
      && nbStripesPerBlock == StripesPerBlock(CurrentSecret())
    }

    ghost predicate ModeKept()
      reads this`mode, this`extSecret, this`useSeed, this`seed
    {
      && mode.SecretLongEnough()
      && match mode
         case Default => extSecret == Some(kSecret) && !useSeed && seed == 0
         case WithSeed(s) =>
           if s == 0 then extSecret == Some(kSecret) && !useSeed && seed == 0
           else extSecret == None && useSeed && seed == s
         case WithSecret(sec) => extSecret == Some(sec) && !useSeed && seed == 0
         case WithSecretAndSeed(sec, s) => extSecret == Some(sec) && useSeed && seed == s
    }

    ghost predicate Buffered()
      reads this, customSecret, buffer
      requires Sized()
    {
      Holds(kernel, CurrentSecret(), stream, consumed, Progress(acc, nbStripesSoFar), buffer[..], bufferedSize)
    }

    /** The state has been reset successfully and agrees with `stream`. */
    ghost predicate Ready()
      reads this, customSecret, buffer
    {
      && Sized() && CacheSound() && ModeKept() && Buffered()
      && totalLen == |stream| % TWO64
    }

    /** XXH3_reset_internal; `secretSize - 64` is a `size_t` subtraction. */
    method ResetInternal(newSeed: Word64, secret: Option<seq<Byte>>, secretSize: Word64)
      modifies this
      ensures bufferedSize == 0 && nbStripesSoFar == 0 && totalLen == 0 && acc == kernel.init
      ensures seed == newSeed && useSeed == (newSeed != 0) && extSecret == secret
      ensures secretLimit == Sub64(secretSize, STRIPE_LEN)
      ensures nbStripesPerBlock == secretLimit / SECRET_CONSUME_RATE
      ensures stream == [] && consumed == 0 && mode == old(mode)
    {
      hide Sub64;
      bufferedSize, nbStripesSoFar, totalLen := 0, 0, 0;
      acc := kernel.init;
      seed, useSeed, extSecret := newSeed, newSeed != 0, secret;
      secretLimit := Sub64(secretSize, STRIPE_LEN);
      nbStripesPerBlock := secretLimit / SECRET_CONSUME_RATE;
      stream, consumed := [], 0;
    }

    /** XXH3_64bits_reset. */
    method Reset()
      requires Allocated() && CacheSound()
      modifies this
      ensures Ready() && mode == Default && stream == []
    {
      ResetInternal(0, Some(kSecret), SECRET_DEFAULT_SIZE);
      mode := Default;
    }

    /** XXH3_initCustomSecret_scalar. */
    method InitCustomSecret(newSeed: Word64)
      requires Allocated()
      modifies customSecret
      ensures customSecret[..] == DeriveSecret(kSecret, newSeed)
    {
      hide DeriveGroup;
      for i := 0 to |kSecret| / 16
        invariant customSecret[..16 * i] == DeriveRounds(kSecret, newSeed, i)
      {
        CopyInto(customSecret, 16 * i, DeriveGroup(kSecret[16 * i..16 * (i + 1)], newSeed));
      }
    }

    /** XXH3_64bits_reset_withSeed: derives the secret only when the cached one does not fit. */
    method ResetWithSeed(newSeed: Word64)
      requires Allocated() && CacheSound()
      modifies this, customSecret
      ensures Ready() && mode == WithSeed(newSeed) && stream == []
    {
      hide DeriveSecret;
      if newSeed == 0 {
        Reset();
      } else {
        if newSeed != seed || extSecret != None {
          InitCustomSecret(newSeed);
        }
        ResetInternal(newSeed, None, SECRET_DEFAULT_SIZE);
      }
      mode := WithSeed(newSeed);
    }

    /** XXH3_64bits_reset_withSecret: resets first, checks afterwards. */
    method ResetWithSecret(secret: Option<seq<Byte>>, secretSize: Word64) returns (ok: bool)
      requires Allocated() && CacheSound()
      requires secret.Some? ==> |secret.value| == secretSize
      modifies this
      ensures Allocated() && CacheSound()
      ensures ok <==> secret.Some? && secretSize >= SECRET_SIZE_MIN
      ensures ok ==> Ready() && mode == WithSecret(secret.value) && stream == []
    {
      ResetInternal(0, secret, secretSize);
      if secret == None { return false; }
      if secretSize < SECRET_SIZE_MIN { return false; }
      mode := WithSecret(secret.value);
      return true;
    }

    /** XXH3_64bits_reset_withSecretandSeed: checks first, so a refused call changes nothing. */
    method ResetWithSecretAndSeed(secret: Option<seq<Byte>>, secretSize: Word64, newSeed: Word64) returns (ok: bool)
      requires Allocated() && CacheSound()
      requires secret.Some? ==> |secret.value| == secretSize
      modifies this
      ensures Allocated() && CacheSound()
      ensures ok <==> secret.Some? && secretSize >= SECRET_SIZE_MIN
      ensures ok ==> Ready() && mode == WithSecretAndSeed(secret.value, newSeed) && stream == []
      ensures !ok ==> unchanged(this)
    {
      if secret == None { return false; }
      if secretSize < SECRET_SIZE_MIN { return false; }
      ResetInternal(newSeed, secret, secretSize);
      useSeed := true;
      mode := WithSecretAndSeed(secret.value, newSeed);
      return true;
    }

    /** XXH3_update. */
    method Update(input: seq<Byte>)
      requires Ready() && |input| < TWO64
      modifies this`acc, this`nbStripesSoFar, this`bufferedSize, this`totalLen, this`stream, this`consumed, buffer
      ensures Ready() && stream == old(stream) + input
    {
      hide Holds, DeriveSecret, CacheSound, ModeKept;
      AddModulo(|stream|, |input|);
      totalLen := Add64(totalLen, |input|);
      acc, nbStripesSoFar, bufferedSize, consumed :=
        Ingest(kernel, CurrentSecret(), nbStripesPerBlock, acc, nbStripesSoFar, buffer, bufferedSize, input, stream,
               consumed);
      stream := stream + input;
    }

    /** XXH3_64bits_digest and XXH3_128bits_digest: the streaming hash is the one-shot hash of all the bytes given. */
    method Digest<H>(fin: Finisher<H>) returns (h: H)
      requires Ready() && |stream| < TWO64
      ensures h == OneShot(kernel, kSecret, fin, mode, stream)
    {
      var secret := CurrentSecret();
      if totalLen > MIDSIZE_MAX {
        var lanes := DigestLong(kernel, secret, nbStripesPerBlock, acc, nbStripesSoFar, buffer[..], bufferedSize,
                                stream, consumed);
        return fin.finalizeLong(lanes, secret, totalLen);
      }
      assert buffer[..][..totalLen] == stream;
      if useSeed {
        return fin.shortHash(buffer[..totalLen], kSecret, seed);
      }
      return fin.shortHash(buffer[..totalLen], secret, 0);
    }
  }
}
