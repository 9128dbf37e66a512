/** Whole sessions on one XXH3 state: any number of resets, updates and digests in any order. */
module Xxh3Session {
  import opened Bytes
  import opened Options
  import opened Xxh3Spec
  import opened Xxh3State

  datatype Op = Reset(mode: Mode) | Update(input: seq<Byte>) | Digest

  /** What a caller knows: no usable reset yet, or the mode of the last one and the bytes given since. */
  datatype View = NotReady | Active(mode: Mode, stream: seq<Byte>)

  /** A refused secret leaves `_withSecret` unusable but `_withSecretandSeed` as it was. */
  function After(v: View, op: Op): View {
    match op
    case Reset(mode) =>
      if mode.SecretLongEnough() then Active(mode, [])
      else if mode.WithSecret? then NotReady
      else v
    case Update(input) => if v.Active? then v.(stream := v.stream + input) else v
    case Digest => v
  }

  /** Update and digest need a reset; lengths are 64-bit. */
  ghost predicate Allowed(v: View, op: Op) {
    match op
    case Reset(mode) => (mode.WithSecret? || mode.WithSecretAndSeed?) ==> |mode.secret| < TWO64
    case Update(input) => v.Active? && |v.stream + input| < TWO64
    case Digest => v.Active?
  }

  ghost predicate Legal(v: View, ops: seq<Op>)
    decreases ops
  {
    ops == [] || (Allowed(v, ops[0]) && Legal(After(v, ops[0]), ops[1..]))
  }

  /** A digest is the one-shot hash of the bytes given since the last reset, in that reset's mode. */
  ghost function Output<H>(k: Kernel, kSecret: DefaultSecret, fin: Finisher<H>, v: View, op: Op): seq<H> {
    if op.Digest? && v.Active? && v.mode.SecretLongEnough() then [OneShot(k, kSecret, fin, v.mode, v.stream)] else []
  }

  ghost function Expected<H>(k: Kernel, kSecret: DefaultSecret, fin: Finisher<H>, v: View, ops: seq<Op>): seq<H>
    decreases ops
  {
    if ops == [] then []
    else Output(k, kSecret, fin, v, ops[0]) + Expected(k, kSecret, fin, After(v, ops[0]), ops[1..])
  }

  lemma Unroll<H>(k: Kernel, kSecret: DefaultSecret, fin: Finisher<H>, v: View, ops: seq<Op>, i: nat)
    requires i < |ops| && Legal(v, ops[i..])
    ensures Allowed(v, ops[i]) && Legal(After(v, ops[i]), ops[i + 1..])
    ensures Expected(k, kSecret, fin, v, ops[i..])
         == Output(k, kSecret, fin, v, ops[i]) + Expected(k, kSecret, fin, After(v, ops[i]), ops[i + 1..])
  {
    hide OneShot, After, Allowed;
    assert ops[i..][0] == ops[i] && ops[i..][1..] == ops[i + 1..];
  }

  ghost predicate Agrees(s: State, v: View)
    reads s, s.customSecret, s.buffer
  {
    && s.Allocated() && s.CacheSound()
    && (v.Active? ==> s.Ready() && s.mode == v.mode && s.stream == v.stream && |v.stream| < TWO64)
  }

  method ResetIn(s: State, mode: Mode, ghost v: View)
    requires Agrees(s, v)
    requires (mode.WithSecret? || mode.WithSecretAndSeed?) ==> |mode.secret| < TWO64
    modifies s, s.customSecret
    ensures Agrees(s, After(v, Reset(mode)))
  {
    match mode
    case Default => s.Reset();
    case WithSeed(seed) => s.ResetWithSeed(seed);
    case WithSecret(secret) => var _ := s.ResetWithSecret(Some(secret), |secret|);
    case WithSecretAndSeed(secret, seed) => var _ := s.ResetWithSecretAndSeed(Some(secret), |secret|, seed);
  }

  method Perform<H>(s: State, fin: Finisher<H>, op: Op, ghost v: View) returns (out: seq<H>)
    requires Agrees(s, v) && Allowed(v, op)
    modifies s, s.customSecret, s.buffer
    ensures Agrees(s, After(v, op)) && out == Output(s.kernel, s.kSecret, fin, v, op)
  {
    hide OneShot, Holds, DeriveSecret;
    out := [];
    match op {
      case Reset(mode) => ResetIn(s, mode, v);
      case Update(input) => s.Update(input);
      case Digest =>
        var h := s.Digest(fin);
        out := [h];
    }
  }

  /** For every session the streaming digests are the one-shot hashes. */
  method RunSession<H>(k: Kernel, kSecret: DefaultSecret, fin: Finisher<H>, ops: seq<Op>) returns (out: seq<H>)
    requires Legal(NotReady, ops)
    ensures out == Expected(k, kSecret, fin, NotReady, ops)
  {
    hide OneShot, After, Allowed, Output;
    var s := new State(k, kSecret);
    ghost var v := NotReady;
    out := [];
    for i := 0 to |ops|
      invariant s.kernel == k && s.kSecret == kSecret
      invariant fresh(s) && fresh(s.customSecret) && fresh(s.buffer)
      invariant Agrees(s, v) && Legal(v, ops[i..])
      invariant Expected(k, kSecret, fin, NotReady, ops) == out + Expected(k, kSecret, fin, v, ops[i..])
    {
      Unroll(k, kSecret, fin, v, ops, i);
      var o := Perform(s, fin, ops[i], v);
      out, v := out + o, After(v, ops[i]);
    }
  }
}
