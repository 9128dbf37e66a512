/**
 The lock-free free list of GlobalRegisteredMemory (include/global_registered_memory.h,
 src/global_registered_memory.cpp): a Treiber stack whose head carries a 32-bit version.

 Every atomic access is one step.  A state is what the shared variables and the threads' locals hold;
 `Abs` is what the proof tracks beside it: the stack as a sequence, the number of successful CASes and the
 number each popping thread saw when it loaded the head.
 */
module SegmentStack {
  import opened Bytes
  import opened Modular
  import opened Sequences

  const INVALID_IDX := TWO32 - 1

  // ---- (version : 32, seg_idx : 32)

  function EncodeHead(ver: Word32, idx: Word32): Word64 { ver * TWO32 + idx }
  function DecodeVer(enc: Word64): Word32 { enc / TWO32 }
  function DecodeIdx(enc: Word64): Word32 { enc % TWO32 }

  lemma DecodeEncode(ver: Word32, idx: Word32)
    ensures DecodeVer(EncodeHead(ver, idx)) == ver && DecodeIdx(EncodeHead(ver, idx)) == idx
  {
  }

  lemma SameHead(x: Word64, y: Word64)
    ensures x == y <==> DecodeVer(x) == DecodeVer(y) && DecodeIdx(x) == DecodeIdx(y)
  {
  }

  function NextVer(ver: Word32): Word32 { if ver + 1 < TWO32 then ver + 1 else 0 }

  // ---- steps

  /** Where a thread stands inside TryGetSegment or Recycle. */
  datatype Pc =
    | Idle
    | Popping(cur: Word64)                       // head loaded
    | PopReady(cur: Word64, next: Word32)        // successor read
    | PopDone(seg: Word32)                       // CAS won, free_count_ not yet decremented
    | Pushing(seg: Word32, cur: Word64)          // head loaded
    | PushStored(seg: Word32, cur: Word64)       // successor stored
    | PushDone                                   // CAS won, free_count_ not yet incremented
  {
    /** The segment is out of the list and in this thread's hands. */
    predicate Carries(x: Word32) {
      (PopDone? || Pushing? || PushStored?) && seg == x
    }
  }

  /** `held` is the set of segments handed to callers and not given back. */
  datatype State = State(head: Word64, succ: seq<Word32>, free: Word64, pcs: map<nat, Pc>, held: set<Word32>)

  datatype Act =
    | PopLoad(t: nat)
    | PopRead(t: nat)
    | PopCas(t: nat, spurious: bool)
    | PopCount(t: nat)
    | PushLoad(t: nat, seg: Word32)
    | PushStore(t: nat)
    | PushCas(t: nat, spurious: bool)
    | PushCount(t: nat)

  predicate Enabled(s: State, act: Act) {
    && act.t in s.pcs
    && var pc := s.pcs[act.t];
       match act
       case PopLoad(_) => pc.Idle?
       case PopRead(_) => pc.Popping? && DecodeIdx(pc.cur) < |s.succ|
       case PopCas(_, _) => pc.PopReady?
       case PopCount(_) => pc.PopDone?
       case PushLoad(_, seg) => pc.Idle? && seg in s.held
       case PushStore(_) => pc.Pushing? && pc.seg < |s.succ|
       case PushCas(_, _) => pc.PushStored?
       case PushCount(_) => pc.PushDone?
  }

  /** A pop that sees an empty list returns; otherwise it goes on with the head it saw. */
  function PopFrom(head: Word64): Pc {
    if DecodeIdx(head) == INVALID_IDX then Idle else Popping(head)
  }

  function Step(s: State, act: Act): State
    requires Enabled(s, act)
  {
    var pc := s.pcs[act.t];
    match act
    case PopLoad(t) => s.(pcs := s.pcs[t := PopFrom(s.head)])
    case PopRead(t) => s.(pcs := s.pcs[t := PopReady(pc.cur, s.succ[DecodeIdx(pc.cur)])])
    case PopCas(t, spurious) =>
      if s.head == pc.cur && !spurious then
        s.(head := EncodeHead(NextVer(DecodeVer(pc.cur)), pc.next), pcs := s.pcs[t := PopDone(DecodeIdx(pc.cur))])
      else s.(pcs := s.pcs[t := PopFrom(s.head)])
    case PopCount(t) => s.(free := Sub64(s.free, 1), pcs := s.pcs[t := Idle], held := s.held + {pc.seg})
    case PushLoad(t, seg) => s.(pcs := s.pcs[t := Pushing(seg, s.head)], held := s.held - {seg})
    case PushStore(t) => s.(succ := s.succ[pc.seg := DecodeIdx(pc.cur)], pcs := s.pcs[t := PushStored(pc.seg, pc.cur)])
    case PushCas(t, spurious) =>
      if s.head == pc.cur && !spurious then
        s.(head := EncodeHead(NextVer(DecodeVer(pc.cur)), pc.seg), pcs := s.pcs[t := PushDone])
      else s.(pcs := s.pcs[t := Pushing(pc.seg, s.head)])
    case PushCount(t) => s.(free := Add64(s.free, 1), pcs := s.pcs[t := Idle])
  }

  // ---- the abstract stack

  datatype Abs = Abs(chain: seq<Word32>, ops: nat, loadedAt: map<nat, nat>)

  predicate PopWins(s: State, act: Act)
    requires Enabled(s, act)
  {
    act.PopCas? && s.head == s.pcs[act.t].cur && !act.spurious
  }

  predicate PushWins(s: State, act: Act)
    requires Enabled(s, act)
  {
    act.PushCas? && s.head == s.pcs[act.t].cur && !act.spurious
  }

  /** A winning CAS is one atomic pop or push; every other step leaves the stack alone. */
  function AbsStep(s: State, a: Abs, act: Act): Abs
    requires Enabled(s, act)
  {
    if PopWins(s, act) then Abs(if a.chain == [] then [] else a.chain[1..], a.ops + 1, a.loadedAt)
    else if PushWins(s, act) then Abs([s.pcs[act.t].seg] + a.chain, a.ops + 1, a.loadedAt)
    else if act.PopLoad? || act.PopCas? then a.(loadedAt := a.loadedAt[act.t := a.ops])
    else a
  }

  function Top(chain: seq<Word32>): Word32 {
    if chain == [] then INVALID_IDX else chain[0]
  }

  // ---- the invariant

  /** Following successors_ from the top visits exactly the stack. */
  ghost predicate Linked(succ: seq<Word32>, chain: seq<Word32>) {
    forall i :: 0 <= i < |chain| ==> chain[i] < |succ| && succ[chain[i]] == Top(chain[i + 1..])
  }

  /** head_ and successors_ spell out the abstract stack, which is finite and repeat-free. */
  ghost predicate ChainInv(s: State, a: Abs) {
    && |s.succ| < INVALID_IDX
    && DecodeVer(s.head) == a.ops % TWO32 && DecodeIdx(s.head) == Top(a.chain)
    && Linked(s.succ, a.chain) && Distinct(a.chain)
  }

  predicate Carrier(pcs: map<nat, Pc>, t: nat, x: Word32) {
    t in pcs && pcs[t].Carries(x)
  }

  /** Stack, callers and threads share out the `n` segments: each belongs to exactly one. */
  ghost predicate Shared(n: nat, chain: seq<Word32>, held: set<Word32>, pcs: map<nat, Pc>) {
    && (forall x :: x in chain ==> x < n)
    && (forall x :: x in held ==> x < n && x !in chain)
    && (forall t, x: Word32 :: Carrier(pcs, t, x) ==> x < n && x !in chain && x !in held)
    && (forall t, u, x: Word32 :: Carrier(pcs, t, x) && Carrier(pcs, u, x) ==> t == u)
    && (forall x: Word32 :: x < n && x !in chain && x !in held ==> exists t :: Carrier(pcs, t, x))
  }

  ghost predicate SnapshotInv(s: State, a: Abs, t: nat, cur: Word64) {
    && t in a.loadedAt && a.loadedAt[t] <= a.ops
    && DecodeIdx(cur) < |s.succ| && DecodeVer(cur) == a.loadedAt[t] % TWO32
    && (a.loadedAt[t] == a.ops ==> cur == s.head)
  }

  /** What each thread may rely on: a snapshot is exact until the next winning CAS. */
  ghost predicate ThreadInv(s: State, a: Abs, t: nat)
    requires t in s.pcs
  {
    match s.pcs[t]
    case Popping(cur) => SnapshotInv(s, a, t, cur)
    case PopReady(cur, next) =>
      && SnapshotInv(s, a, t, cur)
      && (a.loadedAt[t] == a.ops ==> next == s.succ[DecodeIdx(cur)])
    case PushStored(seg, cur) => seg < |s.succ| && s.succ[seg] == DecodeIdx(cur)
    case _ => true
  }

  ghost predicate Inv(s: State, a: Abs) {
    && ChainInv(s, a) && Shared(|s.succ|, a.chain, s.held, s.pcs)
    && forall t :: t in s.pcs ==> ThreadInv(s, a, t)
  }

  /** The hypothesis: fewer than 2^32 successful operations between a pop's load and its CAS. */
  ghost predicate Timely(s: State, a: Abs, act: Act) {
    act.PopCas? ==> act.t in a.loadedAt && a.ops - a.loadedAt[act.t] < TWO32
  }

  // ---- how the stack changes

  lemma LinkedPop(succ: seq<Word32>, chain: seq<Word32>)
    requires Linked(succ, chain) && Distinct(chain) && chain != []
    ensures Linked(succ, chain[1..]) && Distinct(chain[1..]) && chain[0] !in chain[1..]
    ensures succ[chain[0]] == Top(chain[1..])
  {
    var rest := chain[1..];
    forall i | 0 <= i < |rest| ensures rest[i] < |succ| && succ[rest[i]] == Top(rest[i + 1..]) {
      assert rest[i] == chain[i + 1] && rest[i + 1..] == chain[i + 1 + 1..];
    }
    assert chain[0 + 1..] == rest;
  }

  lemma LinkedPush(succ: seq<Word32>, chain: seq<Word32>, seg: Word32)
    requires Linked(succ, chain) && Distinct(chain)
    requires seg < |succ| && seg !in chain && succ[seg] == Top(chain)
    ensures Linked(succ, [seg] + chain) && Distinct([seg] + chain)
  {
    var more := [seg] + chain;
    forall i | 0 <= i < |more| ensures more[i] < |succ| && succ[more[i]] == Top(more[i + 1..]) {
      if i == 0 {
        assert more[0 + 1..] == chain;
      } else {
        assert more[i] == chain[i - 1] && more[i + 1..] == chain[i - 1 + 1..];
      }
    }
  }

  lemma LinkedStore(succ: seq<Word32>, chain: seq<Word32>, seg: Word32, v: Word32)
    requires Linked(succ, chain) && seg < |succ| && seg !in chain
    ensures Linked(succ[seg := v], chain)
  {
    forall i | 0 <= i < |chain| ensures succ[seg := v][chain[i]] == Top(chain[i + 1..]) {
      assert chain[i] in chain;
    }
  }

  // ---- how ownership moves

  lemma SharedKept(n: nat, chain: seq<Word32>, held: set<Word32>, pcs: map<nat, Pc>, t: nat, pc: Pc)
    requires Shared(n, chain, held, pcs) && t in pcs
    requires forall x: Word32 :: pc.Carries(x) <==> pcs[t].Carries(x)
    ensures Shared(n, chain, held, pcs[t := pc])
  {
    var pcs' := pcs[t := pc];
    assert forall u, x: Word32 :: Carrier(pcs', u, x) <==> Carrier(pcs, u, x);
    forall x: Word32 | x < n && x !in chain && x !in held ensures exists u :: Carrier(pcs', u, x) {
      var u :| Carrier(pcs, u, x);
      assert Carrier(pcs', u, x);
    }
  }

  lemma SharedPop(n: nat, chain: seq<Word32>, held: set<Word32>, pcs: map<nat, Pc>, t: nat)
    requires Shared(n, chain, held, pcs) && t in pcs && chain != [] && chain[0] !in chain[1..]
    requires forall x: Word32 :: !pcs[t].Carries(x)
    ensures Shared(n, chain[1..], held, pcs[t := PopDone(chain[0])])
  {
    var pcs' := pcs[t := PopDone(chain[0])];
    assert forall x :: x in chain <==> x == chain[0] || x in chain[1..];
    assert forall u, x: Word32 :: Carrier(pcs', u, x) <==> Carrier(pcs, u, x) || (u == t && x == chain[0]);
    assert Carrier(pcs', t, chain[0]);
    forall x: Word32 | x < n && x !in chain[1..] && x !in held ensures exists u :: Carrier(pcs', u, x) {
      if x != chain[0] {
        var u :| Carrier(pcs, u, x);
        assert Carrier(pcs', u, x);
      }
    }
  }

  lemma SharedPush(n: nat, chain: seq<Word32>, held: set<Word32>, pcs: map<nat, Pc>, t: nat, seg: Word32)
    requires Shared(n, chain, held, pcs) && Carrier(pcs, t, seg)
    ensures Shared(n, [seg] + chain, held, pcs[t := PushDone])
  {
    var pcs' := pcs[t := PushDone];
    assert forall u, x: Word32 :: Carrier(pcs', u, x) <==> Carrier(pcs, u, x) && u != t;
    assert forall x: Word32 :: Carrier(pcs, t, x) <==> x == seg;
    forall x: Word32 | x < n && x !in [seg] + chain && x !in held ensures exists u :: Carrier(pcs', u, x) {
      var u :| Carrier(pcs, u, x);
      assert Carrier(pcs', u, x);
    }
  }

  lemma SharedHandOut(n: nat, chain: seq<Word32>, held: set<Word32>, pcs: map<nat, Pc>, t: nat, seg: Word32)
    requires Shared(n, chain, held, pcs) && Carrier(pcs, t, seg)
    ensures Shared(n, chain, held + {seg}, pcs[t := Idle])
  {
    var pcs' := pcs[t := Idle];
    assert forall u, x: Word32 :: Carrier(pcs', u, x) <==> Carrier(pcs, u, x) && u != t;
    assert forall x: Word32 :: Carrier(pcs, t, x) <==> x == seg;
    forall x: Word32 | x < n && x !in chain && x !in held + {seg} ensures exists u :: Carrier(pcs', u, x) {
      var u :| Carrier(pcs, u, x);
      assert Carrier(pcs', u, x);
    }
  }

  lemma SharedTakeBack(n: nat, chain: seq<Word32>, held: set<Word32>, pcs: map<nat, Pc>, t: nat, seg: Word32,
                       cur: Word64)
    requires Shared(n, chain, held, pcs) && t in pcs && pcs[t].Idle? && seg in held
    ensures Shared(n, chain, held - {seg}, pcs[t := Pushing(seg, cur)])
  {
    var pcs' := pcs[t := Pushing(seg, cur)];
    assert forall u, x: Word32 :: Carrier(pcs', u, x) <==> Carrier(pcs, u, x) || (u == t && x == seg);
    assert Carrier(pcs', t, seg);
    forall x: Word32 | x < n && x !in chain && x !in held - {seg} ensures exists u :: Carrier(pcs', u, x) {
      if x != seg {
        var u :| Carrier(pcs, u, x);
        assert Carrier(pcs', u, x);
      }
    }
  }

  // ---- every step keeps the invariant

  lemma NextVersion(ops: nat)
    ensures NextVer(ops % TWO32) == (ops + 1) % TWO32
  {
  }

  /**
   Exactly when a pop CAS wins, in any state the invariant allows: the number of operations since its load is a
   multiple of 2^32 and the segment it loaded is on top again.
   */
  lemma PopWinsExactly(s: State, a: Abs, act: Act)
    requires Inv(s, a) && Enabled(s, act) && act.PopCas? && !act.spurious
    ensures act.t in a.loadedAt && a.loadedAt[act.t] <= a.ops
    ensures PopWins(s, act) <==>
      (a.ops - a.loadedAt[act.t]) % TWO32 == 0 && DecodeIdx(s.pcs[act.t].cur) == Top(a.chain)
  {
    hide DecodeVer, DecodeIdx, Linked, Distinct, Shared;
    assert ThreadInv(s, a, act.t);
    SameHead(s.head, s.pcs[act.t].cur);
    SameRemainder(a.loadedAt[act.t], a.ops, TWO32);
  }

  /** A winning pop keeps the invariant exactly when the successor it read is still that of the top. */
  lemma WinKeepsExactly(s: State, a: Abs, act: Act)
    requires Inv(s, a) && Enabled(s, act) && PopWins(s, act)
    ensures a.chain != [] && DecodeIdx(s.pcs[act.t].cur) == a.chain[0]
    ensures Inv(Step(s, act), AbsStep(s, a, act)) <==> s.pcs[act.t].next == Top(a.chain[1..])
  {
    hide EncodeHead, DecodeVer, DecodeIdx, NextVer, Linked, Distinct, Shared;
    var s', a' := Step(s, act), AbsStep(s, a, act);
    assert ThreadInv(s, a, act.t);
    DecodeEncode(NextVer(DecodeVer(s.pcs[act.t].cur)), s.pcs[act.t].next);
    if s.pcs[act.t].next == Top(a.chain[1..]) {
      PopCasKeeps(s, a, act);
    } else {
      assert !ChainInv(s', a');
    }
  }

  /** The version tag at work: a timely pop that wins saw the current head and its true successor. */
  lemma WinningPopIsExact(s: State, a: Abs, act: Act)
    requires Inv(s, a) && Enabled(s, act) && Timely(s, a, act) && PopWins(s, act)
    ensures a.chain != [] && DecodeIdx(s.pcs[act.t].cur) == a.chain[0]
    ensures s.pcs[act.t].next == s.succ[a.chain[0]] == Top(a.chain[1..])
  {
    hide DecodeVer, DecodeIdx, Linked, Distinct, Shared;
    PopWinsExactly(s, a, act);
    QuotientRemainder(a.ops - a.loadedAt[act.t], 0, a.ops - a.loadedAt[act.t], TWO32);
    assert ThreadInv(s, a, act.t);
    LinkedPop(s.succ, a.chain);
  }

  /** A push needs no such tag: its own segment already points at whatever head it compares with. */
  lemma WinningPushIsExact(s: State, a: Abs, act: Act)
    requires Inv(s, a) && Enabled(s, act) && PushWins(s, act)
    ensures var seg := s.pcs[act.t].seg;
            && Carrier(s.pcs, act.t, seg) && seg !in a.chain
            && seg < |s.succ| && s.succ[seg] == Top(a.chain)
  {
    hide EncodeHead, DecodeVer, DecodeIdx, Linked, Distinct;
    assert ThreadInv(s, a, act.t);
    assert Carrier(s.pcs, act.t, s.pcs[act.t].seg);
  }

  /** After a winning CAS every other snapshot is stale, and says so by its version. */
  lemma ThreadsAfterCas(s: State, a: Abs, s': State, a': Abs, t: nat)
    requires forall u :: u in s.pcs ==> ThreadInv(s, a, u)
    requires s'.succ == s.succ && t in s.pcs && t in s'.pcs && s'.pcs == s.pcs[t := s'.pcs[t]]
    requires s'.pcs[t].PopDone? || s'.pcs[t].PushDone?
    requires a'.loadedAt == a.loadedAt && a'.ops == a.ops + 1
    ensures forall u :: u in s'.pcs ==> ThreadInv(s', a', u)
  {
    hide DecodeIdx, DecodeVer;
    forall u | u in s'.pcs ensures ThreadInv(s', a', u) {
      if u != t {
        assert ThreadInv(s, a, u);
      }
    }
  }

  lemma PopCasKeeps(s: State, a: Abs, act: Act)
    requires Inv(s, a) && Enabled(s, act) && PopWins(s, act)
    requires a.chain != [] && s.pcs[act.t].next == Top(a.chain[1..])
    ensures Inv(Step(s, act), AbsStep(s, a, act))
  {
    hide EncodeHead, DecodeVer, DecodeIdx, NextVer, Linked, Distinct, Shared, ThreadInv;
    var s', a', t := Step(s, act), AbsStep(s, a, act), act.t;
    NextVersion(a.ops);
    DecodeEncode(NextVer(DecodeVer(s.pcs[t].cur)), s.pcs[t].next);
    LinkedPop(s.succ, a.chain);
    SharedPop(|s.succ|, a.chain, s.held, s.pcs, t);
    ThreadsAfterCas(s, a, s', a', t);
  }

  lemma PushCasKeeps(s: State, a: Abs, act: Act)
    requires Inv(s, a) && Enabled(s, act) && PushWins(s, act)
    ensures Inv(Step(s, act), AbsStep(s, a, act))
  {
    hide EncodeHead, DecodeVer, DecodeIdx, NextVer, Linked, Distinct, Shared, ThreadInv;
    var s', a', t := Step(s, act), AbsStep(s, a, act), act.t;
    var seg := s.pcs[t].seg;
    WinningPushIsExact(s, a, act);
    NextVersion(a.ops);
    DecodeEncode(NextVer(DecodeVer(s.pcs[t].cur)), seg);
    LinkedPush(s.succ, a.chain, seg);
    SharedPush(|s.succ|, a.chain, s.held, s.pcs, t, seg);
    ThreadsAfterCas(s, a, s', a', t);
  }

  /** Loading the head, at the start or after a lost CAS. */
  lemma LoadKeeps(s: State, a: Abs, act: Act)
    requires Inv(s, a) && Enabled(s, act)
    requires act.PopLoad? || (act.PopCas? && !PopWins(s, act))
    ensures Inv(Step(s, act), AbsStep(s, a, act))
  {
    var s', a', t := Step(s, act), AbsStep(s, a, act), act.t;
    assert s'.pcs[t] == PopFrom(s.head);
    SharedKept(|s.succ|, a.chain, s.held, s.pcs, t, PopFrom(s.head));
    assert a.chain != [] ==> a.chain[0] < |s.succ|;
    hide DecodeVer, DecodeIdx, Linked, Distinct, Shared;
    forall u | u in s'.pcs ensures ThreadInv(s', a', u) {
      if u != t {
        assert ThreadInv(s, a, u);
      }
    }
  }

  lemma ReadKeeps(s: State, a: Abs, act: Act)
    requires Inv(s, a) && Enabled(s, act) && act.PopRead?
    ensures Inv(Step(s, act), AbsStep(s, a, act))
  {
    var s', t := Step(s, act), act.t;
    SharedKept(|s.succ|, a.chain, s.held, s.pcs, t, s'.pcs[t]);
    hide DecodeVer, DecodeIdx, Linked, Distinct, Shared;
    forall u | u in s'.pcs ensures ThreadInv(s', a, u) {
      assert ThreadInv(s, a, u);
    }
  }

  /** A store hits only the thread's own segment, which no exact snapshot and no other thread looks at. */
  lemma StoreKeeps(s: State, a: Abs, act: Act)
    requires Inv(s, a) && Enabled(s, act) && act.PushStore?
    ensures Inv(Step(s, act), AbsStep(s, a, act))
  {
    var s', t, seg := Step(s, act), act.t, s.pcs[act.t].seg;
    assert Carrier(s.pcs, t, seg);
    LinkedStore(s.succ, a.chain, seg, DecodeIdx(s.pcs[t].cur));
    SharedKept(|s.succ|, a.chain, s.held, s.pcs, t, s'.pcs[t]);
    hide DecodeVer, DecodeIdx, Linked, Distinct;
    forall u | u in s'.pcs ensures ThreadInv(s', a, u) {
      if u != t {
        assert ThreadInv(s, a, u);
        assert s.pcs[u].PushStored? ==> Carrier(s.pcs, u, s.pcs[u].seg);
        assert s.pcs[u].PopReady? && a.loadedAt[u] == a.ops ==> DecodeIdx(s.pcs[u].cur) in a.chain;
      }
    }
  }

  lemma LocalKeeps(s: State, a: Abs, act: Act)
    requires Inv(s, a) && Enabled(s, act)
    requires act.PopCount? || act.PushLoad? || act.PushCount? || (act.PushCas? && !PushWins(s, act))
    ensures Inv(Step(s, act), AbsStep(s, a, act))
  {
    var s', t, n := Step(s, act), act.t, |s.succ|;
    match act {
      case PopCount(_) => SharedHandOut(n, a.chain, s.held, s.pcs, t, s.pcs[t].seg);
      case PushLoad(_, seg) => SharedTakeBack(n, a.chain, s.held, s.pcs, t, seg, s.head);
      case PushCas(_, _) => SharedKept(n, a.chain, s.held, s.pcs, t, s'.pcs[t]);
      case PushCount(_) => SharedKept(n, a.chain, s.held, s.pcs, t, s'.pcs[t]);
    }
    hide DecodeVer, DecodeIdx, Linked, Distinct, Shared;
    forall u | u in s'.pcs ensures ThreadInv(s', a, u) {
      assert ThreadInv(s, a, u);
    }
  }

  /** Every atomic access of every thread keeps the invariant. */
  lemma StepKeeps(s: State, a: Abs, act: Act)
    requires Inv(s, a) && Enabled(s, act) && Timely(s, a, act)
    ensures Inv(Step(s, act), AbsStep(s, a, act))
  {
    hide Inv;
    if PopWins(s, act) {
      WinningPopIsExact(s, a, act);
      PopCasKeeps(s, a, act);
    }
    else if PushWins(s, act) { PushCasKeeps(s, a, act); }
    else if act.PopLoad? || act.PopCas? { LoadKeeps(s, a, act); }
    else if act.PopRead? { ReadKeeps(s, a, act); }
    else if act.PushStore? { StoreKeeps(s, a, act); }
    else { LocalKeeps(s, a, act); }
  }
}
