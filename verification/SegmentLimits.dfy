/** Two runs that mark the limits of the segment free list: the version tag's window and the free counter. */
module SegmentLimits {
  import opened Bytes
  import opened SegmentStack
  import opened SegmentRuns
  import opened SegmentMemory

  /** A legal run leads from one state to another. */
  ghost predicate Goes(s: State, a: Abs, acts: seq<Act>, s': State, a': Abs) {
    Legal(s, a, acts) && FinalState(s, a, acts) == s' && FinalAbs(s, a, acts) == a'
  }

  lemma {:induction false} GoesJoin(s: State, a: Abs, x: seq<Act>, m: State, b: Abs, y: seq<Act>, s': State, a': Abs)
    requires Goes(s, a, x, m, b) && Goes(m, b, y, s', a')
    ensures Goes(s, a, x + y, s', a')
    decreases x
  {
    if x == [] {
      assert x + y == y;
    } else {
      assert (x + y)[0] == x[0] && (x + y)[1..] == x[1..] + y;
      hide Enabled, Timely, Step, AbsStep;
      GoesJoin(Step(s, x[0]), AbsStep(s, a, x[0]), x[1..], m, b, y, s', a');
    }
  }

  lemma GoesOne(s: State, a: Abs, act: Act)
    requires Enabled(s, act) && Timely(s, a, act)
    ensures Goes(s, a, [act], Step(s, act), AbsStep(s, a, act))
  {
    assert [act][1..] == [];
  }

  lemma GoesThen(s: State, a: Abs, acts: seq<Act>, m: State, b: Abs, act: Act)
    requires Goes(s, a, acts, m, b) && Enabled(m, act) && Timely(m, b, act)
    ensures Goes(s, a, acts + [act], Step(m, act), AbsStep(m, b, act))
  {
    GoesOne(m, b, act);
    GoesJoin(s, a, acts, m, b, [act], Step(m, act), AbsStep(m, b, act));
  }

  // ---- one thread at work while the others rest

  function AfterPop(s: State): State
    requires DecodeIdx(s.head) < |s.succ|
  {
    var x := DecodeIdx(s.head);
    s.(head := EncodeHead(NextVer(DecodeVer(s.head)), s.succ[x]), free := Sub64(s.free, 1), held := s.held + {x})
  }

  lemma SoloPop(s: State, a: Abs, t: nat)
    requires t in s.pcs && s.pcs[t] == Idle
    requires DecodeIdx(s.head) < |s.succ| < INVALID_IDX && a.chain != []
    ensures Goes(s, a, [PopLoad(t), PopRead(t), PopCas(t, false), PopCount(t)], AfterPop(s),
                 Abs(a.chain[1..], a.ops + 1, a.loadedAt[t := a.ops]))
  {
    var s1, a1 := Step(s, PopLoad(t)), AbsStep(s, a, PopLoad(t));
    GoesOne(s, a, PopLoad(t));
    GoesThen(s, a, [PopLoad(t)], s1, a1, PopRead(t));
    var s2, a2 := Step(s1, PopRead(t)), AbsStep(s1, a1, PopRead(t));
    assert [PopLoad(t)] + [PopRead(t)] == [PopLoad(t), PopRead(t)];
    GoesThen(s, a, [PopLoad(t), PopRead(t)], s2, a2, PopCas(t, false));
    var s3, a3 := Step(s2, PopCas(t, false)), AbsStep(s2, a2, PopCas(t, false));
    assert [PopLoad(t), PopRead(t)] + [PopCas(t, false)] == [PopLoad(t), PopRead(t), PopCas(t, false)];
    GoesThen(s, a, [PopLoad(t), PopRead(t), PopCas(t, false)], s3, a3, PopCount(t));
    assert [PopLoad(t), PopRead(t), PopCas(t, false)] + [PopCount(t)]
      == [PopLoad(t), PopRead(t), PopCas(t, false), PopCount(t)];
    assert Step(s3, PopCount(t)).pcs == s.pcs;
  }

  function AfterPush(s: State, x: Word32): State
    requires x < |s.succ|
  {
    s.(head := EncodeHead(NextVer(DecodeVer(s.head)), x), succ := s.succ[x := DecodeIdx(s.head)],
       free := Add64(s.free, 1), held := s.held - {x})
  }

  function PushBegun(t: nat, x: Word32): seq<Act> { [PushLoad(t, x), PushStore(t), PushCas(t, false)] }

  lemma SoloPushBegun(s: State, a: Abs, t: nat, x: Word32)
    requires t in s.pcs && s.pcs[t] == Idle && x in s.held && x < |s.succ|
    ensures Goes(s, a, PushBegun(t, x), AfterPush(s, x).(free := s.free, pcs := s.pcs[t := PushDone]),
                 Abs([x] + a.chain, a.ops + 1, a.loadedAt))
  {
    var s1, a1 := Step(s, PushLoad(t, x)), AbsStep(s, a, PushLoad(t, x));
    GoesOne(s, a, PushLoad(t, x));
    GoesThen(s, a, [PushLoad(t, x)], s1, a1, PushStore(t));
    var s2, a2 := Step(s1, PushStore(t)), AbsStep(s1, a1, PushStore(t));
    assert [PushLoad(t, x)] + [PushStore(t)] == [PushLoad(t, x), PushStore(t)];
    GoesThen(s, a, [PushLoad(t, x), PushStore(t)], s2, a2, PushCas(t, false));
    assert [PushLoad(t, x), PushStore(t)] + [PushCas(t, false)] == PushBegun(t, x);
    assert Step(s2, PushCas(t, false)).pcs == s.pcs[t := PushDone];
  }

  lemma SoloPush(s: State, a: Abs, t: nat, x: Word32)
    requires t in s.pcs && s.pcs[t] == Idle && x in s.held && x < |s.succ|
    ensures Goes(s, a, PushBegun(t, x) + [PushCount(t)], AfterPush(s, x), Abs([x] + a.chain, a.ops + 1, a.loadedAt))
  {
    SoloPushBegun(s, a, t, x);
    var m := AfterPush(s, x).(free := s.free, pcs := s.pcs[t := PushDone]);
    hide Goes;
    GoesThen(s, a, PushBegun(t, x), m, Abs([x] + a.chain, a.ops + 1, a.loadedAt), PushCount(t));
    assert Step(m, PushCount(t)).pcs == s.pcs;
  }

  // ---- the version window is exact

  /** Thread 0 has loaded (version 0, segment 2) and read its successor 1; thread 1 has made `ops` operations since. */
  function Stalled(ver: Word32): State {
    State(EncodeHead(ver, 2), [INVALID_IDX, 0, INVALID_IDX], 1, map[0 := PopReady(EncodeHead(0, 2), 1), 1 := Idle],
          {0, 1})
  }

  function StalledAbs(ops: nat): Abs
    requires ops >= 2
  {
    Abs([2], ops, map[0 := 0, 1 := ops - 2])
  }

  function PopActs(t: nat): seq<Act> { [PopLoad(t), PopRead(t), PopCas(t, false), PopCount(t)] }

  /** Popping segment 2 and pushing it back advances the version by two and changes nothing else. */
  lemma PopAndPushBack(ops: nat)
    requires ops >= 4
    ensures Goes(Stalled(ops % TWO32), StalledAbs(ops), PopActs(1) + (PushBegun(1, 2) + [PushCount(1)]),
                 Stalled((ops + 2) % TWO32), StalledAbs(ops + 2))
  {
    hide EncodeHead, DecodeVer, DecodeIdx, NextVer, Goes;
    var s, a := Stalled(ops % TWO32), StalledAbs(ops);
    NextVersion(ops);
    NextVersion(ops + 1);
    DecodeEncode(ops % TWO32, 2);
    DecodeEncode(NextVer(ops % TWO32), INVALID_IDX);
    SoloPop(s, a, 1);
    var m, b := AfterPop(s), Abs(a.chain[1..], a.ops + 1, a.loadedAt[1 := a.ops]);
    SoloPush(m, b, 1, 2);
    GoesJoin(s, a, PopActs(1), m, b, PushBegun(1, 2) + [PushCount(1)], AfterPush(m, 2),
             Abs([2] + b.chain, b.ops + 1, b.loadedAt));
    assert m.held - {2} == {0, 1};
    assert AfterPush(m, 2) == Stalled((ops + 2) % TWO32);
    assert Abs([2] + b.chain, b.ops + 1, b.loadedAt) == StalledAbs(ops + 2);
  }

  lemma {:induction false} PopAndPushBackOften(ops: nat, times: nat) returns (acts: seq<Act>)
    requires ops >= 4
    ensures Goes(Stalled(ops % TWO32), StalledAbs(ops), acts, Stalled((ops + 2 * times) % TWO32),
                 StalledAbs(ops + 2 * times))
    decreases times
  {
    if times == 0 {
      acts := [];
    } else {
      PopAndPushBack(ops);
      var one := PopActs(1) + (PushBegun(1, 2) + [PushCount(1)]);
      var more := PopAndPushBackOften(ops + 2, times - 1);
      acts := one + more;
      var end := ops + 2 * times;
      assert ops + 2 + 2 * (times - 1) == end;
      hide Goes;
      GoesJoin(Stalled(ops % TWO32), StalledAbs(ops), one, Stalled((ops + 2) % TWO32), StalledAbs(ops + 2), more,
               Stalled(end % TWO32), StalledAbs(end));
    }
  }

  /** The states on the way from construction to `Stalled(4)`: `k` segments popped by thread 1. */
  function Opening(k: nat): State
    requires k <= 3
  {
    State(EncodeHead(k, if k == 3 then INVALID_IDX else 2 - k), [INVALID_IDX, 0, 1], 3 - k,
          map[0 := PopReady(EncodeHead(0, 2), 1), 1 := Idle],
          if k == 0 then {} else if k == 1 then {2} else if k == 2 then {2, 1} else {2, 1, 0})
  }

  function OpeningAbs(k: nat): Abs
    requires k <= 3
  {
    Abs(if k == 0 then [2, 1, 0] else if k == 1 then [1, 0] else if k == 2 then [0] else [], k,
        if k == 0 then map[0 := 0] else map[0 := 0, 1 := k - 1])
  }

  lemma OpeningStart()
    ensures Goes(InitialState(3, {0, 1}), Abs(Down(3), 0, map[]), [PopLoad(0), PopRead(0)], Opening(0), OpeningAbs(0))
  {
    var s, a := InitialState(3, {0, 1}), Abs(Down(3), 0, map[]);
    assert Down(3) == [2, 1, 0] && InitialSucc(3) == [INVALID_IDX, 0, 1];
    DecodeEncode(0, 2);
    hide EncodeHead, DecodeVer, DecodeIdx;
    GoesOne(s, a, PopLoad(0));
    GoesThen(s, a, [PopLoad(0)], Step(s, PopLoad(0)), AbsStep(s, a, PopLoad(0)), PopRead(0));
    assert [PopLoad(0)] + [PopRead(0)] == [PopLoad(0), PopRead(0)];
  }

  lemma OpeningPop(k: nat)
    requires k < 3
    ensures Goes(Opening(k), OpeningAbs(k), PopActs(1), Opening(k + 1), OpeningAbs(k + 1))
  {
    var s, a := Opening(k), OpeningAbs(k);
    DecodeEncode(k, 2 - k);
    SoloPop(s, a, 1);
    hide EncodeHead, DecodeVer, DecodeIdx, Goes;
    assert AfterPop(s) == Opening(k + 1);
    assert Abs(a.chain[1..], a.ops + 1, a.loadedAt[1 := a.ops]) == OpeningAbs(k + 1);
  }

  lemma OpeningEnd()
    ensures Goes(Opening(3), OpeningAbs(3), PushBegun(1, 2) + [PushCount(1)], Stalled(4), StalledAbs(4))
  {
    var s, a := Opening(3), OpeningAbs(3);
    DecodeEncode(3, INVALID_IDX);
    SoloPush(s, a, 1, 2);
    hide EncodeHead, DecodeVer, DecodeIdx, Goes;
    assert AfterPush(s, 2) == Stalled(4);
    assert Abs([2] + a.chain, a.ops + 1, a.loadedAt) == StalledAbs(4);
  }

  lemma OpeningRun() returns (acts: seq<Act>)
    ensures Goes(InitialState(3, {0, 1}), Abs(Down(3), 0, map[]), acts, Stalled(4), StalledAbs(4))
  {
    hide Goes, InitialState, Opening, OpeningAbs, Stalled, StalledAbs;
    var s, a := InitialState(3, {0, 1}), Abs(Down(3), 0, map[]);
    acts := [PopLoad(0), PopRead(0)];
    OpeningStart();
    for k := 0 to 3
      invariant Goes(s, a, acts, Opening(k), OpeningAbs(k))
    {
      OpeningPop(k);
      GoesJoin(s, a, acts, Opening(k), OpeningAbs(k), PopActs(1), Opening(k + 1), OpeningAbs(k + 1));
      acts := acts + PopActs(1);
    }
    OpeningEnd();
    GoesJoin(s, a, acts, Opening(3), OpeningAbs(3), PushBegun(1, 2) + [PushCount(1)], Stalled(4), StalledAbs(4));
    acts := acts + (PushBegun(1, 2) + [PushCount(1)]);
  }

  /**
   The window cannot be wider.  With two threads and three segments there is a legal run after which
   exactly 2^32 operations separate thread 0's load from its CAS; that CAS wins although its snapshot is
   stale, and the top of the free list becomes a segment that a caller holds.
   */
  lemma WindowIsExact() returns (acts: seq<Act>, s: State, a: Abs)
    ensures Goes(InitialState(3, {0, 1}), Abs(Down(3), 0, map[]), acts, s, a) && Inv(s, a)
    ensures Enabled(s, PopCas(0, false)) && 0 in a.loadedAt && a.ops - a.loadedAt[0] == TWO32
    ensures DecodeIdx(Step(s, PopCas(0, false)).head) in Step(s, PopCas(0, false)).held
  {
    var first := OpeningRun();
    var second := PopAndPushBackOften(4, 0x7fff_fffe);
    s, a := Stalled(0), StalledAbs(TWO32);
    acts := first + second;
    assert 4 % TWO32 == 4 && (4 + 2 * 0x7fff_fffe) % TWO32 == 0;
    InitialInv(3, {0, 1});
    DecodeEncode(NextVer(DecodeVer(EncodeHead(0, 2))), 1);
    GoesJoin(InitialState(3, {0, 1}), Abs(Down(3), 0, map[]), first, Stalled(4), StalledAbs(4), second, s, a);
    RunKeeps(InitialState(3, {0, 1}), Abs(Down(3), 0, map[]), acts);
  }

  // ---- the counter may wrap below zero for a moment

  /** One segment, popped by thread 0 ... */
  function Lent(): State {
    State(EncodeHead(1, INVALID_IDX), [INVALID_IDX], 0, map[0 := Idle, 1 := Idle], {0})
  }

  /** ... and pushed back by it, up to and including the CAS. */
  function Returning(): State {
    State(EncodeHead(2, 0), [INVALID_IDX], 0, map[0 := PushDone, 1 := Idle], {})
  }

  lemma LendRun()
    ensures Goes(InitialState(1, {0, 1}), Abs(Down(1), 0, map[]), PopActs(0), Lent(), Abs([], 1, map[0 := 0]))
  {
    var s, a := InitialState(1, {0, 1}), Abs(Down(1), 0, map[]);
    assert Down(1) == [0] && InitialSucc(1) == [INVALID_IDX];
    DecodeEncode(0, 0);
    SoloPop(s, a, 0);
    assert AfterPop(s) == Lent();
  }

  lemma ReturnRun()
    ensures Goes(Lent(), Abs([], 1, map[0 := 0]), PushBegun(0, 0), Returning(), Abs([0], 2, map[0 := 0]))
  {
    var s := Lent();
    DecodeEncode(1, INVALID_IDX);
    SoloPushBegun(s, Abs([], 1, map[0 := 0]), 0, 0);
    assert AfterPush(s, 0).(free := s.free, pcs := s.pcs[0 := PushDone]) == Returning();
  }

  /** With one segment: a push has won but not yet counted when another thread pops and counts. */
  lemma FreeCountWraps() returns (acts: seq<Act>, s: State, a: Abs)
    ensures Goes(InitialState(1, {0, 1}), Abs(Down(1), 0, map[]), acts, s, a)
    ensures a.chain == [] && s.free == TWO64 - 1
  {
    hide Goes, InitialState, Down;
    LendRun();
    ReturnRun();
    DecodeEncode(2, 0);
    var s0, a0, s2, a2 := InitialState(1, {0, 1}), Abs(Down(1), 0, map[]), Returning(), Abs([0], 2, map[0 := 0]);
    SoloPop(s2, a2, 1);
    s, a := AfterPop(s2), Abs(a2.chain[1..], 3, a2.loadedAt[1 := 2]);
    GoesJoin(s0, a0, PopActs(0), Lent(), Abs([], 1, map[0 := 0]), PushBegun(0, 0), s2, a2);
    GoesJoin(s0, a0, PopActs(0) + PushBegun(0, 0), s2, a2, PopActs(1), s, a);
    acts := PopActs(0) + PushBegun(0, 0) + PopActs(1);
  }
}
