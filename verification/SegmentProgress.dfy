/**
 Progress of the segment free list: a CAS is lost only to another one that won, so however the threads are
 scheduled, some call returns after a bounded number of accesses.  Nothing here depends on the version window.
 */
module SegmentProgress {
  import opened Bytes
  import opened Modular
  import opened SegmentMemory
  import opened SegmentStack

  // ---- What a run is worth. ----

  predicate Runs(s: State, acts: seq<Act>)
    decreases acts
  {
    acts == [] || (Enabled(s, acts[0]) && Runs(Step(s, acts[0]), acts[1..]))
  }

  function After(s: State, acts: seq<Act>): State
    requires Runs(s, acts)
    decreases acts
  {
    if acts == [] then s else After(Step(s, acts[0]), acts[1..])
  }

  /**
   Winning CASes, CASes lost to a changed head, CASes that failed without one, pops that found the list empty, and
   calls that returned after a win.
   */
  datatype Tally = Tally(wins: nat, lost: nat, spurious: nat, empty: nat, finished: nat)

  function Plus(x: Tally, y: Tally): Tally {
    Tally(x.wins + y.wins, x.lost + y.lost, x.spurious + y.spurious, x.empty + y.empty, x.finished + y.finished)
  }

  function One(b: bool): nat { if b then 1 else 0 }

  function TallyStep(s: State, act: Act): Tally
    requires Enabled(s, act)
  {
    var cas := act.PopCas? || act.PushCas?;
    var win := PopWins(s, act) || PushWins(s, act);
    Tally(One(win), One(cas && s.head != s.pcs[act.t].cur), One(cas && !win && s.head == s.pcs[act.t].cur),
          One((act.PopLoad? || (act.PopCas? && !win)) && PopFrom(s.head).Idle?), One(act.PopCount? || act.PushCount?))
  }

  function TallyOf(s: State, acts: seq<Act>): Tally
    requires Runs(s, acts)
    decreases acts
  {
    if acts == [] then Tally(0, 0, 0, 0, 0)
    else Plus(TallyStep(s, acts[0]), TallyOf(Step(s, acts[0]), acts[1..]))
  }

  // ---- Threads that can only lose. ----

  predicate Stale(pc: Pc, head: Word64) {
    (pc.Popping? || pc.PopReady? || pc.Pushing? || pc.PushStored?) && pc.cur != head
  }

  function StaleThreads(s: State): set<nat> {
    set t | t in s.pcs && Stale(s.pcs[t], s.head)
  }

  lemma Subset(x: set<nat>, y: set<nat>)
    requires x <= y
    ensures |x| <= |y|
  {
    if x != y {
      var z := y - x;
      assert y == x + z && x !! z;
    }
  }

  /** Only a win makes other threads stale, and a loser is up to date again. */
  lemma StaleAfter(s: State, act: Act)
    requires Enabled(s, act)
    ensures var s', t, win := Step(s, act), act.t, PopWins(s, act) || PushWins(s, act);
      && s'.pcs.Keys == s.pcs.Keys
      && (win ==> StaleThreads(s') <= s.pcs.Keys - {t})
      && (!win ==> StaleThreads(s') <= StaleThreads(s))
      && (!win && (act.PopCas? || act.PushCas?) ==> t !in StaleThreads(s'))
  {
    hide EncodeHead, DecodeVer, DecodeIdx, NextVer, Sub64, Add64;
  }

  /** Each loss takes a thread out of the stale ones. */
  lemma LossesAreWon(s: State, act: Act)
    requires Enabled(s, act)
    ensures var s', y := Step(s, act), TallyStep(s, act);
            s'.pcs.Keys == s.pcs.Keys && |StaleThreads(s')| + y.lost <= |StaleThreads(s)| + (|s.pcs.Keys| - 1) * y.wins
  {
    hide Step, PopFrom;
    var s', t := Step(s, act), act.t;
    StaleAfter(s, act);
    if PopWins(s, act) || PushWins(s, act) {
      Subset(StaleThreads(s'), s.pcs.Keys - {t});
    } else if (act.PopCas? || act.PushCas?) && s.head != s.pcs[t].cur {
      assert t in StaleThreads(s);
      Subset(StaleThreads(s'), StaleThreads(s) - {t});
    } else {
      Subset(StaleThreads(s'), StaleThreads(s));
    }
  }

  // ---- Where the threads stand. ----

  function Place(pc: Pc): nat {
    match pc
    case Idle => 0
    case Popping(_) => 1
    case Pushing(_, _) => 1
    case PopReady(_, _) => 2
    case PushStored(_, _) => 2
    case PopDone(_) => 3
    case PushDone => 3
  }

  function AtLeast(pcs: map<nat, Pc>, k: nat): set<nat> {
    set t | t in pcs && Place(pcs[t]) >= k
  }

  function Places(pcs: map<nat, Pc>): nat {
    |AtLeast(pcs, 1)| + |AtLeast(pcs, 2)| + |AtLeast(pcs, 3)|
  }

  lemma SplitOff(x: set<nat>, t: nat)
    ensures |x| == |x - {t}| + One(t in x)
  {
    if t in x {
      assert x == (x - {t}) + {t};
    } else {
      assert x == x - {t};
    }
  }

  lemma MoveOne(pcs: map<nat, Pc>, t: nat, pc: Pc, k: nat)
    requires t in pcs
    ensures |AtLeast(pcs[t := pc], k)| + One(Place(pcs[t]) >= k) == |AtLeast(pcs, k)| + One(Place(pc) >= k)
  {
    hide Place, AtLeast;
    SameElsewhere(pcs, t, pc, k);
    SplitOff(AtLeast(pcs, k), t);
    SplitOff(AtLeast(pcs[t := pc], k), t);
  }

  lemma SameElsewhere(pcs: map<nat, Pc>, t: nat, pc: Pc, k: nat)
    requires t in pcs
    ensures AtLeast(pcs, k) - {t} == AtLeast(pcs[t := pc], k) - {t}
    ensures (t in AtLeast(pcs, k) <==> Place(pcs[t]) >= k) && (t in AtLeast(pcs[t := pc], k) <==> Place(pc) >= k)
  {
    hide Place;
    var pcs' := pcs[t := pc];
    forall u
      ensures u in AtLeast(pcs, k) - {t} <==> u in AtLeast(pcs', k) - {t}
    {
    }
  }

  lemma MovePlaces(pcs: map<nat, Pc>, t: nat, pc: Pc)
    requires t in pcs
    ensures Places(pcs[t := pc]) + Place(pcs[t]) == Places(pcs) + Place(pc)
  {
    hide AtLeast;
    MoveOne(pcs, t, pc, 1);
    MoveOne(pcs, t, pc, 2);
    MoveOne(pcs, t, pc, 3);
  }

  lemma PlacesBound(pcs: map<nat, Pc>)
    ensures Places(pcs) <= 3 * |pcs.Keys| && |AtLeast(pcs, 3)| <= |pcs.Keys|
  {
    Subset(AtLeast(pcs, 1), pcs.Keys);
    Subset(AtLeast(pcs, 2), pcs.Keys);
    Subset(AtLeast(pcs, 3), pcs.Keys);
  }

  /** Every access moves its thread on, unless a CAS fails, the list is empty or the call returns. */
  lemma StepsAreMoves(s: State, act: Act)
    requires Enabled(s, act)
    ensures var s', y := Step(s, act), TallyStep(s, act);
      && 1 + Places(s.pcs) <= Places(s'.pcs) + 3 * (y.lost + y.spurious) + 4 * y.finished + y.empty
      && y.wins + |AtLeast(s.pcs, 3)| == |AtLeast(s'.pcs, 3)| + y.finished
  {
    hide EncodeHead, DecodeVer, DecodeIdx, NextVer, Sub64, Add64, AtLeast, Places;
    var s', t := Step(s, act), act.t;
    assert s'.pcs == s.pcs[t := s'.pcs[t]];
    MovePlaces(s.pcs, t, s'.pcs[t]);
    MoveOne(s.pcs, t, s'.pcs[t], 3);
  }

  // ---- Over whole runs. ----

  /** What a run of so many accesses by `n` threads may change, from one state to the other. */
  ghost predicate Balanced(n: int, s: State, s': State, y: Tally, accesses: nat) {
    && s'.pcs.Keys == s.pcs.Keys
    && |StaleThreads(s')| + y.lost <= |StaleThreads(s)| + (n - 1) * y.wins
    && accesses + Places(s.pcs) <= Places(s'.pcs) + 3 * (y.lost + y.spurious) + 4 * y.finished + y.empty
    && y.wins + |AtLeast(s.pcs, 3)| == |AtLeast(s'.pcs, 3)| + y.finished
  }

  lemma BalancedJoin(n: int, s: State, m: State, s': State, x: Tally, y: Tally, i: nat, j: nat)
    requires Balanced(n, s, m, x, i) && Balanced(n, m, s', y, j)
    ensures Balanced(n, s, s', Plus(x, y), i + j)
  {
    hide StaleThreads, AtLeast, Places;
    Distribute(x.wins, y.wins, n - 1);
  }

  /** For every run from any state: what was lost, what returned and how many accesses there were. */
  lemma {:induction false} Progress(s: State, acts: seq<Act>)
    requires Runs(s, acts)
    ensures Balanced(|s.pcs.Keys|, s, After(s, acts), TallyOf(s, acts), |acts|)
    decreases acts
  {
    hide Enabled, Step, TallyStep, Balanced, Plus;
    if acts == [] {
      NothingDone(|s.pcs.Keys|, s);
    } else {
      var s1, y1, rest := Step(s, acts[0]), TallyStep(s, acts[0]), acts[1..];
      OneAccess(s, acts[0]);
      Progress(s1, rest);
      BalancedJoin(|s.pcs.Keys|, s, s1, After(s1, rest), y1, TallyOf(s1, rest), 1, |rest|);
    }
  }

  lemma NothingDone(n: int, s: State)
    ensures Balanced(n, s, s, Tally(0, 0, 0, 0, 0), 0)
  {
    hide StaleThreads, AtLeast, Places;
  }

  lemma OneAccess(s: State, act: Act)
    requires Enabled(s, act)
    ensures Step(s, act).pcs.Keys == s.pcs.Keys && Balanced(|s.pcs.Keys|, s, Step(s, act), TallyStep(s, act), 1)
  {
    hide Step, TallyStep, StaleThreads, AtLeast, Places;
    LossesAreWon(s, act);
    StepsAreMoves(s, act);
  }

  /** From construction on, the CASes lost are at most one per win and other thread. */
  lemma LossesAreBounded(n: nat, threads: set<nat>, acts: seq<Act>)
    requires n < INVALID_IDX && Runs(InitialState(n, threads), acts)
    ensures var y := TallyOf(InitialState(n, threads), acts);
            y.lost <= (|threads| - 1) * y.wins && y.finished <= y.wins
  {
    hide After, TallyOf, Runs;
    var s := InitialState(n, threads);
    Progress(s, acts);
    assert s.pcs.Keys == threads;
    assert StaleThreads(s) == {} && AtLeast(s.pcs, 3) == {};
  }

  /** Lock-freedom: in any state and under any schedule some call returns within 3 T (T + 1) + 1 accesses. */
  lemma LockFree(s: State, acts: seq<Act>)
    requires Runs(s, acts) && TallyOf(s, acts).spurious == 0
    requires |acts| > 3 * |s.pcs.Keys| * (|s.pcs.Keys| + 1)
    ensures TallyOf(s, acts).finished + TallyOf(s, acts).empty > 0
  {
    hide After, TallyOf, Runs, AtLeast, Places, StaleThreads;
    var s', y, n := After(s, acts), TallyOf(s, acts), |s.pcs.Keys|;
    Progress(s, acts);
    PlacesBound(s'.pcs);
    StaleBound(s);
    if y.finished == y.empty == 0 {
      FewLosses(n, y.wins, y.lost);
    }
  }

  lemma StaleBound(s: State)
    ensures |StaleThreads(s)| <= |s.pcs.Keys|
  {
    Subset(StaleThreads(s), s.pcs.Keys);
  }

  lemma FewLosses(n: nat, wins: nat, lost: nat)
    requires wins <= n && lost <= n + (n - 1) * wins
    ensures 3 * n + 3 * lost <= 3 * n * (n + 1)
  {
    if n > 0 {
      ProductMonotone(n - 1, wins, n - 1, n);
      Distribute(n - 1, 1, n);
      Distribute(n, 1, 3 * n);
    }
  }
}
