/** Whole runs of the segment free list: linearizability, hand-outs and the free counter, from construction on. */
module SegmentRuns {
  import opened Bytes
  import opened Sequences
  import opened SegmentMemory
  import opened SegmentStack

  // ---- runs

  /** Steps that are enabled one after another, with every pop CAS inside the version window. */
  ghost predicate Legal(s: State, a: Abs, acts: seq<Act>)
    decreases acts
  {
    acts == [] ||
    (Enabled(s, acts[0]) && Timely(s, a, acts[0]) && Legal(Step(s, acts[0]), AbsStep(s, a, acts[0]), acts[1..]))
  }

  ghost function FinalState(s: State, a: Abs, acts: seq<Act>): State
    requires Legal(s, a, acts)
    decreases acts
  {
    if acts == [] then s else FinalState(Step(s, acts[0]), AbsStep(s, a, acts[0]), acts[1..])
  }

  ghost function FinalAbs(s: State, a: Abs, acts: seq<Act>): Abs
    requires Legal(s, a, acts)
    decreases acts
  {
    if acts == [] then a else FinalAbs(Step(s, acts[0]), AbsStep(s, a, acts[0]), acts[1..])
  }

  /** Safety over every interleaving. */
  lemma {:induction false} RunKeeps(s: State, a: Abs, acts: seq<Act>)
    requires Inv(s, a) && Legal(s, a, acts)
    ensures Inv(FinalState(s, a, acts), FinalAbs(s, a, acts))
    decreases acts
  {
    if acts != [] {
      StepKeeps(s, a, acts[0]);
      hide Inv, Enabled, Timely, Step, AbsStep;
      RunKeeps(Step(s, acts[0]), AbsStep(s, a, acts[0]), acts[1..]);
    }
  }

  /** The array accesses of TryGetSegment and Recycle are in range whenever they are due. */
  lemma AccessesInRange(s: State, a: Abs, t: nat)
    requires Inv(s, a) && t in s.pcs
    ensures s.pcs[t].Popping? ==> DecodeIdx(s.pcs[t].cur) < |s.succ|
    ensures s.pcs[t].Pushing? ==> s.pcs[t].seg < |s.succ|
  {
    assert ThreadInv(s, a, t);
    if s.pcs[t].Pushing? {
      assert Carrier(s.pcs, t, s.pcs[t].seg);
    }
  }

  // ---- linearizability

  /** What callers see, in the order it takes effect; read off the shared variables alone. */
  datatype Event = Popped(seg: Word32) | Pushed(seg: Word32) | SawEmpty

  function EventsOf(s: State, act: Act): seq<Event>
    requires Enabled(s, act)
  {
    if PopWins(s, act) then [Popped(DecodeIdx(s.pcs[act.t].cur))]
    else if PushWins(s, act) then [Pushed(s.pcs[act.t].seg)]
    else if (act.PopLoad? || act.PopCas?) && PopFrom(s.head).Idle? then [SawEmpty]
    else []
  }

  ghost function Log(s: State, a: Abs, acts: seq<Act>): seq<Event>
    requires Legal(s, a, acts)
    decreases acts
  {
    if acts == [] then []
    else EventsOf(s, acts[0]) + Log(Step(s, acts[0]), AbsStep(s, a, acts[0]), acts[1..])
  }

  /** A sequential stack of distinct segments that performs `log` and ends as `end`. */
  ghost predicate StackRun(chain: seq<Word32>, log: seq<Event>, end: seq<Word32>)
    decreases log
  {
    if log == [] then end == chain
    else match log[0]
         case Popped(x) => chain != [] && chain[0] == x && StackRun(chain[1..], log[1..], end)
         case Pushed(x) => x !in chain && StackRun([x] + chain, log[1..], end)
         case SawEmpty => chain == [] && StackRun(chain, log[1..], end)
  }

  lemma StepIsAtomic(s: State, a: Abs, act: Act)
    requires Inv(s, a) && Enabled(s, act) && Timely(s, a, act)
    ensures StackRun(a.chain, EventsOf(s, act), AbsStep(s, a, act).chain)
  {
    if PopWins(s, act) {
      WinningPopIsExact(s, a, act);
    } else if PushWins(s, act) {
      assert Carrier(s.pcs, act.t, s.pcs[act.t].seg);
    } else if a.chain != [] {
      assert a.chain[0] in a.chain;
    }
  }

  lemma {:induction false} StackRunJoin(chain: seq<Word32>, log: seq<Event>, mid: seq<Word32>, log': seq<Event>,
                                        end: seq<Word32>)
    requires StackRun(chain, log, mid) && StackRun(mid, log', end)
    ensures StackRun(chain, log + log', end)
    decreases log
  {
    if log == [] {
      assert log + log' == log';
    } else {
      assert (log + log')[0] == log[0] && (log + log')[1..] == log[1..] + log';
      match log[0]
      case Popped(_) => StackRunJoin(chain[1..], log[1..], mid, log', end);
      case Pushed(x) => StackRunJoin([x] + chain, log[1..], mid, log', end);
      case SawEmpty => StackRunJoin(chain, log[1..], mid, log', end);
    }
  }

  /** Every interleaving is a run of a sequential stack: each winning CAS is one atomic pop or push. */
  lemma {:induction false} Linearizable(s: State, a: Abs, acts: seq<Act>)
    requires Inv(s, a) && Legal(s, a, acts)
    ensures StackRun(a.chain, Log(s, a, acts), FinalAbs(s, a, acts).chain)
    decreases acts
  {
    if acts != [] {
      StepKeeps(s, a, acts[0]);
      StepIsAtomic(s, a, acts[0]);
      var s', a' := Step(s, acts[0]), AbsStep(s, a, acts[0]);
      hide Inv, Enabled, Timely, Step, AbsStep, EventsOf;
      Linearizable(s', a', acts[1..]);
      StackRunJoin(a.chain, EventsOf(s, acts[0]), a'.chain, Log(s', a', acts[1..]), FinalAbs(s, a, acts).chain);
    }
  }

  /** A segment that is not in the stack is pushed before it is popped. */
  lemma {:induction false} PushedBeforePopped(chain: seq<Word32>, log: seq<Event>, end: seq<Word32>, x: Word32, j: nat)
    returns (k: nat)
    requires StackRun(chain, log, end) && Distinct(chain)
    requires x !in chain && j < |log| && log[j] == Popped(x)
    ensures k < j && log[k] == Pushed(x)
    decreases log
  {
    match log[0] {
      case Popped(y) =>
        k := PushedBeforePopped(chain[1..], log[1..], end, x, j - 1);
        k := k + 1;
      case Pushed(y) =>
        if y == x { return 0; }
        k := PushedBeforePopped([y] + chain, log[1..], end, x, j - 1);
        k := k + 1;
      case SawEmpty =>
        k := PushedBeforePopped(chain, log[1..], end, x, j - 1);
        k := k + 1;
    }
  }

  /** The stack after one event. */
  function AfterEvent(chain: seq<Word32>, e: Event): seq<Word32> {
    match e
    case Popped(_) => if chain == [] then [] else chain[1..]
    case Pushed(y) => [y] + chain
    case SawEmpty => chain
  }

  lemma OneEvent(chain: seq<Word32>, log: seq<Event>, end: seq<Word32>)
    requires StackRun(chain, log, end) && Distinct(chain) && log != []
    ensures StackRun(AfterEvent(chain, log[0]), log[1..], end) && Distinct(AfterEvent(chain, log[0]))
    ensures log[0].Popped? ==> log[0].seg !in AfterEvent(chain, log[0])
  {
  }

  /** No segment is handed out twice: between two pops of it there is a push of it. */
  lemma {:induction false} NoDoublePop(chain: seq<Word32>, log: seq<Event>, end: seq<Word32>, x: Word32, i: nat, j: nat)
    returns (k: nat)
    requires StackRun(chain, log, end) && Distinct(chain)
    requires i < j < |log| && log[i] == Popped(x) && log[j] == Popped(x)
    ensures i < k < j && log[k] == Pushed(x)
    decreases log
  {
    hide StackRun, Distinct, AfterEvent;
    OneEvent(chain, log, end);
    if i == 0 {
      k := PushedBeforePopped(AfterEvent(chain, log[0]), log[1..], end, x, j - 1);
    } else {
      k := NoDoublePop(AfterEvent(chain, log[0]), log[1..], end, x, i - 1, j - 1);
    }
    k := k + 1;
  }

  /** What a caller receives belongs to no one else, and reaching for an empty list means it is empty. */
  lemma HandOut(s: State, a: Abs, t: nat)
    requires Inv(s, a) && t in s.pcs && s.pcs[t].PopDone?
    ensures s.pcs[t].seg < |s.succ| && s.pcs[t].seg !in s.held && s.pcs[t].seg !in a.chain
    ensures forall u :: u in s.pcs && u != t ==> !s.pcs[u].Carries(s.pcs[t].seg)
  {
    assert Carrier(s.pcs, t, s.pcs[t].seg);
    forall u | u in s.pcs && s.pcs[u].Carries(s.pcs[t].seg) ensures u == t {
      assert Carrier(s.pcs, u, s.pcs[t].seg);
    }
  }

  // ---- from construction on

  lemma {:induction false} CountOverRun(s: State, a: Abs, acts: seq<Act>)
    requires Inv(s, a) && Legal(s, a, acts) && CountInv(s, a)
    ensures CountInv(FinalState(s, a, acts), FinalAbs(s, a, acts))
    decreases acts
  {
    hide Inv, Enabled, Timely, Step, AbsStep, CountInv;
    if acts != [] {
      StepKeeps(s, a, acts[0]);
      CountKeeps(s, a, acts[0]);
      CountOverRun(Step(s, acts[0]), AbsStep(s, a, acts[0]), acts[1..]);
    }
  }

  lemma CountAtFirst(n: nat, threads: set<nat>)
    requires n < INVALID_IDX
    ensures CountInv(InitialState(n, threads), Abs(Down(n), 0, map[]))
  {
    var s := InitialState(n, threads);
    assert PopsPending(s.pcs) == {} && PushesPending(s.pcs) == {};
  }

  /**
   Any number of threads, any number of segments, any interleaving: one sequential stack, fully shared out and
   counted.
   */
  lemma EveryRun(n: nat, threads: set<nat>, acts: seq<Act>)
    requires n < INVALID_IDX && Legal(InitialState(n, threads), Abs(Down(n), 0, map[]), acts)
    ensures var s, a := InitialState(n, threads), Abs(Down(n), 0, map[]);
            var s', a' := FinalState(s, a, acts), FinalAbs(s, a, acts);
            Inv(s', a') && CountInv(s', a') && StackRun(Down(n), Log(s, a, acts), a'.chain)
  {
    hide Inv, CountInv, InitialState, Down, StackRun, Log, Legal;
    var s, a := InitialState(n, threads), Abs(Down(n), 0, map[]);
    InitialInv(n, threads);
    CountAtFirst(n, threads);
    RunKeeps(s, a, acts);
    CountOverRun(s, a, acts);
    Linearizable(s, a, acts);
  }
}
