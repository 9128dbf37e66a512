/**
 The judgement db_stress passes on a read that overlaps writes (db_stress/expected_value.cpp,
 db_stress/db_stress_shared_state.cpp): prepare, write, commit or roll back on one side, a pre-read and a
 post-read snapshot of the record on the other.
 */
module Oracle {
  import opened ExpectedValue
  import Modular
  import opened Options

  // ---- ExpectedValueHelper

  predicate MustHaveNotExisted(pre: nat, post: nat) {
    IsDeleted(pre) && GetValueBase(pre) == GetFinalValueBase(post)
  }

  predicate MustHaveExisted(pre: nat, post: nat) {
    !IsDeleted(pre) && GetDelCounter(pre) == GetFinalDelCounter(post)
  }

  predicate InExpectedValueBaseRange(base: nat, pre: nat, post: nat) {
    var preBase, postFinalBase := GetValueBase(pre), GetFinalValueBase(post);
    if preBase <= postFinalBase then preBase <= base <= postFinalBase
    else base <= postFinalBase || preBase <= base <= VALUE_BASE_MASK
  }

  /** The asserts of Reader::VerifyGet on one key. */
  predicate Accepts(result: Option<nat>, pre: nat, post: nat) {
    match result
    case Some(base) => !MustHaveNotExisted(pre, post) && InExpectedValueBaseRange(base, pre, post)
    case None => !MustHaveExisted(pre, post)
  }

  // ---- one key under prepare, write, commit

  /** A pending operation: what Rollback and Commit would store, and what the batch does to the database. */
  datatype Flight =
    | Quiet
    | Writing(put: bool, orig: nat, final: nat, applied: bool)

  datatype KeyState = KeyState(cell: nat, db: Option<nat>, flight: Flight)

  datatype Event = BeginPut | BeginDelete | Apply | Commit | Rollback

  predicate Enabled(s: KeyState, e: Event) {
    match e
    case BeginPut => s.flight.Quiet?
    case BeginDelete => s.flight.Quiet?
    case Apply => s.flight.Writing? && !s.flight.applied
    case Commit => s.flight.Writing? && s.flight.applied
    case Rollback => s.flight.Writing? && !s.flight.applied
  }

  /** ThreadState::PreparePut: the cell to show while the write is under way, and the one to commit. */
  function PreparePut(cell: nat): (nat, nat) {
    (Put(cell, true), Put(Put(cell, true), false))
  }

  /** ThreadState::PrepareDelete: an absent key is left alone. */
  function PrepareDelete(cell: nat): (nat, nat) {
    if IsDeleted(cell) then (cell, cell)
    else (Delete(cell, true), Delete(Delete(cell, true), false))
  }

  function Step(s: KeyState, e: Event): KeyState
    requires Enabled(s, e)
  {
    match e
    case BeginPut => s.(cell := PreparePut(s.cell).0, flight := Writing(true, s.cell, PreparePut(s.cell).1, false))
    case BeginDelete =>
      s.(cell := PrepareDelete(s.cell).0, flight := Writing(false, s.cell, PrepareDelete(s.cell).1, false))
    case Apply =>
      s.(db := if s.flight.put then Some(GetValueBase(s.flight.final)) else None, flight := s.flight.(applied := true))
    case Commit => s.(cell := s.flight.final, flight := Quiet)
    case Rollback => s.(cell := s.flight.orig, flight := Quiet)
  }

  // ---- the true history behind the wrapped counters

  /**
   Puts committed and applied, deletes of a present key committed and applied, and whether the key is committed as
   absent.
   */
  datatype History = History(puts: nat, written: nat, dels: nat, removed: nat, deleted: bool)

  function HistoryStep(s: KeyState, h: History, e: Event): History
    requires Enabled(s, e)
  {
    match e
    case BeginPut => h
    case BeginDelete => h
    case Apply =>
      if s.flight.put then h.(written := h.written + 1)
      else if h.deleted then h
      else h.(removed := h.removed + 1)
    case Commit =>
      if s.flight.put then h.(puts := h.puts + 1, deleted := false)
      else if h.deleted then h
      else h.(dels := h.dels + 1, deleted := true)
    case Rollback => h
  }

  function PendingPut(s: KeyState): bool { s.flight.Writing? && s.flight.put }
  function PendingDel(s: KeyState, h: History): bool { s.flight.Writing? && !s.flight.put && !h.deleted }

  /** The fields the cell shows: counters modulo their width, flags for the operation in flight. */
  function CellFields(h: History, pendingPut: bool, pendingDel: bool): (f: Fields)
    ensures f.Valid()
  {
    Fields(h.puts % BASES, pendingPut, h.dels % DELS, pendingDel, h.deleted)
  }

  function Shown(s: KeyState, h: History): Fields {
    CellFields(h, PendingPut(s), PendingDel(s, h))
  }

  /** What the database holds when nothing newer than `h` has been applied. */
  function Stored(h: History): Option<nat> {
    if h.deleted then None else Some(h.puts % BASES)
  }

  ghost predicate Inv(s: KeyState, h: History) {
    && s.cell == Pack(Shown(s, h))
    && match s.flight
       case Quiet => h.written == h.puts && h.removed == h.dels && s.db == Stored(h)
       case Writing(put, orig, final, applied) =>
         && orig == Pack(CellFields(h, false, false))
         && (put ==> && final == Pack(CellFields(h.(puts := h.puts + 1, deleted := false), false, false))
                     && h.removed == h.dels
                     && h.written == (if applied then h.puts + 1 else h.puts)
                     && s.db == (if applied then Some((h.puts + 1) % BASES) else Stored(h)))
         && (!put ==> && h.written == h.puts
                      && final == Pack(if h.deleted then CellFields(h, false, false)
                                       else CellFields(h.(dels := h.dels + 1, deleted := true), false, false))
                      && h.removed == (if applied && !h.deleted then h.dels + 1 else h.dels)
                      && s.db == (if applied then None else Stored(h)))
  }

  lemma NextCounters(h: History)
    ensures NextBase(h.puts % BASES) == (h.puts + 1) % BASES
    ensures NextDel(h.dels % DELS) == (h.dels + 1) % DELS
  {
  }

  lemma BeginPutKeeps(s: KeyState, h: History)
    requires Inv(s, h) && s.flight.Quiet?
    ensures Inv(Step(s, BeginPut), h)
  {
    hide Pack, Put;
    var f := CellFields(h, false, false);
    NextCounters(h);
    PutFields(f);
    PutFields(f.(pendingWrite := true));
  }

  lemma BeginDeleteKeeps(s: KeyState, h: History)
    requires Inv(s, h) && s.flight.Quiet?
    ensures Inv(Step(s, BeginDelete), h)
  {
    hide Pack, Delete, IsDeleted;
    var f := CellFields(h, false, false);
    NextCounters(h);
    Getters(f);
    DeleteFields(f);
    DeleteFields(f.(pendingDel := true));
  }

  lemma ApplyKeeps(s: KeyState, h: History)
    requires Inv(s, h) && Enabled(s, Apply)
    ensures Inv(Step(s, Apply), HistoryStep(s, h, Apply))
  {
    hide Pack, GetValueBase;
    Getters(CellFields(h.(puts := h.puts + 1, deleted := false), false, false));
  }

  lemma StepKeeps(s: KeyState, h: History, e: Event)
    requires Inv(s, h) && Enabled(s, e)
    ensures Inv(Step(s, e), HistoryStep(s, h, e))
  {
    match e
    case BeginPut => BeginPutKeeps(s, h);
    case BeginDelete => BeginDeleteKeeps(s, h);
    case Apply => ApplyKeeps(s, h);
    case Commit =>
    case Rollback =>
  }

  // ---- runs

  predicate Legal(s: KeyState, es: seq<Event>)
    decreases es
  {
    es == [] || (Enabled(s, es[0]) && Legal(Step(s, es[0]), es[1..]))
  }

  function Run(s: KeyState, es: seq<Event>): KeyState
    requires Legal(s, es)
    decreases es
  {
    if es == [] then s else Run(Step(s, es[0]), es[1..])
  }

  function RunHistory(s: KeyState, h: History, es: seq<Event>): History
    requires Legal(s, es)
    decreases es
  {
    if es == [] then h else RunHistory(Step(s, es[0]), HistoryStep(s, h, es[0]), es[1..])
  }

  /** A key appears only by an applied put and disappears only by an applied delete. */
  ghost predicate Later(s: KeyState, h: History, s': KeyState, h': History) {
    && h.puts <= h'.puts && h.written <= h'.written && h.dels <= h'.dels && h.removed <= h'.removed
    && (h.written == h'.written && s.db == None ==> s'.db == None)
    && (h.removed == h'.removed && s.db != None ==> s'.db != None)
  }

  lemma StepIsLater(s: KeyState, h: History, e: Event)
    requires Inv(s, h) && Enabled(s, e)
    ensures Later(s, h, Step(s, e), HistoryStep(s, h, e))
  {
    hide Pack, GetValueBase, Put, Delete, IsDeleted;
  }

  lemma {:induction false} RunKeeps(s: KeyState, h: History, es: seq<Event>)
    requires Inv(s, h) && Legal(s, es)
    ensures Inv(Run(s, es), RunHistory(s, h, es))
    ensures Later(s, h, Run(s, es), RunHistory(s, h, es))
    decreases es
  {
    if es != [] {
      hide Inv, Enabled, Step, HistoryStep;
      StepKeeps(s, h, es[0]);
      StepIsLater(s, h, es[0]);
      RunKeeps(Step(s, es[0]), HistoryStep(s, h, es[0]), es[1..]);
    }
  }

  // ---- snapshots

  /** Counts with the operation in flight included. */
  function FinalPuts(s: KeyState, h: History): nat { if PendingPut(s) then h.puts + 1 else h.puts }
  function FinalDels(s: KeyState, h: History): nat { if PendingDel(s, h) then h.dels + 1 else h.dels }

  lemma SnapshotCounts(s: KeyState, h: History)
    requires Inv(s, h)
    ensures GetValueBase(s.cell) == h.puts % BASES
    ensures GetDelCounter(s.cell) == h.dels % DELS * DEL_COUNTER_DELTA
    ensures IsDeleted(s.cell) == h.deleted
    ensures GetFinalValueBase(s.cell) == FinalPuts(s, h) % BASES
    ensures GetFinalDelCounter(s.cell) == FinalDels(s, h) % DELS * DEL_COUNTER_DELTA
    ensures h.puts <= h.written <= FinalPuts(s, h) && h.dels <= h.removed <= FinalDels(s, h)
    ensures !h.deleted && h.removed == h.dels ==> s.db != None
    ensures h.deleted && h.written == h.puts ==> s.db == None
    ensures s.db != None ==> s.db == Some(h.written % BASES)
  {
    hide Pack, GetValueBase, GetDelCounter, IsDeleted, GetFinalValueBase, GetFinalDelCounter;
    Getters(Shown(s, h));
    FinalParts(Shown(s, h));
    NextCounters(h);
  }

  /** Two counts less than a period apart, seen through their remainders. */
  lemma Period(lo: nat, hi: nat)
    requires lo <= hi < lo + BASES
    ensures hi - lo == if lo % BASES <= hi % BASES then hi % BASES - lo % BASES else hi % BASES + BASES - lo % BASES
  {
  }

  ghost predicate Between(lo: nat, hi: nat, base: nat) {
    exists n :: lo <= n <= hi && n % BASES == base
  }

  predicate CyclicallyBetween(lo: nat, hi: nat, base: nat) {
    if lo <= hi then lo <= base <= hi else base <= hi || lo <= base < BASES
  }

  lemma CyclicInterval(lo: nat, hi: nat, base: nat)
    requires lo <= hi < lo + BASES && base < BASES
    ensures CyclicallyBetween(lo % BASES, hi % BASES, base) <==> Between(lo, hi, base)
  {
    var p, q := lo % BASES, hi % BASES;
    Period(lo, hi);
    if CyclicallyBetween(p, q, base) {
      var n := if p <= base then lo + (base - p) else lo + (base + BASES - p);
      assert n % BASES == base;
      assert Between(lo, hi, base);
    }
    if Between(lo, hi, base) {
      var n :| lo <= n <= hi && n % BASES == base;
      Period(lo, n);
    }
  }

  /** InExpectedValueBaseRange holds exactly for the bases written between the two snapshots. */
  lemma RangeIsExact(pre: KeyState, h: History, post: KeyState, h': History, base: nat)
    requires Inv(pre, h) && Inv(post, h') && base < BASES
    requires h.puts <= FinalPuts(post, h') < h.puts + BASES
    ensures InExpectedValueBaseRange(base, pre.cell, post.cell) <==> Between(h.puts, FinalPuts(post, h'), base)
  {
    hide Inv, GetValueBase, GetFinalValueBase, Between;
    SnapshotCounts(pre, h);
    SnapshotCounts(post, h');
    CyclicInterval(h.puts, FinalPuts(post, h'), base);
  }

  /** The distance from one count to a later one, modulo the counter's width, from their remainders. */
  lemma Distance(lo: nat, n: nat)
    requires lo <= n
    ensures (n - lo) % BASES
         == if lo % BASES <= n % BASES then n % BASES - lo % BASES else n % BASES + BASES - lo % BASES
  {
    var q := n / BASES - lo / BASES;
    var d := n % BASES - lo % BASES;
    assert n - lo == q * BASES + d;
    if d >= 0 {
      Modular.QuotientRemainder(n - lo, q, d, BASES);
    } else {
      Modular.QuotientRemainder(n - lo, q - 1, d + BASES, BASES);
    }
  }

  /** The range test in true counts, however many puts there were: it looks at both distances modulo 2^15. */
  lemma RangeByDistance(pre: KeyState, h: History, post: KeyState, h': History, n: nat)
    requires Inv(pre, h) && Inv(post, h') && h.puts <= n && h.puts <= FinalPuts(post, h')
    ensures InExpectedValueBaseRange(n % BASES, pre.cell, post.cell)
       <==> (n - h.puts) % BASES <= (FinalPuts(post, h') - h.puts) % BASES
  {
    hide Inv, GetValueBase, GetFinalValueBase;
    SnapshotCounts(pre, h);
    SnapshotCounts(post, h');
    Distance(h.puts, n);
    Distance(h.puts, FinalPuts(post, h'));
  }

  /** What the oracle answers, in true counts between the two samples: puts, deletes and the put the read saw. */
  predicate Verdict(found: bool, deleted: bool, puts: nat, dels: nat, seen: nat) {
    if found then (!deleted || puts % BASES != 0) && seen % BASES <= puts % BASES
    else deleted || dels % DELS != 0
  }

  /**
   The oracle's answer for every run, however long.  The record is sampled, events happen, the database is
   read, more events happen, the record is sampled again.
   */
  lemma OracleVerdict(s: KeyState, h: History, before: seq<Event>, after: seq<Event>)
    requires Inv(s, h) && Legal(s, before) && Legal(Run(s, before), after)
    ensures var mid, midH := Run(s, before), RunHistory(s, h, before);
            var end, endH := Run(mid, after), RunHistory(mid, midH, after);
      && h.puts <= midH.written <= FinalPuts(end, endH) && h.dels <= midH.removed <= FinalDels(end, endH)
      && (Accepts(mid.db, s.cell, end.cell) <==>
            Verdict(mid.db != None, h.deleted, FinalPuts(end, endH) - h.puts, FinalDels(end, endH) - h.dels,
                    midH.written - h.puts))
  {
    hide Inv, Step, HistoryStep, Legal, Run, RunHistory;
    hide GetValueBase, GetDelCounter, IsDeleted, GetFinalValueBase, GetFinalDelCounter, InExpectedValueBaseRange;
    var mid, midH := Run(s, before), RunHistory(s, h, before);
    var end, endH := Run(mid, after), RunHistory(mid, midH, after);
    RunKeeps(s, h, before);
    RunKeeps(mid, midH, after);
    SnapshotCounts(s, h);
    SnapshotCounts(mid, midH);
    SnapshotCounts(end, endH);
    Modular.SameRemainder(h.dels, FinalDels(end, endH), DELS);
    Modular.SameRemainder(h.puts, FinalPuts(end, endH), BASES);
    RangeByDistance(s, h, end, endH, midH.written);
  }

  /** Soundness of the oracle: fewer than 2^15 puts and fewer than 2^14 deletes between the samples. */
  lemma OracleAccepts(s: KeyState, h: History, before: seq<Event>, after: seq<Event>)
    requires Inv(s, h) && Legal(s, before) && Legal(Run(s, before), after)
    requires var mid, midH := Run(s, before), RunHistory(s, h, before);
             && FinalPuts(Run(mid, after), RunHistory(mid, midH, after)) < h.puts + BASES
             && FinalDels(Run(mid, after), RunHistory(mid, midH, after)) < h.dels + DELS
    ensures Accepts(Run(s, before).db, s.cell, Run(Run(s, before), after).cell)
  {
    hide Inv, Step, HistoryStep, Legal, Run, RunHistory, Accepts, Verdict, FinalPuts, FinalDels;
    var mid, midH := Run(s, before), RunHistory(s, h, before);
    var end, endH := Run(mid, after), RunHistory(mid, midH, after);
    OracleVerdict(s, h, before, after);
    RunKeeps(s, h, before);
    ReadSaw(s, h, mid, midH);
    InsideWindows(mid.db != None, h.deleted, FinalPuts(end, endH) - h.puts, FinalDels(end, endH) - h.dels,
                  midH.written - h.puts);
  }

  /** A key found where the sample says absent was put since, and the other way round. */
  lemma ReadSaw(s: KeyState, h: History, mid: KeyState, midH: History)
    requires Inv(s, h) && Inv(mid, midH) && Later(s, h, mid, midH)
    ensures mid.db != None && h.deleted ==> midH.written > h.puts
    ensures mid.db == None && !h.deleted ==> midH.removed > h.dels
  {
    hide Inv;
    SnapshotCounts(s, h);
    SnapshotCounts(mid, midH);
  }

  lemma InsideWindows(found: bool, deleted: bool, puts: nat, dels: nat, seen: nat)
    requires puts < BASES && dels < DELS && seen <= puts
    requires (found && deleted ==> puts > 0) && (!found && !deleted ==> dels > 0)
    ensures Verdict(found, deleted, puts, dels, seen)
  {
  }

  /** A key as ResetValues leaves it, on an empty database. */
  const FRESH := KeyState(DEL_MASK, None, Quiet)

  lemma FreshInv()
    ensures Inv(FRESH, History(0, 0, 0, 0, true))
  {
    UnpackPack(Fields(0, false, 0, false, true));
  }

  /**
   The same from the start of a test: whatever happened first, a read overlapping fewer writes than that is accepted.
   */
  lemma EveryReadIsAccepted(first: seq<Event>, before: seq<Event>, after: seq<Event>)
    requires Legal(FRESH, first) && Legal(Run(FRESH, first), before) && Legal(Run(Run(FRESH, first), before), after)
    requires var h0 := History(0, 0, 0, 0, true);
             var s, h := Run(FRESH, first), RunHistory(FRESH, h0, first);
             var mid, midH := Run(s, before), RunHistory(s, h, before);
             && FinalPuts(Run(mid, after), RunHistory(mid, midH, after)) < h.puts + BASES
             && FinalDels(Run(mid, after), RunHistory(mid, midH, after)) < h.dels + DELS
    ensures var s := Run(FRESH, first);
            Accepts(Run(s, before).db, s.cell, Run(Run(s, before), after).cell)
  {
    hide Inv, Step, HistoryStep, Legal, Run, RunHistory, Accepts;
    var h0 := History(0, 0, 0, 0, true);
    FreshInv();
    RunKeeps(FRESH, h0, first);
    OracleAccepts(Run(FRESH, first), RunHistory(FRESH, h0, first), before, after);
  }

  // ---- the two windows cannot be wider

  /** From a quiet state a legal run leads to another state and history. */
  ghost predicate Goes(s: KeyState, h: History, es: seq<Event>, s': KeyState, h': History) {
    Legal(s, es) && Run(s, es) == s' && RunHistory(s, h, es) == h'
  }

  lemma {:induction false} GoesJoin(s: KeyState, h: History, x: seq<Event>, m: KeyState, g: History, y: seq<Event>,
                                    s': KeyState, h': History)
    requires Goes(s, h, x, m, g) && Goes(m, g, y, s', h')
    ensures Goes(s, h, x + y, s', h')
    decreases x
  {
    if x == [] {
      assert x + y == y;
    } else {
      hide Enabled, Step, HistoryStep;
      assert (x + y)[0] == x[0] && (x + y)[1..] == x[1..] + y;
      GoesJoin(Step(s, x[0]), HistoryStep(s, h, x[0]), x[1..], m, g, y, s', h');
    }
  }

  /** The quiet state of a history. */
  function QuietState(h: History): KeyState {
    KeyState(Pack(CellFields(h, false, false)), Stored(h), Quiet)
  }

  function Even(puts: nat, dels: nat, deleted: bool): History { History(puts, puts, dels, dels, deleted) }

  /** Any well-formed quiet state is the one its history describes. */
  lemma QuietIsDetermined(s: KeyState, h: History)
    requires s.flight.Quiet?
    ensures Inv(s, h) <==> s == QuietState(h) && h == Even(h.puts, h.dels, h.deleted)
  {
  }

  lemma GoesOne(s: KeyState, h: History, e: Event)
    requires Enabled(s, e)
    ensures Goes(s, h, [e], Step(s, e), HistoryStep(s, h, e))
  {
    hide Step, HistoryStep, Enabled;
    var es := [e];
    assert es[0] == e && es[1..] == [];
    assert Run(Step(s, e), []) == Step(s, e)
      && RunHistory(Step(s, e), HistoryStep(s, h, e), []) == HistoryStep(s, h, e);
    assert Run(s, es) == Run(Step(s, es[0]), es[1..]);
    assert RunHistory(s, h, es) == RunHistory(Step(s, es[0]), HistoryStep(s, h, es[0]), es[1..]);
  }

  /** Begin, apply and commit lead from a quiet state to a quiet state. */
  lemma WholeWrite(s: KeyState, h: History, begin: Event)
    requires Inv(s, h) && s.flight.Quiet? && (begin.BeginPut? || begin.BeginDelete?)
    ensures var s1 := Step(s, begin);
            var s2, h2 := Step(s1, Apply), HistoryStep(s1, h, Apply);
            var s3, h3 := Step(s2, Commit), HistoryStep(s2, h2, Commit);
            Inv(s3, h3) && s3.flight.Quiet? && Goes(s, h, [begin, Apply, Commit], s3, h3)
  {
    hide Goes, Inv, Put, Delete, IsDeleted, GetValueBase;
    var s1 := Step(s, begin);
    var s2, h2 := Step(s1, Apply), HistoryStep(s1, h, Apply);
    StepKeeps(s, h, begin);
    StepKeeps(s1, h, Apply);
    StepKeeps(s2, h2, Commit);
    GoesOne(s, h, begin);
    GoesOne(s1, h, Apply);
    GoesOne(s2, h2, Commit);
    GoesJoin(s, h, [begin], s1, h, [Apply], s2, h2);
    GoesJoin(s, h, [begin] + [Apply], s2, h2, [Commit], Step(s2, Commit), HistoryStep(s2, h2, Commit));
    assert [begin] + [Apply] + [Commit] == [begin, Apply, Commit];
  }

  lemma WholePut(puts: nat, dels: nat, deleted: bool)
    ensures Goes(QuietState(Even(puts, dels, deleted)), Even(puts, dels, deleted), [BeginPut, Apply, Commit],
                 QuietState(Even(puts + 1, dels, false)), Even(puts + 1, dels, false))
  {
    hide Goes, Inv, Put, GetValueBase;
    var s, h := QuietState(Even(puts, dels, deleted)), Even(puts, dels, deleted);
    QuietIsDetermined(s, h);
    WholeWrite(s, h, BeginPut);
    var s2, h2 := Step(Step(s, BeginPut), Apply), HistoryStep(Step(s, BeginPut), h, Apply);
    QuietIsDetermined(Step(s2, Commit), HistoryStep(s2, h2, Commit));
  }

  lemma WholeDelete(puts: nat, dels: nat)
    ensures Goes(QuietState(Even(puts, dels, false)), Even(puts, dels, false), [BeginDelete, Apply, Commit],
                 QuietState(Even(puts, dels + 1, true)), Even(puts, dels + 1, true))
  {
    hide Goes, Inv, Delete, IsDeleted;
    var s, h := QuietState(Even(puts, dels, false)), Even(puts, dels, false);
    QuietIsDetermined(s, h);
    WholeWrite(s, h, BeginDelete);
    var s2, h2 := Step(Step(s, BeginDelete), Apply), HistoryStep(Step(s, BeginDelete), h, Apply);
    QuietIsDetermined(Step(s2, Commit), HistoryStep(s2, h2, Commit));
  }

  lemma {:induction false} ManyPuts(puts: nat, dels: nat, deleted: bool, n: nat) returns (es: seq<Event>)
    requires n > 0
    ensures Goes(QuietState(Even(puts, dels, deleted)), Even(puts, dels, deleted), es,
                 QuietState(Even(puts + n, dels, false)), Even(puts + n, dels, false))
    decreases n
  {
    hide Goes, QuietState;
    WholePut(puts, dels, deleted);
    es := [BeginPut, Apply, Commit];
    if n > 1 {
      var more := ManyPuts(puts + 1, dels, false, n - 1);
      GoesJoin(QuietState(Even(puts, dels, deleted)), Even(puts, dels, deleted), es,
               QuietState(Even(puts + 1, dels, false)), Even(puts + 1, dels, false), more,
               QuietState(Even(puts + n, dels, false)), Even(puts + n, dels, false));
      es := es + more;
    }
  }

  /** After exactly 2^15 puts the oracle insists that a key which is there must be absent. */
  lemma PutWindowIsExact(puts: nat, dels: nat) returns (es: seq<Event>)
    ensures var h, h' := Even(puts, dels, true), Even(puts + BASES, dels, false);
            && Goes(QuietState(h), h, es, QuietState(h'), h')
            && !Accepts(QuietState(h').db, QuietState(h).cell, QuietState(h').cell)
  {
    hide Goes, QuietState, IsDeleted, GetValueBase, GetFinalValueBase, InExpectedValueBaseRange;
    es := ManyPuts(puts, dels, true, BASES);
    QuietSnapshot(puts, dels, true);
    QuietSnapshot(puts + BASES, dels, false);
  }

  lemma QuietSnapshot(puts: nat, dels: nat, deleted: bool)
    ensures var s := QuietState(Even(puts, dels, deleted));
            && GetValueBase(s.cell) == GetFinalValueBase(s.cell) == puts % BASES
            && GetDelCounter(s.cell) == GetFinalDelCounter(s.cell) == dels % DELS * DEL_COUNTER_DELTA
            && IsDeleted(s.cell) == deleted && (s.db == None <==> deleted)
  {
    hide Inv, IsDeleted, GetValueBase, GetFinalValueBase, GetDelCounter, GetFinalDelCounter, Pack;
    var h := Even(puts, dels, deleted);
    QuietIsDetermined(QuietState(h), h);
    SnapshotCounts(QuietState(h), h);
  }

  /** `n` rounds of delete and put. */
  lemma {:induction false} ManyRounds(puts: nat, dels: nat, n: nat) returns (es: seq<Event>)
    requires n > 0
    ensures |es| > 2 && es[..2] == [BeginDelete, Apply]
    ensures Goes(QuietState(Even(puts, dels, false)), Even(puts, dels, false), es,
                 QuietState(Even(puts + n, dels + n, false)), Even(puts + n, dels + n, false))
    decreases n
  {
    hide Goes, QuietState;
    WholeDelete(puts, dels);
    WholePut(puts, dels + 1, true);
    var round := [BeginDelete, Apply, Commit] + [BeginPut, Apply, Commit];
    GoesJoin(QuietState(Even(puts, dels, false)), Even(puts, dels, false), [BeginDelete, Apply, Commit],
             QuietState(Even(puts, dels + 1, true)), Even(puts, dels + 1, true), [BeginPut, Apply, Commit],
             QuietState(Even(puts + 1, dels + 1, false)), Even(puts + 1, dels + 1, false));
    es := round;
    if n > 1 {
      var more := ManyRounds(puts + 1, dels + 1, n - 1);
      GoesJoin(QuietState(Even(puts, dels, false)), Even(puts, dels, false), round,
               QuietState(Even(puts + 1, dels + 1, false)), Even(puts + 1, dels + 1, false), more,
               QuietState(Even(puts + n, dels + n, false)), Even(puts + n, dels + n, false));
      es := round + more;
    }
  }

  /** After exactly 2^14 deletes the oracle insists that a key which the read missed must be there. */
  lemma DelWindowIsExact(puts: nat, dels: nat) returns (es: seq<Event>)
    ensures var h, h' := Even(puts, dels, false), Even(puts + DELS, dels + DELS, false);
            && Goes(QuietState(h), h, es, QuietState(h'), h')
            && |es| > 2 && Legal(QuietState(h), es[..2])
            && !Accepts(Run(QuietState(h), es[..2]).db, QuietState(h).cell, QuietState(h').cell)
  {
    hide Goes, Legal, Run, QuietState, IsDeleted, GetDelCounter, GetFinalDelCounter;
    es := ManyRounds(puts, dels, DELS);
    MissedByDelete(Even(puts, dels, false));
    QuietSnapshot(puts, dels, false);
    QuietSnapshot(puts + DELS, dels + DELS, false);
  }

  lemma MissedByDelete(h: History)
    ensures Legal(QuietState(h), [BeginDelete, Apply]) && Run(QuietState(h), [BeginDelete, Apply]).db == None
  {
    var s := QuietState(h);
    var s1 := Step(s, BeginDelete);
    assert [BeginDelete, Apply][1..] == [Apply] && [Apply][1..] == [];
    assert Legal(s1, [Apply]) && Run(s1, [Apply]) == Step(s1, Apply);
  }
}
