/**
 Crash recovery of the db_stress verification table (db_stress/db_stress_shared_state.cpp,
 db_stress/non_batched_ops_stress.cpp, db_stress/db_stress_test_base.cpp): the table saved at start-up, the trace
 of batches written since, and the merge with what the database holds after the crash.

 The database is a map from keys to value bases on which a batch takes effect at once or not at all.
 */
module Recovery {
  import opened Bytes
  import opened ExpectedValue
  import opened Oracle
  import opened Options
  import opened Sequences

  type Db = map<nat, nat>

  function Lookup(db: Db, k: nat): Option<nat> { if k in db then Some(db[k]) else None }

  // ---- cells

  /** No operation pending. */
  predicate Clean(cell: nat) {
    cell < TWO32 && !Unpack(cell).pendingWrite && !Unpack(cell).pendingDel
  }

  /** Same value base and deleted flag; the delete counters may differ. */
  predicate Same(a: nat, b: nat) {
    && Clean(a) && Clean(b)
    && Unpack(a).base == Unpack(b).base && Unpack(a).deleted == Unpack(b).deleted
  }

  /** What Commit stores for a put or delete prepared on this cell. */
  function Committed(put: bool, cell: nat): nat {
    if put then PreparePut(cell).1 else PrepareDelete(cell).1
  }

  /** What Replay stores for it: a delete is counted whether the key was there or not. */
  function Replayed(put: bool, cell: nat): nat {
    if put then Put(cell, false) else Delete(cell, false)
  }

  lemma CommittedFields(put: bool, cell: nat)
    requires Clean(cell)
    ensures Clean(Committed(put, cell))
    ensures var f, g := Unpack(cell), Unpack(Committed(put, cell));
            if put then g.base == NextBase(f.base) && !g.deleted else g.base == f.base && g.deleted
  {
    hide Pack, Put, Delete, IsDeleted, Unpack;
    var f := Unpack(cell);
    PackUnpack(cell);
    Getters(f);
    PutFields(f);
    PutFields(f.(pendingWrite := true));
    UnpackPack(f.(base := NextBase(f.base), deleted := false, pendingWrite := false));
    DeleteFields(f);
    DeleteFields(f.(pendingDel := true));
    UnpackPack(f.(dels := NextDel(f.dels), deleted := true, pendingDel := false));
  }

  lemma ReplayedFields(put: bool, cell: nat)
    requires Clean(cell)
    ensures Clean(Replayed(put, cell))
    ensures var f, g := Unpack(cell), Unpack(Replayed(put, cell));
            if put then g.base == NextBase(f.base) && !g.deleted else g.base == f.base && g.deleted
  {
    hide Pack, Put, Delete, Unpack;
    var f := Unpack(cell);
    PackUnpack(cell);
    PutFields(f);
    UnpackPack(f.(base := NextBase(f.base), deleted := false, pendingWrite := false));
    DeleteFields(f);
    UnpackPack(f.(dels := NextDel(f.dels), deleted := true, pendingDel := false));
  }

  /** Replaying an operation keeps up with committing it. */
  lemma ReplayTracksCommit(put: bool, replayed: nat, live: nat)
    requires Same(replayed, live)
    ensures Same(Replayed(put, replayed), Committed(put, live))
  {
    hide Committed, Replayed, Unpack;
    CommittedFields(put, live);
    ReplayedFields(put, replayed);
  }

  /** The same operation on one cell, any number of times. */
  function ReplayedTimes(put: bool, cell: nat, n: nat): nat
    decreases n
  {
    if n == 0 then cell else ReplayedTimes(put, Replayed(put, cell), n - 1)
  }

  function CommittedTimes(put: bool, cell: nat, n: nat): nat
    decreases n
  {
    if n == 0 then cell else CommittedTimes(put, Committed(put, cell), n - 1)
  }

  lemma {:induction false} ReplayTracksTimes(put: bool, replayed: nat, live: nat, n: nat)
    requires Same(replayed, live)
    ensures Same(ReplayedTimes(put, replayed, n), CommittedTimes(put, live, n))
    decreases n
  {
    hide Committed, Replayed, Same;
    if n > 0 {
      ReplayTracksCommit(put, replayed, live);
      ReplayTracksTimes(put, Replayed(put, replayed), Committed(put, live), n - 1);
    }
  }

  /** So many upserts, then so many deletes. */
  function After(cell: nat, upserts: nat, deletes: nat): nat {
    CommittedTimes(false, CommittedTimes(true, cell, upserts), deletes)
  }

  // ---- batches

  /** One entry of TestMixedOps. */
  datatype Write = Write(key: nat, put: bool)

  predicate DistinctKeys(batch: seq<Write>) {
    forall i, j :: 0 <= i < j < |batch| ==> batch[i].key != batch[j].key
  }

  predicate InTable(batch: seq<Write>, n: nat) {
    forall i :: 0 <= i < |batch| ==> batch[i].key < n
  }

  /** The keys of the upserts, or of the deletes, in batch order. */
  function KeysOf(batch: seq<Write>, put: bool): seq<nat> {
    if batch == [] then []
    else (if batch[0].put == put then [batch[0].key] else []) + KeysOf(batch[1..], put)
  }

  lemma {:induction false} KeysOfMembers(batch: seq<Write>, put: bool, k: nat)
    ensures k in KeysOf(batch, put) <==> exists i :: 0 <= i < |batch| && batch[i] == Write(k, put)
  {
    if batch != [] {
      KeysOfMembers(batch[1..], put, k);
      if exists i :: 0 <= i < |batch| && batch[i] == Write(k, put) {
        var i :| 0 <= i < |batch| && batch[i] == Write(k, put);
        if i > 0 {
          assert batch[1..][i - 1] == Write(k, put);
        }
      }
      if k in KeysOf(batch[1..], put) {
        var i :| 0 <= i < |batch[1..]| && batch[1..][i] == Write(k, put);
        assert batch[i + 1] == Write(k, put);
      }
    }
  }

  lemma {:induction false} KeysOfDistinct(batch: seq<Write>, put: bool)
    requires DistinctKeys(batch)
    ensures Distinct(KeysOf(batch, put))
  {
    if batch != [] {
      KeysOfDistinct(batch[1..], put);
      KeysOfMembers(batch[1..], put, batch[0].key);
    }
  }

  function Count(keys: seq<nat>, k: nat): nat {
    multiset(keys)[k]
  }

  lemma {:induction false} DistinctCount(keys: seq<nat>, k: nat)
    requires Distinct(keys)
    ensures Count(keys, k) == if k in keys then 1 else 0
  {
    if keys != [] {
      assert keys == [keys[0]] + keys[1..];
      DistinctCount(keys[1..], k);
    }
  }

  /** The table after FinishWrite has committed a batch. */
  function CommitBatch(t: seq<nat>, batch: seq<Write>): (t': seq<nat>)
    ensures |t'| == |t|
  {
    seq(|t|, k requires 0 <= k < |t| =>
      if k in KeysOf(batch, true) then Committed(true, t[k])
      else if k in KeysOf(batch, false) then Committed(false, t[k])
      else t[k])
  }

  /** The database after the batch; an upsert stores the base its prepared record will commit. */
  function ApplyBatch(db: Db, t: seq<nat>, batch: seq<Write>): Db {
    map k | 0 <= k < |t| && (k in KeysOf(batch, true) || (k in db && k !in KeysOf(batch, false))) ::
      if k in KeysOf(batch, true) then GetValueBase(Committed(true, t[k])) else db[k]
  }

  // ---- the trace

  datatype Record = Record(put: bool, keys: seq<nat>)

  /** No empty line is written. */
  function Line(put: bool, keys: seq<nat>): seq<Record> {
    if keys == [] then [] else [Record(put, keys)]
  }

  /** TestMixedOps writes the upserts on one line and the deletes on the next. */
  function Lines(batch: seq<Write>): seq<Record> {
    Line(true, KeysOf(batch, true)) + Line(false, KeysOf(batch, false))
  }

  ghost predicate KeysInTable(keys: seq<nat>, n: nat) {
    forall i :: 0 <= i < |keys| ==> keys[i] < n
  }

  ghost function ReplayKeys(t: seq<nat>, put: bool, keys: seq<nat>): (t': seq<nat>)
    requires KeysInTable(keys, |t|)
    ensures |t'| == |t|
    decreases keys
  {
    if keys == [] then t
    else ReplayKeys(t[keys[0] := Replayed(put, t[keys[0]])], put, keys[1..])
  }

  ghost predicate TraceInTable(trace: seq<Record>, n: nat) {
    forall i :: 0 <= i < |trace| ==> KeysInTable(trace[i].keys, n)
  }

  /** FileThreadState::Replay. */
  ghost function Replay(t: seq<nat>, trace: seq<Record>): (t': seq<nat>)
    requires TraceInTable(trace, |t|)
    ensures |t'| == |t|
    decreases trace
  {
    if trace == [] then t else Replay(ReplayKeys(t, trace[0].put, trace[0].keys), trace[1..])
  }

  lemma {:induction false} ReplayKeysAt(t: seq<nat>, put: bool, keys: seq<nat>, k: nat)
    requires KeysInTable(keys, |t|) && k < |t|
    ensures ReplayKeys(t, put, keys)[k] == ReplayedTimes(put, t[k], Count(keys, k))
    decreases keys
  {
    hide Replayed;
    if keys != [] {
      assert keys == [keys[0]] + keys[1..];
      ReplayKeysAt(t[keys[0] := Replayed(put, t[keys[0]])], put, keys[1..], k);
    }
  }

  lemma {:induction false} ReplayJoin(t: seq<nat>, x: seq<Record>, y: seq<Record>)
    requires TraceInTable(x, |t|) && TraceInTable(y, |t|)
    ensures TraceInTable(x + y, |t|) && Replay(t, x + y) == Replay(Replay(t, x), y)
    decreases x
  {
    if x == [] {
      assert x + y == y;
    } else {
      assert (x + y)[0] == x[0] && (x + y)[1..] == x[1..] + y;
      ReplayJoin(ReplayKeys(t, x[0].put, x[0].keys), x[1..], y);
    }
  }

  // ---- between crashes

  /** Table and database tell the same story and nothing is pending. */
  ghost predicate Consistent(t: seq<nat>, db: Db) {
    && (forall k :: k in db ==> k < |t|)
    && forall k :: 0 <= k < |t| ==> ConsistentAt(t[k], Lookup(db, k))
  }

  predicate ConsistentAt(cell: nat, found: Option<nat>) {
    && Clean(cell)
    && (Unpack(cell).deleted <==> found == None)
    && (found != None ==> found.value == Unpack(cell).base)
  }

  ghost predicate SameTable(a: seq<nat>, b: seq<nat>) {
    |a| == |b| && forall k :: 0 <= k < |a| ==> Same(a[k], b[k])
  }

  /** Since start-up with table `t0`: the live table and database agree, and the trace rebuilds the live table. */
  ghost predicate Live(t0: seq<nat>, trace: seq<Record>, t: seq<nat>, db: Db) {
    && TraceInTable(trace, |t0|) && Consistent(t, db) && SameTable(Replay(t0, trace), t)
  }

  lemma KeysOfInTable(batch: seq<Write>, put: bool, n: nat)
    requires InTable(batch, n)
    ensures KeysInTable(KeysOf(batch, put), n)
  {
    forall i | 0 <= i < |KeysOf(batch, put)| ensures KeysOf(batch, put)[i] < n {
      KeysOfMembers(batch, put, KeysOf(batch, put)[i]);
    }
  }

  /** A traced line is replayed key by key. */
  lemma ReplayLineAt(t: seq<nat>, put: bool, keys: seq<nat>, k: nat)
    requires KeysInTable(keys, |t|) && k < |t|
    ensures TraceInTable(Line(put, keys), |t|)
    ensures Replay(t, Line(put, keys))[k] == ReplayedTimes(put, t[k], Count(keys, k))
  {
    hide Replayed;
    if keys != [] {
      var line := [Record(put, keys)];
      assert line[0] == Record(put, keys) && line[1..] == [];
      assert Replay(t, line) == Replay(ReplayKeys(t, put, keys), []);
      ReplayKeysAt(t, put, keys, k);
    }
  }

  lemma UpsertOrDelete(batch: seq<Write>, k: nat)
    requires DistinctKeys(batch) && k in KeysOf(batch, true)
    ensures k !in KeysOf(batch, false)
  {
    KeysOfMembers(batch, true, k);
    KeysOfMembers(batch, false, k);
  }

  /** What replay makes of one key when these upserts and deletes were traced after a live trace. */
  lemma ReplayMoreAt(t0: seq<nat>, trace: seq<Record>, t: seq<nat>, db: Db, upserts: seq<nat>, deletes: seq<nat>,
                     k: nat)
    requires Live(t0, trace, t, db) && KeysInTable(upserts, |t|) && KeysInTable(deletes, |t|) && k < |t|
    ensures var more := Line(true, upserts) + Line(false, deletes);
            && TraceInTable(trace + more, |t0|)
            && Same(Replay(t0, trace + more)[k], After(t[k], Count(upserts, k), Count(deletes, k)))
  {
    hide Same, Committed, Replayed, ReplayedTimes, CommittedTimes, Line;
    var x, y := Line(true, upserts), Line(false, deletes);
    var r0 := Replay(t0, trace);
    ReplayLineAt(r0, true, upserts, k);
    ReplayLineAt(Replay(r0, x), false, deletes, k);
    ReplayJoin(t0, trace, x + y);
    ReplayJoin(r0, x, y);
    assert Same(r0[k], t[k]);
    var u, d := Count(upserts, k), Count(deletes, k);
    ReplayTracksTimes(true, r0[k], t[k], u);
    ReplayTracksTimes(false, ReplayedTimes(true, r0[k], u), CommittedTimes(true, t[k], u), d);
  }

  /** A whole batch, counted key by key. */
  lemma WholeBatchAt(t: seq<nat>, batch: seq<Write>, k: nat)
    requires DistinctKeys(batch) && k < |t|
    ensures CommitBatch(t, batch)[k] == After(t[k], Count(KeysOf(batch, true), k), Count(KeysOf(batch, false), k))
  {
    hide Committed, KeysOf, DistinctKeys;
    KeysOfDistinct(batch, true);
    KeysOfDistinct(batch, false);
    DistinctCount(KeysOf(batch, true), k);
    DistinctCount(KeysOf(batch, false), k);
    if k in KeysOf(batch, true) {
      UpsertOrDelete(batch, k);
    }
    Once(true, t[k]);
    Once(false, t[k]);
  }

  lemma Once(put: bool, cell: nat)
    ensures CommittedTimes(put, cell, 1) == Committed(put, cell) && CommittedTimes(put, cell, 0) == cell
  {
    hide Committed;
  }

  lemma CommittedConsistent(t: seq<nat>, db: Db, batch: seq<Write>, k: nat)
    requires Consistent(t, db) && DistinctKeys(batch) && k < |t|
    ensures ConsistentAt(CommitBatch(t, batch)[k], Lookup(ApplyBatch(db, t, batch), k))
  {
    hide Committed, Unpack, GetValueBase;
    assert ConsistentAt(t[k], Lookup(db, k));
    if k in KeysOf(batch, true) {
      UpsertOrDelete(batch, k);
      CommittedFields(true, t[k]);
      BaseOfClean(Committed(true, t[k]));
    } else if k in KeysOf(batch, false) {
      CommittedFields(false, t[k]);
    }
  }

  lemma BaseOfClean(cell: nat)
    requires cell < TWO32
    ensures GetValueBase(cell) == Unpack(cell).base && IsDeleted(cell) == Unpack(cell).deleted
  {
    hide Pack, Unpack, GetValueBase, IsDeleted;
    PackUnpack(cell);
    Getters(Unpack(cell));
  }

  lemma BatchConsistent(t: seq<nat>, db: Db, batch: seq<Write>)
    requires Consistent(t, db) && DistinctKeys(batch)
    ensures Consistent(CommitBatch(t, batch), ApplyBatch(db, t, batch))
  {
    hide Committed, ConsistentAt, GetValueBase, Clean;
    forall k | 0 <= k < |t| ensures ConsistentAt(CommitBatch(t, batch)[k], Lookup(ApplyBatch(db, t, batch), k)) {
      CommittedConsistent(t, db, batch, k);
    }
  }

  lemma BatchReplayed(t0: seq<nat>, trace: seq<Record>, t: seq<nat>, db: Db, batch: seq<Write>)
    requires Live(t0, trace, t, db) && InTable(batch, |t|) && DistinctKeys(batch)
    ensures TraceInTable(trace + Lines(batch), |t0|)
    ensures SameTable(Replay(t0, trace + Lines(batch)), CommitBatch(t, batch))
  {
    hide Same, Consistent, Replay, After, CommitBatch, InTable, DistinctKeys, KeysOf, TraceInTable, KeysInTable;
    KeysOfInTable(batch, true, |t|);
    KeysOfInTable(batch, false, |t|);
    MoreInTable(trace, KeysOf(batch, true), KeysOf(batch, false), |t0|);
    forall k | 0 <= k < |t| ensures Same(Replay(t0, trace + Lines(batch))[k], CommitBatch(t, batch)[k]) {
      ReplayMoreAt(t0, trace, t, db, KeysOf(batch, true), KeysOf(batch, false), k);
      WholeBatchAt(t, batch, k);
    }
  }

  lemma MoreInTable(trace: seq<Record>, upserts: seq<nat>, deletes: seq<nat>, n: nat)
    requires TraceInTable(trace, n) && KeysInTable(upserts, n) && KeysInTable(deletes, n)
    ensures TraceInTable(trace + (Line(true, upserts) + Line(false, deletes)), n)
  {
  }

  /** A committed batch keeps table, database and trace in step. */
  lemma BatchKeepsLive(t0: seq<nat>, trace: seq<Record>, t: seq<nat>, db: Db, batch: seq<Write>)
    requires Live(t0, trace, t, db) && InTable(batch, |t|) && DistinctKeys(batch)
    ensures Live(t0, trace + Lines(batch), CommitBatch(t, batch), ApplyBatch(db, t, batch))
  {
    hide Consistent, SameTable, Replay, TraceInTable, CommitBatch, ApplyBatch, Lines;
    BatchConsistent(t, db, batch);
    BatchReplayed(t0, trace, t, db, batch);
  }

  // ---- the crash

  /**
   How far the batch in flight had come: its lines are traced before it is handed to the database.  A torn line
   shows its first `whole` keys and perhaps a cut-off number where the next key would be.
   */
  datatype Crash =
    | NothingTraced
    | UpsertsTorn(whole: nat, stray: Option<nat>)
    | UpsertsTraced
    | DeletesTorn(whole: nat, stray: Option<nat>)
    | AllTraced
    | BatchApplied

  /** The decimal digits of `x` are the first digits of `y`, and not all of them. */
  predicate CutOff(x: nat, y: nat) {
    y >= 10 && (x == y / 10 || CutOff(x, y / 10))
  }

  lemma {:induction false} CutOffIsSmaller(x: nat, y: nat)
    requires CutOff(x, y)
    ensures 0 < x < y
  {
    if x != y / 10 {
      CutOffIsSmaller(x, y / 10);
    }
  }

  predicate TornOk(keys: seq<nat>, whole: nat, stray: Option<nat>) {
    whole <= |keys| && (stray.Some? ==> whole < |keys| && CutOff(stray.value, keys[whole]))
  }

  predicate CrashOk(batch: seq<Write>, crash: Crash) {
    match crash
    case UpsertsTorn(whole, stray) => TornOk(KeysOf(batch, true), whole, stray)
    case DeletesTorn(whole, stray) => TornOk(KeysOf(batch, false), whole, stray)
    case _ => true
  }

  function Torn(keys: seq<nat>, whole: nat, stray: Option<nat>): seq<nat>
    requires TornOk(keys, whole, stray)
  {
    keys[..whole] + (if stray.Some? then [stray.value] else [])
  }

  /** The upserts and the deletes that replay will find. */
  function Upserts(batch: seq<Write>, crash: Crash): seq<nat>
    requires CrashOk(batch, crash)
  {
    match crash
    case NothingTraced => []
    case UpsertsTorn(whole, stray) => Torn(KeysOf(batch, true), whole, stray)
    case _ => KeysOf(batch, true)
  }

  function Deletes(batch: seq<Write>, crash: Crash): seq<nat>
    requires CrashOk(batch, crash)
  {
    match crash
    case DeletesTorn(whole, stray) => Torn(KeysOf(batch, false), whole, stray)
    case AllTraced => KeysOf(batch, false)
    case BatchApplied => KeysOf(batch, false)
    case _ => []
  }

  function CrashTrace(trace: seq<Record>, batch: seq<Write>, crash: Crash): seq<Record>
    requires CrashOk(batch, crash)
  {
    trace + (Line(true, Upserts(batch, crash)) + Line(false, Deletes(batch, crash)))
  }

  function CrashDb(db: Db, t: seq<nat>, batch: seq<Write>, crash: Crash): Db {
    if crash.BatchApplied? then ApplyBatch(db, t, batch) else db
  }

  lemma TornInTable(keys: seq<nat>, whole: nat, stray: Option<nat>, n: nat)
    requires TornOk(keys, whole, stray) && KeysInTable(keys, n)
    ensures KeysInTable(Torn(keys, whole, stray), n)
  {
    if stray.Some? {
      CutOffIsSmaller(stray.value, keys[whole]);
    }
  }

  lemma CrashKeysInTable(batch: seq<Write>, crash: Crash, n: nat)
    requires CrashOk(batch, crash) && InTable(batch, n)
    ensures KeysInTable(Upserts(batch, crash), n) && KeysInTable(Deletes(batch, crash), n)
  {
    hide KeysInTable, TornOk, KeysOf, InTable;
    assert KeysInTable([], n) by { NoKeysInTable(n); }
    KeysOfInTable(batch, true, n);
    KeysOfInTable(batch, false, n);
    match crash
    case UpsertsTorn(whole, stray) => TornInTable(KeysOf(batch, true), whole, stray, n);
    case DeletesTorn(whole, stray) => TornInTable(KeysOf(batch, false), whole, stray, n);
    case _ =>
  }

  lemma NoKeysInTable(n: nat)
    ensures KeysInTable([], n)
  {
  }

  /** No upsert is replayed more than twice. */
  lemma AtMostTwice(batch: seq<Write>, crash: Crash, k: nat)
    requires CrashOk(batch, crash) && DistinctKeys(batch)
    ensures Count(Upserts(batch, crash), k) <= 2
  {
    hide KeysOf, DistinctKeys, CutOff;
    var keys := KeysOf(batch, true);
    KeysOfDistinct(batch, true);
    DistinctCount(keys, k);
    if crash.UpsertsTorn? {
      PrefixCount(keys, crash.whole, k);
    }
  }

  lemma PrefixCount(keys: seq<nat>, n: nat, k: nat)
    requires Distinct(keys) && n <= |keys|
    ensures Count(keys[..n], k) <= 1
  {
    DistinctCount(keys[..n], k);
  }

  // ---- VerifyAndSyncValues

  /** The CHECKs on one key; `GetValueBase() - 1` is unsigned, so base 0 has no predecessor. */
  predicate CheckPasses(cell: nat, found: Option<nat>) {
    match found
    case None => true
    case Some(base) =>
      base == GetValueBase(cell) || (!IsDeleted(cell) && GetValueBase(cell) > 0 && base == GetValueBase(cell) - 1)
  }

  /** The record the merge leaves for one key. */
  function Synced(cell: nat, found: Option<nat>): nat {
    if IsDeleted(cell) then if found == None then cell else ClearPart(cell, DEL_MASK)
    else if found == None then SetPart(cell, DEL_MASK, DEL_MASK)
    else SetPart(cell, VALUE_BASE_MASK, found.value)
  }

  lemma SyncedConsistent(cell: nat, found: Option<nat>)
    requires Clean(cell) && CheckPasses(cell, found)
    ensures ConsistentAt(Synced(cell, found), found)
  {
    hide Pack, Unpack, SetPart, ClearPart, GetValueBase, IsDeleted;
    var f := Unpack(cell);
    PackUnpack(cell);
    BaseOfClean(cell);
    if found == None {
      SetFlag(f, DEL_MASK, f.(deleted := true));
      UnpackPack(f.(deleted := true));
    } else {
      ClearFlag(f, DEL_MASK, f.(deleted := false));
      UnpackPack(f.(deleted := false));
      SetBase(f, found.value);
      UnpackPack(f.(base := found.value));
    }
  }

  /** Cells that agree in base and flag pass and sync alike. */
  lemma SameChecks(a: nat, b: nat, found: Option<nat>)
    requires Same(a, b)
    ensures CheckPasses(a, found) <==> CheckPasses(b, found)
  {
    hide Unpack, GetValueBase, IsDeleted;
    BaseOfClean(a);
    BaseOfClean(b);
  }

  /**
   Upserts and deletes that were replayed and lost are forgiven if at most one upsert, neither wrapped nor deleted.
   */
  predicate Forgiven(base: nat, upserts: nat, deleted: bool) {
    upserts == 0 || (upserts == 1 && !deleted && base != BASES - 1)
  }

  /** Everything the crash lost is forgiven. */
  ghost predicate NoneMissed(db: Db, batch: seq<Write>, crash: Crash)
    requires CrashOk(batch, crash)
  {
    crash.BatchApplied? || forall k :: k in db ==> ForgivenAt(db[k], batch, crash, k)
  }

  ghost predicate ForgivenAt(base: nat, batch: seq<Write>, crash: Crash, k: nat)
    requires CrashOk(batch, crash)
  {
    Forgiven(base, Count(Upserts(batch, crash), k), k in Deletes(batch, crash))
  }

  lemma {:induction false} TimesFields(put: bool, cell: nat, n: nat)
    requires Clean(cell)
    ensures Clean(CommittedTimes(put, cell, n))
    ensures var f, g := Unpack(cell), Unpack(CommittedTimes(put, cell, n));
      && g.base == (if put && n > 0 then Unpack(CommittedTimes(put, Committed(put, cell), n - 1)).base else f.base)
      && g.deleted == (if n == 0 then f.deleted else !put)
    decreases n
  {
    hide Committed, Unpack, Clean;
    if n > 0 {
      CommittedFields(put, cell);
      TimesFields(put, Committed(put, cell), n - 1);
    }
  }

  /** The base after one or two upserts. */
  lemma UpsertBases(cell: nat, n: nat)
    requires Clean(cell) && n <= 2
    ensures Clean(CommittedTimes(true, cell, n))
    ensures var b := Unpack(cell).base;
            Unpack(CommittedTimes(true, cell, n)).base
              == (if n == 0 then b else if n == 1 then NextBase(b) else NextBase(NextBase(b)))
  {
    hide Committed, Unpack, Clean, CommittedTimes, NextBase;
    var once := Committed(true, cell);
    CommittedFields(true, cell);
    CommittedFields(true, once);
    Once(true, cell);
    Once(true, once);
    TimesFields(true, cell, n);
  }

  /** Lost operations: the record counts them, the database does not have them. */
  lemma LostOperations(cell: nat, found: Option<nat>, upserts: nat, deletes: nat)
    requires ConsistentAt(cell, found) && upserts <= 2
    ensures Clean(After(cell, upserts, deletes))
    ensures CheckPasses(After(cell, upserts, deletes), found) <==>
      found == None || Forgiven(found.value, upserts, deletes > 0)
  {
    hide Unpack, GetValueBase, IsDeleted, CommittedTimes;
    var mid := CommittedTimes(true, cell, upserts);
    TimesFields(true, cell, upserts);
    UpsertBases(cell, upserts);
    TimesFields(false, mid, deletes);
    BaseOfClean(After(cell, upserts, deletes));
    BaseRange(cell);
  }

  lemma BaseRange(cell: Word32)
    ensures Unpack(cell).base < BASES
  {
  }

  lemma ConsistentPasses(cell: nat, found: Option<nat>)
    requires ConsistentAt(cell, found)
    ensures CheckPasses(cell, found)
  {
    hide Unpack, GetValueBase, IsDeleted;
    BaseOfClean(cell);
  }

  /** Nothing is pending, and the CHECK passes exactly when it should. */
  ghost predicate JudgedAt(cell: nat, found: Option<nat>, batch: seq<Write>, crash: Crash, k: nat)
    requires CrashOk(batch, crash)
  {
    && Clean(cell)
    && (CheckPasses(cell, found) <==> crash.BatchApplied? || found == None || ForgivenAt(found.value, batch, crash, k))
  }

  lemma CrashedKey(t0: seq<nat>, trace: seq<Record>, t: seq<nat>, db: Db, batch: seq<Write>, crash: Crash, k: nat)
    requires Live(t0, trace, t, db) && InTable(batch, |t|) && DistinctKeys(batch) && CrashOk(batch, crash) && k < |t|
    ensures TraceInTable(CrashTrace(trace, batch, crash), |t0|)
    ensures var r := Replay(t0, CrashTrace(trace, batch, crash));
            var found := Lookup(CrashDb(db, t, batch, crash), k);
            JudgedAt(r[k], found, batch, crash, k)
  {
    hide Unpack, CheckPasses, Same, ConsistentAt, ApplyBatch, CommitBatch, After, CrashOk, InTable, DistinctKeys,
         KeysInTable, Forgiven, KeysOf, Replay, TraceInTable;
    CrashKeysInTable(batch, crash, |t|);
    var ups, dels := Upserts(batch, crash), Deletes(batch, crash);
    ReplayMoreAt(t0, trace, t, db, ups, dels, k);
    var r, found := Replay(t0, CrashTrace(trace, batch, crash)), Lookup(CrashDb(db, t, batch, crash), k);
    var now := After(t[k], Count(ups, k), Count(dels, k));
    assert ConsistentAt(t[k], Lookup(db, k));
    SameChecks(r[k], now, found);
    SameIsClean(r[k], now);
    if crash.BatchApplied? {
      WholeBatchAt(t, batch, k);
      CommittedConsistent(t, db, batch, k);
      ConsistentPasses(now, found);
    } else {
      AtMostTwice(batch, crash, k);
      LostOperations(t[k], found, Count(ups, k), Count(dels, k));
    }
  }

  lemma SameIsClean(a: nat, b: nat)
    requires Same(a, b)
    ensures Clean(a)
  {
  }

  ghost predicate ChecksPass(r: seq<nat>, db: Db) {
    forall k :: 0 <= k < |r| ==> CheckPasses(r[k], Lookup(db, k))
  }

  function SyncTable(r: seq<nat>, db: Db): (t: seq<nat>)
    ensures |t| == |r|
  {
    seq(|r|, k requires 0 <= k < |r| => Synced(r[k], Lookup(db, k)))
  }

  lemma SyncAll(r: seq<nat>, db: Db)
    requires ChecksPass(r, db) && forall k :: k in db ==> k < |r|
    requires forall k :: 0 <= k < |r| ==> Clean(r[k])
    ensures Consistent(SyncTable(r, db), db)
  {
    hide CheckPasses, Synced, ConsistentAt, Clean;
    forall k | 0 <= k < |r| ensures ConsistentAt(SyncTable(r, db)[k], Lookup(db, k)) {
      SyncedConsistent(r[k], Lookup(db, k));
    }
  }

  /** The replayed table `r` meets the database `d`. */
  ghost predicate Judged(r: seq<nat>, d: Db, batch: seq<Write>, crash: Crash)
    requires CrashOk(batch, crash)
  {
    && (forall k :: k in d ==> k < |r|)
    && forall k :: 0 <= k < |r| ==> JudgedAt(r[k], Lookup(d, k), batch, crash, k)
  }

  lemma CheckAll(r: seq<nat>, d: Db, db: Db, batch: seq<Write>, crash: Crash)
    requires CrashOk(batch, crash) && Judged(r, d, batch, crash) && (crash.BatchApplied? || d == db)
    ensures ChecksPass(r, d) <==> NoneMissed(db, batch, crash)
    ensures ChecksPass(r, d) ==> Consistent(SyncTable(r, d), d)
  {
    hide CheckPasses, ForgivenAt, Clean, CrashOk;
    if ChecksPass(r, d) {
      SyncAll(r, d);
    }
    if ChecksPass(r, d) && !crash.BatchApplied? {
      forall k | k in db ensures ForgivenAt(db[k], batch, crash, k) {
        assert CheckPasses(r[k], Lookup(d, k));
      }
    }
  }

  /**
   Recovery after any run of batches and any crash point: the CHECKs pass exactly when everything lost is
   forgiven, and then the merged table is consistent with the database the crash left behind.
   */
  lemma RecoveryTheorem(t0: seq<nat>, trace: seq<Record>, t: seq<nat>, db: Db, batch: seq<Write>, crash: Crash)
    requires Live(t0, trace, t, db) && InTable(batch, |t|) && DistinctKeys(batch) && CrashOk(batch, crash)
    ensures TraceInTable(CrashTrace(trace, batch, crash), |t0|)
    ensures var r, d := Replay(t0, CrashTrace(trace, batch, crash)), CrashDb(db, t, batch, crash);
            && (ChecksPass(r, d) <==> NoneMissed(db, batch, crash))
            && (ChecksPass(r, d) ==> Consistent(SyncTable(r, d), d))
  {
    hide CrashTrace, Replay, ChecksPass, NoneMissed, SyncTable, Consistent, Judged, CrashOk, TraceInTable, Live;
    LiveParts(t0, trace, t, db);
    CrashTraceInTable(trace, batch, crash, |t0|);
    CrashedTable(t0, trace, t, db, batch, crash);
    CheckAll(Replay(t0, CrashTrace(trace, batch, crash)), CrashDb(db, t, batch, crash), db, batch, crash);
  }

  lemma CrashedTable(t0: seq<nat>, trace: seq<Record>, t: seq<nat>, db: Db, batch: seq<Write>, crash: Crash)
    requires Live(t0, trace, t, db) && InTable(batch, |t|) && DistinctKeys(batch) && CrashOk(batch, crash)
    requires TraceInTable(CrashTrace(trace, batch, crash), |t0|)
    ensures Judged(Replay(t0, CrashTrace(trace, batch, crash)), CrashDb(db, t, batch, crash), batch, crash)
  {
    hide CrashTrace, CrashDb, Replay, JudgedAt, DistinctKeys, InTable, CrashOk, TraceInTable, Live, Lookup, Consistent;
    LiveParts(t0, trace, t, db);
    forall k | 0 <= k < |t0|
      ensures JudgedAt(Replay(t0, CrashTrace(trace, batch, crash))[k], Lookup(CrashDb(db, t, batch, crash), k),
                       batch, crash, k)
    {
      CrashedKey(t0, trace, t, db, batch, crash, k);
    }
    CrashDbKeys(db, t, batch, crash);
  }

  lemma LiveParts(t0: seq<nat>, trace: seq<Record>, t: seq<nat>, db: Db)
    requires Live(t0, trace, t, db)
    ensures TraceInTable(trace, |t0|) && |t| == |t0| && forall k :: k in db ==> k < |t|
  {
    hide ConsistentAt, Same;
  }

  lemma CrashTraceInTable(trace: seq<Record>, batch: seq<Write>, crash: Crash, n: nat)
    requires TraceInTable(trace, n) && InTable(batch, n) && CrashOk(batch, crash)
    ensures TraceInTable(CrashTrace(trace, batch, crash), n)
  {
    hide TraceInTable, InTable, CrashOk, KeysInTable, Upserts, Deletes, Line;
    CrashKeysInTable(batch, crash, n);
    MoreInTable(trace, Upserts(batch, crash), Deletes(batch, crash), n);
  }

  /** Without a torn line only a lost upsert whose value base wrapped from 2^15 - 1 to 0 defeats the merge. */
  lemma WholeLines(db: Db, batch: seq<Write>, crash: Crash)
    requires DistinctKeys(batch) && !crash.UpsertsTorn? && !crash.DeletesTorn?
    ensures NoneMissed(db, batch, crash) <==>
      || crash.NothingTraced? || crash.BatchApplied?
      || forall k :: k in KeysOf(batch, true) && k in db ==> db[k] != BASES - 1
  {
    hide KeysOf, DistinctKeys;
    KeysOfDistinct(batch, true);
    forall k
      ensures Count(KeysOf(batch, true), k) == if k in KeysOf(batch, true) then 1 else 0
      ensures k in KeysOf(batch, true) ==> k !in KeysOf(batch, false)
    {
      DistinctCount(KeysOf(batch, true), k);
      if k in KeysOf(batch, true) {
        UpsertOrDelete(batch, k);
      }
    }
  }

  /** A line torn after the first digit of 12 replays key 1 twice, and the start-up aborts. */
  lemma TornExample()
    ensures var batch, crash := [Write(1, true), Write(12, true)], UpsertsTorn(1, Some(1));
      && CrashOk(batch, crash) && DistinctKeys(batch)
      && Upserts(batch, crash) == [1, 1] && (forall db: Db :: 1 in db ==> !NoneMissed(db, batch, crash))
  {
    var batch, crash := [Write(1, true), Write(12, true)], UpsertsTorn(1, Some(1));
    assert batch[1..] == [Write(12, true)] && batch[1..][1..] == [];
    assert KeysOf(batch, true) == [1, 12];
    assert Count(Upserts(batch, crash), 1) == 2;
    assert forall base :: !ForgivenAt(base, batch, crash, 1);
  }

  lemma CrashDbKeys(db: Db, t: seq<nat>, batch: seq<Write>, crash: Crash)
    requires forall k :: k in db ==> k < |t|
    ensures forall k :: k in CrashDb(db, t, batch, crash) ==> k < |t|
  {
  }

  // ---- any number of runs, each ended by a crash

  /** The batches that were finished, the one in flight and how far it had come. */
  datatype Epoch = Epoch(batches: seq<seq<Write>>, last: seq<Write>, crash: Crash)

  ghost predicate BatchesOk(batches: seq<seq<Write>>, n: nat) {
    forall i :: 0 <= i < |batches| ==> InTable(batches[i], n) && DistinctKeys(batches[i])
  }

  ghost predicate EpochOk(e: Epoch, n: nat) {
    BatchesOk(e.batches, n) && InTable(e.last, n) && DistinctKeys(e.last) && CrashOk(e.last, e.crash)
  }

  /** Table, database and trace of one run. */
  datatype World = World(t: seq<nat>, db: Db, trace: seq<Record>)

  function AfterBatches(w: World, batches: seq<seq<Write>>): World
    decreases batches
  {
    if batches == [] then w
    else AfterBatches(World(CommitBatch(w.t, batches[0]), ApplyBatch(w.db, w.t, batches[0]),
                            w.trace + Lines(batches[0])), batches[1..])
  }

  lemma {:induction false} BatchesKeepLive(t0: seq<nat>, w: World, batches: seq<seq<Write>>)
    requires Live(t0, w.trace, w.t, w.db) && BatchesOk(batches, |w.t|)
    ensures var w' := AfterBatches(w, batches); |w'.t| == |w.t| && Live(t0, w'.trace, w'.t, w'.db)
    decreases batches
  {
    hide Live, Lines, CommitBatch, ApplyBatch, InTable, DistinctKeys;
    if batches != [] {
      var b := batches[0];
      var w1 := World(CommitBatch(w.t, b), ApplyBatch(w.db, w.t, b), w.trace + Lines(b));
      BatchKeepsLive(t0, w.trace, w.t, w.db, b);
      BatchesKeepLive(t0, w1, batches[1..]);
      assert AfterBatches(w, batches) == AfterBatches(w1, batches[1..]);
    }
  }

  /** The database the crash leaves, and the replayed table that meets it at the next start-up. */
  function CrashedDb(t: seq<nat>, db: Db, e: Epoch): Db {
    var w := AfterBatches(World(t, db, []), e.batches);
    CrashDb(w.db, w.t, e.last, e.crash)
  }

  /** The trace file the crash leaves. */
  function LeftTrace(t: seq<nat>, db: Db, e: Epoch): seq<Record>
    requires CrashOk(e.last, e.crash)
  {
    CrashTrace(AfterBatches(World(t, db, []), e.batches).trace, e.last, e.crash)
  }

  ghost predicate ReplayDefined(t: seq<nat>, db: Db, e: Epoch) {
    CrashOk(e.last, e.crash) && TraceInTable(LeftTrace(t, db, e), |t|)
  }

  ghost function ReplayedTable(t: seq<nat>, db: Db, e: Epoch): (r: seq<nat>)
    requires ReplayDefined(t, db, e)
    ensures |r| == |t|
  {
    Replay(t, LeftTrace(t, db, e))
  }

  /** The table the next start-up leaves. */
  ghost function NextTable(t: seq<nat>, db: Db, e: Epoch): seq<nat> {
    if ReplayDefined(t, db, e) then SyncTable(ReplayedTable(t, db, e), CrashedDb(t, db, e)) else t
  }

  ghost predicate Recoverable(t: seq<nat>, db: Db, e: Epoch) {
    CrashOk(e.last, e.crash) && NoneMissed(AfterBatches(World(t, db, []), e.batches).db, e.last, e.crash)
  }

  lemma EpochTheorem(t: seq<nat>, db: Db, e: Epoch)
    requires Consistent(t, db) && EpochOk(e, |t|)
    ensures ReplayDefined(t, db, e)
    ensures ChecksPass(ReplayedTable(t, db, e), CrashedDb(t, db, e)) <==> Recoverable(t, db, e)
    ensures Recoverable(t, db, e) ==>
            Consistent(SyncTable(ReplayedTable(t, db, e), CrashedDb(t, db, e)), CrashedDb(t, db, e))
  {
    hide AfterBatches, NoneMissed, CrashOk, SyncTable, ChecksPass, CrashDb, CrashTrace, ConsistentAt, Same;
    StartIsLive(t, db);
    BatchesKeepLive(t, World(t, db, []), e.batches);
    var w := AfterBatches(World(t, db, []), e.batches);
    RecoveryTheorem(t, w.trace, w.t, w.db, e.last, e.crash);
  }

  lemma StartIsLive(t: seq<nat>, db: Db)
    requires Consistent(t, db)
    ensures Live(t, [], t, db)
  {
    hide Unpack;
    forall k | 0 <= k < |t| ensures Same(t[k], t[k]) {
      assert ConsistentAt(t[k], Lookup(db, k));
    }
  }

  /** Every start-up after a crash passes its CHECKs, for as long as everything lost is forgiven. */
  ghost predicate StartsUp(t: seq<nat>, db: Db, epochs: seq<Epoch>)
    decreases epochs
  {
    epochs == [] ||
    (&& ReplayDefined(t, db, epochs[0])
     && (Recoverable(t, db, epochs[0]) ==>
           var r, d := ReplayedTable(t, db, epochs[0]), CrashedDb(t, db, epochs[0]);
           ChecksPass(r, d) && Consistent(SyncTable(r, d), d) && StartsUp(SyncTable(r, d), d, epochs[1..])))
  }

  lemma {:induction false} EveryRestart(t: seq<nat>, db: Db, epochs: seq<Epoch>)
    requires Consistent(t, db) && forall i :: 0 <= i < |epochs| ==> EpochOk(epochs[i], |t|)
    ensures StartsUp(t, db, epochs)
    decreases epochs
  {
    hide Recoverable, InTable, DistinctKeys, CrashOk, Consistent, ReplayDefined, ReplayedTable, CrashedDb, ChecksPass,
         SyncTable;
    if epochs != [] {
      EpochTheorem(t, db, epochs[0]);
      if Recoverable(t, db, epochs[0]) {
        EveryRestart(SyncTable(ReplayedTable(t, db, epochs[0]), CrashedDb(t, db, epochs[0])),
                     CrashedDb(t, db, epochs[0]), epochs[1..]);
      }
    }
  }

  /** ResetValues on an empty database is where the first run begins. */
  lemma ResetIsConsistent(n: nat)
    ensures Consistent(seq(n, _ => DEL_MASK), map[])
  {
    assert Unpack(DEL_MASK) == Fields(0, false, 0, false, true);
  }

  /** The condition is not idle: base 2^15 - 1, one upsert traced and lost, and the start-up aborts. */
  lemma WrapLostExample()
    ensures var t, db := [Pack(Fields(BASES - 1, false, 0, false, false))], map[0 := BASES - 1];
            var e := Epoch([], [Write(0, true)], AllTraced);
            && Consistent(t, db) && EpochOk(e, |t|) && ReplayDefined(t, db, e)
            && !ChecksPass(ReplayedTable(t, db, e), CrashedDb(t, db, e))
  {
    hide Pack, Replay, ChecksPass, CheckPasses, ApplyBatch, NoneMissed, SyncTable, TraceInTable;
    var f := Fields(BASES - 1, false, 0, false, false);
    var t, db := [Pack(f)], map[0 := BASES - 1];
    var batch := [Write(0, true)];
    var e := Epoch([], batch, AllTraced);
    UnpackPack(f);
    assert Consistent(t, db);
    assert EpochOk(e, |t|);
    EpochTheorem(t, db, e);
    assert batch[1..] == [] && 0 in KeysOf(batch, true);
    WholeLines(db, batch, AllTraced);
    assert 0 in db && db[0] == BASES - 1;
    assert AfterBatches(World(t, db, []), []) == World(t, db, []);
    assert !Recoverable(t, db, e);
  }
}
