/**
 The verification table itself (db_stress/db_stress_shared_state.cpp and .h): one vector for all partitions,
 written in place by prepare, commit, replay and the start-up merge.
 */
module ThreadState {
  import opened Modular
  import opened ExpectedValue
  import opened Oracle
  import opened Recovery
  import opened Options
  import opened Sequences

  /** PendingExpectedValue: the cell it points at and the two values it may store there. */
  datatype Pending = Pending(index: nat, orig: nat, final: nat)

  /** WriteDataEntry, as far as the oracle reads it back. */
  datatype Entry = Entry(key: nat, put: bool, base: nat)

  lemma {:induction false} KeysOfSnoc(batch: seq<Write>, w: Write, put: bool)
    ensures KeysOf(batch + [w], put) == KeysOf(batch, put) + (if w.put == put then [w.key] else [])
  {
    if batch == [] {
      assert batch + [w] == [w] && [w][1..] == [];
    } else {
      assert (batch + [w])[0] == batch[0] && (batch + [w])[1..] == batch[1..] + [w];
      KeysOfSnoc(batch[1..], w, put);
    }
  }

  /** What Precommit shows while the operation is under way. */
  function Prepared(put: bool, cell: nat): nat {
    if put then PreparePut(cell).0 else PrepareDelete(cell).0
  }

  ghost predicate Ascending(keys: seq<nat>) {
    forall i, j :: 0 <= i < j < |keys| ==> keys[i] <= keys[j]
  }

  function KeyOrder(batch: seq<Write>): (keys: seq<nat>)
    ensures |keys| == |batch|
  {
    seq(|batch|, i requires 0 <= i < |batch| => batch[i].key)
  }

  /** The sort of the keys before a batch is put together. */
  method SortKeys(keys: seq<nat>) returns (sorted: seq<nat>)
    ensures multiset(sorted) == multiset(keys) && Ascending(sorted)
  {
    sorted := [];
    for i := 0 to |keys|
      invariant multiset(sorted) == multiset(keys[..i]) && Ascending(sorted)
    {
      var at := |sorted|;
      while at > 0 && sorted[at - 1] > keys[i]
        invariant 0 <= at <= |sorted| && forall j :: at <= j < |sorted| ==> sorted[j] > keys[i]
      {
        at := at - 1;
      }
      InsertKey(keys, i, sorted, at);
      sorted := sorted[..at] + [keys[i]] + sorted[at..];
    }
    assert keys[..|keys|] == keys;
  }

  lemma InsertKey(keys: seq<nat>, i: nat, sorted: seq<nat>, at: nat)
    requires i < |keys| && at <= |sorted| && multiset(sorted) == multiset(keys[..i]) && Ascending(sorted)
    requires at > 0 ==> sorted[at - 1] <= keys[i]
    requires forall j :: at <= j < |sorted| ==> sorted[j] > keys[i]
    ensures var more := sorted[..at] + [keys[i]] + sorted[at..];
            multiset(more) == multiset(keys[..i + 1]) && Ascending(more)
  {
    hide Ascending;
    InsertOne(sorted, keys[i], at);
    InsertAscending(sorted, keys[i], at);
    assert keys[..i + 1] == keys[..i] + [keys[i]];
  }

  lemma InsertOne(s: seq<nat>, k: nat, at: nat)
    requires at <= |s|
    ensures multiset(s[..at] + [k] + s[at..]) == multiset(s) + multiset{k}
  {
    assert s == s[..at] + s[at..];
  }

  lemma InsertAscending(s: seq<nat>, k: nat, at: nat)
    requires Ascending(s) && at <= |s| && (at > 0 ==> s[at - 1] <= k) && (at < |s| ==> s[at] > k)
    ensures Ascending(s[..at] + [k] + s[at..])
  {
    var more := s[..at] + [k] + s[at..];
    forall i, j | 0 <= i < j < |more|
      ensures more[i] <= more[j]
    {
      if i < at && at > 0 {
        assert s[i] <= s[at - 1];
      }
      if j > at {
        assert s[at] <= s[j - 1];
      }
    }
  }

  /** What sorting gives. */
  ghost function SortedOf(keys: seq<nat>): (r: seq<nat>)
    ensures multiset(r) == multiset(keys) && Ascending(r)
  {
    if keys == [] then [] else
      var n := |keys| - 1;
      var front := SortedOf(keys[..n]);
      var at := Insertion(front, keys[n]);
      assert keys[..n + 1] == keys;
      InsertKey(keys, n, front, at);
      front[..at] + [keys[n]] + front[at..]
  }

  /** Where a key belongs among ascending ones. */
  ghost function Insertion(s: seq<nat>, k: nat): (at: nat)
    requires Ascending(s)
    ensures at <= |s| && (at > 0 ==> s[at - 1] <= k) && forall j :: at <= j < |s| ==> s[j] > k
  {
    if s == [] || s[|s| - 1] <= k then |s| else Insertion(s[..|s| - 1], k)
  }

  /** There is only one ascending order. */
  lemma {:induction false} SortedIsUnique(a: seq<nat>, b: seq<nat>)
    requires Ascending(a) && Ascending(b) && multiset(a) == multiset(b)
    ensures a == b
  {
    if a == [] {
      assert |multiset(b)| == 0;
    } else {
      assert |multiset(a)| == |a| && |multiset(b)| == |b|;
      var m, n := |a| - 1, |b| - 1;
      Greatest(a, b);
      Greatest(b, a);
      WithoutLast(a);
      WithoutLast(b);
      SortedIsUnique(a[..m], b[..n]);
    }
  }

  lemma WithoutLast(a: seq<nat>)
    requires a != []
    ensures var n := |a| - 1; multiset(a[..n]) == multiset(a) - multiset{a[n]} && a == a[..n] + [a[n]]
  {
    var n := |a| - 1;
    assert a == a[..n] + [a[n]];
  }

  lemma Greatest(a: seq<nat>, b: seq<nat>)
    requires a != [] && b != [] && Ascending(b) && multiset(a) == multiset(b)
    ensures a[|a| - 1] <= b[|b| - 1]
  {
    var x := a[|a| - 1];
    assert x in multiset(a);
    assert x in b;
    var i :| 0 <= i < |b| && b[i] == x;
  }

  lemma SortedKeys(keys: seq<nat>, sorted: seq<nat>, n: nat)
    requires Distinct(keys) && KeysInTable(keys, n) && multiset(sorted) == multiset(keys)
    ensures |sorted| == |keys| && Distinct(sorted) && KeysInTable(sorted, n)
  {
    assert |multiset(sorted)| == |sorted| && |multiset(keys)| == |keys|;
    forall i, j | 0 <= i < j < |sorted|
      ensures sorted[i] != sorted[j]
    {
      DistinctCount(keys, sorted[i]);
      CountTwice(sorted, i, j);
    }
    forall i | 0 <= i < |sorted|
      ensures sorted[i] < n
    {
      assert sorted[i] in multiset(sorted);
      assert sorted[i] in keys;
    }
  }

  lemma CountTwice(keys: seq<nat>, i: nat, j: nat)
    requires i < j < |keys|
    ensures keys[i] == keys[j] ==> Count(keys, keys[i]) >= 2
  {
    assert keys == keys[..j] + [keys[j]] + keys[j + 1..];
    assert keys[i] in keys[..j];
  }

  lemma BatchOfKeys(batch: seq<Write>, n: nat)
    requires Distinct(KeyOrder(batch)) && KeysInTable(KeyOrder(batch), n)
    ensures DistinctKeys(batch) && InTable(batch, n)
  {
    forall i, j | 0 <= i < j < |batch|
      ensures batch[i].key != batch[j].key
    {
      assert KeyOrder(batch)[i] != KeyOrder(batch)[j];
    }
    forall i | 0 <= i < |batch|
      ensures batch[i].key < n
    {
      assert KeyOrder(batch)[i] < n;
    }
  }

  class Table {
    const maxKey: nat
    const nPartitions: nat
    const values: array<nat>

    ghost predicate Valid() {
      values.Length == nPartitions * maxKey
    }

    /** Value(partition_id, key) is a reference into the vector. */
    function At(p: nat, key: nat): nat { p * maxKey + key }

    lemma InVector(p: nat)
      requires Valid() && p < nPartitions
      ensures At(p, 0) + maxKey <= values.Length
    {
      Distribute(p, 1, maxKey);
      ProductMonotone(p + 1, maxKey, nPartitions, maxKey);
    }

    /** The cells of one partition. */
    ghost function Slice(p: nat): (s: seq<nat>)
      requires Valid() && p < nPartitions
      reads values
      ensures |s| == maxKey
    {
      InVector(p);
      values[At(p, 0)..At(p, 0) + maxKey]
    }

    /** Partitions do not share cells. */
    lemma Apart(p: nat, q: nat)
      requires Valid() && p < nPartitions && q < nPartitions && p != q
      ensures At(p, 0) + maxKey <= At(q, 0) || At(q, 0) + maxKey <= At(p, 0)
    {
      if p < q {
        Distribute(p, 1, maxKey);
        ProductMonotone(p + 1, maxKey, q, maxKey);
      } else {
        Distribute(q, 1, maxKey);
        ProductMonotone(q + 1, maxKey, p, maxKey);
      }
    }

    constructor (maxKey: nat, nPartitions: nat)
      ensures Valid() && this.maxKey == maxKey && this.nPartitions == nPartitions && fresh(values)
    {
      this.maxKey, this.nPartitions := maxKey, nPartitions;
      values := new nat[nPartitions * maxKey];
    }

    /** ResetValues: every key of every partition absent. */
    method ResetValues()
      requires Valid()
      modifies values
      ensures forall i :: 0 <= i < values.Length ==> values[i] == DEL_MASK
    {
      for i := 0 to values.Length
        invariant forall j :: 0 <= j < i ==> values[j] == DEL_MASK
      {
        values[i] := DEL_MASK;
      }
    }

    /** PreparePut and PrepareDelete: show the pending state, remember the old and the final one. */
    method Prepare(index: nat, put: bool) returns (pending: Pending)
      requires index < values.Length
      modifies values
      ensures pending == Pending(index, old(values[index]), Committed(put, old(values[index])))
      ensures values[..] == old(values[..])[index := Prepared(put, old(values[index]))]
    {
      var orig := values[index];
      if put {
        var cell := Put(orig, true);
        values[index] := cell;
        return Pending(index, orig, Put(cell, false));
      }
      if IsDeleted(orig) {
        assert old(values[..])[index := orig] == old(values[..]);
        return Pending(index, orig, orig);
      }
      var cell := Delete(orig, true);
      values[index] := cell;
      return Pending(index, orig, Delete(cell, false));
    }

    /** TestMixedOps up to the hand-over to the store; `base` is where the partition begins. */
    method PrepareBatch(base: nat, batch: seq<Write>)
      returns (pending: seq<Pending>, entries: seq<Entry>, upserts: seq<nat>, deletes: seq<nat>)
      requires base + maxKey <= values.Length && InTable(batch, maxKey) && DistinctKeys(batch)
      modifies values
      ensures upserts == KeysOf(batch, true) && deletes == KeysOf(batch, false)
      ensures AllPrepared(base, batch, pending, entries, old(values[..]), values[..])
    {
      hide Entered, Prepared, Committed, GetValueBase, KeysOf;
      ghost var before := values[..];
      pending, entries, upserts, deletes := [], [], [], [];
      NoKeys();
      for i := 0 to |batch|
        invariant upserts == KeysOf(batch[..i], true) && deletes == KeysOf(batch[..i], false)
        invariant AllPrepared(base, batch[..i], pending, entries, before, values[..])
      {
        var w := batch[i];
        assert batch[..i + 1] == batch[..i] + [w];
        KeysOfSnoc(batch[..i], w, true);
        KeysOfSnoc(batch[..i], w, false);
        if w.put {
          upserts := upserts + [w.key];
        } else {
          deletes := deletes + [w.key];
        }
        ghost var now := values[..];
        assert !Touched(base, batch[..i], base + w.key);
        var pe := Prepare(base + w.key, w.put);
        PrepareNext(base, batch[..i], w, pending, entries, before, now);
        pending, entries := pending + [pe], entries + [Entry(w.key, w.put, GetValueBase(pe.final))];
      }
      assert batch[..|batch|] == batch;
    }

    /** FinishWrite: every pending value is committed. */
    method CommitAll(base: nat, pending: seq<Pending>, ghost batch: seq<Write>, ghost entries: seq<Entry>,
                     ghost before: seq<nat>)
      requires AllPrepared(base, batch, pending, entries, before, values[..]) && DistinctKeys(batch)
      modifies values
      ensures AllCommitted(base, batch, before, values[..], |batch|)
    {
      hide Prepared, Committed, GetValueBase, AllPrepared, AllCommitted;
      CommitFirst(base, batch, pending, entries, before, values[..]);
      for i := 0 to |pending|
        invariant AllCommitted(base, batch, before, values[..], i)
      {
        EnteredAt(base, batch, pending, entries, before, old(values[..]), i);
        CommitNext(base, batch, before, values[..], i);
        values[pending[i].index] := pending[i].final;
      }
    }

    /** One batch of TestMixedOps from preparation to commit: the partition moves to `CommitBatch`, the others stay. */
    method WriteBatch(p: nat, batch: seq<Write>) returns (trace: seq<Record>, entries: seq<Entry>)
      requires Valid() && p < nPartitions && InTable(batch, maxKey) && DistinctKeys(batch)
      modifies values
      ensures Slice(p) == CommitBatch(old(Slice(p)), batch)
      ensures forall q :: 0 <= q < nPartitions && q != p ==> Slice(q) == old(Slice(q))
      ensures trace == Lines(batch)
      ensures EntriesOf(batch, old(Slice(p)), entries)
    {
      hide Committed, GetValueBase, KeysOf, AllPrepared, AllCommitted, CommitBatch, EntriesOf, DistinctKeys;
      InVector(p);
      var base := p * maxKey;
      ghost var before := values[..];
      var pending, upserts, deletes;
      pending, entries, upserts, deletes := PrepareBatch(base, batch);
      trace := (if upserts == [] then [] else [Record(true, upserts)])
        + (if deletes == [] then [] else [Record(false, deletes)]);
      PreparedEntries(base, batch, pending, entries, before, values[..], maxKey);
      CommitAll(base, pending, batch, entries, before);
      ghost var after := values[..];
      CommittedSlice(base, batch, before, after, maxKey);
      forall q | 0 <= q < nPartitions && q != p ensures Slice(q) == old(Slice(q)) {
        Apart(p, q);
        InVector(q);
        CommittedElsewhere(base, batch, before, after, maxKey, At(q, 0));
      }
    }

    /** TestMixedOps on random keys, with an upsert wherever the dice say so. */
    method MixedOps(p: nat, keys: seq<nat>, dice: seq<bool>)
      returns (trace: seq<Record>, entries: seq<Entry>, ghost batch: seq<Write>)
      requires Valid() && p < nPartitions && |dice| == |keys| && Distinct(keys) && KeysInTable(keys, maxKey)
      modifies values
      ensures |batch| == |keys| && multiset(KeyOrder(batch)) == multiset(keys) && Ascending(KeyOrder(batch))
      ensures forall i :: 0 <= i < |batch| ==> batch[i].put == dice[i]
      ensures DistinctKeys(batch) && Slice(p) == CommitBatch(old(Slice(p)), batch)
      ensures forall q :: 0 <= q < nPartitions && q != p ==> Slice(q) == old(Slice(q))
      ensures trace == Lines(batch) && EntriesOf(batch, old(Slice(p)), entries)
    {
      hide CommitBatch, EntriesOf, Lines, Slice, Distinct, KeysInTable, DistinctKeys, InTable, Ascending;
      var sorted := SortKeys(keys);
      SortedKeys(keys, sorted, maxKey);
      var b := seq(|sorted|, i requires 0 <= i < |sorted| => Write(sorted[i], dice[i]));
      batch := b;
      assert KeyOrder(batch) == sorted;
      BatchOfKeys(batch, maxKey);
      trace, entries := WriteBatch(p, b);
    }

    /** The inner loop of Replay: the keys of one traced line. */
    method ReplayLine(base: nat, put: bool, keys: seq<nat>)
      requires base + maxKey <= values.Length && KeysInTable(keys, maxKey)
      modifies values
      ensures values[base..base + maxKey] == ReplayKeys(old(values[base..base + maxKey]), put, keys)
      ensures values[..base] == old(values[..base]) && values[base + maxKey..] == old(values[base + maxKey..])
    {
      hide Replayed;
      ghost var t := values[base..base + maxKey];
      for i := 0 to |keys|
        invariant KeysInTable(keys[i..], maxKey)
        invariant values[..base] == old(values[..base]) && values[base + maxKey..] == old(values[base + maxKey..])
        invariant ReplayKeys(t, put, keys) == ReplayKeys(values[base..base + maxKey], put, keys[i..])
      {
        ghost var now := values[base..base + maxKey];
        var at := base + keys[i];
        assert now[keys[i]] == values[at];
        values[at] := Replayed(put, values[at]);
        assert values[base..base + maxKey] == now[keys[i] := Replayed(put, now[keys[i]])];
        assert keys[i..][0] == keys[i] && keys[i..][1..] == keys[i + 1..];
      }
    }

    method ReplayInPartition(p: nat, line: Record)
      requires Valid() && p < nPartitions && KeysInTable(line.keys, maxKey)
      modifies values
      ensures Slice(p) == ReplayKeys(old(Slice(p)), line.put, line.keys)
      ensures forall q :: 0 <= q < nPartitions && q != p ==> Slice(q) == old(Slice(q))
    {
      hide ReplayKeys;
      InVector(p);
      ReplayLine(p * maxKey, line.put, line.keys);
      forall q | 0 <= q < nPartitions && q != p ensures Slice(q) == old(Slice(q)) {
        Apart(p, q);
        InVector(q);
        SameElsewhere(old(values[..]), values[..], At(p, 0), At(q, 0), maxKey);
      }
    }

    /** FileThreadState::Replay: every partition replays its own lines. */
    method ReplayTrace(trace: seq<(nat, Record)>)
      requires Valid()
      requires forall i :: 0 <= i < |trace| ==> trace[i].0 < nPartitions && KeysInTable(trace[i].1.keys, maxKey)
      modifies values
      ensures forall q :: 0 <= q < nPartitions ==> Tracked(old(Slice(q)), LinesOf(trace, q), Slice(q))
    {
      hide Tracked, ReplayKeys, LinesOf, KeysInTable;
      assert trace[..0] == [];
      forall q | 0 <= q < nPartitions ensures Tracked(Slice(q), LinesOf(trace[..0], q), Slice(q)) {
        TrackedStart(Slice(q), q);
      }
      for i := 0 to |trace|
        invariant forall q :: 0 <= q < nPartitions ==> Tracked(old(Slice(q)), LinesOf(trace[..i], q), Slice(q))
      {
        var line := trace[i];
        assert trace[..i + 1] == trace[..i] + [line];
        label Before:
        ReplayInPartition(line.0, line.1);
        forall q | 0 <= q < nPartitions ensures Tracked(old(Slice(q)), LinesOf(trace[..i + 1], q), Slice(q)) {
          LinesOfSnoc(trace[..i], line, q);
          assert Tracked(old(Slice(q)), LinesOf(trace[..i], q), old@Before(Slice(q)));
          if q == line.0 {
            TrackedNext(old(Slice(q)), LinesOf(trace[..i], q), old@Before(Slice(q)), line.1);
          } else {
            assert LinesOf(trace[..i + 1], q) == LinesOf(trace[..i], q);
          }
        }
      }
      assert trace[..|trace|] == trace;
    }

    /**
     VerifyAndSyncValues on one partition: a single pass over keys and scanned entries.  It gives up at the
     first CHECK that fails.
     */
    method SyncPartition(base: nat, entries: seq<(nat, nat)>, ghost db: Db) returns (ok: bool)
      requires base + maxKey <= values.Length
      requires Lists(entries, db)
      modifies values
      ensures ok <==> ChecksPass(old(values[base..base + maxKey]), db)
      ensures ok ==> values[base..base + maxKey] == SyncTable(old(values[base..base + maxKey]), db)
      ensures values[..base] == old(values[..base]) && values[base + maxKey..] == old(values[base + maxKey..])
    {
      hide CheckPasses, Synced;
      ghost var t := values[base..base + maxKey];
      var idx := 0;
      for j := 0 to maxKey
        invariant Passed(entries, idx, j)
        invariant values[..base] == old(values[..base]) && values[base + maxKey..] == old(values[base + maxKey..])
        invariant forall k :: 0 <= k < j ==>
          CheckPasses(t[k], Lookup(db, k)) && values[base + k] == Synced(t[k], Lookup(db, k))
        invariant forall k :: j <= k < maxKey ==> values[base + k] == t[k]
      {
        NextEntry(entries, db, idx, j);
        var found := if idx < |entries| && entries[idx].0 == j then Some(entries[idx].1) else None;
        var passes := CheckPasses(values[base + j], found);
        if !passes {
          return false;
        }
        values[base + j] := Synced(values[base + j], found);
        if found != None {
          idx := idx + 1;
        }
      }
      return true;
    }

    method SyncInPartition(p: nat, entries: seq<(nat, nat)>, ghost db: Db) returns (ok: bool)
      requires Valid() && p < nPartitions && Lists(entries, db)
      modifies values
      ensures ok <==> ChecksPass(old(Slice(p)), db)
      ensures ok ==> Slice(p) == SyncTable(old(Slice(p)), db)
      ensures forall q :: 0 <= q < nPartitions && q != p ==> Slice(q) == old(Slice(q))
    {
      hide ChecksPass, SyncTable, Lists;
      InVector(p);
      ok := SyncPartition(p * maxKey, entries, db);
      forall q | 0 <= q < nPartitions && q != p ensures Slice(q) == old(Slice(q)) {
        Apart(p, q);
        InVector(q);
        SameElsewhere(old(values[..]), values[..], At(p, 0), At(q, 0), maxKey);
      }
    }

    /** VerifyAndSyncValues: every partition against its own scan. */
    method SyncAllPartitions(scans: seq<seq<(nat, nat)>>, ghost dbs: seq<Db>) returns (ok: bool)
      requires Valid() && |scans| == |dbs| == nPartitions
      requires forall p :: 0 <= p < nPartitions ==> Lists(scans[p], dbs[p])
      modifies values
      ensures ok <==> forall p :: 0 <= p < nPartitions ==> ChecksPass(old(Slice(p)), dbs[p])
      ensures ok ==> forall p :: 0 <= p < nPartitions ==> Slice(p) == SyncTable(old(Slice(p)), dbs[p])
    {
      hide ChecksPass, SyncTable, Lists, Slice;
      for p := 0 to nPartitions
        invariant forall q :: 0 <= q < p ==>
          ChecksPass(old(Slice(q)), dbs[q]) && Slice(q) == SyncTable(old(Slice(q)), dbs[q])
        invariant forall q :: p <= q < nPartitions ==> Slice(q) == old(Slice(q))
      {
        var passed := SyncInPartition(p, scans[p], dbs[p]);
        if !passed {
          return false;
        }
      }
      return true;
    }

    /**
     A start-up after a crash, on the table saved at the start of the run: replay, then merge.  It goes through
     exactly when every partition is recoverable, and then agrees with the database everywhere.
     */
    method Restart(trace: seq<(nat, Record)>, scans: seq<seq<(nat, nat)>>, ghost dbs: seq<Db>, ghost epochs: seq<Epoch>)
      returns (ok: bool)
      requires Valid() && |scans| == |dbs| == |epochs| == nPartitions
      requires forall i :: 0 <= i < |trace| ==> trace[i].0 < nPartitions && KeysInTable(trace[i].1.keys, maxKey)
      requires forall p :: 0 <= p < nPartitions ==> Crashed(Slice(p), dbs[p], epochs[p], LinesOf(trace, p), scans[p])
      modifies values
      ensures ok <==> forall p :: 0 <= p < nPartitions ==> Recoverable(old(Slice(p)), dbs[p], epochs[p])
      ensures ok ==> forall p :: 0 <= p < nPartitions ==>
        && Slice(p) == NextTable(old(Slice(p)), dbs[p], epochs[p])
        && Consistent(Slice(p), CrashedDb(old(Slice(p)), dbs[p], epochs[p]))
    {
      hide Slice, LinesOf, KeysInTable, Tracked, Crashed, Lists, ChecksPass, SyncTable, Recoverable, Consistent,
           CrashedDb, NextTable;
      ghost var after := seq(nPartitions, p requires 0 <= p < nPartitions reads this, values =>
        CrashedDb(Slice(p), dbs[p], epochs[p]));
      ReplayTrace(trace);
      forall p | 0 <= p < nPartitions
        ensures Lists(scans[p], after[p])
        ensures ChecksPass(Slice(p), after[p]) <==> Recoverable(old(Slice(p)), dbs[p], epochs[p])
        ensures ChecksPass(Slice(p), after[p]) ==> Consistent(SyncTable(Slice(p), after[p]), after[p])
        ensures SyncTable(Slice(p), after[p]) == NextTable(old(Slice(p)), dbs[p], epochs[p])
      {
        ReplayedSlice(old(Slice(p)), dbs[p], epochs[p], LinesOf(trace, p), scans[p], Slice(p));
      }
      ok := SyncAllPartitions(scans, after);
    }
  }

  /** One partition at start-up: where its last run began, what it left in the trace and what the scan finds. */
  ghost predicate Crashed(t: seq<nat>, db: Db, e: Epoch, lines: seq<Record>, scan: seq<(nat, nat)>) {
    Consistent(t, db) && EpochOk(e, |t|) && lines == LeftTrace(t, db, e) && Lists(scan, CrashedDb(t, db, e))
  }

  lemma ReplayedSlice(t: seq<nat>, db: Db, e: Epoch, lines: seq<Record>, scan: seq<(nat, nat)>, now: seq<nat>)
    requires Crashed(t, db, e, lines, scan) && Tracked(t, lines, now)
    ensures var d := CrashedDb(t, db, e);
      && Lists(scan, d) && (ChecksPass(now, d) <==> Recoverable(t, db, e))
      && (ChecksPass(now, d) ==> Consistent(SyncTable(now, d), d))
      && SyncTable(now, d) == NextTable(t, db, e)
  {
    hide Consistent, EpochOk, LeftTrace, CrashedDb, Lists, ChecksPass, SyncTable, Recoverable, Replay, TraceInTable;
    EpochTheorem(t, db, e);
  }

  /** A scan: all entries of the database in key order. */
  ghost predicate Lists(entries: seq<(nat, nat)>, db: Db) {
    && (forall i, j :: 0 <= i < j < |entries| ==> entries[i].0 < entries[j].0)
    && (forall i :: 0 <= i < |entries| ==> entries[i].0 in db && db[entries[i].0] == entries[i].1)
    && (forall k :: k in db ==> exists i :: 0 <= i < |entries| && entries[i].0 == k)
  }

  /** The merge pointer splits the entries at key `j`. */
  ghost predicate Passed(entries: seq<(nat, nat)>, idx: nat, j: nat) {
    && idx <= |entries|
    && (forall i :: 0 <= i < idx ==> entries[i].0 < j)
    && (forall i :: idx <= i < |entries| ==> entries[i].0 >= j)
  }

  lemma NextEntry(entries: seq<(nat, nat)>, db: Db, idx: nat, j: nat)
    requires Lists(entries, db) && Passed(entries, idx, j)
    ensures var here := idx < |entries| && entries[idx].0 == j;
            && Lookup(db, j) == (if here then Some(entries[idx].1) else None)
            && Passed(entries, if here then idx + 1 else idx, j + 1)
  {
    if j in db {
      var i :| 0 <= i < |entries| && entries[i].0 == j;
      assert idx <= i;
      assert i == idx;
    }
  }

  // ---- Reader::VerifyGet on a scan

  /**
   The keys first, first + 1, ... were sampled into `pre` before the scan; `post` is the table now.
   The entries are matched in one pass.
   */
  method VerifyScan(first: nat, pre: seq<nat>, post: seq<nat>, entries: seq<(nat, nat)>, ghost db: Db)
    returns (ok: bool)
    requires |pre| == |post| && Lists(entries, db)
    requires forall k :: k in db ==> k >= first
    ensures ok <==> forall i :: 0 <= i < |pre| ==> Accepts(Lookup(db, first + i), pre[i], post[i])
  {
    hide Accepts;
    var idx := 0;
    for i := 0 to |pre|
      invariant Passed(entries, idx, first + i)
      invariant forall j :: 0 <= j < i ==> Accepts(Lookup(db, first + j), pre[j], post[j])
    {
      NextEntry(entries, db, idx, first + i);
      var found := if idx < |entries| && entries[idx].0 == first + i then Some(entries[idx].1) else None;
      var accepted := Accepts(found, pre[i], post[i]);
      if !accepted {
        return false;
      }
      if found != None {
        idx := idx + 1;
      }
    }
    return true;
  }

  /** One key around a read: its state and history at the first sample, the events up to the read and from there on. */
  datatype Overlap = Overlap(start: KeyState, history: History, before: seq<Event>, after: seq<Event>)
  {
    ghost predicate Valid() {
      Inv(start, history) && Legal(start, before) && Legal(Run(start, before), after)
    }

    ghost function Read(): KeyState
      requires Valid()
    {
      Run(start, before)
    }

    ghost function End(): KeyState
      requires Valid()
    {
      Run(Read(), after)
    }

    ghost function ReadHistory(): History
      requires Valid()
    {
      RunHistory(start, history, before)
    }

    ghost function EndHistory(): History
      requires Valid()
    {
      RunHistory(Read(), ReadHistory(), after)
    }

    /** Puts, deletes and puts seen by the read, counted from the first sample. */
    ghost function Puts(): int requires Valid() { FinalPuts(End(), EndHistory()) - history.puts }

    ghost function Dels(): int requires Valid() { FinalDels(End(), EndHistory()) - history.dels }

    ghost function Seen(): int requires Valid() { ReadHistory().written - history.puts }

    /** The samples and the read belong to this run. */
    ghost predicate Shows(found: Option<nat>, pre: nat, post: nat)
      requires Valid()
    {
      found == Read().db && pre == start.cell && post == End().cell
    }
  }

  lemma OverlapVerdict(o: Overlap, found: Option<nat>, pre: nat, post: nat)
    requires o.Valid() && o.Shows(found, pre, post)
    ensures 0 <= o.Seen() <= o.Puts() && 0 <= o.Dels()
    ensures Accepts(found, pre, post) <==> Verdict(found != None, o.history.deleted, o.Puts(), o.Dels(), o.Seen())
    ensures o.Puts() < BASES && o.Dels() < DELS ==> Accepts(found, pre, post)
  {
    hide Inv, Legal, Run, RunHistory, Accepts, Verdict, FinalPuts, FinalDels;
    OracleVerdict(o.start, o.history, o.before, o.after);
    if o.Puts() < BASES && o.Dels() < DELS {
      OracleAccepts(o.start, o.history, o.before, o.after);
    }
  }

  /**
   A scan that overlaps writes, judged by what really happened to each key: it passes exactly when the verdict on
   every key's true counts does, and so whenever every key stays inside the windows.
   */
  method VerifyOverlapping(first: nat, pre: seq<nat>, post: seq<nat>, entries: seq<(nat, nat)>, ghost db: Db,
                           ghost runs: seq<Overlap>)
    returns (ok: bool)
    requires |pre| == |post| == |runs| && Lists(entries, db)
    requires forall k :: k in db ==> k >= first
    requires forall i :: 0 <= i < |runs| ==> runs[i].Valid()
    requires forall i :: 0 <= i < |runs| ==> runs[i].Shows(Lookup(db, first + i), pre[i], post[i])
    ensures forall i :: 0 <= i < |runs| ==> 0 <= runs[i].Seen() <= runs[i].Puts() && 0 <= runs[i].Dels()
    ensures ok <==> forall i :: 0 <= i < |runs| ==>
      Verdict(Lookup(db, first + i) != None, runs[i].history.deleted, runs[i].Puts(), runs[i].Dels(), runs[i].Seen())
    ensures (forall i :: 0 <= i < |runs| ==> runs[i].Puts() < BASES && runs[i].Dels() < DELS) ==> ok
  {
    hide Accepts, Verdict, Lists, Lookup, Overlap.Puts, Overlap.Dels, Overlap.Seen;
    forall i | 0 <= i < |runs|
      ensures 0 <= runs[i].Seen() <= runs[i].Puts() && 0 <= runs[i].Dels()
      ensures var found := Lookup(db, first + i);
        && (Accepts(found, pre[i], post[i]) <==>
              Verdict(found != None, runs[i].history.deleted, runs[i].Puts(), runs[i].Dels(), runs[i].Seen()))
        && (runs[i].Puts() < BASES && runs[i].Dels() < DELS ==> Accepts(found, pre[i], post[i]))
    {
      OverlapVerdict(runs[i], Lookup(db, first + i), pre[i], post[i]);
    }
    ok := VerifyScan(first, pre, post, entries, db);
  }

  /** `now` is what `t` becomes by replaying `lines`. */
  ghost predicate Tracked(t: seq<nat>, lines: seq<Record>, now: seq<nat>) {
    TraceInTable(lines, |t|) && now == Replay(t, lines)
  }

  lemma TrackedStart(t: seq<nat>, q: nat)
    ensures LinesOf([], q) == [] && Tracked(t, [], t)
  {
  }

  lemma TrackedNext(t: seq<nat>, lines: seq<Record>, now: seq<nat>, line: Record)
    requires Tracked(t, lines, now) && KeysInTable(line.keys, |t|)
    ensures Tracked(t, lines + [line], ReplayKeys(now, line.put, line.keys))
  {
    hide ReplayKeys;
    ReplaySnoc(t, lines, line);
  }

  predicate Touched(base: nat, batch: seq<Write>, x: nat) {
    exists i :: 0 <= i < |batch| && base + batch[i].key == x
  }

  /** The pending value and the entry of one write, and the cell it now shows. */
  ghost predicate Entered(base: nat, w: Write, pe: Pending, e: Entry, before: seq<nat>, now: seq<nat>) {
    && base + w.key < |before| == |now|
    && pe == Pending(base + w.key, before[base + w.key], Committed(w.put, before[base + w.key]))
    && e == Entry(w.key, w.put, GetValueBase(pe.final))
    && now[base + w.key] == Prepared(w.put, before[base + w.key])
  }

  ghost predicate AllPrepared(base: nat, batch: seq<Write>, pending: seq<Pending>, entries: seq<Entry>,
                              before: seq<nat>, now: seq<nat>)
  {
    && |pending| == |entries| == |batch| && |before| == |now|
    && (forall i :: 0 <= i < |batch| ==> Entered(base, batch[i], pending[i], entries[i], before, now))
    && (forall x :: 0 <= x < |now| && !Touched(base, batch, x) ==> now[x] == before[x])
  }

  lemma NoKeys()
    ensures forall put :: KeysOf([], put) == []
  {
  }

  lemma PrepareNext(base: nat, batch: seq<Write>, w: Write, pending: seq<Pending>, entries: seq<Entry>,
                    before: seq<nat>, now: seq<nat>)
    requires AllPrepared(base, batch, pending, entries, before, now)
    requires base + w.key < |now| && !Touched(base, batch, base + w.key)
    ensures var at := base + w.key;
            var pe := Pending(at, now[at], Committed(w.put, now[at]));
            AllPrepared(base, batch + [w], pending + [pe], entries + [Entry(w.key, w.put, GetValueBase(pe.final))],
                        before, now[at := Prepared(w.put, now[at])])
  {
    hide Prepared, Committed, GetValueBase;
    var at := base + w.key;
    var pe := Pending(at, now[at], Committed(w.put, now[at]));
    var now' := now[at := Prepared(w.put, now[at])];
    var batch', pending' := batch + [w], pending + [pe];
    var entries' := entries + [Entry(w.key, w.put, GetValueBase(pe.final))];
    forall i | 0 <= i < |batch'| ensures Entered(base, batch'[i], pending'[i], entries'[i], before, now') {
      if i < |batch| {
        assert Entered(base, batch[i], pending[i], entries[i], before, now);
      }
    }
    forall x | 0 <= x < |now'| && !Touched(base, batch', x) ensures now'[x] == before[x] {
      assert base + batch'[|batch|].key == at;
      forall i | 0 <= i < |batch| ensures base + batch[i].key != x {
        assert batch'[i] == batch[i];
      }
    }
  }

  /** The first `n` writes are committed, the rest may still show their pending state. */
  ghost predicate AllCommitted(base: nat, batch: seq<Write>, before: seq<nat>, now: seq<nat>, n: nat) {
    && |before| == |now| && n <= |batch|
    && (forall i :: 0 <= i < |batch| ==> base + batch[i].key < |before|)
    && (forall i :: 0 <= i < n ==> now[base + batch[i].key] == Committed(batch[i].put, before[base + batch[i].key]))
    && (forall x :: 0 <= x < |now| && !Touched(base, batch, x) ==> now[x] == before[x])
  }

  lemma CommitFirst(base: nat, batch: seq<Write>, pending: seq<Pending>, entries: seq<Entry>, before: seq<nat>,
                    now: seq<nat>)
    requires AllPrepared(base, batch, pending, entries, before, now)
    ensures |pending| == |batch| && AllCommitted(base, batch, before, now, 0)
  {
    hide Prepared, Committed, GetValueBase;
    forall i | 0 <= i < |batch| ensures base + batch[i].key < |before| {
      assert Entered(base, batch[i], pending[i], entries[i], before, now);
    }
  }

  lemma EnteredAt(base: nat, batch: seq<Write>, pending: seq<Pending>, entries: seq<Entry>, before: seq<nat>,
                  now: seq<nat>, i: nat)
    requires AllPrepared(base, batch, pending, entries, before, now) && i < |batch|
    ensures |pending| == |batch| && base + batch[i].key < |before|
    ensures pending[i].index == base + batch[i].key
      && pending[i].final == Committed(batch[i].put, before[base + batch[i].key])
  {
    hide Prepared, Committed, GetValueBase;
    assert Entered(base, batch[i], pending[i], entries[i], before, now);
  }

  lemma CommitNext(base: nat, batch: seq<Write>, before: seq<nat>, now: seq<nat>, i: nat)
    requires DistinctKeys(batch) && i < |batch| && AllCommitted(base, batch, before, now, i)
    ensures var at := base + batch[i].key;
            at < |now| && AllCommitted(base, batch, before, now[at := Committed(batch[i].put, before[at])], i + 1)
  {
    hide Committed, Touched;
    var at := base + batch[i].key;
    var now' := now[at := Committed(batch[i].put, before[at])];
    forall j | 0 <= j < i + 1
      ensures now'[base + batch[j].key] == Committed(batch[j].put, before[base + batch[j].key])
    {
      if j < i {
        assert batch[j].key != batch[i].key;
      }
    }
    forall x | 0 <= x < |now'| && !Touched(base, batch, x)
      ensures now'[x] == before[x]
    {
      TouchedAt(base, batch, i);
    }
  }

  lemma TouchedAt(base: nat, batch: seq<Write>, i: nat)
    requires i < |batch|
    ensures Touched(base, batch, base + batch[i].key)
  {
  }

  /** An upsert carries the value base its record will commit. */
  ghost predicate EntriesOf(batch: seq<Write>, t: seq<nat>, entries: seq<Entry>) {
    && |entries| == |batch| && InTable(batch, |t|)
    && forall i :: 0 <= i < |batch| ==>
         entries[i] == Entry(batch[i].key, batch[i].put, GetValueBase(Committed(batch[i].put, t[batch[i].key])))
  }

  lemma PreparedEntries(base: nat, batch: seq<Write>, pending: seq<Pending>, entries: seq<Entry>, before: seq<nat>,
                        now: seq<nat>, n: nat)
    requires AllPrepared(base, batch, pending, entries, before, now) && base + n <= |before| && InTable(batch, n)
    ensures EntriesOf(batch, before[base..base + n], entries)
  {
    hide Prepared, Committed, GetValueBase;
    var t := before[base..base + n];
    forall i | 0 <= i < |batch|
      ensures entries[i] == Entry(batch[i].key, batch[i].put, GetValueBase(Committed(batch[i].put, t[batch[i].key])))
    {
      assert Entered(base, batch[i], pending[i], entries[i], before, now);
    }
  }

  lemma CommittedAt(base: nat, batch: seq<Write>, before: seq<nat>, now: seq<nat>, k: nat)
    requires AllCommitted(base, batch, before, now, |batch|) && DistinctKeys(batch) && base + k < |before|
    ensures now[base + k] == if k in KeysOf(batch, true) then Committed(true, before[base + k])
                             else if k in KeysOf(batch, false) then Committed(false, before[base + k])
                             else before[base + k]
  {
    hide Committed, KeysOf, Touched;
    if k in KeysOf(batch, true) {
      KeysOfMembers(batch, true, k);
      var i :| 0 <= i < |batch| && batch[i] == Write(k, true);
      assert now[base + batch[i].key] == Committed(batch[i].put, before[base + batch[i].key]);
    } else if k in KeysOf(batch, false) {
      KeysOfMembers(batch, false, k);
      var i :| 0 <= i < |batch| && batch[i] == Write(k, false);
      assert now[base + batch[i].key] == Committed(batch[i].put, before[base + batch[i].key]);
    } else {
      UntouchedKey(base, batch, k);
    }
  }

  lemma UntouchedKey(base: nat, batch: seq<Write>, k: nat)
    requires k !in KeysOf(batch, true) && k !in KeysOf(batch, false)
    ensures !Touched(base, batch, base + k)
  {
    hide KeysOf;
    forall i | 0 <= i < |batch| ensures batch[i].key != k {
      KeysOfMembers(batch, batch[i].put, k);
    }
  }

  lemma CommittedSlice(base: nat, batch: seq<Write>, before: seq<nat>, now: seq<nat>, n: nat)
    requires AllCommitted(base, batch, before, now, |batch|) && DistinctKeys(batch) && base + n <= |before|
    ensures now[base..base + n] == CommitBatch(before[base..base + n], batch)
  {
    hide Committed, KeysOf, Touched;
    var t, t' := before[base..base + n], now[base..base + n];
    forall k | 0 <= k < n ensures t'[k] == CommitBatch(t, batch)[k] {
      CommittedAt(base, batch, before, now, k);
    }
  }

  lemma CommittedElsewhere(base: nat, batch: seq<Write>, before: seq<nat>, now: seq<nat>, n: nat, other: nat)
    requires AllCommitted(base, batch, before, now, |batch|) && InTable(batch, n)
    requires base + n <= |before| && other + n <= |before| && (base + n <= other || other + n <= base)
    ensures now[other..other + n] == before[other..other + n]
  {
    hide Committed;
  }

  /** The traced lines of one partition. */
  ghost function LinesOf(trace: seq<(nat, Record)>, q: nat): seq<Record> {
    if trace == [] then []
    else LinesOf(trace[..|trace| - 1], q) + (if trace[|trace| - 1].0 == q then [trace[|trace| - 1].1] else [])
  }

  lemma LinesOfSnoc(trace: seq<(nat, Record)>, line: (nat, Record), q: nat)
    ensures LinesOf(trace + [line], q) == LinesOf(trace, q) + (if line.0 == q then [line.1] else [])
  {
    assert (trace + [line])[..|trace|] == trace;
  }

  lemma ReplaySnoc(t: seq<nat>, trace: seq<Record>, line: Record)
    requires TraceInTable(trace, |t|) && KeysInTable(line.keys, |t|)
    ensures TraceInTable(trace + [line], |t|)
    ensures Replay(t, trace + [line]) == ReplayKeys(Replay(t, trace), line.put, line.keys)
  {
    ReplayJoin(t, trace, [line]);
    var u := ReplayKeys(Replay(t, trace), line.put, line.keys);
    assert [line][1..] == [];
    assert Replay(u, []) == u;
  }

  lemma SameElsewhere(before: seq<nat>, now: seq<nat>, p: nat, q: nat, n: nat)
    requires |before| == |now| && p + n <= |now| && q + n <= |now|
    requires p + n <= q || q + n <= p
    requires now[..p] == before[..p] && now[p + n..] == before[p + n..]
    ensures now[q..q + n] == before[q..q + n]
  {
    forall i | q <= i < q + n ensures now[i] == before[i] {
      if i < p {
        assert now[..p][i] == before[..p][i];
      } else {
        assert now[p + n..][i - p - n] == before[p + n..][i - p - n];
      }
    }
  }
}
