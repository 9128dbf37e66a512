/**
 Whole lives of a stress test (db_stress/): runs of batches on any partitions, each ended by a crash, each followed by
 a start-up on the saved table, the trace and what the database still has.  The database is one map per partition.
 */
module StressSession {
  import opened ExpectedValue
  import opened Recovery
  import opened Sequences
  import opened ThreadState

  /** One call of TestMixedOps: partition, random keys, and where the dice say upsert. */
  datatype Job = Job(p: nat, keys: seq<nat>, dice: seq<bool>)

  /** A batch that a crash interrupts. */
  datatype Flight = Flight(batch: seq<Write>, crash: Crash)

  /** The finished batches of one run, and the batch in flight in every partition when it crashes. */
  datatype Plan = Plan(jobs: seq<Job>, flights: seq<Flight>)

  ghost predicate JobOk(j: Job, partitions: nat, keys: nat) {
    j.p < partitions && |j.dice| == |j.keys| && Distinct(j.keys) && KeysInTable(j.keys, keys)
  }

  ghost predicate FlightOk(f: Flight, keys: nat) {
    InTable(f.batch, keys) && DistinctKeys(f.batch) && CrashOk(f.batch, f.crash)
  }

  ghost predicate PlanOk(plan: Plan, partitions: nat, keys: nat) {
    && (forall i :: 0 <= i < |plan.jobs| ==> JobOk(plan.jobs[i], partitions, keys))
    && |plan.flights| == partitions && (forall p :: 0 <= p < partitions ==> FlightOk(plan.flights[p], keys))
  }

  /** The batch is the job's keys in ascending order with the job's dice. */
  ghost predicate BatchOf(j: Job, batch: seq<Write>) {
    && |batch| == |j.keys| == |j.dice| && multiset(KeyOrder(batch)) == multiset(j.keys) && Ascending(KeyOrder(batch))
    && forall i :: 0 <= i < |batch| ==> batch[i].put == j.dice[i]
  }

  /** The batches of one partition. */
  ghost function BatchesFor(log: seq<(nat, seq<Write>)>, p: nat): seq<seq<Write>> {
    if log == [] then []
    else BatchesFor(log[..|log| - 1], p) + (if log[|log| - 1].0 == p then [log[|log| - 1].1] else [])
  }

  lemma BatchesForSnoc(log: seq<(nat, seq<Write>)>, b: (nat, seq<Write>), p: nat)
    ensures BatchesFor(log + [b], p) == BatchesFor(log, p) + (if b.0 == p then [b.1] else [])
  {
    assert (log + [b])[..|log|] == log;
  }

  // ---- The database. ----

  lemma ApplySnoc(db: Db, t: seq<nat>, batch: seq<Write>, w: Write)
    requires DistinctKeys(batch + [w]) && w.key < |t| && forall k :: k in db ==> k < |t|
    ensures var d := ApplyBatch(db, t, batch);
            ApplyBatch(db, t, batch + [w])
              == (if w.put then d[w.key := GetValueBase(Committed(true, t[w.key]))] else d - {w.key})
  {
    hide Committed, GetValueBase, KeysOf;
    KeysOfSnoc(batch, w, true);
    KeysOfSnoc(batch, w, false);
    NotYet(batch, w, true);
    NotYet(batch, w, false);
  }

  lemma NotYet(batch: seq<Write>, w: Write, put: bool)
    requires DistinctKeys(batch + [w])
    ensures w.key !in KeysOf(batch, put)
  {
    KeysOfMembers(batch, put, w.key);
    forall i | 0 <= i < |batch|
      ensures batch[i].key != w.key
    {
      assert (batch + [w])[i] == batch[i] && (batch + [w])[|batch|] == w;
    }
  }

  lemma NothingApplied(db: Db, t: seq<nat>)
    requires forall k :: k in db ==> k < |t|
    ensures ApplyBatch(db, t, []) == db
  {
  }

  /** The store takes over the entries of a batch. */
  method Store(db: Db, entries: seq<Entry>, ghost t: seq<nat>, ghost batch: seq<Write>) returns (r: Db)
    requires EntriesOf(batch, t, entries) && DistinctKeys(batch) && forall k :: k in db ==> k < |t|
    ensures r == ApplyBatch(db, t, batch)
  {
    hide Committed, GetValueBase, KeysOf, ApplyBatch, DistinctKeys;
    r := db;
    NothingApplied(db, t);
    for i := 0 to |entries|
      invariant r == ApplyBatch(db, t, batch[..i])
    {
      assert batch[..i + 1] == batch[..i] + [batch[i]];
      PrefixIsDistinct(batch, i + 1);
      ApplySnoc(db, t, batch[..i], batch[i]);
      r := if entries[i].put then r[entries[i].key := entries[i].base] else r - {entries[i].key};
    }
    assert batch[..|batch|] == batch;
  }

  lemma PrefixIsDistinct(batch: seq<Write>, n: nat)
    requires DistinctKeys(batch) && n <= |batch|
    ensures DistinctKeys(batch[..n])
  {
  }

  /** The entries are those of the keys below `k`. */
  ghost predicate Listed(entries: seq<(nat, nat)>, db: Db, k: nat) {
    && (forall i, j :: 0 <= i < j < |entries| ==> entries[i].0 < entries[j].0)
    && (forall i :: 0 <= i < |entries| ==> entries[i].0 < k && entries[i].0 in db && db[entries[i].0] == entries[i].1)
    && (forall x :: x in db && x < k ==> exists i :: 0 <= i < |entries| && entries[i].0 == x)
  }

  lemma ListedNext(entries: seq<(nat, nat)>, db: Db, k: nat)
    requires Listed(entries, db, k)
    ensures Listed(if k in db then entries + [(k, db[k])] else entries, db, k + 1)
  {
    var more := if k in db then entries + [(k, db[k])] else entries;
    forall x | x in db && x < k + 1
      ensures exists i :: 0 <= i < |more| && more[i].0 == x
    {
      if x == k {
        assert more[|entries|].0 == x;
      } else {
        var i :| 0 <= i < |entries| && entries[i].0 == x;
        assert more[i].0 == x;
      }
    }
  }

  /** A scan of all entries in key order. */
  method Scan(db: Db, n: nat) returns (entries: seq<(nat, nat)>)
    requires forall k :: k in db ==> k < n
    ensures Lists(entries, db)
  {
    hide Listed, Lists;
    entries := [];
    NoneListed(db);
    for k := 0 to n
      invariant Listed(entries, db, k)
    {
      ListedNext(entries, db, k);
      if k in db {
        entries := entries + [(k, db[k])];
      }
    }
    AllListed(entries, db, n);
  }

  lemma NoneListed(db: Db)
    ensures Listed([], db, 0)
  {
  }

  lemma AllListed(entries: seq<(nat, nat)>, db: Db, n: nat)
    requires Listed(entries, db, n) && forall k :: k in db ==> k < n
    ensures Lists(entries, db)
  {
    forall k | k in db
      ensures exists i :: 0 <= i < |entries| && entries[i].0 == k
    {
      assert k < n;
    }
  }

  // ---- A run. ----

  /** From table `t0` and database `db0` these batches lead here, leaving these lines. */
  ghost predicate Going(t0: seq<nat>, db0: Db, batches: seq<seq<Write>>, t: seq<nat>, db: Db, lines: seq<Record>) {
    BatchesOk(batches, |t0|) && AfterBatches(World(t0, db0, []), batches) == World(t, db, lines)
  }

  lemma GoingStart(t: seq<nat>, db: Db, p: nat)
    ensures Going(t, db, BatchesFor([], p), t, db, LinesOf([], p))
  {
  }

  lemma {:induction false} AfterSnoc(w: World, batches: seq<seq<Write>>, b: seq<Write>)
    ensures var m := AfterBatches(w, batches);
            AfterBatches(w, batches + [b]) == World(CommitBatch(m.t, b), ApplyBatch(m.db, m.t, b), m.trace + Lines(b))
    decreases batches
  {
    hide CommitBatch, ApplyBatch, Lines;
    var more := batches + [b];
    if batches == [] {
      assert more[0] == b && more[1..] == [];
    } else {
      var b0 := batches[0];
      var w1 := World(CommitBatch(w.t, b0), ApplyBatch(w.db, w.t, b0), w.trace + Lines(b0));
      assert more[0] == b0 && more[1..] == batches[1..] + [b];
      AfterSnoc(w1, batches[1..], b);
    }
  }

  lemma GoingOn(t0: seq<nat>, db0: Db, batches: seq<seq<Write>>, t: seq<nat>, db: Db, lines: seq<Record>, b: seq<Write>)
    requires Going(t0, db0, batches, t, db, lines) && InTable(b, |t0|) && DistinctKeys(b)
    ensures Going(t0, db0, batches + [b], CommitBatch(t, b), ApplyBatch(db, t, b), lines + Lines(b))
  {
    hide CommitBatch, ApplyBatch, Lines, InTable, DistinctKeys, AfterBatches;
    AfterSnoc(World(t0, db0, []), batches, b);
  }

  /** The keys of the database stay in the table. */
  lemma GoingInTable(t0: seq<nat>, db0: Db, batches: seq<seq<Write>>, t: seq<nat>, db: Db, lines: seq<Record>)
    requires Consistent(t0, db0) && Going(t0, db0, batches, t, db, lines)
    ensures |t| == |t0| && forall k :: k in db ==> k < |t|
  {
    hide AfterBatches, Consistent, BatchesOk, Live;
    StartIsLive(t0, db0);
    BatchesKeepLive(t0, World(t0, db0, []), batches);
    LiveParts(t0, lines, t, db);
  }

  function Tagged(p: nat, lines: seq<Record>): (r: seq<(nat, Record)>)
    ensures |r| == |lines| && forall i :: 0 <= i < |r| ==> r[i] == (p, lines[i])
  {
    seq(|lines|, i requires 0 <= i < |lines| => (p, lines[i]))
  }

  lemma {:induction false} LinesOfTagged(trace: seq<(nat, Record)>, p: nat, lines: seq<Record>, q: nat)
    ensures LinesOf(trace + Tagged(p, lines), q) == LinesOf(trace, q) + (if p == q then lines else [])
    decreases lines
  {
    hide LinesOf, Tagged;
    if lines == [] {
      assert trace + Tagged(p, lines) == trace;
    } else {
      var n := |lines| - 1;
      LinesOfTagged(trace, p, lines[..n], q);
      TaggedSnoc(trace, p, lines);
      LinesOfSnoc(trace + Tagged(p, lines[..n]), (p, lines[n]), q);
      assert lines == lines[..n] + [lines[n]];
    }
  }

  lemma TaggedSnoc(trace: seq<(nat, Record)>, p: nat, lines: seq<Record>)
    requires lines != []
    ensures var n := |lines| - 1; trace + Tagged(p, lines) == trace + Tagged(p, lines[..n]) + [(p, lines[n])]
  {
    hide Tagged;
  }

  ghost function Slices(table: Table): (r: seq<seq<nat>>)
    requires table.Valid()
    reads table.values
    ensures |r| == table.nPartitions && forall p :: 0 <= p < |r| ==> r[p] == table.Slice(p)
  {
    seq(table.nPartitions, p requires 0 <= p < table.nPartitions reads table.values => table.Slice(p))
  }

  /** Every partition on its own. */
  ghost predicate AllGoing(t0s: seq<seq<nat>>, db0s: seq<Db>, log: seq<(nat, seq<Write>)>, ts: seq<seq<nat>>,
                           dbs: seq<Db>, trace: seq<(nat, Record)>)
  {
    && |t0s| == |db0s| == |ts| == |dbs|
    && forall p :: 0 <= p < |ts| ==> Going(t0s[p], db0s[p], BatchesFor(log, p), ts[p], dbs[p], LinesOf(trace, p))
  }

  lemma AllGoingOn(t0s: seq<seq<nat>>, db0s: seq<Db>, log: seq<(nat, seq<Write>)>, ts: seq<seq<nat>>, dbs: seq<Db>,
                   trace: seq<(nat, Record)>, p: nat, b: seq<Write>)
    requires AllGoing(t0s, db0s, log, ts, dbs, trace) && p < |ts| && InTable(b, |t0s[p]|) && DistinctKeys(b)
    ensures AllGoing(t0s, db0s, log + [(p, b)], ts[p := CommitBatch(ts[p], b)],
                     dbs[p := ApplyBatch(dbs[p], ts[p], b)], trace + Tagged(p, Lines(b)))
  {
    hide Going, CommitBatch, ApplyBatch, Lines, InTable, DistinctKeys, LinesOf, BatchesFor, Tagged;
    forall q | 0 <= q < |ts|
      ensures Going(t0s[q], db0s[q], BatchesFor(log + [(p, b)], q), ts[p := CommitBatch(ts[p], b)][q],
                    dbs[p := ApplyBatch(dbs[p], ts[p], b)][q], LinesOf(trace + Tagged(p, Lines(b)), q))
    {
      BatchesForSnoc(log, (p, b), q);
      LinesOfTagged(trace, p, Lines(b), q);
      if p == q {
        GoingOn(t0s[q], db0s[q], BatchesFor(log, q), ts[q], dbs[q], LinesOf(trace, q), b);
      } else {
        assert BatchesFor(log, q) + [] == BatchesFor(log, q) && LinesOf(trace, q) + [] == LinesOf(trace, q);
      }
    }
  }

  ghost predicate TraceOk(trace: seq<(nat, Record)>, partitions: nat, keys: nat) {
    forall i :: 0 <= i < |trace| ==> trace[i].0 < partitions && KeysInTable(trace[i].1.keys, keys)
  }

  lemma TraceMore(trace: seq<(nat, Record)>, p: nat, upserts: seq<nat>, deletes: seq<nat>, partitions: nat, keys: nat)
    requires TraceOk(trace, partitions, keys) && p < partitions
    requires KeysInTable(upserts, keys) && KeysInTable(deletes, keys)
    ensures TraceOk(trace + Tagged(p, Line(true, upserts) + Line(false, deletes)), partitions, keys)
  {
    hide KeysInTable;
  }

  /** The jobs one after another: the table commits, the store takes the entries, the trace grows. */
  method Work(table: Table, jobs: seq<Job>, db0s: seq<Db>)
    returns (dbs: seq<Db>, trace: seq<(nat, Record)>, ghost log: seq<(nat, seq<Write>)>)
    requires table.Valid() && |db0s| == table.nPartitions
    requires forall p :: 0 <= p < table.nPartitions ==> Consistent(table.Slice(p), db0s[p])
    requires forall i :: 0 <= i < |jobs| ==> JobOk(jobs[i], table.nPartitions, table.maxKey)
    modifies table.values
    ensures |log| == |jobs| && forall i :: 0 <= i < |log| ==> log[i].0 == jobs[i].p && BatchOf(jobs[i], log[i].1)
    ensures AllGoing(old(Slices(table)), db0s, log, Slices(table), dbs, trace)
    ensures TraceOk(trace, table.nPartitions, table.maxKey)
  {
    hide Going, Consistent, CommitBatch, ApplyBatch, Lines, EntriesOf, BatchOf, LinesOf, BatchesFor, TraceOk, Tagged,
         DistinctKeys;
    ghost var t0s := Slices(table);
    dbs, trace, log := db0s, [], [];
    assert AllGoing(t0s, db0s, [], t0s, dbs, []) by {
      forall p | 0 <= p < |t0s|
        ensures Going(t0s[p], db0s[p], BatchesFor([], p), t0s[p], dbs[p], LinesOf([], p))
      {
        GoingStart(t0s[p], db0s[p], p);
      }
    }
    NoTrace(table.nPartitions, table.maxKey);
    for i := 0 to |jobs|
      invariant |log| == i && forall j :: 0 <= j < i ==> log[j].0 == jobs[j].p && BatchOf(jobs[j], log[j].1)
      invariant AllGoing(t0s, db0s, log, Slices(table), dbs, trace)
      invariant TraceOk(trace, table.nPartitions, table.maxKey)
    {
      var job := jobs[i];
      ghost var ts := Slices(table);
      var lines, entries;
      ghost var batch;
      lines, entries, batch := table.MixedOps(job.p, job.keys, job.dice);
      assert BatchOf(job, batch) by { BatchIs(job, batch); }
      EntriesInTable(batch, ts[job.p], entries);
      GoingInTable(t0s[job.p], db0s[job.p], BatchesFor(log, job.p), ts[job.p], dbs[job.p], LinesOf(trace, job.p));
      var db := Store(dbs[job.p], entries, ts[job.p], batch);
      assert Slices(table) == ts[job.p := CommitBatch(ts[job.p], batch)];
      AllGoingOn(t0s, db0s, log, ts, dbs, trace, job.p, batch);
      LinesInTrace(trace, job.p, batch, table.nPartitions, table.maxKey);
      dbs := dbs[job.p := db];
      trace := trace + Tagged(job.p, lines);
      log := log + [(job.p, batch)];
    }
  }

  lemma NoTrace(partitions: nat, keys: nat)
    ensures TraceOk([], partitions, keys)
  {
  }

  lemma BatchIs(j: Job, batch: seq<Write>)
    requires |batch| == |j.keys| == |j.dice| && multiset(KeyOrder(batch)) == multiset(j.keys)
    requires Ascending(KeyOrder(batch)) && forall i :: 0 <= i < |batch| ==> batch[i].put == j.dice[i]
    ensures BatchOf(j, batch)
  {
  }

  lemma EntriesInTable(batch: seq<Write>, t: seq<nat>, entries: seq<Entry>)
    requires EntriesOf(batch, t, entries)
    ensures InTable(batch, |t|)
  {
  }

  lemma LinesInTrace(trace: seq<(nat, Record)>, p: nat, batch: seq<Write>, partitions: nat, keys: nat)
    requires TraceOk(trace, partitions, keys) && p < partitions && InTable(batch, keys)
    ensures TraceOk(trace + Tagged(p, Lines(batch)), partitions, keys)
  {
    hide TraceOk, KeysInTable, Tagged;
    KeysOfInTable(batch, true, keys);
    KeysOfInTable(batch, false, keys);
    TraceMore(trace, p, KeysOf(batch, true), KeysOf(batch, false), partitions, keys);
  }

  // ---- The crash. ----

  /** What the batch in flight still writes to the trace. */
  function LastLines(f: Flight): seq<Record>
    requires CrashOk(f.batch, f.crash)
  {
    Line(true, Upserts(f.batch, f.crash)) + Line(false, Deletes(f.batch, f.crash))
  }

  method Crash(table: Table, dbs: seq<Db>, trace: seq<(nat, Record)>, flights: seq<Flight>)
    returns (dbs': seq<Db>, trace': seq<(nat, Record)>)
    requires table.Valid() && |dbs| == |flights| == table.nPartitions
    requires TraceOk(trace, table.nPartitions, table.maxKey)
    requires forall p :: 0 <= p < table.nPartitions ==> FlightOk(flights[p], table.maxKey)
    ensures TraceOk(trace', table.nPartitions, table.maxKey) && |dbs'| == |dbs|
    ensures forall p :: 0 <= p < |dbs| ==>
      && FlightOk(flights[p], table.maxKey)
      && dbs'[p] == CrashDb(dbs[p], table.Slice(p), flights[p].batch, flights[p].crash)
      && LinesOf(trace', p) == LinesOf(trace, p) + LastLines(flights[p])
  {
    hide CrashDb, LinesOf, TraceOk, Tagged, CrashOk, InTable, DistinctKeys;
    dbs', trace' := [], trace;
    for p := 0 to |dbs|
      invariant |dbs'| == p && TraceOk(trace', table.nPartitions, table.maxKey)
      invariant forall q :: 0 <= q < p ==>
        && FlightOk(flights[q], table.maxKey)
        && dbs'[q] == CrashDb(dbs[q], table.Slice(q), flights[q].batch, flights[q].crash)
        && LinesOf(trace', q) == LinesOf(trace, q) + LastLines(flights[q])
      invariant forall q :: p <= q < |dbs| ==> LinesOf(trace', q) == LinesOf(trace, q)
    {
      hide LastLines;
      var f := flights[p];
      table.InVector(p);
      var t := table.values[table.At(p, 0)..table.At(p, 0) + table.maxKey];
      dbs' := dbs' + [CrashDb(dbs[p], t, f.batch, f.crash)];
      forall q | 0 <= q < |dbs|
        ensures LinesOf(trace' + Tagged(p, LastLines(f)), q)
             == LinesOf(trace', q) + (if p == q then LastLines(f) else [])
      {
        LinesOfTagged(trace', p, LastLines(f), q);
      }
      LastInTrace(trace', p, f, table.nPartitions, table.maxKey);
      trace' := trace' + Tagged(p, LastLines(f));
    }
  }

  lemma LastInTrace(trace: seq<(nat, Record)>, p: nat, f: Flight, partitions: nat, keys: nat)
    requires TraceOk(trace, partitions, keys) && p < partitions && FlightOk(f, keys)
    ensures TraceOk(trace + Tagged(p, LastLines(f)), partitions, keys)
  {
    hide TraceOk, KeysInTable, Tagged, CrashOk, InTable, DistinctKeys, Upserts, Deletes;
    CrashKeysInTable(f.batch, f.crash, keys);
    TraceMore(trace, p, Upserts(f.batch, f.crash), Deletes(f.batch, f.crash), partitions, keys);
  }

  /** Trace and database after the crash are those of the epoch. */
  lemma LeftByCrash(t0: seq<nat>, db0: Db, batches: seq<seq<Write>>, t: seq<nat>, db: Db, lines: seq<Record>, f: Flight)
    requires Going(t0, db0, batches, t, db, lines) && FlightOk(f, |t0|)
    ensures var e := Epoch(batches, f.batch, f.crash);
      && EpochOk(e, |t0|) && LeftTrace(t0, db0, e) == lines + LastLines(f)
      && CrashedDb(t0, db0, e) == CrashDb(db, t, f.batch, f.crash)
  {
    hide AfterBatches, CrashDb, CrashOk, InTable, DistinctKeys, BatchesOk, Upserts, Deletes;
  }

  // ---- The next start-up. ----

  /** A partition in a saved table. */
  ghost function SavedSlice(table: Table, saved: seq<nat>, p: nat): (s: seq<nat>)
    requires table.Valid() && |saved| == table.values.Length && p < table.nPartitions
    ensures |s| == table.maxKey
  {
    table.InVector(p);
    saved[table.At(p, 0)..table.At(p, 0) + table.maxKey]
  }

  /** ValuesFromFileToMem: the table as it was saved. */
  method Load(table: Table, saved: seq<nat>)
    requires table.Valid() && |saved| == table.values.Length
    modifies table.values
    ensures forall p :: 0 <= p < table.nPartitions ==> table.Slice(p) == SavedSlice(table, saved, p)
  {
    forall i | 0 <= i < |saved| {
      table.values[i] := saved[i];
    }
    assert table.values[..] == saved;
  }

  // ---- What a plan means for one partition. ----

  /** The batch of a job. */
  ghost function JobBatch(j: Job): seq<Write> {
    var sorted := SortedOf(j.keys);
    seq(|sorted|, i requires 0 <= i < |sorted| => Write(sorted[i], i < |j.dice| && j.dice[i]))
  }

  lemma BatchIsUnique(j: Job, batch: seq<Write>)
    requires BatchOf(j, batch)
    ensures batch == JobBatch(j)
  {
    SortedIsUnique(KeyOrder(batch), SortedOf(j.keys));
    forall i | 0 <= i < |batch|
      ensures batch[i] == JobBatch(j)[i]
    {
      assert KeyOrder(batch)[i] == batch[i].key;
    }
  }

  ghost function LogFor(jobs: seq<Job>): seq<(nat, seq<Write>)> {
    seq(|jobs|, i requires 0 <= i < |jobs| => (jobs[i].p, JobBatch(jobs[i])))
  }

  lemma LogIs(log: seq<(nat, seq<Write>)>, jobs: seq<Job>)
    requires |log| == |jobs| && forall i :: 0 <= i < |log| ==> log[i].0 == jobs[i].p && BatchOf(jobs[i], log[i].1)
    ensures log == LogFor(jobs)
  {
    hide JobBatch, BatchOf;
    forall i | 0 <= i < |log|
      ensures log[i] == LogFor(jobs)[i]
    {
      BatchIsUnique(jobs[i], log[i].1);
    }
  }

  /** The finished batches of the partition and the one the crash interrupts. */
  ghost function EpochOf(plan: Plan, p: nat): Epoch
    requires p < |plan.flights|
  {
    Epoch(BatchesFor(LogFor(plan.jobs), p), plan.flights[p].batch, plan.flights[p].crash)
  }

  // ---- From one start-up to the next. ----

  /** One partition between two start-ups: where it began, how the run ended for it, what trace and database show. */
  ghost predicate Ended(t: seq<nat>, db0: Db, e: Epoch, lines: seq<Record>, db: Db) {
    Consistent(t, db0) && EpochOk(e, |t|) && lines == LeftTrace(t, db0, e) && db == CrashedDb(t, db0, e)
  }

  /** Jobs, then the crash. */
  method WorkAndCrash(table: Table, plan: Plan, db0s: seq<Db>) returns (dbs: seq<Db>, trace: seq<(nat, Record)>)
    requires table.Valid() && |db0s| == table.nPartitions && PlanOk(plan, table.nPartitions, table.maxKey)
    requires forall p :: 0 <= p < table.nPartitions ==> Consistent(table.Slice(p), db0s[p])
    modifies table.values
    ensures |dbs| == table.nPartitions && TraceOk(trace, table.nPartitions, table.maxKey)
    ensures forall p :: 0 <= p < |dbs| ==>
      Ended(old(table.Slice(p)), db0s[p], EpochOf(plan, p), LinesOf(trace, p), dbs[p])
  {
    hide Consistent, Going, LinesOf, BatchesFor, TraceOk, CrashedDb, CrashDb, LastLines, FlightOk, JobOk, EpochOk,
         BatchOf, LeftTrace, LogFor;
    ghost var t0s := Slices(table);
    var mid, lines;
    ghost var log;
    mid, lines, log := Work(table, plan.jobs, db0s);
    LogIs(log, plan.jobs);
    dbs, trace := Crash(table, mid, lines, plan.flights);
    forall p | 0 <= p < |dbs|
      ensures Ended(t0s[p], db0s[p], EpochOf(plan, p), LinesOf(trace, p), dbs[p])
    {
      LeftByCrash(t0s[p], db0s[p], BatchesFor(log, p), table.Slice(p), mid[p], LinesOf(lines, p), plan.flights[p]);
    }
  }

  lemma EndedInTable(t: seq<nat>, db0: Db, e: Epoch, lines: seq<Record>, db: Db)
    requires Ended(t, db0, e, lines, db)
    ensures db == CrashedDb(t, db0, e) && forall k :: k in db ==> k < |t|
  {
    hide AfterBatches, ConsistentAt, CrashOk, CrashDb, LeftTrace;
    var w := AfterBatches(World(t, db0, []), e.batches);
    GoingInTable(t, db0, e.batches, w.t, w.db, w.trace);
    CrashDbKeys(w.db, w.t, e.last, e.crash);
  }

  /** Scans of all partitions. */
  method ScanAll(keys: nat, dbs: seq<Db>) returns (scans: seq<seq<(nat, nat)>>)
    requires forall p, k :: 0 <= p < |dbs| && k in dbs[p] ==> k < keys
    ensures |scans| == |dbs| && forall p :: 0 <= p < |dbs| ==> Lists(scans[p], dbs[p])
  {
    hide Lists;
    scans := [];
    for p := 0 to |dbs|
      invariant |scans| == p && forall q :: 0 <= q < p ==> Lists(scans[q], dbs[q])
    {
      var scan := Scan(dbs[p], keys);
      scans := scans + [scan];
    }
  }

  /** The start-up after the crash: load the saved table, replay the trace, merge with the database. */
  method StartUp(table: Table, saved: seq<nat>, trace: seq<(nat, Record)>, dbs: seq<Db>, ghost t0s: seq<seq<nat>>,
                 ghost db0s: seq<Db>, ghost epochs: seq<Epoch>)
    returns (ok: bool)
    requires table.Valid() && |dbs| == |t0s| == |db0s| == |epochs| == table.nPartitions
    requires |saved| == table.values.Length && TraceOk(trace, table.nPartitions, table.maxKey)
    requires forall p :: 0 <= p < |dbs| ==> SavedSlice(table, saved, p) == t0s[p]
    requires forall p :: 0 <= p < |dbs| ==> Ended(t0s[p], db0s[p], epochs[p], LinesOf(trace, p), dbs[p])
    modifies table.values
    ensures ok <==> forall p :: 0 <= p < |dbs| ==> Recoverable(t0s[p], db0s[p], epochs[p])
    ensures ok ==> forall p :: 0 <= p < |dbs| ==>
      table.Slice(p) == NextTable(t0s[p], db0s[p], epochs[p]) && Consistent(table.Slice(p), dbs[p])
  {
    hide Consistent, LinesOf, Recoverable, CrashedDb, EpochOk, Lists, LeftTrace, KeysInTable, NextTable, Crashed, Ended,
         SavedSlice, Table.Slice;
    forall p | 0 <= p < |dbs|
      ensures |t0s[p]| == table.maxKey && dbs[p] == CrashedDb(t0s[p], db0s[p], epochs[p])
      ensures forall k :: k in dbs[p] ==> k < |t0s[p]|
    {
      EndedInTable(t0s[p], db0s[p], epochs[p], LinesOf(trace, p), dbs[p]);
    }
    var scans := ScanAll(table.maxKey, dbs);
    Load(table, saved);
    forall p | 0 <= p < table.nPartitions
      ensures table.Slice(p) == t0s[p] && Crashed(table.Slice(p), db0s[p], epochs[p], LinesOf(trace, p), scans[p])
    {
      EndedIsCrashed(t0s[p], db0s[p], epochs[p], LinesOf(trace, p), dbs[p], scans[p]);
    }
    ok := table.Restart(trace, scans, db0s, epochs);
  }

  lemma EndedIsCrashed(t: seq<nat>, db0: Db, e: Epoch, lines: seq<Record>, db: Db, scan: seq<(nat, nat)>)
    requires Ended(t, db0, e, lines, db) && Lists(scan, db)
    ensures Crashed(t, db0, e, lines, scan)
  {
    hide Consistent, EpochOk, LeftTrace, CrashedDb, Lists;
  }

  /**
   From one start-up to the next: save the table, work, crash, start up.  The start-up succeeds exactly when
   every partition is recoverable, and then the table agrees with what the crash left.
   */
  method LiveOnce(table: Table, plan: Plan, db0s: seq<Db>) returns (ok: bool, dbs: seq<Db>)
    requires table.Valid() && |db0s| == table.nPartitions && PlanOk(plan, table.nPartitions, table.maxKey)
    requires forall p :: 0 <= p < table.nPartitions ==> Consistent(table.Slice(p), db0s[p])
    modifies table.values
    ensures |dbs| == table.nPartitions
    ensures forall p :: 0 <= p < |dbs| ==> dbs[p] == CrashedDb(old(table.Slice(p)), db0s[p], EpochOf(plan, p))
    ensures ok <==> forall p :: 0 <= p < |dbs| ==> Recoverable(old(table.Slice(p)), db0s[p], EpochOf(plan, p))
    ensures ok ==> forall p :: 0 <= p < |dbs| ==>
      && table.Slice(p) == NextTable(old(table.Slice(p)), db0s[p], EpochOf(plan, p))
      && Consistent(table.Slice(p), dbs[p])
  {
    hide Consistent, TraceOk, EpochOf, LinesOf, Recoverable, NextTable, CrashedDb, EpochOk, LeftTrace, FlightOk, JobOk,
         Ended;
    var saved := table.values[..];
    ghost var t0s := Slices(table);
    var trace;
    dbs, trace := WorkAndCrash(table, plan, db0s);
    ghost var epochs := seq(|dbs|, p requires 0 <= p < |dbs| => EpochOf(plan, p));
    forall p | 0 <= p < |dbs|
      ensures SavedSlice(table, saved, p) == t0s[p] && dbs[p] == CrashedDb(t0s[p], db0s[p], epochs[p])
    {
      EndedInTable(t0s[p], db0s[p], epochs[p], LinesOf(trace, p), dbs[p]);
    }
    ok := StartUp(table, saved, trace, dbs, t0s, db0s, epochs);
  }

  // ---- Any number of runs. ----

  /** Table and database of one partition after these runs. */
  ghost function Lived(t: seq<nat>, db: Db, epochs: seq<Epoch>): (seq<nat>, Db) {
    if epochs == [] then (t, db) else
      var n := |epochs| - 1;
      var w := Lived(t, db, epochs[..n]);
      (NextTable(w.0, w.1, epochs[n]), CrashedDb(w.0, w.1, epochs[n]))
  }

  lemma LivedNext(t: seq<nat>, db: Db, epochs: seq<Epoch>, n: nat)
    requires n < |epochs|
    ensures var w := Lived(t, db, epochs[..n]);
            Lived(t, db, epochs[..n + 1]) == (NextTable(w.0, w.1, epochs[n]), CrashedDb(w.0, w.1, epochs[n]))
  {
    hide NextTable, CrashedDb;
    assert epochs[..n + 1][..n] == epochs[..n];
  }

  /** Every crash of these runs can be recovered from. */
  ghost predicate GoesWell(t: seq<nat>, db: Db, epochs: seq<Epoch>) {
    forall i :: 0 <= i < |epochs| ==> RecoverableAt(t, db, epochs, i)
  }

  ghost predicate RecoverableAt(t: seq<nat>, db: Db, epochs: seq<Epoch>, i: nat)
    requires i < |epochs|
  {
    var w := Lived(t, db, epochs[..i]);
    Recoverable(w.0, w.1, epochs[i])
  }

  ghost function EpochsOf(plans: seq<Plan>, p: nat): (r: seq<Epoch>)
    requires forall i :: 0 <= i < |plans| ==> p < |plans[i].flights|
    ensures |r| == |plans| && forall i :: 0 <= i < |r| ==> r[i] == EpochOf(plans[i], p)
  {
    seq(|plans|, i requires 0 <= i < |plans| => EpochOf(plans[i], p))
  }

  ghost predicate PlansOk(plans: seq<Plan>, partitions: nat, keys: nat) {
    forall i :: 0 <= i < |plans| ==> |plans[i].flights| == partitions && PlanOk(plans[i], partitions, keys)
  }

  /** A table as ResetValues leaves it. */
  function Reset(keys: nat): seq<nat> {
    seq(keys, _ => DEL_MASK)
  }

  /** A table on which nothing has happened, and empty databases. */
  method Fresh(keys: nat, partitions: nat) returns (table: Table, dbs: seq<Db>)
    ensures fresh(table) && fresh(table.values) && table.Valid()
    ensures table.maxKey == keys && table.nPartitions == partitions
    ensures |dbs| == partitions && forall p :: 0 <= p < partitions ==> dbs[p] == map[]
    ensures forall p :: 0 <= p < partitions ==> table.Slice(p) == Reset(keys) && Consistent(table.Slice(p), dbs[p])
  {
    hide Consistent;
    table := new Table(keys, partitions);
    table.ResetValues();
    dbs := seq(partitions, _ => map[]);
    ResetIsConsistent(keys);
    forall p | 0 <= p < partitions
      ensures table.Slice(p) == Reset(keys)
    {
      table.InVector(p);
    }
  }

  /** Partition `p` after the first `n` runs, all of which went well. */
  ghost predicate Sofar(keys: nat, epochs: seq<Epoch>, n: nat, t: seq<nat>, db: Db) {
    && n <= |epochs| && Lived(Reset(keys), map[], epochs[..n]) == (t, db)
    && forall i :: 0 <= i < n ==> RecoverableAt(Reset(keys), map[], epochs, i)
  }

  lemma SofarStart(keys: nat, epochs: seq<Epoch>)
    ensures Sofar(keys, epochs, 0, Reset(keys), map[])
  {
    assert epochs[..0] == [];
  }

  lemma SofarNext(keys: nat, epochs: seq<Epoch>, n: nat, t: seq<nat>, db: Db)
    requires Sofar(keys, epochs, n, t, db) && n < |epochs|
    ensures Recoverable(t, db, epochs[n]) ==>
      Sofar(keys, epochs, n + 1, NextTable(t, db, epochs[n]), CrashedDb(t, db, epochs[n]))
    ensures !Recoverable(t, db, epochs[n]) ==> !GoesWell(Reset(keys), map[], epochs)
  {
    hide Lived, Recoverable, NextTable, CrashedDb, Reset;
    LivedNext(Reset(keys), map[], epochs, n);
    assert RecoverableAt(Reset(keys), map[], epochs, n) <==> Recoverable(t, db, epochs[n]);
  }

  lemma SofarEnd(keys: nat, epochs: seq<Epoch>, t: seq<nat>, db: Db)
    requires Sofar(keys, epochs, |epochs|, t, db)
    ensures GoesWell(Reset(keys), map[], epochs) && db == Lived(Reset(keys), map[], epochs).1
  {
    hide Lived, Reset, RecoverableAt;
    assert epochs[..|epochs|] == epochs;
  }

  /**
   The whole life of a test from empty databases on: it ends well exactly when every crash of every partition can be
   recovered from, and then the databases are what the last crash left.
   */
  method Life(keys: nat, partitions: nat, plans: seq<Plan>) returns (ok: bool, dbs: seq<Db>)
    requires PlansOk(plans, partitions, keys)
    ensures ok <==> forall p :: 0 <= p < partitions ==> GoesWell(Reset(keys), map[], EpochsOf(plans, p))
    ensures ok ==> |dbs| == partitions
    ensures ok ==> forall p :: 0 <= p < partitions ==> dbs[p] == Lived(Reset(keys), map[], EpochsOf(plans, p)).1
  {
    hide Consistent, PlanOk, GoesWell, Lived, Sofar, Recoverable, NextTable, CrashedDb, Reset;
    var table;
    table, dbs := Fresh(keys, partitions);
    forall p | 0 <= p < partitions
      ensures Sofar(keys, EpochsOf(plans, p), 0, table.Slice(p), dbs[p])
    {
      SofarStart(keys, EpochsOf(plans, p));
    }
    for i := 0 to |plans|
      invariant fresh(table.values) && |dbs| == partitions
      invariant forall p :: 0 <= p < partitions ==> Consistent(table.Slice(p), dbs[p])
      invariant forall p :: 0 <= p < partitions ==> Sofar(keys, EpochsOf(plans, p), i, table.Slice(p), dbs[p])
    {
      forall p | 0 <= p < partitions
        ensures var e, t, db := EpochsOf(plans, p), table.Slice(p), dbs[p];
          && (Recoverable(t, db, e[i]) ==> Sofar(keys, e, i + 1, NextTable(t, db, e[i]), CrashedDb(t, db, e[i])))
          && (!Recoverable(t, db, e[i]) ==> !GoesWell(Reset(keys), map[], e))
      {
        SofarNext(keys, EpochsOf(plans, p), i, table.Slice(p), dbs[p]);
      }
      ok, dbs := LiveOnce(table, plans[i], dbs);
      if !ok {
        return;
      }
    }
    forall p | 0 <= p < partitions
      ensures GoesWell(Reset(keys), map[], EpochsOf(plans, p))
      ensures dbs[p] == Lived(Reset(keys), map[], EpochsOf(plans, p)).1
    {
      SofarEnd(keys, EpochsOf(plans, p), table.Slice(p), dbs[p]);
    }
    ok := true;
  }
}
