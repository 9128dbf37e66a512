/** The closed-file cache of CloudStoreMgr: the list, the map that owns its nodes and the per-table counters. */
module LruCache {
  import opened CleanerPlan
  import opened CleanerRuns
  import opened LruList
  import opened Sequences

  /** The keys between the two sentinels, most recently closed first. */
  ghost function Keys<K(0)>(s: seq<CachedFile<K>>): (r: seq<K>)
    requires |s| >= 2
    ensures |r| == |s| - 2
    ensures forall i :: 0 <= i < |r| ==> r[i] == s[i + 1].key
  {
    seq(|s| - 2, i requires 0 <= i < |s| - 2 => s[i + 1].key)
  }

  lemma KeysPut<K(0)>(s: seq<CachedFile<K>>, node: CachedFile<K>)
    requires |s| >= 2
    ensures Keys(s[..1] + [node] + s[1..]) == [node.key] + Keys(s)
  {
  }

  lemma KeysRemove<K(0)>(s: seq<CachedFile<K>>, i: nat)
    requires 0 < i < |s| - 1
    ensures Keys(s[..i] + s[i + 1..]) == Keys(s)[..i - 1] + Keys(s)[i..]
  {
  }

  lemma KeysPop<K(0)>(s: seq<CachedFile<K>>)
    requires |s| > 2
    ensures Keys(s[..|s| - 2] + s[|s| - 1..]) == Keys(s)[..|s| - 3] && Keys(s)[|s| - 3] == s[|s| - 2].key
  {
  }

  /** The map owns exactly the nodes between the sentinels, each under its own key. */
  ghost predicate Indexed<K(0, !new)>(closed: map<K, CachedFile<K>>, s: seq<CachedFile<K>>)
    requires |s| >= 2
  {
    && (forall i :: 0 < i < |s| - 1 ==> s[i].key in closed && closed[s[i].key] == s[i])
    && (forall k :: k in closed ==> exists i :: 0 < i < |s| - 1 && s[i] == closed[k] && s[i].key == k)
  }

  lemma IndexPut<K(0, !new)>(closed: map<K, CachedFile<K>>, s: seq<CachedFile<K>>, node: CachedFile<K>)
    requires |s| >= 2 && Indexed(closed, s) && node.key !in closed
    ensures Indexed(closed[node.key := node], s[..1] + [node] + s[1..])
  {
    var t := s[..1] + [node] + s[1..];
    var more := closed[node.key := node];
    forall k | k in more
      ensures exists i :: 0 < i < |t| - 1 && t[i] == more[k] && t[i].key == k
    {
      if k == node.key {
        assert t[1] == node;
      } else {
        var i :| 0 < i < |s| - 1 && s[i] == closed[k] && s[i].key == k;
        assert t[i + 1] == s[i];
      }
    }
    forall i | 0 < i < |t| - 1
      ensures t[i].key in more && more[t[i].key] == t[i]
    {
      if i > 1 {
        assert t[i] == s[i - 1];
      }
    }
  }

  lemma IndexRemove<K(0, !new)>(closed: map<K, CachedFile<K>>, s: seq<CachedFile<K>>, i: nat)
    requires 0 < i < |s| - 1 && Indexed(closed, s) && Distinct(s)
    ensures Indexed(closed - {s[i].key}, s[..i] + s[i + 1..])
  {
    var t := s[..i] + s[i + 1..];
    var rest := closed - {s[i].key};
    forall k | k in rest
      ensures exists j :: 0 < j < |t| - 1 && t[j] == rest[k] && t[j].key == k
    {
      var j :| 0 < j < |s| - 1 && s[j] == closed[k] && s[j].key == k;
      if j < i {
        assert t[j] == s[j];
      } else {
        assert t[j - 1] == s[j];
      }
    }
    forall j | 0 < j < |t| - 1
      ensures t[j].key in rest && rest[t[j].key] == t[j]
    {
      var u := if j < i then j else j + 1;
      assert t[j] == s[u];
    }
  }

  lemma LinkBack<K(0)>(s: seq<CachedFile<K>>, i: nat)
    requires Linked(s) && 0 < i < |s|
    ensures s[i].prev == s[i - 1]
  {
    assert Joined(s[i - 1], s[i]);
  }

  lemma Ends<K(0)>(s: seq<CachedFile<K>>, i: nat)
    requires Linked(s) && i < |s|
    ensures s[i] == s[0] <==> i == 0
  {
  }

  lemma KeysDistinct<K(0, !new)>(closed: map<K, CachedFile<K>>, s: seq<CachedFile<K>>)
    requires |s| >= 2 && Indexed(closed, s) && Linked(s)
    ensures Distinct(Keys(s))
    ensures forall k :: k in Keys(s) <==> k in closed
  {
    var keys := Keys(s);
    forall i, j | 0 <= i < j < |keys|
      ensures keys[i] != keys[j]
    {
      assert closed[s[i + 1].key] == s[i + 1] && closed[s[j + 1].key] == s[j + 1];
    }
    forall k | k in closed
      ensures k in keys
    {
      var i :| 0 < i < |s| - 1 && s[i] == closed[k] && s[i].key == k;
      assert keys[i - 1] == k;
    }
  }

  lemma Owned<K(0, !new)>(closed: map<K, CachedFile<K>>, s: seq<CachedFile<K>>, i: nat)
    requires 0 < i < |s| - 1 && Indexed(closed, s)
    ensures s[i].key in closed && closed[s[i].key] == s[i] && Keys(s)[i - 1] == s[i].key
  {
  }

  // ---- Unlink requests in flight. ----

  ghost function RequestKeys<K(0)>(requests: seq<CachedFile<K>>): (r: seq<K>)
    ensures |r| == |requests| && forall i :: 0 <= i < |r| ==> r[i] == requests[i].key
  {
    seq(|requests|, i requires 0 <= i < |requests| => requests[i].key)
  }

  /** Every file with a request in flight is marked as being evicted and still owned by the map. */
  ghost predicate InFlight<K(0, !new)>(requests: seq<CachedFile<K>>, evicting: set<K>, closed: map<K, CachedFile<K>>) {
    && Distinct(RequestKeys(requests))
    && forall i :: 0 <= i < |requests| ==>
         requests[i].key in evicting && requests[i].key in closed && closed[requests[i].key] == requests[i]
  }

  lemma FlightPut<K(0, !new)>(requests: seq<CachedFile<K>>, evicting: set<K>, closed: map<K, CachedFile<K>>,
                              node: CachedFile<K>)
    requires InFlight(requests, evicting, closed) && node.key !in closed
    ensures InFlight(requests, evicting, closed[node.key := node])
  {
  }

  lemma FlightDrop<K(0, !new)>(requests: seq<CachedFile<K>>, evicting: set<K>, closed: map<K, CachedFile<K>>, key: K)
    requires InFlight(requests, evicting, closed) && key !in evicting
    ensures InFlight(requests, evicting, closed - {key})
  {
  }

  lemma FlightStart<K(0, !new)>(requests: seq<CachedFile<K>>, evicting: set<K>, closed: map<K, CachedFile<K>>, key: K)
    requires InFlight(requests, evicting, closed) && key in closed && closed[key].key == key && key !in evicting
    ensures InFlight(requests + [closed[key]], evicting + {key}, closed)
    ensures RequestKeys(requests + [closed[key]]) == RequestKeys(requests) + [key]
  {
  }

  lemma FlightDone<K(0, !new)>(requests: seq<CachedFile<K>>, evicting: set<K>, closed: map<K, CachedFile<K>>)
    requires InFlight(requests, evicting, closed) && requests != []
    ensures requests[0].key in closed && closed[requests[0].key] == requests[0]
    ensures InFlight(requests[1..], evicting - {requests[0].key}, closed)
    ensures InFlight(requests[1..], evicting - {requests[0].key}, closed - {requests[0].key})
    ensures RequestKeys(requests[1..]) == RequestKeys(requests)[1..]
  {
    forall i | 0 <= i < |requests[1..]|
      ensures requests[1..][i].key != requests[0].key
    {
      assert RequestKeys(requests)[0] != RequestKeys(requests)[i + 1];
    }
  }

  class ClosedFiles<K(0, ==, !new), T(==, !new)> {
    const head: CachedFile<K>
    const tail: CachedFile<K>
    const table: K -> T
    var closed: map<K, CachedFile<K>>
    var counts: map<T, nat>
    var used: nat
    /** `pending_gc_cleanup_`, `evicting_paths_` and the unlink requests of the cleaner. */
    var pending: set<K>
    var evicting: set<K>
    var requests: seq<CachedFile<K>>
    /** The whole chain, sentinels included. */
    ghost var list: seq<CachedFile<K>>

    /** List, map and counters agree. */
    ghost predicate Chained()
      reads this`closed, this`counts, this`list, list
    {
      && |list| >= 2 && list[0] == head && list[|list| - 1] == tail
      && Linked(list) && Indexed(closed, list) && Tallied(counts, Keys(list), table)
    }

    ghost predicate Valid()
      reads this, list
    {
      Chained() && InFlight(requests, evicting, closed)
    }

    constructor (table: K -> T, none: K)
      ensures Valid() && Keys(list) == [] && used == 0 && fresh(list) && this.table == table
      ensures pending == evicting == {} && requests == []
    {
      var h := new CachedFile<K>(none);
      var t := new CachedFile<K>(none);
      h.next := t;
      t.prev := h;
      head, tail, this.table, closed, counts, used, list := h, t, table, map[], map[], 0, [h, t];
      pending, evicting, requests := {}, {}, [];
    }

    /** EnqueClosedFile: the newest file goes to the front. */
    method Enque(key: K)
      requires Valid() && key !in closed
      modifies this`closed, this`counts, this`list, list
      ensures Valid() && Keys(list) == [key] + old(Keys(list))
      ensures fresh(set n | n in list && n !in old(list))
    {
      hide Linked, Indexed, Tallied, Keys, InFlight;
      var node := new CachedFile<K>(key);
      KeysPut(list, node);
      IndexPut(closed, list, node);
      TallyPut(counts, Keys(list), table, key);
      FlightPut(requests, evicting, closed, node);
      var t := table(key);
      head.EnqueNext(node, list, 0);
      closed := closed[key := node];
      counts := counts[t := (if t in counts then counts[t] else 0) + 1];
      list := list[..1] + [node] + list[1..];
    }

    /** Deque, DecrementClosedFileCount (whose two CHECKs hold) and the erasure from the map. */
    method Drop(node: CachedFile<K>, ghost i: nat)
      requires Chained() && 0 < i < |list| - 1 && list[i] == node
      modifies this`closed, this`counts, this`list, list
      ensures Chained() && list == old(list[..i] + list[i + 1..]) && closed == old(closed) - {node.key}
    {
      hide Indexed, Tallied, Keys;
      KeysRemove(list, i);
      IndexRemove(closed, list, i);
      TallyRemove(counts, Keys(list), table, i - 1);
      node.Deque(list, i);
      var t := table(node.key);
      counts := if counts[t] == 1 then counts - {t} else counts[t := counts[t] - 1];
      closed := closed - {node.key};
      list := list[..i] + list[i + 1..];
    }

    /** The map leads to the node's place in the list. */
    ghost method Place(key: K) returns (i: nat)
      requires Chained() && key in closed
      ensures 0 < i < |list| - 1 && list[i] == closed[key] && list[i].key == key && Keys(list)[i - 1] == key
    {
      hide Tallied, Linked;
      i :| 0 < i < |list| - 1 && list[i] == closed[key] && list[i].key == key;
    }

    /** The same for a file given by its key. */
    method DropKey(key: K)
      requires Chained() && key in closed
      modifies this`closed, this`counts, this`list, list
      ensures Chained() && Keys(list) == Survivors(old(Keys(list)), {key}) && closed == old(closed) - {key}
      ensures forall i :: 0 <= i < |list| ==> list[i] in old(list)
    {
      hide Tallied, Linked, Indexed, Keys;
      KeysDistinct(closed, list);
      ghost var i := Place(key);
      KeysRemove(list, i);
      SurviveOne(Keys(list), i - 1);
      Drop(closed[key], i);
    }

    /**
     DequeClosedFile once nobody evicts the file, which it waits for: cancels the scheduled cleanup and unlinks
     the file if it is cached.
     */
    method Deque(key: K) returns (found: bool)
      requires Valid() && key !in evicting
      modifies this`closed, this`counts, this`list, this`pending, list
      ensures Valid() && found == (key in old(Keys(list))) && pending == old(pending) - {key}
      ensures Keys(list) == Survivors(old(Keys(list)), {key})
      ensures forall i :: 0 <= i < |list| ==> list[i] in old(list)
    {
      hide Tallied, Linked, Indexed, Keys, InFlight;
      pending := pending - {key};
      KeysDistinct(closed, list);
      if key !in closed {
        OthersSurvive(Keys(list), key);
        return false;
      }
      FlightDrop(requests, evicting, closed, key);
      DropKey(key);
      return true;
    }

    /** What the cleaner sees of the cache. */
    ghost function Seen(): View<K>
      requires Chained()
      reads this`closed, this`counts, this`list, this`pending, list
    {
      View(Keys(list), pending)
    }

    /** What other tasks do while the cleaner is suspended; requests and marks stay as they are. */
    method Suspend(acts: seq<Act<K>>)
      requires Valid()
      modifies this`closed, this`counts, this`list, this`pending, list
      ensures Valid() && Seen() == AfterActs(old(Seen()), evicting, acts)
      ensures fresh(set n | n in list && n !in old(list))
    {
      hide Chained, InFlight, AfterAct;
      ghost var v := Seen();
      assert acts[..0] == [];
      for i := 0 to |acts|
        invariant Valid() && Seen() == AfterActs(v, evicting, acts[..i])
        invariant fresh(set n | n in list && n !in old(list))
      {
        AfterMore(v, evicting, acts, i);
        Perform(acts[i]);
      }
      assert acts[..|acts|] == acts;
    }

    method Perform(act: Act<K>)
      requires Valid()
      modifies this`closed, this`counts, this`list, this`pending, list
      ensures Valid() && Seen() == AfterAct(old(Seen()), evicting, act)
      ensures fresh(set n | n in list && n !in old(list))
    {
      hide Linked, Indexed, Tallied, Keys, InFlight, Survivors;
      KeysDistinct(closed, list);
      match act {
        case Enqueues(key) =>
          if key !in closed {
            Enque(key);
          }
        case Dequeues(key) =>
          if key !in evicting {
            var found := Deque(key);
          }
        case Schedules(keys, _) =>
          var queued := ScheduleCleanup(keys);
      }
    }

    /** ScheduleLocalFileCleanup: cached files that nobody evicts are noted for the cleaner. */
    method ScheduleCleanup(keys: seq<K>) returns (queued: bool)
      modifies this`pending
      ensures pending == old(pending) + (set k | k in keys && k in closed && k !in evicting)
      ensures queued <==> pending != old(pending)
    {
      queued := false;
      for i := 0 to |keys|
        invariant pending == old(pending) + (set k | k in keys[..i] && k in closed && k !in evicting)
        invariant queued <==> pending != old(pending)
      {
        assert keys[..i + 1] == keys[..i] + [keys[i]];
        var key := keys[i];
        if key !in closed || key in evicting || key in pending {
          continue;
        }
        pending := pending + {key};
        queued := true;
      }
      assert keys[..|keys|] == keys;
    }

    /** HasEvictableFile. */
    method HasEvictable() returns (r: bool)
      requires Chained()
      ensures r == (Keys(list) != [])
      ensures r ==> tail.prev == list[|list| - 2]
    {
      hide Indexed, Tallied, Keys;
      assert Joined(list[|list| - 2], list[|list| - 1]);
      return tail.prev != head;
    }

    /** TrimRestoredCacheUsage, before the cleaner runs: removes the oldest files until the rest fits. */
    method Trim(limit: nat, size: K -> nat, removable: K -> bool) returns (files: nat, bytes: nat)
      requires Valid() && requests == []
      modifies this`closed, this`counts, this`list, this`used, list
      ensures Valid()
      ensures var r := TrimTo(old(Keys(list)), old(used), limit, size, removable);
              Keys(list) == r.keys && used == r.used && files == r.files && bytes == r.bytes
    {
      hide Indexed, Tallied, Keys, Linked, TrimTo;
      files, bytes := 0, 0;
      ghost var goal := TrimTo(Keys(list), used, limit, size, removable);
      while used > limit
        invariant Chained() && forall k :: 0 <= k < |list| ==> list[k] in old(list)
        invariant var r := TrimTo(Keys(list), used, limit, size, removable);
                  goal == r.(files := r.files + files, bytes := r.bytes + bytes)
        decreases |list|
      {
        TrimStep(Keys(list), used, limit, size, removable);
        var more := HasEvictable();
        if !more {
          break;
        }
        var victim := tail.prev;
        KeysPop(list);
        if !removable(victim.key) {
          break;
        }
        Drop(victim, |list| - 2);
        var n := size(victim.key);
        used := if used > n then used - n else 0;
        files, bytes := files + 1, bytes + n;
      }
      TrimStep(Keys(list), used, limit, size, removable);
    }

    // ---- One round of FileCleaner::Run. ----

    /** StartEvictingKey and the next unlink request. */
    method Request(file: CachedFile<K>)
      requires Valid() && file.key in closed && closed[file.key] == file && file.key !in evicting
      modifies this`evicting, this`requests
      ensures Valid() && evicting == old(evicting) + {file.key} && requests == old(requests) + [file]
      ensures RequestKeys(requests) == old(RequestKeys(requests)) + [file.key]
    {
      hide Linked, Indexed, Tallied, Keys;
      FlightStart(requests, evicting, closed, file.key);
      evicting := evicting + {file.key};
      requests := requests + [file];
    }

    /** A request and the suspension until there is a slot for it. */
    method Submit(file: CachedFile<K>, acts: seq<Act<K>>)
      requires Valid() && file.key in closed && closed[file.key] == file && file.key !in evicting
      modifies this`closed, this`counts, this`list, this`pending, this`evicting, this`requests, list
      ensures Valid() && evicting == old(evicting) + {file.key} && requests == old(requests) + [file]
      ensures RequestKeys(requests) == old(RequestKeys(requests)) + [file.key]
      ensures Seen() == AfterActs(old(Seen()), evicting, acts)
      ensures fresh(set n | n in list && n !in old(list))
    {
      hide Chained, InFlight, AfterActs;
      Request(file);
      Suspend(acts);
    }

    /** One scheduled file: passed over unless it is cached and nobody evicts it. */
    method Collect(key: K, acts: seq<Act<K>>) returns (taken: bool)
      requires Valid()
      modifies this`closed, this`counts, this`list, this`pending, this`evicting, this`requests, list
      ensures Valid() && (taken <==> key in old(Seen()).keys && key !in old(evicting))
      ensures !taken ==> Seen() == old(Seen()) && evicting == old(evicting) && requests == old(requests)
      ensures taken ==> evicting == old(evicting) + {key}
      ensures taken ==> RequestKeys(requests) == old(RequestKeys(requests)) + [key]
      ensures taken ==> Seen() == AfterActs(old(Seen()).(pending := old(pending) - {key}), evicting, acts)
      ensures fresh(set n | n in list && n !in old(list))
    {
      hide Chained, InFlight, AfterActs, RequestKeys, Distinct;
      SeenKeys();
      if key !in closed || key in evicting {
        return false;
      }
      OwnKey(key);
      pending := pending - {key};
      Submit(closed[key], acts);
      return true;
    }

    /**
     The scheduled files, in the order in which the hash set lists them, with a suspension at every request.  The
     answer tells whether the iterator held; if not, nothing is promised of what the source does next.
     */
    method CollectGarbage(order: seq<K>, waits: seq<Wait<K>>) returns (valid: bool, ghost got: seq<K>)
      requires Valid()
      modifies this`closed, this`counts, this`list, this`pending, this`evicting, this`requests, list
      ensures Valid() && RequestKeys(requests) == old(RequestKeys(requests)) + got
      ensures Gathering(got, Seen(), evicting, valid) == Gather(old(Seen()), old(evicting), order, waits)
      ensures fresh(set n | n in list && n !in old(list))
    {
      hide Chained, InFlight, Gathers, Gather, Dangles, Resumed, AfterActs, RequestKeys, Distinct;
      got := [];
      ghost var goal := Gather(Seen(), evicting, order, waits);
      GatherBegin(Seen(), evicting, order, waits);
      assert waits[0..] == waits;
      var rest, n := order, 0;
      while rest != [] && n < |waits|
        invariant n <= |waits| && Valid() && RequestKeys(requests) == old(RequestKeys(requests)) + got
        invariant Gathers(goal, Seen(), evicting, rest, waits[n..], got)
        invariant fresh(set x | x in list && x !in old(list))
        decreases |waits| - n, |rest|
      {
        ghost var v, marks := Seen(), evicting;
        var key := rest[0];
        var taken := Collect(key, waits[n].acts);
        if !taken {
          GatherPass(goal, v, marks, rest, waits[n..], got);
          rest := rest[1..];
          continue;
        }
        GatherTake(goal, v, marks, rest, waits[n..], got);
        assert waits[n..][1..] == waits[n + 1..];
        rest := rest[1..];
        got := got + [key];
        if Dangles(rest, evicting, waits[n].acts) {
          return false, got;
        }
        rest := Resumed(rest, pending, waits[n].order);
        n := n + 1;
      }
      GatherEnds(goal, Seen(), evicting, rest, waits[n..], got);
      return true, got;
    }

    /**
     The pressure-eviction loop: walks back from the tail, with a suspension at every request.  The file the walk
     stands on is marked then, so it stays linked.
     */
    method PickVictims(waits: seq<Wait<K>>) returns (ghost victims: seq<K>)
      requires Valid()
      modifies this`closed, this`counts, this`list, this`pending, this`evicting, this`requests, list
      ensures Valid() && RequestKeys(requests) == old(RequestKeys(requests)) + victims
      ensures Swept(victims, Seen(), evicting) == Sweep(old(Seen()), old(evicting), |old(Keys(list))|, waits)
      ensures fresh(set n | n in list && n !in old(list))
    {
      hide Linked, Indexed, Tallied, Keys, InFlight, Sweeping, Sweep, AfterActs, Ahead, RequestKeys, Distinct;
      victims := [];
      ghost var goal := Sweep(Seen(), evicting, |Keys(list)|, waits);
      SweepStart(Seen(), evicting, waits);
      assert waits[0..] == waits;
      var file, n := tail.prev, 0;
      ghost var i := |Keys(list)|;
      LinkBack(list, i + 1);
      while file != head && n < |waits|
        invariant n <= |waits| && Valid() && RequestKeys(requests) == old(RequestKeys(requests)) + victims
        invariant 0 <= i <= |Keys(list)| && file == list[i] && Sweeping(goal, Seen(), evicting, i, waits[n..], victims)
        invariant fresh(set x | x in list && x !in old(list))
        decreases |waits| - n, i
      {
        Ends(list, i);
        Owned(closed, list, i);
        LinkBack(list, i);
        ghost var v := Seen();
        if file.key in pending || file.key in evicting {
          SweepPass(goal, v, evicting, i, waits[n..], victims);
          file, i := file.prev, i - 1;
          continue;
        }
        SweepTake(goal, v, evicting, i, waits[n..], victims);
        assert waits[n..][1..] == waits[n + 1..];
        Submit(file, waits[n].acts);
        victims := victims + [file.key];
        i := StillLinked(file);
        file := file.prev;
        n := n + 1;
      }
      Ends(list, i);
      SweepEnd(goal, Seen(), evicting, i, waits[n..], victims);
    }

    /** The file of the last request stands where the keys say, and its predecessor before it. */
    ghost method StillLinked(file: CachedFile<K>) returns (i: nat)
      requires Valid() && requests != [] && requests[|requests| - 1] == file
      ensures i == Ahead(Keys(list), file.key) < |Keys(list)| && list[i + 1] == file && file.prev == list[i]
    {
      hide Tallied, Keys;
      SeenKeys();
      i := Ahead(Keys(list), file.key);
      Owned(closed, list, i + 1);
      LinkBack(list, i + 1);
    }

    lemma SeenKeys()
      requires Chained()
      ensures Distinct(Keys(list)) && forall k :: k in Keys(list) <==> k in closed
    {
      hide Tallied, Linked, Indexed;
      KeysDistinct(closed, list);
    }

    lemma OwnKey(key: K)
      requires Chained() && key in closed
      ensures closed[key].key == key
    {
      hide Tallied, Linked;
    }

    /** One finished request: an unlinked file leaves the cache and its space; the mark goes either way. */
    method Finish(unlinked: bool, size: K -> nat)
      requires Valid() && requests != []
      modifies this`closed, this`counts, this`list, this`used, this`evicting, this`requests, list
      ensures Valid() && |requests| == |old(requests)| - 1
      ensures RequestKeys(requests) == old(RequestKeys(requests))[1..]
      ensures var key := old(RequestKeys(requests))[0];
        && Keys(list) == (if unlinked then Survivors(old(Keys(list)), {key}) else old(Keys(list)))
        && used == (if unlinked then Less(old(used), size(key)) else old(used))
        && evicting == old(evicting) - {key}
      ensures forall k :: 0 <= k < |list| ==> list[k] in old(list)
    {
      hide Indexed, Tallied, Linked, Keys, InFlight, Survivors, Less, Distinct;
      var file := requests[0];
      FlightDone(requests, evicting, closed);
      if unlinked {
        used := Less(used, size(file.key));
        DropKey(file.key);
      }
      evicting := evicting - {file.key};
      requests := requests[1..];
    }

    /**
     The end of the round: what was unlinked leaves the cache and its space, and every mark goes.  The nodes the
     requests point at are still in the list, whatever other tasks did meanwhile.
     */
    method Complete(ok: seq<bool>, size: K -> nat)
      requires Valid() && |ok| == |requests|
      modifies this`closed, this`counts, this`list, this`used, this`evicting, this`requests, list
      ensures Valid() && requests == []
      ensures var reqs := old(RequestKeys(requests));
              var gone := Unlinked(reqs, ok);
        && Keys(list) == Survivors(old(Keys(list)), Elements(gone)) && used == Less(old(used), Total(gone, size))
        && evicting == old(evicting) - Elements(reqs)
    {
      hide Linked, Indexed, Tallied, Keys, InFlight, Survivors, Unlinked, Total, Less, Elements;
      ghost var keys, reqs := Keys(list), RequestKeys(requests);
      NoneUnlinked(keys, used, reqs, ok, size);
      for n := 0 to |ok|
        invariant Valid() && |requests| == |ok| - n && RequestKeys(requests) == reqs[n..]
        invariant forall k :: 0 <= k < |list| ==> list[k] in old(list)
        invariant var gone := Unlinked(reqs[..n], ok[..n]);
          && Keys(list) == Survivors(keys, Elements(gone)) && used == Less(old(used), Total(gone, size))
        invariant evicting == old(evicting) - Elements(reqs[..n])
      {
        NextUnlinked(keys, old(used), reqs, ok, size, n);
        Finish(ok[n], size);
      }
      assert reqs[..|ok|] == reqs && ok[..|ok|] == ok;
    }
  }

  /** Two files, closed one after the other and both scheduled. */
  method TwoScheduled<K(0, ==, !new), T(==, !new)>(table: K -> T, none: K, a: K, b: K)
    returns (cache: ClosedFiles<K, T>)
    requires a != b
    ensures fresh(cache) && fresh(cache.list) && cache.Valid() && cache.Seen() == View([b, a], {a, b})
    ensures cache.evicting == {}
  {
    hide Linked, Indexed, Tallied, InFlight, Keys;
    cache := new ClosedFiles<K, T>(table, none);
    Close(cache, a);
    assert [a] + [] == [a];
    Close(cache, b);
    assert [b] + [a] == [b, a];
    var queued := cache.ScheduleCleanup([a, b]);
    cache.SeenKeys();
    assert cache.pending == {a, b};
  }

  /** Closes a file that is not cached. */
  method Close<K(0, ==, !new), T(==, !new)>(cache: ClosedFiles<K, T>, key: K)
    requires cache.Valid() && key !in Keys(cache.list)
    modifies cache`closed, cache`counts, cache`list, cache.list
    ensures cache.Valid() && Keys(cache.list) == [key] + old(Keys(cache.list))
    ensures forall i :: 0 <= i < |cache.list| ==> cache.list[i] in old(cache.list) || fresh(cache.list[i])
  {
    hide Linked, Indexed, Tallied, InFlight, Keys;
    cache.SeenKeys();
    cache.Enque(key);
  }

  /** The first request waits for a slot, meanwhile the second file is opened. */
  method DanglingRun<K(0, ==, !new), T(==, !new)>(table: K -> T, none: K, a: K, b: K) returns (valid: bool)
    requires a != b
    ensures !valid
  {
    var cache := TwoScheduled(table, none, a, b);
    hide ClosedFiles.Chained, InFlight, Gather;
    var wait := Wait([Dequeues(b)], []);
    assert [wait] + [] == [wait];
    DanglingExample(a, b, []);
    ghost var got;
    valid, got := cache.CollectGarbage([a, b], [wait]);
  }
}
