/** Which cached files the file cleaner of src/async_io_manager.cpp takes, and what is left when it is done. */
module CleanerPlan {
  import opened LruList
  import opened Sequences

  // ---- Pressure eviction. ----

  /** The last `batch` keys that nobody is busy with, from the end of the list on. */
  function Oldest<K(==)>(keys: seq<K>, busy: set<K>, batch: nat): seq<K> {
    if keys == [] || batch == 0 then [] else
      var k := keys[|keys| - 1];
      if k in busy then Oldest(keys[..|keys| - 1], busy, batch) else [k] + Oldest(keys[..|keys| - 1], busy, batch - 1)
  }

  /** Victims are eligible, and an eligible file is spared only when the batch is full. */
  lemma {:induction false} OldestIsComplete<K>(keys: seq<K>, busy: set<K>, batch: nat)
    ensures var r := Oldest(keys, busy, batch);
      && |r| <= batch
      && (forall k :: k in r ==> k in keys && k !in busy)
      && (|r| < batch ==> forall k :: k in keys && k !in busy ==> k in r)
  {
    if keys != [] && batch > 0 {
      var k := keys[|keys| - 1];
      OldestIsComplete(keys[..|keys| - 1], busy, if k in busy then batch else batch - 1);
      assert keys == keys[..|keys| - 1] + [k];
    }
  }

  /** Among distinct files an eligible one is never spared for a newer one. */
  lemma {:induction false} OldestIsOldest<K>(keys: seq<K>, busy: set<K>, batch: nat, j: nat, i: nat)
    requires Distinct(keys) && j < i < |keys| && keys[i] !in busy && keys[j] in Oldest(keys, busy, batch)
    ensures keys[i] in Oldest(keys, busy, batch)
  {
    var n := |keys| - 1;
    if i < n {
      OldestIsOldest(keys[..n], busy, if keys[n] in busy then batch else batch - 1, j, i);
    }
  }

  /** Victims come oldest first: a later one stands nearer the front of the list. */
  lemma {:induction false} OldestFirst<K>(keys: seq<K>, busy: set<K>, batch: nat, a: nat, b: nat)
    returns (i: nat, j: nat)
    requires a < b < |Oldest(keys, busy, batch)|
    ensures j < i < |keys| && keys[i] == Oldest(keys, busy, batch)[a] && keys[j] == Oldest(keys, busy, batch)[b]
  {
    var n := |keys| - 1;
    var front := keys[..n];
    if keys[n] in busy {
      i, j := OldestFirst(front, busy, batch, a, b);
    } else if a > 0 {
      i, j := OldestFirst(front, busy, batch - 1, a - 1, b - 1);
    } else {
      var rest := Oldest(front, busy, batch - 1);
      OldestIsComplete(front, busy, batch - 1);
      assert rest[b - 1] in front;
      i := n;
      j :| 0 <= j < n && front[j] == rest[b - 1];
    }
  }

  // ---- Files scheduled for cleanup. ----

  /** The first `room` keys that are cached and not being evicted already. */
  function Collected<K(==)>(order: seq<K>, cached: set<K>, evicting: set<K>, room: nat): seq<K> {
    if order == [] || room == 0 then [] else
      var k, rest := order[0], order[1..];
      if k in cached && k !in evicting then [k] + Collected(rest, cached, evicting, room - 1)
      else Collected(rest, cached, evicting, room)
  }

  lemma {:induction false} CollectedIsComplete<K>(order: seq<K>, cached: set<K>, evicting: set<K>, room: nat)
    ensures var r := Collected(order, cached, evicting, room);
      && |r| <= room
      && (forall k :: k in r ==> k in order && k in cached && k !in evicting)
      && (|r| < room ==> forall k :: k in order && k in cached && k !in evicting ==> k in r)
  {
    if order != [] && room > 0 {
      var taken := order[0] in cached && order[0] !in evicting;
      CollectedIsComplete(order[1..], cached, evicting, if taken then room - 1 else room);
    }
  }

  // ---- The end of a round. ----

  /** The keys whose files were unlinked. */
  function Unlinked<K>(reqs: seq<K>, ok: seq<bool>): seq<K>
    requires |reqs| == |ok|
  {
    if reqs == [] then [] else
      var n := |reqs| - 1;
      Unlinked(reqs[..n], ok[..n]) + (if ok[n] then [reqs[n]] else [])
  }

  /** Subtraction that stops at zero. */
  function Less(used: nat, n: nat): nat {
    if n <= used then used - n else 0
  }

  /** The keys that stay, in their order. */
  function Survivors<K(==)>(keys: seq<K>, gone: set<K>): seq<K> {
    if keys == [] then [] else
      Survivors(keys[..|keys| - 1], gone) + (if keys[|keys| - 1] in gone then [] else [keys[|keys| - 1]])
  }

  lemma {:induction false} AllSurvive<K>(keys: seq<K>)
    ensures Survivors(keys, {}) == keys
  {
    if keys != [] {
      AllSurvive(keys[..|keys| - 1]);
    }
  }

  lemma {:induction false} SurvivorsAre<K>(keys: seq<K>, gone: set<K>, k: K)
    ensures k in Survivors(keys, gone) <==> k in keys && k !in gone
  {
    if keys != [] {
      SurvivorsAre(keys[..|keys| - 1], gone, k);
      assert keys == keys[..|keys| - 1] + [keys[|keys| - 1]];
    }
  }

  lemma {:induction false} SurviveTwice<K>(keys: seq<K>, gone: set<K>, k: K)
    ensures Survivors(Survivors(keys, gone), {k}) == Survivors(keys, gone + {k})
  {
    if keys != [] {
      var n := |keys| - 1;
      SurviveTwice(keys[..n], gone, k);
      var s := Survivors(keys[..n], gone);
      assert (s + [keys[n]])[..|s|] == s && s + [] == s;
    }
  }

  /** Where keys are distinct, one leaves one place. */
  lemma {:induction false} SurviveOne<K>(keys: seq<K>, i: nat)
    requires Distinct(keys) && i < |keys|
    ensures Survivors(keys, {keys[i]}) == keys[..i] + keys[i + 1..]
  {
    var n := |keys| - 1;
    var front := keys[..n];
    if i < n {
      SurviveOne(front, i);
      assert keys[i + 1..] == front[i + 1..] + [keys[n]];
      assert keys[..i] == front[..i];
    } else {
      OthersSurvive(front, keys[n]);
    }
  }

  lemma {:induction false} OthersSurvive<K>(keys: seq<K>, k: K)
    requires k !in keys
    ensures Survivors(keys, {k}) == keys
  {
    if keys != [] {
      OthersSurvive(keys[..|keys| - 1], k);
    }
  }

  // ---- Request by request. ----

  lemma NoneUnlinked<K>(keys: seq<K>, used: nat, reqs: seq<K>, ok: seq<bool>, size: K -> nat)
    requires |reqs| == |ok|
    ensures var gone := Unlinked(reqs[..0], ok[..0]);
            Survivors(keys, Elements(gone)) == keys && Less(used, Total(gone, size)) == used
    ensures Elements(reqs[..0]) == {}
  {
    AllSurvive(keys);
    assert Elements(Unlinked(reqs[..0], ok[..0])) == {};
  }

  lemma NextUnlinked<K>(keys: seq<K>, used: nat, reqs: seq<K>, ok: seq<bool>, size: K -> nat, n: nat)
    requires n < |reqs| == |ok|
    ensures var k, gone, more := reqs[n], Unlinked(reqs[..n], ok[..n]), Unlinked(reqs[..n + 1], ok[..n + 1]);
      && (!ok[n] ==> more == gone)
      && (ok[n] ==> Survivors(keys, Elements(more)) == Survivors(Survivors(keys, Elements(gone)), {k}))
      && (ok[n] ==> Less(used, Total(more, size)) == Less(Less(used, Total(gone, size)), size(k)))
    ensures Elements(reqs[..n + 1]) == Elements(reqs[..n]) + {reqs[n]}
  {
    assert reqs[..n + 1][..n] == reqs[..n] && ok[..n + 1][..n] == ok[..n];
    var k, gone := reqs[n], Unlinked(reqs[..n], ok[..n]);
    assert reqs[..n + 1] == reqs[..n] + [k];
    assert Elements(gone + [k]) == Elements(gone) + {k};
    SurviveTwice(keys, Elements(gone), k);
    assert (gone + [k])[..|gone|] == gone && gone + [] == gone;
  }
}
