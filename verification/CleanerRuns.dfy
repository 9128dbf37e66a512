/**
 The cleaner among other tasks: whenever the submission ring is full, asking for a request slot suspends it
 (src/async_io_manager.cpp, GetSQE), and files are closed, opened and scheduled for cleanup meanwhile.
 */
module CleanerRuns {
  import opened CleanerPlan
  import opened Sequences

  /** What another task does: close a file, open one, or schedule files; inserting may rehash the schedule. */
  datatype Act<K> = Enqueues(key: K) | Dequeues(key: K) | Schedules(keys: seq<K>, rehash: bool)

  /** One suspension, and the order in which the schedule is listed from the iterator on when it ends. */
  datatype Wait<K> = Wait(acts: seq<Act<K>>, order: seq<K>)

  /** The cached files, newest first, and the scheduled ones. */
  datatype View<K> = View(keys: seq<K>, pending: set<K>)

  /** An open of a file that is being evicted waits, and a file that is cached is not closed again. */
  function AfterAct<K(==)>(v: View<K>, evicting: set<K>, act: Act<K>): View<K> {
    match act
    case Enqueues(k) => if k in v.keys then v else v.(keys := [k] + v.keys)
    case Dequeues(k) => if k in evicting then v else View(Survivors(v.keys, {k}), v.pending - {k})
    case Schedules(ks, _) => v.(pending := v.pending + (set k | k in ks && k in v.keys && k !in evicting))
  }

  function AfterActs<K(==)>(v: View<K>, evicting: set<K>, acts: seq<Act<K>>): View<K> {
    if acts == [] then v else AfterAct(AfterActs(v, evicting, acts[..|acts| - 1]), evicting, acts[|acts| - 1])
  }

  lemma AfterMore<K>(v: View<K>, evicting: set<K>, acts: seq<Act<K>>, n: nat)
    requires n < |acts|
    ensures AfterActs(v, evicting, acts[..n + 1]) == AfterAct(AfterActs(v, evicting, acts[..n]), evicting, acts[n])
  {
    hide AfterAct;
    assert acts[..n + 1][..n] == acts[..n];
  }

  /** Nobody opens or schedules this file. */
  ghost predicate Untouched<K(!new)>(k: K, acts: seq<Act<K>>) {
    forall i :: 0 <= i < |acts| ==>
      acts[i] != Dequeues(k) && (acts[i].Schedules? ==> k !in acts[i].keys)
  }

  // ---- What a suspension cannot change. ----

  /** The files behind this one. */
  ghost function Behind<K>(keys: seq<K>, k: K): set<K> {
    var n := |keys| - 1;
    if keys == [] || keys[n] == k then {} else Behind(keys[..n], k) + {keys[n]}
  }

  lemma {:induction false} BehindAt<K>(keys: seq<K>, i: nat)
    requires Distinct(keys) && i < |keys|
    ensures Behind(keys, keys[i]) == Elements(keys[i + 1..])
  {
    var n := |keys| - 1;
    if i < n {
      BehindAt(keys[..n], i);
      assert keys[i + 1..] == keys[..n][i + 1..] + [keys[n]];
    }
  }

  lemma {:induction false} BehindPut<K>(keys: seq<K>, x: K, k: K)
    requires k in keys
    ensures Behind([x] + keys, k) == Behind(keys, k)
  {
    var n := |keys| - 1;
    assert ([x] + keys)[..n + 1] == [x] + keys[..n];
    if keys[n] != k {
      BehindPut(keys[..n], x, k);
    }
  }

  lemma {:induction false} BehindSurvivors<K>(keys: seq<K>, x: K, k: K)
    requires k in keys && x != k
    ensures Behind(Survivors(keys, {x}), k) <= Behind(keys, k)
  {
    var n := |keys| - 1;
    if keys[n] != k {
      BehindSurvivors(keys[..n], x, k);
      var s := Survivors(keys[..n], {x});
      assert (s + [keys[n]])[..|s|] == s && s + [] == s;
    }
  }

  lemma {:induction false} SurvivorsDistinct<K>(keys: seq<K>, gone: set<K>)
    requires Distinct(keys)
    ensures Distinct(Survivors(keys, gone))
  {
    if keys != [] {
      var n := |keys| - 1;
      SurvivorsDistinct(keys[..n], gone);
      SurvivorsAre(keys[..n], gone, keys[n]);
    }
  }

  /** Marked files stay, and nothing comes to stand behind them; untouched files stay as they are. */
  ghost predicate Settled<K(!new)>(v: View<K>, v': View<K>, evicting: set<K>, acts: seq<Act<K>>) {
    && Distinct(v'.keys)
    && (forall k :: k in v.keys && (k in evicting || Untouched(k, acts)) ==> k in v'.keys)
    && (forall k :: k in v.keys && k in evicting ==> Behind(v'.keys, k) <= Behind(v.keys, k))
    && (forall k :: Untouched(k, acts) ==> (k in v.pending <==> k in v'.pending))
  }

  lemma SettledOne<K(!new)>(v: View<K>, evicting: set<K>, act: Act<K>)
    requires Distinct(v.keys)
    ensures Settled(v, AfterAct(v, evicting, act), evicting, [act])
  {
    hide Behind, Distinct, Survivors;
    var v' := AfterAct(v, evicting, act);
    match act {
      case Enqueues(x) =>
        DistinctPut(v.keys, x);
        forall k | k in v.keys
          ensures Behind([x] + v.keys, k) == Behind(v.keys, k)
        {
          BehindPut(v.keys, x, k);
        }
      case Dequeues(x) =>
        SurvivorsDistinct(v.keys, {x});
        forall k | k in v.keys && k != x
          ensures k in Survivors(v.keys, {x}) && Behind(Survivors(v.keys, {x}), k) <= Behind(v.keys, k)
        {
          SurvivorsAre(v.keys, {x}, k);
          BehindSurvivors(v.keys, x, k);
        }
        assert [act][0] == act;
      case Schedules(ks, _) =>
        assert [act][0] == act;
    }
  }

  lemma DistinctPut<K>(keys: seq<K>, x: K)
    requires Distinct(keys)
    ensures x !in keys ==> Distinct([x] + keys)
  {
  }

  lemma SettledJoin<K(!new)>(v: View<K>, m: View<K>, v': View<K>, evicting: set<K>, acts: seq<Act<K>>, act: Act<K>)
    requires Settled(v, m, evicting, acts) && Settled(m, v', evicting, [act])
    ensures Settled(v, v', evicting, acts + [act])
  {
    hide Behind, Distinct;
    forall k | Untouched(k, acts + [act])
      ensures Untouched(k, acts) && Untouched(k, [act])
    {
      UntouchedBoth(k, acts, act);
    }
  }

  lemma UntouchedBoth<K(!new)>(k: K, acts: seq<Act<K>>, act: Act<K>)
    requires Untouched(k, acts + [act])
    ensures Untouched(k, acts) && Untouched(k, [act])
  {
    var more := acts + [act];
    forall i | 0 <= i < |acts|
      ensures acts[i] != Dequeues(k) && (acts[i].Schedules? ==> k !in acts[i].keys)
    {
      assert more[i] == acts[i];
    }
    assert more[|acts|] == act;
  }

  lemma {:induction false} ActsSettle<K(!new)>(v: View<K>, evicting: set<K>, acts: seq<Act<K>>)
    requires Distinct(v.keys)
    ensures Settled(v, AfterActs(v, evicting, acts), evicting, acts)
  {
    hide Distinct, AfterAct, Untouched, Behind;
    if acts != [] {
      var n := |acts| - 1;
      ActsSettle(v, evicting, acts[..n]);
      var m := AfterActs(v, evicting, acts[..n]);
      SettledOne(m, evicting, acts[n]);
      SettledJoin(v, m, AfterAct(m, evicting, acts[n]), evicting, acts[..n], acts[n]);
      assert acts == acts[..n] + [acts[n]];
    }
  }

  // ---- The walk back through the list. ----

  /** A walk of the cleaner: what it took, and how it leaves list, schedule and marks. */
  datatype Swept<K> = Swept(victims: seq<K>, view: View<K>, evicting: set<K>)

  /** How many files stand ahead of this one. */
  function Ahead<K(==)>(keys: seq<K>, k: K): (i: nat)
    ensures i <= |keys| && (k in keys ==> i < |keys| && keys[i] == k)
  {
    var n := |keys| - 1;
    if keys == [] then 0 else if keys[n] == k then n else Ahead(keys[..n], k)
  }

  /** With `i` files still ahead and one request left per wait. */
  function Sweep<K(==)>(v: View<K>, evicting: set<K>, i: nat, waits: seq<Wait<K>>): Swept<K>
    requires i <= |v.keys|
    decreases |waits|, i
  {
    if i == 0 || waits == [] then Swept([], v, evicting) else
      var k := v.keys[i - 1];
      if k in v.pending || k in evicting then Sweep(v, evicting, i - 1, waits) else
        var marked := evicting + {k};
        var v' := AfterActs(v, marked, waits[0].acts);
        var r := Sweep(v', marked, Ahead(v'.keys, k), waits[1..]);
        r.(victims := [k] + r.victims)
  }

  /** What is taken is new, distinct, marked, and stays in the list. */
  lemma {:induction false} SweepSound<K(!new)>(v: View<K>, evicting: set<K>, i: nat, waits: seq<Wait<K>>)
    requires i <= |v.keys| && Distinct(v.keys)
    ensures var r := Sweep(v, evicting, i, waits);
      && |r.victims| <= |waits| && Distinct(r.victims) && r.evicting == evicting + Elements(r.victims)
      && (forall k :: k in r.victims ==> k !in evicting && k in r.view.keys)
      && (forall k :: k in v.keys && k in evicting ==> k in r.view.keys)
    decreases |waits|, i
  {
    hide AfterActs, Behind, Untouched;
    if i > 0 && waits != [] {
      var k := v.keys[i - 1];
      if k in v.pending || k in evicting {
        SweepSound(v, evicting, i - 1, waits);
      } else {
        var marked := evicting + {k};
        var v' := AfterActs(v, marked, waits[0].acts);
        ActsSettle(v, marked, waits[0].acts);
        SweepSound(v', marked, Ahead(v'.keys, k), waits[1..]);
        var r := Sweep(v', marked, Ahead(v'.keys, k), waits[1..]);
        assert Elements([k] + r.victims) == {k} + Elements(r.victims);
      }
    }
  }

  // ---- Step by step. ----

  /** What is left of the walk completes these victims to the goal. */
  ghost predicate Sweeping<K>(goal: Swept<K>, v: View<K>, evicting: set<K>, i: nat, waits: seq<Wait<K>>,
                               victims: seq<K>)
  {
    i <= |v.keys| && var r := Sweep(v, evicting, i, waits); goal == r.(victims := victims + r.victims)
  }

  lemma SweepStart<K>(v: View<K>, evicting: set<K>, waits: seq<Wait<K>>)
    ensures Sweeping(Sweep(v, evicting, |v.keys|, waits), v, evicting, |v.keys|, waits, [])
  {
    var r := Sweep(v, evicting, |v.keys|, waits);
    assert [] + r.victims == r.victims;
  }

  lemma SweepPass<K>(goal: Swept<K>, v: View<K>, evicting: set<K>, i: nat, waits: seq<Wait<K>>, victims: seq<K>)
    requires Sweeping(goal, v, evicting, i, waits, victims) && i > 0 && waits != []
    requires v.keys[i - 1] in v.pending || v.keys[i - 1] in evicting
    ensures Sweeping(goal, v, evicting, i - 1, waits, victims)
  {
  }

  lemma SweepTake<K>(goal: Swept<K>, v: View<K>, evicting: set<K>, i: nat, waits: seq<Wait<K>>, victims: seq<K>)
    requires Sweeping(goal, v, evicting, i, waits, victims) && i > 0 && waits != []
    requires v.keys[i - 1] !in v.pending && v.keys[i - 1] !in evicting
    ensures var k := v.keys[i - 1];
            var v' := AfterActs(v, evicting + {k}, waits[0].acts);
            Sweeping(goal, v', evicting + {k}, Ahead(v'.keys, k), waits[1..], victims + [k])
  {
    hide AfterActs, Ahead;
    var k := v.keys[i - 1];
    var v' := AfterActs(v, evicting + {k}, waits[0].acts);
    var r := Sweep(v', evicting + {k}, Ahead(v'.keys, k), waits[1..]);
    assert victims + ([k] + r.victims) == (victims + [k]) + r.victims;
  }

  lemma SweepEnd<K>(goal: Swept<K>, v: View<K>, evicting: set<K>, i: nat, waits: seq<Wait<K>>, victims: seq<K>)
    requires Sweeping(goal, v, evicting, i, waits, victims) && (i == 0 || waits == [])
    ensures goal == Swept(victims, v, evicting)
  {
    assert victims + [] == victims;
  }

  // ---- What the walk achieves. ----

  ghost predicate UntouchedAll<K(!new)>(k: K, waits: seq<Wait<K>>) {
    forall i :: 0 <= i < |waits| ==> Untouched(k, waits[i].acts)
  }

  /** A file that is free at first and that nobody touches is taken, unless every request is used. */
  lemma {:induction false} SweepComplete<K(!new)>(v: View<K>, evicting: set<K>, i: nat, waits: seq<Wait<K>>, k: K)
    requires i <= |v.keys| && Distinct(v.keys) && k in v.keys[..i] && k !in v.pending && k !in evicting
    requires UntouchedAll(k, waits) && |Sweep(v, evicting, i, waits).victims| < |waits|
    ensures k in Sweep(v, evicting, i, waits).victims
    decreases |waits|, i
  {
    hide AfterActs, Behind, Untouched;
    var x := v.keys[i - 1];
    if x in v.pending || x in evicting {
      assert v.keys[..i] == v.keys[..i - 1] + [x];
      SweepComplete(v, evicting, i - 1, waits, k);
    } else if x != k {
      var marked := evicting + {x};
      var v' := AfterActs(v, marked, waits[0].acts);
      ActsSettle(v, marked, waits[0].acts);
      StillAhead(v, v', i, x, k);
      SweepComplete(v', marked, Ahead(v'.keys, x), waits[1..], k);
    }
  }

  /** What stood ahead of a marked file and stayed still stands ahead of it. */
  lemma StillAhead<K>(v: View<K>, v': View<K>, i: nat, x: K, k: K)
    requires 0 < i <= |v.keys| && Distinct(v.keys) && v.keys[i - 1] == x && k in v.keys[..i] && k != x
    requires Distinct(v'.keys) && x in v'.keys && k in v'.keys && Behind(v'.keys, x) <= Behind(v.keys, x)
    ensures k in v'.keys[..Ahead(v'.keys, x)]
  {
    hide Behind, Ahead;
    var j := Ahead(v'.keys, x);
    BehindAt(v.keys, i - 1);
    BehindAt(v'.keys, j);
    assert v.keys[i - 1 + 1..] == v.keys[i..] && k !in v.keys[i..];
    InElements(v.keys[i..], k);
    InElements(v'.keys[j + 1..], k);
    EitherSide(v'.keys, j, k);
  }

  lemma EitherSide<K>(keys: seq<K>, j: nat, k: K)
    requires j < |keys| && k in keys
    ensures k in keys[..j] || k == keys[j] || k in keys[j + 1..]
  {
    assert keys == keys[..j] + [keys[j]] + keys[j + 1..];
  }

  ghost predicate Quiet<K>(waits: seq<Wait<K>>) {
    forall i :: 0 <= i < |waits| ==> waits[i].acts == []
  }

  /** Undisturbed, the walk takes the oldest free files. */
  lemma {:induction false} SweepQuiet<K>(v: View<K>, evicting: set<K>, i: nat, waits: seq<Wait<K>>)
    requires i <= |v.keys| && Distinct(v.keys) && Quiet(waits)
    ensures var r := Sweep(v, evicting, i, waits);
            r.view == v && r.victims == Oldest(v.keys[..i], v.pending + evicting, |waits|)
    decreases |waits|, i
  {
    hide AfterActs, Ahead;
    if i > 0 && waits != [] {
      var k := v.keys[i - 1];
      assert v.keys[..i][..i - 1] == v.keys[..i - 1];
      if k in v.pending || k in evicting {
        SweepQuiet(v, evicting, i - 1, waits);
      } else {
        AheadAt(v.keys, i - 1);
        QuietWait(v, evicting + {k}, waits[0]);
        SweepQuiet(v, evicting + {k}, i - 1, waits[1..]);
        assert v.pending + (evicting + {k}) == (v.pending + evicting) + {k};
        OldestIgnores(v.keys[..i - 1], v.pending + evicting, k, |waits| - 1);
      }
    }
  }

  lemma QuietWait<K>(v: View<K>, evicting: set<K>, wait: Wait<K>)
    requires wait.acts == []
    ensures AfterActs(v, evicting, wait.acts) == v
  {
  }

  lemma {:induction false} AheadAt<K>(keys: seq<K>, i: nat)
    requires Distinct(keys) && i < |keys|
    ensures Ahead(keys, keys[i]) == i
  {
    if i < |keys| - 1 {
      AheadAt(keys[..|keys| - 1], i);
    }
  }

  lemma {:induction false} OldestIgnores<K>(keys: seq<K>, busy: set<K>, k: K, batch: nat)
    requires k !in keys
    ensures Oldest(keys, busy + {k}, batch) == Oldest(keys, busy, batch)
  {
    if keys != [] && batch > 0 {
      var n := |keys| - 1;
      OldestIgnores(keys[..n], busy, k, if keys[n] in busy then batch else batch - 1);
    }
  }

  // ---- The walk through the schedule. ----

  /** Valid is false if the iterator dangles after a suspension; the walk is followed no further then. */
  datatype Gathering<K> = Gathering(got: seq<K>, view: View<K>, evicting: set<K>, valid: bool)

  /** Inserting with a rehash ends every iterator, erasing ends the one at the erased element. */
  predicate Dangles<K(==)>(rest: seq<K>, evicting: set<K>, acts: seq<Act<K>>) {
    exists i :: 0 <= i < |acts| && (
      || (acts[i].Schedules? && acts[i].rehash)
      || (rest != [] && acts[i] == Dequeues(rest[0]) && rest[0] !in evicting))
  }

  /** An order in which the schedule may be listed from a surviving iterator on. */
  predicate Plausible<K(==)>(rest: seq<K>, pending: set<K>, order: seq<K>) {
    && (forall i, j :: 0 <= i < j < |order| ==> order[i] != order[j])
    && (forall k :: k in order ==> k in pending)
    && (forall k :: k in rest && k in pending ==> k in order)
    && (rest != [] ==> order != [] && order[0] == rest[0])
  }

  function Resumed<K(==, !new)>(rest: seq<K>, pending: set<K>, order: seq<K>): seq<K> {
    if Plausible(rest, pending, order) then order else Kept(rest, pending)
  }

  function Kept<K(==, !new)>(rest: seq<K>, pending: set<K>): (r: seq<K>)
    ensures forall k :: k in r <==> k in rest && k in pending
  {
    if rest == [] then [] else (if rest[0] in pending then [rest[0]] else []) + Kept(rest[1..], pending)
  }

  /** With these keys still to come and one request left per wait. */
  function Gather<K(==, !new)>(v: View<K>, evicting: set<K>, rest: seq<K>, waits: seq<Wait<K>>): Gathering<K>
    decreases |waits|, |rest|
  {
    if rest == [] || waits == [] then Gathering([], v, evicting, true) else
      var k, next := rest[0], rest[1..];
      if k !in v.keys || k in evicting then Gather(v, evicting, next, waits) else
        var marked := evicting + {k};
        var v' := AfterActs(v.(pending := v.pending - {k}), marked, waits[0].acts);
        if Dangles(next, marked, waits[0].acts) then Gathering([k], v', marked, false) else
          var r := Gather(v', marked, Resumed(next, v'.pending, waits[0].order), waits[1..]);
          r.(got := [k] + r.got)
  }

  /** What is left of the walk completes these keys to the goal. */
  ghost predicate Gathers<K(!new)>(goal: Gathering<K>, v: View<K>, evicting: set<K>, rest: seq<K>, waits: seq<Wait<K>>,
                                   got: seq<K>)
  {
    var r := Gather(v, evicting, rest, waits); goal == r.(got := got + r.got)
  }

  lemma GatherBegin<K(!new)>(v: View<K>, evicting: set<K>, rest: seq<K>, waits: seq<Wait<K>>)
    ensures Gathers(Gather(v, evicting, rest, waits), v, evicting, rest, waits, [])
  {
    var r := Gather(v, evicting, rest, waits);
    assert [] + r.got == r.got;
  }

  lemma GatherPass<K(!new)>(goal: Gathering<K>, v: View<K>, evicting: set<K>, rest: seq<K>, waits: seq<Wait<K>>,
                            got: seq<K>)
    requires Gathers(goal, v, evicting, rest, waits, got) && rest != [] && waits != []
    requires rest[0] !in v.keys || rest[0] in evicting
    ensures Gathers(goal, v, evicting, rest[1..], waits, got)
  {
  }

  lemma GatherTake<K(!new)>(goal: Gathering<K>, v: View<K>, evicting: set<K>, rest: seq<K>, waits: seq<Wait<K>>,
                            got: seq<K>)
    requires Gathers(goal, v, evicting, rest, waits, got) && rest != [] && waits != []
    requires rest[0] in v.keys && rest[0] !in evicting
    ensures var k, next := rest[0], rest[1..];
            var v' := AfterActs(v.(pending := v.pending - {k}), evicting + {k}, waits[0].acts);
            if Dangles(next, evicting + {k}, waits[0].acts) then goal == Gathering(got + [k], v', evicting + {k}, false)
            else Gathers(goal, v', evicting + {k}, Resumed(next, v'.pending, waits[0].order), waits[1..], got + [k])
  {
    hide AfterActs, Dangles, Resumed;
    var k, next := rest[0], rest[1..];
    var v' := AfterActs(v.(pending := v.pending - {k}), evicting + {k}, waits[0].acts);
    var r := Gather(v', evicting + {k}, Resumed(next, v'.pending, waits[0].order), waits[1..]);
    assert got + ([k] + r.got) == (got + [k]) + r.got;
  }

  lemma GatherEnds<K(!new)>(goal: Gathering<K>, v: View<K>, evicting: set<K>, rest: seq<K>, waits: seq<Wait<K>>,
                            got: seq<K>)
    requires Gathers(goal, v, evicting, rest, waits, got) && (rest == [] || waits == [])
    ensures goal == Gathering(got, v, evicting, true)
  {
    assert got + [] == got;
  }

  lemma {:induction false} GatherSound<K(!new)>(v: View<K>, evicting: set<K>, rest: seq<K>, waits: seq<Wait<K>>)
    requires Distinct(v.keys)
    ensures var r := Gather(v, evicting, rest, waits);
      && |r.got| <= |waits| && Distinct(r.got) && r.evicting == evicting + Elements(r.got)
      && (forall k :: k in r.got ==> k !in evicting && k in r.view.keys)
      && (forall k :: k in v.keys && k in evicting ==> k in r.view.keys)
    decreases |waits|, |rest|
  {
    hide AfterActs, Behind, Untouched, Dangles, Resumed;
    if rest != [] && waits != [] {
      var k, next := rest[0], rest[1..];
      if k !in v.keys || k in evicting {
        GatherSound(v, evicting, next, waits);
      } else {
        var marked, w := evicting + {k}, v.(pending := v.pending - {k});
        var v' := AfterActs(w, marked, waits[0].acts);
        ActsSettle(w, marked, waits[0].acts);
        if !Dangles(next, marked, waits[0].acts) {
          var rest' := Resumed(next, v'.pending, waits[0].order);
          GatherSound(v', marked, rest', waits[1..]);
          assert Elements([k] + Gather(v', marked, rest', waits[1..]).got)
              == {k} + Elements(Gather(v', marked, rest', waits[1..]).got);
        } else {
          assert Elements([k]) == {k};
        }
      }
    }
  }

  /** A scheduled file that is cached and free at first and that nobody touches is taken, if the iterator holds. */
  lemma {:induction false} GatherComplete<K(!new)>(v: View<K>, evicting: set<K>, rest: seq<K>, waits: seq<Wait<K>>,
                                                   k: K)
    requires Distinct(v.keys) && k in rest && k in v.keys && k in v.pending && k !in evicting
    requires UntouchedAll(k, waits)
    requires Gather(v, evicting, rest, waits).valid && |Gather(v, evicting, rest, waits).got| < |waits|
    ensures k in Gather(v, evicting, rest, waits).got
    decreases |waits|, |rest|
  {
    hide AfterActs, Behind, Untouched, Dangles;
    var x, next := rest[0], rest[1..];
    if x !in v.keys || x in evicting {
      GatherComplete(v, evicting, next, waits, k);
    } else if x != k {
      var marked, w := evicting + {x}, v.(pending := v.pending - {x});
      var v' := AfterActs(w, marked, waits[0].acts);
      ActsSettle(w, marked, waits[0].acts);
      GatherComplete(v', marked, Resumed(next, v'.pending, waits[0].order), waits[1..], k);
    }
  }

  /** Undisturbed, the walk takes the scheduled files that are cached and free. */
  lemma {:induction false} GatherQuiet<K(!new)>(v: View<K>, evicting: set<K>, rest: seq<K>, waits: seq<Wait<K>>)
    requires Distinct(rest) && Elements(rest) <= v.pending && Quiet(waits)
    requires forall i :: 0 <= i < |waits| ==> waits[i].order == []
    ensures var r := Gather(v, evicting, rest, waits);
      && r.valid && r.got == Collected(rest, Elements(v.keys), evicting, |waits|)
      && r.view == v.(pending := v.pending - Elements(r.got))
    decreases |waits|, |rest|
  {
    hide AfterActs, Dangles, Resumed;
    if rest != [] && waits != [] {
      var k, next := rest[0], rest[1..];
      if k !in v.keys || k in evicting {
        GatherQuiet(v, evicting, next, waits);
      } else {
        var w := v.(pending := v.pending - {k});
        assert Elements(next) <= w.pending;
        QuietRequest(v, evicting, rest, waits);
        GatherQuiet(w, evicting + {k}, next, waits[1..]);
        CollectedIgnores(next, Elements(v.keys), evicting, k, |waits| - 1);
        var r := Gather(w, evicting + {k}, next, waits[1..]);
        assert Elements([k] + r.got) == {k} + Elements(r.got);
      }
    }
  }

  lemma QuietRequest<K(!new)>(v: View<K>, evicting: set<K>, rest: seq<K>, waits: seq<Wait<K>>)
    requires rest != [] && waits != [] && waits[0].acts == [] && waits[0].order == []
    requires rest[0] in v.keys && rest[0] !in evicting && Elements(rest[1..]) <= v.pending - {rest[0]}
    ensures var r := Gather(v.(pending := v.pending - {rest[0]}), evicting + {rest[0]}, rest[1..], waits[1..]);
            Gather(v, evicting, rest, waits) == r.(got := [rest[0]] + r.got)
  {
    KeptAll(rest[1..], v.pending - {rest[0]});
  }

  lemma {:induction false} KeptAll<K(!new)>(rest: seq<K>, pending: set<K>)
    requires Elements(rest) <= pending
    ensures Kept(rest, pending) == rest
  {
    if rest != [] {
      KeptAll(rest[1..], pending);
    }
  }

  lemma {:induction false} CollectedIgnores<K>(order: seq<K>, cached: set<K>, evicting: set<K>, k: K, room: nat)
    requires k !in order
    ensures Collected(order, cached, evicting + {k}, room) == Collected(order, cached, evicting, room)
  {
    if order != [] && room > 0 {
      var taken := order[0] in cached && order[0] !in evicting;
      CollectedIgnores(order[1..], cached, evicting, k, if taken then room - 1 else room);
    }
  }

  /** Of the files in `p` none is opened, only files in `p` are scheduled, and the schedule is not rehashed. */
  ghost predicate Calm<K(!new)>(acts: seq<Act<K>>, p: set<K>) {
    forall i :: 0 <= i < |acts| ==>
      && (acts[i].Dequeues? ==> acts[i].key !in p)
      && (acts[i].Schedules? ==> !acts[i].rehash && forall k :: k in acts[i].keys ==> k in p)
  }

  lemma {:induction false} CalmStays<K(!new)>(v: View<K>, evicting: set<K>, acts: seq<Act<K>>, p: set<K>)
    requires Calm(acts, p) && v.pending <= p
    ensures AfterActs(v, evicting, acts).pending <= p
  {
    if acts != [] {
      CalmStays(v, evicting, acts[..|acts| - 1], p);
    }
  }

  /** The iterator holds if no suspension rehashes the schedule and none opens a scheduled file. */
  lemma {:induction false} GatherHolds<K(!new)>(v: View<K>, evicting: set<K>, rest: seq<K>, waits: seq<Wait<K>>,
                                                p: set<K>)
    requires v.pending <= p && Elements(rest) <= p && forall i :: 0 <= i < |waits| ==> Calm(waits[i].acts, p)
    ensures Gather(v, evicting, rest, waits).valid
    decreases |waits|, |rest|
  {
    hide AfterActs;
    if rest != [] && waits != [] {
      var k, next := rest[0], rest[1..];
      if k !in v.keys || k in evicting {
        GatherHolds(v, evicting, next, waits, p);
      } else {
        var marked, w := evicting + {k}, v.(pending := v.pending - {k});
        var v' := AfterActs(w, marked, waits[0].acts);
        CalmStays(w, marked, waits[0].acts, p);
        GatherHolds(v', marked, Resumed(next, v'.pending, waits[0].order), waits[1..], p);
      }
    }
  }

  /** Two scheduled files; while the first request waits for a slot the second file is opened. */
  lemma DanglingExample<K(!new)>(a: K, b: K, more: seq<Wait<K>>)
    requires a != b
    ensures !Gather(View([b, a], {a, b}), {}, [a, b], [Wait([Dequeues(b)], [])] + more).valid
  {
    var wait := Wait([Dequeues(b)], []);
    assert ([wait] + more)[0] == wait && [a, b][1..] == [b];
    assert wait.acts[0] == Dequeues([b][0]);
    assert Dangles([b], {} + {a}, wait.acts);
  }
}
