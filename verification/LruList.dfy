/** The intrusive list of locally cached files (CloudStoreMgr::CachedFile). */
module LruList {
  import opened Sequences

  class CachedFile<K(0)> {
    const key: K
    var prev: CachedFile?<K>
    var next: CachedFile?<K>

    /** A detached node. */
    constructor (k: K)
      ensures key == k && prev == null && next == null
    {
      key, prev, next := k, null, null;
    }

    /** Unlinks this node, which stands between two others of the list `s`. */
    method Deque(ghost s: seq<CachedFile<K>>, ghost i: nat)
      requires Linked(s) && 0 < i < |s| - 1 && s[i] == this
      modifies s[i - 1], s[i + 1], this
      ensures Linked(s[..i] + s[i + 1..]) && prev == null && next == null
    {
      assert Joined(s[i - 1], s[i]) && Joined(s[i], s[i + 1]);
      prev.next := next;
      next.prev := prev;
      prev := null;
      next := null;
      ghost var t := s[..i] + s[i + 1..];
      forall k | 0 <= k < |t| - 1
        ensures Joined(t[k], t[k + 1])
      {
        if k < i - 1 {
          assert Joined(s[k], s[k + 1]);
        } else if k >= i {
          assert Joined(s[k + 1], s[k + 2]);
        }
      }
    }

    /** Links the detached `node` in right after this node of the list `s`. */
    method EnqueNext(node: CachedFile<K>, ghost s: seq<CachedFile<K>>, ghost i: nat)
      requires Linked(s) && i < |s| - 1 && s[i] == this && node !in s
      modifies s[i + 1], this, node
      ensures Linked(s[..i + 1] + [node] + s[i + 1..])
    {
      assert Joined(s[i], s[i + 1]);
      node.next := next;
      node.next.prev := node;
      next := node;
      node.prev := this;
      ghost var t := s[..i + 1] + [node] + s[i + 1..];
      forall k | 0 <= k < |t| - 1
        ensures Joined(t[k], t[k + 1])
      {
        if k < i {
          assert Joined(s[k], s[k + 1]);
        } else if k > i + 1 {
          assert Joined(s[k - 1], s[k]);
        }
      }
    }
  }

  ghost predicate Joined<K(0)>(a: CachedFile<K>, b: CachedFile<K>)
    reads a, b
  {
    a.next == b && b.prev == a
  }

  /** `s` is a doubly linked chain without repeats. */
  ghost predicate Linked<K(0)>(s: seq<CachedFile<K>>)
    reads s
  {
    Distinct(s) && forall i :: 0 <= i < |s| - 1 ==> Joined(s[i], s[i + 1])
  }

  // ---- Traversal. ----

  /** The node reached from `s[0]` by following `next` `i` times. */
  ghost function Forward<K(0)>(s: seq<CachedFile<K>>, i: nat): CachedFile?<K>
    requires |s| > 0
    reads s
  {
    if i == 0 then s[0] else
      var n := Forward(s, i - 1);
      if n == null || n !in s then null else n.next
  }

  /** The node reached from the last node by following `prev` `i` times. */
  ghost function Backward<K(0)>(s: seq<CachedFile<K>>, i: nat): CachedFile?<K>
    requires |s| > 0
    reads s
  {
    if i == 0 then s[|s| - 1] else
      var n := Backward(s, i - 1);
      if n == null || n !in s then null else n.prev
  }

  /** Walking back visits what walking forward visits, in the opposite order. */
  lemma {:induction false} BackwardIsReverse<K(0)>(s: seq<CachedFile<K>>, i: nat)
    requires Linked(s) && i < |s|
    ensures Forward(s, i) == s[i] && Backward(s, i) == s[|s| - 1 - i]
  {
    if i > 0 {
      BackwardIsReverse(s, i - 1);
      assert Joined(s[i - 1], s[i]) && Joined(s[|s| - 1 - i], s[|s| - i]);
    }
  }

  // ---- The keys of a list, and how many belong to a table. ----

  function Count<K, T(==)>(keys: seq<K>, table: K -> T, t: T): nat {
    if keys == [] then 0 else Count(keys[1..], table, t) + (if table(keys[0]) == t then 1 else 0)
  }

  lemma {:induction false} CountSplit<K, T>(a: seq<K>, b: seq<K>, table: K -> T, t: T)
    ensures Count(a + b, table, t) == Count(a, table, t) + Count(b, table, t)
  {
    if a == [] {
      assert a + b == b;
    } else {
      CountSplit(a[1..], b, table, t);
      assert (a + b)[1..] == a[1..] + b;
    }
  }

  /** The counters hold exactly the tables that have closed files, and how many. */
  ghost predicate Tallied<K, T(!new)>(counts: map<T, nat>, keys: seq<K>, table: K -> T) {
    && (forall t :: t in counts <==> Count(keys, table, t) > 0)
    && (forall t :: t in counts ==> counts[t] == Count(keys, table, t))
  }

  lemma TallyPut<K, T(!new)>(counts: map<T, nat>, keys: seq<K>, table: K -> T, k: K)
    requires Tallied(counts, keys, table)
    ensures var t := table(k);
            Tallied(counts[t := (if t in counts then counts[t] else 0) + 1], [k] + keys, table)
  {
    assert ([k] + keys)[1..] == keys;
  }

  lemma TallyRemove<K, T(!new)>(counts: map<T, nat>, keys: seq<K>, table: K -> T, i: nat)
    requires Tallied(counts, keys, table) && i < |keys|
    ensures var t := table(keys[i]);
            && t in counts && counts[t] > 0
            && Tallied(if counts[t] == 1 then counts - {t} else counts[t := counts[t] - 1],
                       keys[..i] + keys[i + 1..], table)
  {
    forall u
      ensures Count(keys, table, u)
           == Count(keys[..i] + keys[i + 1..], table, u) + (if table(keys[i]) == u then 1 else 0)
    {
      assert keys == keys[..i] + keys[i..];
      assert keys[i..][1..] == keys[i + 1..];
      CountSplit(keys[..i], keys[i..], table, u);
      CountSplit(keys[..i], keys[i + 1..], table, u);
    }
  }

  // ---- Eviction. ----

  datatype Trimmed<K> = Trimmed(keys: seq<K>, used: nat, files: nat, bytes: nat)

  /** What is left once the oldest files are removed until the rest fits or one refuses. */
  function TrimTo<K>(keys: seq<K>, used: nat, limit: nat, size: K -> nat, removable: K -> bool): Trimmed<K>
  {
    if used <= limit || keys == [] || !removable(keys[|keys| - 1]) then Trimmed(keys, used, 0, 0) else
      var n := size(keys[|keys| - 1]);
      var r := TrimTo(keys[..|keys| - 1], if used > n then used - n else 0, limit, size, removable);
      r.(files := r.files + 1, bytes := r.bytes + n)
  }

  lemma TrimStep<K>(keys: seq<K>, used: nat, limit: nat, size: K -> nat, removable: K -> bool)
    ensures used <= limit || keys == [] || !removable(keys[|keys| - 1])
      ==> TrimTo(keys, used, limit, size, removable) == Trimmed(keys, used, 0, 0)
    ensures used > limit && keys != [] && removable(keys[|keys| - 1])
      ==> var n := size(keys[|keys| - 1]);
          var r := TrimTo(keys[..|keys| - 1], if used > n then used - n else 0, limit, size, removable);
          TrimTo(keys, used, limit, size, removable) == r.(files := r.files + 1, bytes := r.bytes + n)
  {
  }

  function Total<K>(keys: seq<K>, size: K -> nat): nat {
    if keys == [] then 0 else Total(keys[..|keys| - 1], size) + size(keys[|keys| - 1])
  }

  /**
   * The files kept are the most recently closed ones; the bytes reported are those of the files
   * removed; the space in use is what remains; and nothing is removed that need not be.
   */
  lemma {:induction false} TrimEvictsOldest<K>(keys: seq<K>, used: nat, limit: nat, size: K -> nat,
                                               removable: K -> bool)
    ensures var r := TrimTo(keys, used, limit, size, removable);
      && r.keys <= keys && r.files == |keys| - |r.keys|
      && r.bytes + Total(r.keys, size) == Total(keys, size)
      && r.used == (if used > r.bytes then used - r.bytes else 0)
      && (r.used <= limit || r.keys == [] || !removable(r.keys[|r.keys| - 1]))
      && (r.files > 0 ==> used - (r.bytes - size(keys[|r.keys|])) > limit)
  {
    if !(used <= limit || keys == [] || !removable(keys[|keys| - 1])) {
      var n := size(keys[|keys| - 1]);
      TrimEvictsOldest(keys[..|keys| - 1], if used > n then used - n else 0, limit, size, removable);
    }
  }
}
