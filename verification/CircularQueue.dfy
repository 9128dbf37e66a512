/** include/circular_queue.h: a ring over a power-of-two vector that doubles when full. */
module CircularQueue {
  import opened Bits

  predicate IsPow2(n: nat) {
    n == 1 || (n > 1 && n % 2 == 0 && IsPow2(n / 2))
  }

  lemma {:induction false} AndSelf(x: nat)
    ensures And(x, x) == x
  {
    if x > 0 {
      AndSelf(x / 2);
    }
  }

  /** The test of ValidateCapacity accepts exactly the powers of two. */
  lemma {:induction false} PowerOfTwoTest(n: nat)
    requires n > 0
    ensures And(n, n - 1) == 0 <==> IsPow2(n)
  {
    if n % 2 == 1 {
      AndSelf(n / 2);
      assert n > 1 ==> (n - 1) / 2 == n / 2;
    } else {
      PowerOfTwoTest(n / 2);
      assert (n - 1) / 2 == n / 2 - 1;
    }
  }

  lemma {:induction false} PowerOf(n: nat) returns (k: nat)
    requires IsPow2(n)
    ensures n == Pow2(k)
  {
    if n == 1 {
      k := 0;
    } else {
      k := PowerOf(n / 2);
      k := k + 1;
    }
  }

  lemma Doubled(n: nat)
    requires IsPow2(n)
    ensures n > 0 && IsPow2(2 * n)
  {
    assert 2 * n / 2 == n;
  }

  /** Where the element `i` places after `head` lives in a ring of `capacity` slots. */
  function Slot(head: nat, i: nat, capacity: nat): (r: nat)
    requires head < capacity && i <= capacity
    ensures r < capacity
  {
    if head + i < capacity then head + i else head + i - capacity
  }

  /** Masking with capacity - 1 is wrapping around. */
  lemma MaskWraps(head: nat, i: nat, capacity: nat)
    requires IsPow2(capacity) && head < capacity && i <= capacity
    ensures And(head + i, capacity - 1) == Slot(head, i, capacity)
  {
    hide IsPow2, And, Pow2;
    var k := PowerOf(capacity);
    AndMask(head + i, k);
    if head + i < capacity {
      Modular.QuotientRemainder(head + i, 0, head + i, capacity);
    } else {
      Modular.QuotientRemainder(head + i, 1, head + i - capacity, capacity);
    }
  }

  /** The `cnt` elements from `head` on, wrapping around. */
  function Ring<T>(v: seq<T>, head: nat, cnt: nat): (s: seq<T>)
    requires head < |v| && cnt <= |v|
    ensures |s| == cnt
  {
    if head + cnt <= |v| then v[head..head + cnt] else v[head..] + v[..head + cnt - |v|]
  }

  lemma RingAt<T>(v: seq<T>, head: nat, cnt: nat, i: nat)
    requires head < |v| && i < cnt <= |v|
    ensures Ring(v, head, cnt)[i] == v[Slot(head, i, |v|)]
  {
  }

  lemma RingAppend<T>(v: seq<T>, head: nat, cnt: nat, x: T)
    requires head < |v| && cnt < |v|
    ensures Ring(v[Slot(head, cnt, |v|) := x], head, cnt + 1) == Ring(v, head, cnt) + [x]
  {
  }

  lemma RingPrepend<T>(v: seq<T>, head: nat, cnt: nat, x: T)
    requires head < |v| && cnt < |v|
    ensures var h := if head == 0 then |v| - 1 else head - 1;
            Ring(v[h := x], h, cnt + 1) == [x] + Ring(v, head, cnt)
  {
    hide Ring;
    var h := if head == 0 then |v| - 1 else head - 1;
    forall i | 0 <= i <= cnt
      ensures Ring(v[h := x], h, cnt + 1)[i] == ([x] + Ring(v, head, cnt))[i]
    {
      RingAt(v[h := x], h, cnt + 1, i);
      if i > 0 {
        RingAt(v, head, cnt, i - 1);
      }
    }
  }

  lemma RingSingle<T>(v: seq<T>, x: T)
    requires |v| > 0
    ensures Ring(v[0 := x], 0, 1) == [x]
  {
  }

  lemma RingShift<T>(v: seq<T>, head: nat, cnt: nat, i: nat)
    requires head < |v| && cnt <= |v| && i + 1 < cnt
    ensures var r := Ring(v, head, cnt);
            Ring(v[Slot(head, i, |v|) := v[Slot(head, i + 1, |v|)]], head, cnt) == r[i := r[i + 1]]
  {
    hide Ring;
    var r := Ring(v, head, cnt);
    var w := v[Slot(head, i, |v|) := v[Slot(head, i + 1, |v|)]];
    forall k | 0 <= k < cnt
      ensures Ring(w, head, cnt)[k] == r[i := r[i + 1]][k]
    {
      RingAt(w, head, cnt, k);
      RingAt(v, head, cnt, k);
      RingAt(v, head, cnt, i + 1);
    }
  }

  lemma RingShorten<T>(v: seq<T>, head: nat, cnt: nat)
    requires head < |v| && 0 < cnt <= |v|
    ensures Ring(v, head, cnt - 1) == Ring(v, head, cnt)[..cnt - 1]
    ensures cnt == 1 ==> Ring(v, 0, 0) == Ring(v, head, cnt)[..0]
  {
  }

  lemma RingRest<T>(v: seq<T>, head: nat, cnt: nat)
    requires head < |v| && 0 < cnt <= |v|
    ensures Ring(v, Slot(head, 1, |v|), cnt - 1) == Ring(v, head, cnt)[1..]
  {
  }

  /** `s` with the elements after `index` moved down one place, as far as position `i`. */
  function Shifted<T>(s: seq<T>, index: nat, i: nat): seq<T>
    requires index <= i < |s|
  {
    s[..index] + s[index + 1..i + 1] + s[i..]
  }

  lemma ShiftMore<T>(s: seq<T>, index: nat, i: nat)
    requires index <= i && i + 1 < |s|
    ensures var t := Shifted(s, index, i); t[i := t[i + 1]] == Shifted(s, index, i + 1)
  {
    var t, u := Shifted(s, index, i), Shifted(s, index, i + 1);
    forall k | 0 <= k < |s|
      ensures t[i := t[i + 1]][k] == u[k]
    {
    }
  }

  lemma ShiftEnds<T>(s: seq<T>, index: nat)
    requires index < |s|
    ensures Shifted(s, index, index) == s
    ensures Shifted(s, index, |s| - 1)[..|s| - 1] == s[..index] + s[index + 1..]
  {
  }

  class CircularQueue<T(0)> {
    var vec: array<T>
    var head: nat
    var cnt: nat
    var capacity: nat
    var mask: nat

    ghost predicate Valid()
      reads this
    {
      IsPow2(capacity) && vec.Length == capacity && mask == capacity - 1 && head < capacity && cnt <= capacity
    }

    /** The queue as a sequence, first element first. */
    ghost function View(): seq<T>
      requires Valid()
      reads this, vec
    {
      Ring(vec[..], head, cnt)
    }

    constructor (n: nat)
      requires IsPow2(n)
      ensures Valid() && View() == [] && capacity == n && fresh(vec)
    {
      vec := new T[n];
      head, cnt, capacity, mask := 0, 0, n, n - 1;
    }

    /** The constructor behind ValidateCapacity, which throws on anything but a power of two. */
    static method Create(n: nat) returns (ok: bool, q: CircularQueue?<T>)
      ensures ok <==> IsPow2(n)
      ensures ok ==> q != null && fresh(q) && fresh(q.vec) && q.Valid() && q.View() == [] && q.capacity == n
    {
      if n == 0 || And(n, n - 1) != 0 {
        if n > 0 {
          PowerOfTwoTest(n);
        }
        return false, null;
      }
      PowerOfTwoTest(n);
      q := new CircularQueue<T>(n);
      return true, q;
    }

    /** Reset empties the queue before it looks at the new capacity. */
    method Reset(n: nat) returns (ok: bool)
      requires Valid()
      modifies this
      ensures Valid() && View() == []
      ensures ok <==> IsPow2(n)
      ensures if ok then capacity == n && fresh(vec) else capacity == old(capacity) && vec == old(vec)
    {
      head, cnt := 0, 0;
      if n == 0 || And(n, n - 1) != 0 {
        if n > 0 {
          PowerOfTwoTest(n);
        }
        return false;
      }
      PowerOfTwoTest(n);
      capacity, mask := n, n - 1;
      vec := new T[n];
      return true;
    }

    /** The copy loops of a full queue: head to end, then start to head. */
    method Unwound(newCapacity: nat) returns (v: array<T>)
      requires Valid() && cnt == capacity && newCapacity > capacity
      ensures fresh(v) && v.Length == newCapacity && v[..capacity] == View()
    {
      hide IsPow2, Slot;
      v := new T[newCapacity];
      var end := 0;
      for idx := head to capacity
        invariant end == idx - head && v[..end] == vec[head..idx]
      {
        v[end] := vec[idx];
        end := end + 1;
      }
      for idx := 0 to head
        invariant end == capacity - head + idx && v[..end] == vec[head..] + vec[..idx]
      {
        v[end] := vec[idx];
        end := end + 1;
      }
      assert View() == vec[head..] + vec[..head];
    }

    method Grow()
      requires Valid() && cnt == capacity
      modifies this
      ensures Valid() && View() == old(View()) && capacity == 2 * old(capacity) && fresh(vec)
      ensures head == 0 && cnt == old(cnt)
    {
      hide Slot;
      Doubled(capacity);
      var v := Unwound(2 * capacity);
      capacity, mask, vec, head := 2 * capacity, 2 * capacity - 1, v, 0;
      assert View() == v[..cnt];
    }

    method Enqueue(item: T)
      requires Valid()
      modifies this, vec
      ensures Valid() && View() == old(View()) + [item]
      ensures capacity == if old(cnt) == old(capacity) then 2 * old(capacity) else old(capacity)
      ensures vec == old(vec) || fresh(vec)
    {
      hide IsPow2, Ring, And, Slot;
      if cnt == capacity {
        Doubled(capacity);
        Grow();
      }
      MaskWraps(head, cnt, capacity);
      RingAppend(vec[..], head, cnt, item);
      vec[And(head + cnt, mask)] := item;
      cnt := cnt + 1;
    }

    method EnqueueAsFirst(item: T)
      requires Valid()
      modifies this, vec
      ensures Valid() && View() == [item] + old(View())
      ensures capacity == if old(cnt) == old(capacity) then 2 * old(capacity) else old(capacity)
      ensures vec == old(vec) || fresh(vec)
    {
      hide IsPow2, Ring, Slot;
      if cnt == 0 {
        RingSingle(vec[..], item);
        vec[0] := item;
        head, cnt := 0, 1;
      } else if cnt == capacity {
        Doubled(capacity);
        Grow();
        RingPrepend(vec[..], head, cnt, item);
        vec[capacity - 1] := item;
        head, cnt := capacity - 1, cnt + 1;
      } else {
        RingPrepend(vec[..], head, cnt, item);
        if head != 0 {
          vec[head - 1] := item;
          head := head - 1;
        } else {
          vec[capacity - 1] := item;
          head := capacity - 1;
        }
        cnt := cnt + 1;
      }
    }

    method Dequeue()
      requires Valid() && cnt > 0
      modifies this`head, this`cnt
      ensures Valid() && View() == old(View())[1..]
    {
      hide IsPow2, And, Ring, Slot;
      MaskWraps(head, 1, capacity);
      RingRest(vec[..], head, cnt);
      head := And(head + 1, mask);
      cnt := cnt - 1;
    }

    method Get(index: nat) returns (x: T)
      requires Valid() && index < cnt
      ensures x == View()[index]
    {
      MaskWraps(head, index, capacity);
      x := vec[And(head + index, mask)];
    }

    /** Peek reads the head without the mask. */
    method Peek() returns (x: T)
      requires Valid() && cnt > 0
      ensures x == View()[0]
    {
      x := vec[head];
    }

    /** Shifts the later elements down; an index past the end drops the last one. */
    method Erase(index: nat)
      requires Valid() && cnt > 0
      modifies this`cnt, this`head, vec
      ensures Valid()
      ensures View()
        == if index < old(cnt) then old(View())[..index] + old(View())[index + 1..] else old(View())[..old(cnt) - 1]
    {
      hide IsPow2, Ring, Shifted, Slot, And;
      ghost var before := View();
      if index < cnt {
        ShiftEnds(before, index);
      }
      var i := index;
      while i < cnt - 1
        modifies vec
        invariant index < cnt ==> index <= i < cnt
        invariant index >= cnt ==> i == index
        invariant View() == if index < cnt then Shifted(before, index, i) else before
      {
        MaskWraps(head, i, capacity);
        MaskWraps(head, i + 1, capacity);
        RingShift(vec[..], head, cnt, i);
        ShiftMore(before, index, i);
        vec[And(head + i, mask)] := vec[And(head + i + 1, mask)];
        i := i + 1;
      }
      RingShorten(vec[..], head, cnt);
      cnt := cnt - 1;
      if cnt == 0 {
        head := 0;
      }
    }
  }

  // ---- Whole runs. ----

  datatype Op<T> =
    | Enqueue(x: T)
    | EnqueueAsFirst(x: T)
    | Dequeue
    | Erase(index: nat)
    | Reset(n: nat)
    | Get(index: nat)
    | Peek
    | Size

  /** An element, a size, or whether Reset took the new capacity instead of throwing. */
  datatype Answer<T> = Element(x: T) | Count(n: nat) | Taken(ok: bool)

  predicate Allowed<T>(s: seq<T>, op: Op<T>) {
    match op
    case Dequeue => s != []
    case Erase(_) => s != []
    case Get(i) => i < |s|
    case Peek => s != []
    case _ => true
  }

  function After<T>(s: seq<T>, op: Op<T>): seq<T>
    requires Allowed(s, op)
  {
    match op
    case Enqueue(x) => s + [x]
    case EnqueueAsFirst(x) => [x] + s
    case Dequeue => s[1..]
    case Erase(i) => if i < |s| then s[..i] + s[i + 1..] else s[..|s| - 1]
    case Reset(_) => []
    case _ => s
  }

  function Answers<T>(s: seq<T>, op: Op<T>): seq<Answer<T>>
    requires Allowed(s, op)
  {
    match op
    case Reset(n) => [Taken(IsPow2(n))]
    case Get(i) => [Element(s[i])]
    case Peek => [Element(s[0])]
    case Size => [Count(|s|)]
    case _ => []
  }

  predicate Legal<T>(s: seq<T>, ops: seq<Op<T>>)
    decreases |ops|
  {
    ops == [] || (Allowed(s, ops[0]) && Legal(After(s, ops[0]), ops[1..]))
  }

  /** What a run answers, on a mathematical sequence. */
  function Reads<T>(s: seq<T>, ops: seq<Op<T>>): seq<Answer<T>>
    requires Legal(s, ops)
    decreases |ops|
  {
    if ops == [] then [] else Answers(s, ops[0]) + Reads(After(s, ops[0]), ops[1..])
  }

  lemma Unroll<T>(s: seq<T>, ops: seq<Op<T>>, i: nat)
    requires i < |ops| && Legal(s, ops[i..])
    ensures Allowed(s, ops[i]) && Legal(After(s, ops[i]), ops[i + 1..])
    ensures Reads(s, ops[i..]) == Answers(s, ops[i]) + Reads(After(s, ops[i]), ops[i + 1..])
  {
    hide Allowed, After, Answers;
    assert ops[i..][0] == ops[i] && ops[i..][1..] == ops[i + 1..];
  }

  method Perform<T(0)>(q: CircularQueue<T>, op: Op<T>) returns (out: seq<Answer<T>>)
    requires q.Valid() && Allowed(q.View(), op)
    modifies q, q.vec
    ensures q.Valid() && q.View() == After(old(q.View()), op)
    ensures q.vec == old(q.vec) || fresh(q.vec)
    ensures out == Answers(old(q.View()), op)
  {
    hide Ring, IsPow2;
    out := [];
    match op {
      case Enqueue(x) => q.Enqueue(x);
      case EnqueueAsFirst(x) => q.EnqueueAsFirst(x);
      case Dequeue => q.Dequeue();
      case Erase(i) => q.Erase(i);
      case Reset(n) =>
        var ok := q.Reset(n);
        out := [Taken(ok)];
      case Get(i) =>
        var x := q.Get(i);
        out := [Element(x)];
      case Peek =>
        var x := q.Peek();
        out := [Element(x)];
      case Size => out := [Count(q.cnt)];
    }
  }

  /** Every legal run answers what the same run on a sequence answers, from any power-of-two capacity. */
  method RunQueue<T(0)>(capacity: nat, ops: seq<Op<T>>) returns (out: seq<Answer<T>>)
    requires IsPow2(capacity) && Legal([], ops)
    ensures out == Reads([], ops)
  {
    hide IsPow2, Ring, Allowed, After, Answers;
    var q := new CircularQueue<T>(capacity);
    out := [];
    assert ops[0..] == ops;
    for i := 0 to |ops|
      invariant fresh(q) && fresh(q.vec) && q.Valid() && Legal(q.View(), ops[i..])
      invariant Reads([], ops) == out + Reads(q.View(), ops[i..])
    {
      Unroll(q.View(), ops, i);
      var o := Perform(q, ops[i]);
      out := out + o;
    }
  }
}
