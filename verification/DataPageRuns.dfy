/** Data pages from end to end: build, scan, point read, floor read. */
module DataPageRuns {
  import opened Bytes
  import opened Coding
  import opened DataPageBuilder
  import opened DataPageIter
  import opened Options
  import opened PageEntry
  import opened PageLayout

  function StoredAll(es: seq<Entry>): (r: seq<Entry>)
    ensures |r| == |es| && forall i :: 0 <= i < |es| ==> r[i] == Stored(es[i])
  {
    seq(|es|, i requires 0 <= i < |es| => Stored(es[i]))
  }

  lemma MoreStored(es: seq<Entry>, n: nat)
    requires n < |es|
    ensures StoredAll(es)[..n] + [Stored(es[n])] == StoredAll(es)[..n + 1]
  {
    hide Stored;
  }

  /** The entry as a reader sees it through the iterator. */
  function Seen(it: Iter): Entry
    reads it
  {
    Entry(it.key, it.value, it.overflow, if it.large then LARGE else it.compression, it.expire, it.ts)
  }

  lemma SeenIsStored(it: Iter, e: Entry)
    requires e.Valid()
    ensures it.Shows(e) ==> Seen(it) == Stored(e)
    ensures it.compression == Compression(e) && Seen(it) == Stored(e) ==> it.Shows(e)
  {
  }

  /** Adds entries until one is refused and finishes the page. */
  method BuildPage(entries: seq<Entry>, pageSize: nat, interval: nat)
    returns (taken: nat, page: seq<Byte>, ghost starts: seq<nat>)
    requires HEADER + 4 <= pageSize < 0x1_0000 && interval > 0
    requires forall i :: 0 <= i < |entries| ==> entries[i].Valid()
    ensures taken <= |entries| && |page| == pageSize && IsPage(page, entries[..taken], starts)
  {
    hide IsPage, Built, Running, ContentSize, NextStarts;
    var b := new Builder(pageSize, interval);
    taken := 0;
    var more := true;
    while taken < |entries| && more
      invariant b.Valid() && b.pageSize == pageSize && fresh(b) && taken <= |entries| && b.es == entries[..taken]
      decreases |entries| - taken, more
    {
      more := b.Add(entries[taken]);
      if more {
        taken := taken + 1;
      }
    }
    starts := b.starts;
    page := b.Finish();
  }

  /** Reads a page from the start. */
  method ScanPage(page: seq<Byte>, cmp: (Key, Key) -> int, ghost es: seq<Entry>, ghost starts: seq<nat>)
    returns (out: seq<Entry>)
    requires IsPage(page, es, starts)
    ensures out == StoredAll(es)
  {
    hide IsPage, InRegion, StoredAll, Stored, Iter.Shows, Iter.At;
    var it := new Iter(page, cmp, es, starts);
    out := [];
    var ok := it.ParseNextKey(0);
    while ok
      invariant it.Valid() && fresh(it) && it.es == es && |out| <= |es| && out == StoredAll(es)[..|out|]
      invariant ok ==> |out| < |es| && it.Shows(es[|out|]) && it.At(|out| + 1)
      invariant !ok ==> |out| == |es|
      decreases |es| - |out|
    {
      ValidAt(page, es, starts, |out|);
      SeenIsStored(it, es[|out|]);
      MoreStored(es, |out|);
      out := out + [Seen(it)];
      ok := it.ParseNextKey(|out|);
    }
  }

  /** Whatever a page took is what it gives back, in order, with timestamps cut to 63 bits. */
  method BuildAndScan(entries: seq<Entry>, pageSize: nat, interval: nat, cmp: (Key, Key) -> int)
    returns (taken: nat, out: seq<Entry>)
    requires HEADER + 4 <= pageSize < 0x1_0000 && interval > 0
    requires forall i :: 0 <= i < |entries| ==> entries[i].Valid()
    ensures taken <= |entries| && out == StoredAll(entries[..taken])
  {
    var page;
    ghost var starts;
    taken, page, starts := BuildPage(entries, pageSize, interval);
    out := ScanPage(page, cmp, entries[..taken], starts);
  }

  /** A point read: Seek, then compare the key it stopped at. */
  method PointGet(it: Iter, search: Key) returns (r: Option<Entry>)
    requires it.Valid() && it.es != [] && Order(it.cmp) && Sorted(it.es, it.cmp)
    modifies it
    ensures r.Some? ==> exists i :: 0 <= i < |it.es| && it.es[i].key == search && r.value == Stored(it.es[i])
    ensures r.None? ==> forall i :: 0 <= i < |it.es| ==> it.es[i].key != search
  {
    hide IsPage, Before, Order, Sorted, Clamp;
    var found;
    ghost var at;
    found, at := it.Seek(search);
    if found && it.cmp(it.key, search) == 0 {
      SameKey(it.cmp, it.key, search);
      ValidAt(it.page, it.es, it.starts, at);
      SeenIsStored(it, it.es[at]);
      return Some(Seen(it));
    }
    Absent(it.es, it.cmp, search, at);
    return None;
  }

  lemma ValidAt(page: seq<Byte>, es: seq<Entry>, starts: seq<nat>, i: nat)
    requires IsPage(page, es, starts) && i < |es|
    ensures es[i].Valid()
  {
    hide Offset, Fixed16;
  }

  lemma Absent(es: seq<Entry>, cmp: (Key, Key) -> int, search: Key, at: nat)
    requires Order(cmp) && Sorted(es, cmp) && FirstNotLess(es, cmp, search, at)
    requires at < |es| ==> cmp(es[at].key, search) != 0
    ensures forall i :: 0 <= i < |es| ==> es[i].key != search
  {
    hide Order, Sorted;
    SelfCompare(cmp, search);
    forall i | 0 <= i < |es|
      ensures es[i].key != search
    {
      if i >= at {
        SortedAround(es, cmp, search, i, at);
      }
    }
  }

  /** What a floor read delivers: the floor, with flag and expiry of the entry that was parsed last. */
  function Delivered(es: seq<Entry>, starts: seq<nat>, search: Key, at: nat): Entry
    requires at < |es| && FloorSeen(es, starts, search, at) < |es|
  {
    var last := es[FloorSeen(es, starts, search, at)];
    Stored(es[at]).(expire := last.expire, kind := if last.kind == LARGE then LARGE else Compression(es[at]))
  }

  /** The floor read of one page: the floor of the search key, and exactly as stored if and only if FloorIsSafe. */
  method FloorGet(it: Iter, search: Key) returns (r: Option<Entry>, ghost at: nat)
    requires it.Valid() && it.es != [] && Order(it.cmp) && Sorted(it.es, it.cmp)
    modifies it
    ensures r.None? <==> it.cmp(it.es[0].key, search) > 0
    ensures r.Some? ==> at < |it.es| && IsFloor(it.es, it.cmp, search, at)
    ensures r.Some? ==> FloorSeen(it.es, it.starts, search, at) < |it.es|
    ensures r.Some? ==> r.value == Delivered(it.es, it.starts, search, at)
    ensures r.Some? ==> (r.value == Stored(it.es[at]) <==> FloorIsSafe(it.es, it.starts, search, at))
  {
    hide IsPage, Before, Order, Sorted, Clamp, IsFloor, FloorIsSafe, FloorSeen;
    var found;
    found, at := it.SeekFloor(search);
    if !found {
      return None, at;
    }
    ValidAt(it.page, it.es, it.starts, at);
    SeenIsStored(it, it.es[at]);
    return Some(Seen(it)), at;
  }

  /** The floor, none, or a failed CHECK: the previous page was expected to have one. */
  datatype FloorResult = Floor(entry: Entry) | NotFound | CheckFailed

  /** The page before, if there is one. */
  ghost function EntriesOf(prev: Iter?): seq<Entry> {
    if prev == null then [] else prev.es
  }

  ghost function StartsOf(prev: Iter?): seq<nat> {
    if prev == null then [] else prev.starts
  }

  /** The entry is the floor over two pages, exactly as stored if and only if FloorIsSafe on its own page. */
  ghost predicate Delivers(front: seq<Entry>, fs: seq<nat>, back: seq<Entry>, bs: seq<nat>, cmp: (Key, Key) -> int,
                           search: Key, e: Entry, at: nat)
  {
    && at < |front + back| && IsFloor(front + back, cmp, search, at)
    && if at < |front| then e == Stored(front[at]) <==> FloorIsSafe(front, fs, search, at)
       else e == Stored(back[at - |front|]) <==> FloorIsSafe(back, bs, search, at - |front|)
  }

  lemma FromBack(front: seq<Entry>, fs: seq<nat>, back: seq<Entry>, bs: seq<nat>, cmp: (Key, Key) -> int,
                 search: Key, e: Entry, at: nat)
    requires at < |back| && IsFloor(back, cmp, search, at)
    requires e == Stored(back[at]) <==> FloorIsSafe(back, bs, search, at)
    ensures Delivers(front, fs, back, bs, cmp, search, e, |front| + at)
  {
    hide FloorIsSafe, Stored;
  }

  lemma FromFront(front: seq<Entry>, fs: seq<nat>, back: seq<Entry>, bs: seq<nat>, cmp: (Key, Key) -> int,
                  search: Key, e: Entry, at: nat)
    requires at < |front| && IsFloor(front, cmp, search, at) && back != [] && cmp(back[0].key, search) > 0
    requires e == Stored(front[at]) <==> FloorIsSafe(front, fs, search, at)
    ensures Delivers(front, fs, back, bs, cmp, search, e, at)
  {
    hide FloorIsSafe, Stored;
  }

  lemma TwoPages(front: seq<Entry>, back: seq<Entry>, cmp: (Key, Key) -> int, search: Key)
    requires Order(cmp) && Sorted(front + back, cmp) && back != []
    ensures Sorted(front, cmp) && Sorted(back, cmp)
    ensures cmp(back[0].key, search) <= 0 ==> cmp((front + back)[0].key, search) <= 0
    ensures (front + back)[0] == if front == [] then back[0] else front[0]
  {
    hide Order;
    var all := front + back;
    assert forall i :: 0 <= i < |back| ==> all[|front| + i] == back[i];
    assert forall i :: 0 <= i < |front| ==> all[i] == front[i];
    SortedAround(all, cmp, search, 0, |front|);
  }

  /**
   ReadTask::Floor once the index has picked the page: the page itself, else the page before it.  The floor over both
   pages is found exactly if there is one.
   */
  method FloorRead(it: Iter, prev: Iter?, search: Key) returns (r: FloorResult, ghost at: nat)
    requires it.Valid() && it.es != [] && Order(it.cmp) && Sorted(EntriesOf(prev) + it.es, it.cmp)
    requires prev != null ==> prev != it && prev.Valid() && prev.es != [] && prev.cmp == it.cmp
    modifies it, prev
    ensures r.Floor? <==> it.cmp((EntriesOf(prev) + it.es)[0].key, search) <= 0
    ensures !r.Floor? ==> (r.CheckFailed? <==> prev != null)
    ensures r.Floor? ==> Delivers(EntriesOf(prev), StartsOf(prev), it.es, it.starts, it.cmp, search, r.entry, at)
  {
    hide IsPage, Order, Sorted, IsFloor, FloorIsSafe, FloorSeen, Delivered, Stored, Delivers;
    ghost var front, fs, back, bs := EntriesOf(prev), StartsOf(prev), it.es, it.starts;
    TwoPages(front, back, it.cmp, search);
    var found;
    found, at := FloorGet(it, search);
    if found.Some? {
      FromBack(front, fs, back, bs, it.cmp, search, found.value, at);
      return Floor(found.value), |front| + at;
    }
    if prev == null {
      return NotFound, 0;
    }
    found, at := FloorGet(prev, search);
    if found.None? {
      return CheckFailed, 0;
    }
    FromFront(front, fs, back, bs, it.cmp, search, found.value, at);
    return Floor(found.value), at;
  }

  // ---- A floor read that reports another entry's expiry. ----

  lemma {:induction false} VarintIsShort(v: nat, n: nat)
    requires n > 0 && v < Pow128(n)
    ensures |Varint(v)| <= n
  {
    if v >= 128 {
      VarintIsShort(v / 128, n - 1);
    }
  }

  /** A small key without a value takes at most 35 bytes more than the key itself. */
  lemma EncodedIsShort(e: Entry, key: seq<Byte>, ts: Word64)
    requires Small(e) && e.value == [] && ts <= MAX_INT64
    ensures |EncodeEntry(e, key, ts)| <= |e.key| + 35
  {
    hide Varint, Shared, EncodeEntry, EncodeDelta, Pow128;
    VarintWidths();
    EncodedLength(e, key, ts);
    DeltaFits(e.ts, ts);
    StoredLenFields(e);
    var n := Shared(key, e.key);
    VarintIsShort(n, 5);
    VarintIsShort(|e.key| - n, 5);
    VarintIsShort(StoredLen(e), 5);
    VarintIsShort(e.expire, 10);
    VarintIsShort(EncodeDelta(Clamp(e.ts) - ts), 10);
  }

  lemma TwoFit(first: Entry, second: Entry)
    requires Small(first) && Small(second) && first.value == second.value == [] && |first.key| + |second.key| <= 4000
    ensures ContentSize([first], [0]) <= 4096 && ContentSize([first, second], [0]) <= 4096
  {
    hide EncodeEntry;
    EncodedIsShort(first, [], 0);
    EncodedIsShort(second, first.key, Clamp(first.ts));
    var es := [first, second];
    assert Body([first], [0], 1) == EncodedAt([first], [0], 0);
    assert Body(es, [0], 1) == EncodedAt(es, [0], 0);
    assert Body(es, [0], 2) == Body(es, [0], 1) + EncodedAt(es, [0], 1);
  }

  method BuildTwo(first: Entry, second: Entry) returns (page: seq<Byte>)
    requires Small(first) && Small(second) && first.value == second.value == [] && |first.key| + |second.key| <= 4000
    ensures IsPage(page, [first, second], [0])
  {
    hide IsPage, Built, ContentSize;
    TwoFit(first, second);
    var builder := new Builder(4096, 16);
    assert [] + [first] == [first] && [first] + [second] == [first, second];
    var ok := builder.Add(first);
    ok := builder.Add(second);
    page := builder.Finish();
  }

  /** A page of one entry without expiry and one with: the floor of a key between them shows the second's expiry. */
  method FloorOfTwo(cmp: (Key, Key) -> int, a: Key, b: Key, c: Key) returns (r: Option<Entry>)
    requires Order(cmp) && cmp(a, b) < 0 && cmp(b, c) < 0 && |a| + |c| <= 4000
    ensures r == Some(Entry(a, [], false, 0, 5, 1))
  {
    hide IsPage;
    var first, second := Entry(a, [], false, 0, 0, 1), Entry(c, [], false, 0, 5, 1);
    var page := BuildTwo(first, second);
    var it := new Iter(page, cmp, [first, second], [0]);
    assert cmp(c, b) > 0 && cmp(a, c) < 0;
    ghost var at;
    r, at := FloorGet(it, b);
  }
}
