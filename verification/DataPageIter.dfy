/** src/storage/data_page.cpp: DataPageIter, the reader of a data page. */
module DataPageIter {
  import opened Bytes
  import opened PageEntry
  import opened PageLayout

  type Key = seq<Byte>

  // ---- The order of keys. ----

  /** What Comparator promises of Compare. */
  ghost predicate Order(cmp: (Key, Key) -> int) {
    && (forall a, b :: cmp(a, b) == 0 <==> a == b)
    && (forall a, b :: cmp(a, b) < 0 <==> cmp(b, a) > 0)
    && (forall a, b, c :: cmp(a, b) < 0 && cmp(b, c) < 0 ==> cmp(a, c) < 0)
  }

  ghost predicate Sorted(es: seq<Entry>, cmp: (Key, Key) -> int) {
    forall i, j :: 0 <= i < j < |es| ==> cmp(es[i].key, es[j].key) < 0
  }

  // ---- Positions. ----

  /** The restart index lies at, or one ahead of, the region of position `p`. */
  ghost predicate InRegion(starts: seq<nat>, p: nat, idx: nat) {
    && idx < |starts|
    && ((starts[idx] <= p && (idx + 1 < |starts| ==> p < starts[idx + 1]))
        || (idx > 0 && starts[idx - 1] < p < starts[idx]))
  }

  /** The iterator stands before entry `p`. */
  ghost predicate Before(es: seq<Entry>, starts: seq<nat>, p: nat, offset: nat, idx: nat, key: Key, ts: nat) {
    && p <= |es| && offset == Offset(es, starts, p)
    && |key| < 0x1_0000 && ts <= MAX_INT64
    && (p < |es| ==> InRegion(starts, p, idx))
    && (0 < p < |es| && p !in starts ==> key == es[p - 1].key && ts == Clamp(es[p - 1].ts))
  }

  /** The offset is the restart point exactly at the start of a region. */
  lemma RestartPointer(es: seq<Entry>, starts: seq<nat>, p: nat, idx: nat)
    requires Layout(es, starts) && p < |es| && InRegion(starts, p, idx)
    ensures Offset(es, starts, p) == RestartAt(es, starts, idx) <==> p in starts
  {
    hide Offset, Small;
    StartsAreDistinct(es, starts, idx, idx);
    OffsetOrder(es, starts, p, starts[idx]);
    OffsetOrder(es, starts, starts[idx], p);
    if p in starts {
      var j :| 0 <= j < |starts| && starts[j] == p;
      StartsAreDistinct(es, starts, j, idx);
      StartsAreDistinct(es, starts, idx, j);
      if idx + 1 < |starts| {
        StartsAreDistinct(es, starts, j, idx + 1);
      }
      if idx > 0 {
        StartsAreDistinct(es, starts, idx - 1, j);
      }
    }
  }

  /** The restart index that ParseNextKey moves to. */
  lemma NextRegion(es: seq<Entry>, starts: seq<nat>, p: nat, idx: nat)
    requires Layout(es, starts) && p < |es| && InRegion(starts, p, idx)
    ensures var ahead := idx + 1 < |starts| && Offset(es, starts, p + 1) >= RestartAt(es, starts, idx + 1);
            var next := if ahead then idx + 1 else idx;
            InRegion(starts, p + 1, next)
  {
    hide Offset, Small;
    if idx + 1 < |starts| {
      StartsAreDistinct(es, starts, idx, idx + 1);
      OffsetOrder(es, starts, p + 1, starts[idx + 1]);
      if idx + 2 < |starts| {
        StartsAreDistinct(es, starts, idx + 1, idx + 2);
      }
    }
    if idx > 0 {
      StartsAreDistinct(es, starts, idx - 1, idx);
    }
  }

  /** What a parse leaves in key and timestamp is what the next one needs. */
  lemma BeforeNext(es: seq<Entry>, starts: seq<nat>, p: nat, next: nat)
    requires Layout(es, starts) && p < |es| && InRegion(starts, p + 1, next)
    ensures Before(es, starts, p + 1, Offset(es, starts, p + 1), next, es[p].key, Clamp(es[p].ts))
  {
    hide Offset, InRegion;
    SmallEntry(es[p]);
  }

  function Compression(e: Entry): nat {
    if e.kind == LARGE then 0 else e.kind
  }

  class Iter {
    const cmp: (Key, Key) -> int
    const page: seq<Byte>
    const restartNum: nat
    const restartOffset: nat
    var currOffset: nat
    var currRestartIdx: nat
    var key: Key
    var value: seq<Byte>
    var overflow: bool
    var large: bool
    var compression: nat
    var ts: Word64
    var expire: Word64
    ghost const es: seq<Entry>
    ghost const starts: seq<nat>

    ghost predicate Valid() {
      && IsPage(page, es, starts)
      && restartNum == |starts| && restartOffset == Offset(es, starts, |es|)
    }

    /** The next entry to be parsed is entry `p`. */
    ghost predicate At(p: nat)
      reads this
    {
      Before(es, starts, p, currOffset, currRestartIdx, key, ts)
    }

    /** The fields are those of this entry. */
    ghost predicate Shows(e: Entry)
      reads this
    {
      && key == e.key && value == e.value && overflow == e.overflow && large == (e.kind == LARGE)
      && compression == Compression(e) && ts == Clamp(e.ts) && expire == e.expire
    }

    constructor (page: seq<Byte>, cmp: (Key, Key) -> int, ghost es: seq<Entry>, ghost starts: seq<nat>)
      requires IsPage(page, es, starts)
      ensures Valid() && At(0) && this.es == es && this.starts == starts && this.page == page && this.cmp == cmp
    {
      hide Offset, Layout, Small, Fixed16;
      this.page, this.cmp := page, cmp;
      var content := Fixed16(page, SIZE_OFFSET);
      var num := Fixed16(page, content - 2);
      restartNum := num;
      restartOffset := content - (1 + num) * 2;
      currOffset, currRestartIdx, key, value, ts := HEADER, 0, [], [], 0;
      overflow, large, compression, expire := false, false, 0, 0;
      this.es, this.starts := es, starts;
      FirstPosition(es, starts);
    }

    method RestartOffset(j: nat) returns (r: nat)
      requires Valid() && j < restartNum
      ensures r == RestartAt(es, starts, j)
    {
      hide IsPage, Offset, Fixed16, RestartAt;
      RestartRead(page, es, starts, j);
      r := Fixed16(page, restartOffset + j * 2);
    }

    method Invalidate()
      modifies this
      ensures currOffset == restartOffset && currRestartIdx == restartNum
      ensures key == [] && value == [] && ts == 0 && expire == 0 && !overflow && !large && compression == 0
    {
      currOffset, currRestartIdx := restartOffset, restartNum;
      key, value, ts, expire, overflow, large, compression := [], [], 0, 0, false, false, 0;
    }

    /** The body of ParseNextKey: the entry, the offset behind it and the restart index there. */
    method Parse(ghost p: nat) returns (e: Entry, offset: nat, idx: nat)
      requires Valid() && At(p) && p < |es|
      ensures e == Stored(es[p])
      ensures Before(es, starts, p + 1, offset, idx, es[p].key, Clamp(es[p].ts)) && InRegion(starts, p + 1, idx)
    {
      hide IsPage, Before, Offset, ParseEntry, RestartAt, Clamp, InRegion, Stored;
      ParseStep(page, es, starts, p, currOffset, currRestartIdx, key, ts);
      var point := RestartOffset(currRestartIdx);
      var parsed := ParseEntry(page[currOffset..restartOffset], key, ts, currOffset == point);
      e, offset, idx := parsed.value.0, currOffset + parsed.value.1, currRestartIdx;
      if idx + 1 < restartNum {
        var next := RestartOffset(idx + 1);
        if offset >= next {
          idx := idx + 1;
        }
      }
    }

    /**
     ParseNextKey: shows the entry the iterator stands before and moves past it; on a built page no entry is
     malformed.
     */
    method ParseNextKey(ghost p: nat) returns (ok: bool)
      requires Valid() && At(p)
      modifies this
      ensures ok <==> p < |es|
      ensures ok ==> Shows(es[p]) && At(p + 1) && InRegion(starts, p + 1, currRestartIdx)
      ensures !ok ==> At(|es|)
    {
      hide IsPage, Before, Offset, Clamp, InRegion;
      BeforeOrder(es, starts, p, |es|, currOffset, currRestartIdx, key, ts);
      if currOffset >= restartOffset {
        Invalidate();
        EndPosition(es, starts, currRestartIdx);
        return false;
      }
      var e, offset, idx := Parse(p);
      key, value, overflow, large, compression := e.key, e.value, e.overflow, e.kind == LARGE, Compression(e);
      expire, ts := e.expire, e.ts;
      currOffset, currRestartIdx := offset, idx;
      return true;
    }

    /** The key at a restart point, read straight after its three lengths. */
    method RestartKey(j: nat) returns (pivot: Key)
      requires Valid() && es != [] && j < restartNum
      ensures starts[j] < |es| && pivot == es[starts[j]].key
    {
      hide IsPage, Offset, DecodeHead, RestartAt;
      StartsInPage(page, es, starts, j);
      var at := RestartOffset(j);
      KeyAtRestart(page, es, starts, starts[j]);
      var data := page[at..restartOffset];
      var h := DecodeHead(data);
      pivot := data[h.value.used..][..h.value.nonShared];
    }

    /** SearchRegion: the first region whose start key is no less than the search key. */
    method SearchRegion(search: Key) returns (equal: bool, left: nat)
      requires Valid() && es != [] && Order(cmp) && Sorted(es, cmp)
      ensures equal ==> left < |starts| && starts[left] < |es| && es[starts[left]].key == search
      ensures !equal ==> Splits(es, starts, cmp, search, left)
    {
      hide IsPage, Order, Sorted;
      left := 0;
      var cnt := restartNum;
      while cnt > 0
        invariant left + cnt <= |starts|
        invariant forall j :: 0 <= j < left ==> starts[j] < |es| && cmp(es[starts[j]].key, search) < 0
        invariant forall j :: left + cnt <= j < |starts| ==> starts[j] < |es| && cmp(es[starts[j]].key, search) > 0
      {
        var step := cnt / 2;
        var mid := left + step;
        var pivot := RestartKey(mid);
        var c := cmp(pivot, search);
        if c == 0 {
          SameKey(cmp, pivot, search);
          return true, mid;
        } else if c < 0 {
          BelowRestart(page, es, starts, cmp, search, mid);
          left := mid + 1;
          cnt := cnt - (step + 1);
        } else {
          AboveRestart(page, es, starts, cmp, search, mid);
          cnt := step;
        }
      }
      return false, left;
    }

    method SeekToRestart(j: nat)
      requires Valid() && j < restartNum
      modifies this
      ensures starts[j] <= |es| && At(starts[j])
      ensures unchanged(this`value, this`overflow, this`large, this`compression, this`expire)
    {
      hide IsPage, RestartAt;
      RestartPosition(page, es, starts, j);
      currRestartIdx := j;
      currOffset := RestartOffset(j);
      key := [];
      ts := 0;
    }

    /** Where the region before restart `c` ends. */
    method RegionLimit(c: nat) returns (limit: nat)
      requires Valid() && es != [] && c <= restartNum
      ensures RegionEnd(es, starts, c) <= |es| && limit == Offset(es, starts, RegionEnd(es, starts, c))
    {
      hide IsPage, Offset, RestartAt;
      if c < restartNum {
        StartsInPage(page, es, starts, c);
        limit := RestartOffset(c);
      } else {
        limit := restartOffset;
      }
    }

    /** Seek: to the first entry whose key is not less than the search key, if there is one. */
    method Seek(search: Key) returns (found: bool, ghost at: nat)
      requires Valid() && es != [] && Order(cmp) && Sorted(es, cmp)
      modifies this
      ensures FirstNotLess(es, cmp, search, at) && (found <==> at < |es|)
      ensures found ==> Shows(es[at]) && At(at + 1)
      ensures !found ==> At(|es|)
    {
      hide IsPage, Order, Sorted, Offset, Before, Splits, FirstNotLess, RegionEnd;
      var equal, c := SearchRegion(search);
      SearchOutcome(page, es, starts, cmp, search, equal, c);
      if equal || c == 0 {
        SeekToRestart(c);
        found := ParseNextKey(starts[c]);
        return found, starts[c];
      }
      var limit := RegionLimit(c);
      ghost var end := RegionEnd(es, starts, c);
      SeekToRestart(c - 1);
      at := starts[c - 1];
      while currOffset < limit
        invariant at <= end && At(at) && AllLess(es, cmp, search, at)
        decreases end - at
      {
        BeforeOrder(es, starts, at, end, currOffset, currRestartIdx, key, ts);
        found := ParseNextKey(at);
        if cmp(key, search) >= 0 {
          FoundCeiling(es, cmp, search, at);
          return true, at;
        }
        MoreLess(es, cmp, search, at);
        at := at + 1;
      }
      BeforeOrder(es, starts, at, end, currOffset, currRestartIdx, key, ts);
      FoundAtLimit(page, es, starts, cmp, search, c);
      found := ParseNextKey(end);
      return found, end;
    }

    /**
     * SeekFloor: to the last entry whose key is not greater than the search key, if there is one.  Key, value,
     * overflow, compression type and timestamp are that entry's; the large-value flag and the expiry are left as
     * the linear search last read them.
     */
    method SeekFloor(search: Key) returns (found: bool, ghost at: nat)
      requires Valid() && es != [] && Order(cmp) && Sorted(es, cmp)
      modifies this
      ensures found <==> cmp(es[0].key, search) <= 0
      ensures found ==> at < |es| && IsFloor(es, cmp, search, at) && At(at + 1)
      ensures found ==> Remembers(es[at], key, value, overflow, compression, ts)
      ensures found ==> FloorSeen(es, starts, search, at) < |es|
      ensures found ==> LeftBehind(es[FloorSeen(es, starts, search, at)], large, expire)
      ensures found ==> (Shows(es[at]) <==> FloorIsSafe(es, starts, search, at))
      ensures !found ==> unchanged(this)
    {
      hide IsPage, Order, Sorted, Offset, Before, Splits, RegionEnd, Clamp, Compression, InRegion, IsFloor, FloorSeen,
           FloorIsSafe;
      var equal, c := SearchRegion(search);
      SearchOutcome(page, es, starts, cmp, search, equal, c);
      FloorExists(page, es, starts, cmp, search, equal, c);
      if equal {
        SeekToRestart(c);
        found := ParseNextKey(starts[c]);
        FloorAtRestart(es, starts, cmp, search, c);
        FloorReports(es, starts, search, starts[c], large, expire);
        return true, starts[c];
      } else if c == 0 {
        return false, 0;
      }
      var lastOffset, k, v, o, z, t;
      lastOffset, k, v, o, z, t, at := FloorScan(search, c);
      currOffset, key, value, overflow, ts, compression := lastOffset, k, v, o, t, z;
      FloorReports(es, starts, search, at, large, expire);
      return true, at;
    }

    /** The linear search of SeekFloor: what it remembers of the last entry that is not beyond the search key. */
    method FloorScan(search: Key, c: nat)
      returns (lastOffset: nat, k: Key, v: seq<Byte>, o: bool, z: nat, t: Word64, ghost at: nat)
      requires Valid() && es != [] && Order(cmp) && Sorted(es, cmp) && Splits(es, starts, cmp, search, c) && c > 0
      requires starts[c - 1] < RegionEnd(es, starts, c) <= |es| && cmp(es[starts[c - 1]].key, search) < 0
      modifies this
      ensures at < |es| && IsFloor(es, cmp, search, at) && FloorSeen(es, starts, search, at) < |es|
      ensures Before(es, starts, at + 1, lastOffset, currRestartIdx, k, t)
      ensures Remembers(es[at], k, v, o, z, t)
      ensures LeftBehind(es[FloorSeen(es, starts, search, at)], large, expire)
    {
      hide IsPage, Order, Sorted, Offset, Before, Splits, RegionEnd, Clamp, Compression, InRegion, IsFloor, FloorSeen;
      lastOffset, k, v, o, z, t := restartOffset, [], [], false, 0, 0;
      SplitBound(es, starts, cmp, search, c);
      var limit := RegionLimit(c);
      ghost var end := RegionEnd(es, starts, c);
      SeekToRestart(c - 1);
      ghost var p := starts[c - 1];
      while currOffset < limit
        invariant starts[c - 1] <= p <= end && At(p)
        invariant p > starts[c - 1] ==>
          && cmp(es[p - 1].key, search) <= 0 && lastOffset == Offset(es, starts, p)
          && InRegion(starts, p, currRestartIdx)
          && Remembers(es[p - 1], k, v, o, z, t) && LeftBehind(es[p - 1], large, expire)
        decreases end - p
      {
        BeforeOrder(es, starts, p, end, currOffset, currRestartIdx, key, ts);
        var ok := ParseNextKey(p);
        if cmp(key, search) > 0 {
          FloorInside(page, es, starts, cmp, search, c, p, currRestartIdx);
          at := p - 1;
          return;
        }
        NextOffset(es, starts, p + 1, currOffset, currRestartIdx, key, ts);
        lastOffset, k, v, o, z, t := currOffset, key, value, overflow, compression, ts;
        p := p + 1;
      }
      BeforeOrder(es, starts, p, end, currOffset, currRestartIdx, key, ts);
      FloorAtEnd(page, es, starts, cmp, search, c, currRestartIdx);
      at := p - 1;
    }
  }

  /** What SeekFloor saves and restores ... */
  ghost predicate Remembers(e: Entry, k: Key, v: seq<Byte>, o: bool, z: nat, t: Word64) {
    k == e.key && v == e.value && o == e.overflow && z == Compression(e) && t == Clamp(e.ts)
  }

  /** ... and what it does not. */
  ghost predicate LeftBehind(e: Entry, large: bool, expire: Word64) {
    large == (e.kind == LARGE) && expire == e.expire
  }

  lemma SplitBound(es: seq<Entry>, starts: seq<nat>, cmp: (Key, Key) -> int, search: Key, c: nat)
    requires Splits(es, starts, cmp, search, c)
    ensures c <= |starts|
  {
  }

  lemma FirstPosition(es: seq<Entry>, starts: seq<nat>)
    requires Layout(es, starts)
    ensures Before(es, starts, 0, HEADER, 0, [], 0)
  {
    hide Small;
    if |starts| > 1 {
      assert starts[0] < starts[1];
    }
  }

  lemma PositionFacts(page: seq<Byte>, es: seq<Entry>, starts: seq<nat>, p: nat)
    requires IsPage(page, es, starts) && p <= |es|
    ensures Layout(es, starts)
    ensures Offset(es, starts, p) >= Offset(es, starts, |es|) <==> p == |es|
  {
    hide Offset, Layout, Fixed16;
    OffsetOrder(es, starts, p, |es|);
  }

  lemma InRegionIdx(starts: seq<nat>, p: nat, idx: nat)
    requires InRegion(starts, p, idx)
    ensures idx < |starts|
  {
  }

  lemma EndPosition(es: seq<Entry>, starts: seq<nat>, idx: nat)
    ensures Before(es, starts, |es|, Offset(es, starts, |es|), idx, [], 0)
  {
  }

  /** One parse, on values. */
  lemma ParseStep(page: seq<Byte>, es: seq<Entry>, starts: seq<nat>, p: nat, offset: nat, idx: nat, key: Key,
                  ts: Word64)
    requires IsPage(page, es, starts) && Before(es, starts, p, offset, idx, key, ts)
    ensures p <= |es| && (offset >= Offset(es, starts, |es|) <==> p == |es|)
    ensures p < |es| ==> idx < |starts| && Offset(es, starts, |es|) <= |page|
    ensures p < |es| ==>
      var parsed := ParseEntry(page[offset..Offset(es, starts, |es|)], key, ts, offset == RestartAt(es, starts, idx));
      && parsed.Some? && parsed.value.0 == Stored(es[p])
      && var end := offset + parsed.value.1;
         var next := if idx + 1 < |starts| && end >= RestartAt(es, starts, idx + 1) then idx + 1 else idx;
         InRegion(starts, p + 1, next) && Before(es, starts, p + 1, end, next, es[p].key, Clamp(es[p].ts))
  {
    hide IsPage, Layout, Offset, InRegion, ParseEntry, RestartAt, Clamp, Stored;
    PositionFacts(page, es, starts, p);
    if p < |es| {
      InRegionIdx(starts, p, idx);
      RestartPointer(es, starts, p, idx);
      NextRegion(es, starts, p, idx);
      ParseAt(page, es, starts, p, key, ts);
      var ahead := idx + 1 < |starts| && Offset(es, starts, p + 1) >= RestartAt(es, starts, idx + 1);
      var next := if ahead then idx + 1 else idx;
      BeforeNext(es, starts, p, next);
    }
  }

  // ---- Searching. ----

  /** The restart keys before `c` are smaller, those from `c` on are larger. */
  ghost predicate Splits(es: seq<Entry>, starts: seq<nat>, cmp: (Key, Key) -> int, search: Key, c: nat) {
    && c <= |starts|
    && (forall j :: 0 <= j < c ==> starts[j] < |es| && cmp(es[starts[j]].key, search) < 0)
    && (forall j :: c <= j < |starts| ==> starts[j] < |es| && cmp(es[starts[j]].key, search) > 0)
  }

  lemma SameKey(cmp: (Key, Key) -> int, a: Key, b: Key)
    requires Order(cmp) && cmp(a, b) == 0
    ensures a == b
  {
  }

  lemma Transitive(cmp: (Key, Key) -> int, a: Key, b: Key, c: Key)
    requires Order(cmp)
    ensures cmp(a, b) < 0 && cmp(b, c) < 0 ==> cmp(a, c) < 0
    ensures cmp(a, b) < 0 && cmp(b, c) == 0 ==> cmp(a, c) < 0
    ensures cmp(a, b) < 0 && cmp(c, b) == 0 ==> cmp(a, c) < 0
    ensures cmp(b, a) > 0 && cmp(b, c) < 0 ==> cmp(a, c) < 0
    ensures cmp(a, c) > 0 && cmp(a, b) < 0 ==> cmp(b, c) > 0
    ensures cmp(a, c) == 0 && cmp(a, b) < 0 ==> cmp(b, c) > 0
    ensures cmp(a, c) >= 0 <==> !(cmp(a, c) < 0)
  {
  }

  lemma StartsInPage(page: seq<Byte>, es: seq<Entry>, starts: seq<nat>, j: nat)
    requires IsPage(page, es, starts) && es != [] && j < |starts|
    ensures starts[j] < |es| && starts[j] in starts && RestartAt(es, starts, j) == Offset(es, starts, starts[j])
  {
    hide Offset, Fixed16, Small;
  }

  /** Everything before a smaller key is smaller, everything after a larger key is larger. */
  lemma SortedAround(es: seq<Entry>, cmp: (Key, Key) -> int, search: Key, i: nat, j: nat)
    requires Order(cmp) && Sorted(es, cmp) && i < |es| && j < |es|
    ensures i <= j && cmp(es[j].key, search) < 0 ==> cmp(es[i].key, search) < 0
    ensures j <= i && cmp(es[j].key, search) > 0 ==> cmp(es[i].key, search) > 0
    ensures j < i && cmp(es[j].key, search) == 0 ==> cmp(es[i].key, search) > 0
    ensures i < j && cmp(es[j].key, search) == 0 ==> cmp(es[i].key, search) < 0
  {
    hide Order;
    if i < j {
      Transitive(cmp, es[i].key, es[j].key, search);
    } else if j < i {
      Transitive(cmp, es[j].key, es[i].key, search);
    }
  }

  lemma BelowRestart(page: seq<Byte>, es: seq<Entry>, starts: seq<nat>, cmp: (Key, Key) -> int, search: Key, mid: nat)
    requires IsPage(page, es, starts) && es != [] && Order(cmp) && Sorted(es, cmp)
    requires mid < |starts| && starts[mid] < |es| && cmp(es[starts[mid]].key, search) < 0
    ensures forall j :: 0 <= j <= mid ==> starts[j] < |es| && cmp(es[starts[j]].key, search) < 0
  {
    hide Offset, Fixed16, Small, Order, Sorted;
    forall j | 0 <= j <= mid
      ensures starts[j] < |es| && cmp(es[starts[j]].key, search) < 0
    {
      StartsInPage(page, es, starts, j);
      StartsAreDistinct(es, starts, j, mid);
      SortedAround(es, cmp, search, starts[j], starts[mid]);
    }
  }

  lemma AboveRestart(page: seq<Byte>, es: seq<Entry>, starts: seq<nat>, cmp: (Key, Key) -> int, search: Key, mid: nat)
    requires IsPage(page, es, starts) && es != [] && Order(cmp) && Sorted(es, cmp)
    requires mid < |starts| && starts[mid] < |es| && cmp(es[starts[mid]].key, search) > 0
    ensures forall j :: mid <= j < |starts| ==> starts[j] < |es| && cmp(es[starts[j]].key, search) > 0
  {
    hide Offset, Fixed16, Small, Order, Sorted;
    forall j | mid <= j < |starts|
      ensures starts[j] < |es| && cmp(es[starts[j]].key, search) > 0
    {
      StartsInPage(page, es, starts, j);
      StartsAreDistinct(es, starts, mid, j);
      SortedAround(es, cmp, search, starts[j], starts[mid]);
    }
  }

  ghost predicate AllLess(es: seq<Entry>, cmp: (Key, Key) -> int, search: Key, n: nat) {
    n <= |es| && forall k :: 0 <= k < n ==> cmp(es[k].key, search) < 0
  }

  /** `i` is the first entry whose key is not less than the search key, or the end. */
  ghost predicate FirstNotLess(es: seq<Entry>, cmp: (Key, Key) -> int, search: Key, i: nat) {
    AllLess(es, cmp, search, i) && (i < |es| ==> cmp(es[i].key, search) >= 0)
  }

  function RegionEnd(es: seq<Entry>, starts: seq<nat>, c: nat): nat {
    if c < |starts| then starts[c] else |es|
  }

  lemma RestartPosition(page: seq<Byte>, es: seq<Entry>, starts: seq<nat>, j: nat)
    requires IsPage(page, es, starts) && j < |starts|
    ensures starts[j] <= |es| && Before(es, starts, starts[j], RestartAt(es, starts, j), j, [], 0)
  {
    hide Offset, Fixed16, Small;
    StartsAreDistinct(es, starts, j, j);
    if j + 1 < |starts| {
      StartsAreDistinct(es, starts, j, j + 1);
    }
  }

  /** What SearchRegion's answer says about the entries. */
  lemma SearchOutcome(page: seq<Byte>, es: seq<Entry>, starts: seq<nat>, cmp: (Key, Key) -> int, search: Key,
                      equal: bool, c: nat)
    requires IsPage(page, es, starts) && es != [] && Order(cmp) && Sorted(es, cmp)
    requires equal ==> c < |starts| && starts[c] < |es| && es[starts[c]].key == search
    requires !equal ==> Splits(es, starts, cmp, search, c)
    ensures c <= |starts|
      && (equal || c == 0 ==> c < |starts| && starts[c] < |es| && FirstNotLess(es, cmp, search, starts[c]))
    ensures !equal && c > 0 ==> starts[c - 1] < RegionEnd(es, starts, c) <= |es|
    ensures !equal && c > 0 ==> cmp(es[starts[c - 1]].key, search) < 0 && AllLess(es, cmp, search, starts[c - 1])
  {
    hide Offset, Fixed16, Small, Order, Sorted;
    if equal || c == 0 {
      SelfCompare(cmp, search);
      LessBefore(es, cmp, search, starts[c]);
    } else {
      LessBefore(es, cmp, search, starts[c - 1]);
      if c < |starts| {
        StartsAreDistinct(es, starts, c - 1, c);
      }
    }
  }

  lemma SelfCompare(cmp: (Key, Key) -> int, a: Key)
    requires Order(cmp)
    ensures cmp(a, a) == 0
  {
  }

  /** Entries before one that is not larger are smaller. */
  lemma LessBefore(es: seq<Entry>, cmp: (Key, Key) -> int, search: Key, i: nat)
    requires Order(cmp) && Sorted(es, cmp) && i < |es|
    requires i == 0 || cmp(es[i].key, search) <= 0
    ensures AllLess(es, cmp, search, i)
  {
    hide Order, Sorted;
    forall k | 0 <= k < i
      ensures cmp(es[k].key, search) < 0
    {
      SortedAround(es, cmp, search, k, i);
    }
  }

  lemma BeforeOrder(es: seq<Entry>, starts: seq<nat>, p: nat, end: nat, offset: nat, idx: nat, key: Key, ts: nat)
    requires Before(es, starts, p, offset, idx, key, ts) && end <= |es|
    ensures p <= |es| && (offset < Offset(es, starts, end) <==> p < end)
  {
    hide Offset, InRegion;
    OffsetOrder(es, starts, p, end);
  }

  lemma FoundCeiling(es: seq<Entry>, cmp: (Key, Key) -> int, search: Key, i: nat)
    requires AllLess(es, cmp, search, i) && i < |es| && cmp(es[i].key, search) >= 0
    ensures FirstNotLess(es, cmp, search, i)
  {
  }

  lemma MoreLess(es: seq<Entry>, cmp: (Key, Key) -> int, search: Key, i: nat)
    requires AllLess(es, cmp, search, i) && i < |es| && cmp(es[i].key, search) < 0
    ensures AllLess(es, cmp, search, i + 1)
  {
  }

  lemma FoundAtLimit(page: seq<Byte>, es: seq<Entry>, starts: seq<nat>, cmp: (Key, Key) -> int, search: Key, c: nat)
    requires IsPage(page, es, starts) && es != [] && c > 0 && Splits(es, starts, cmp, search, c)
    requires AllLess(es, cmp, search, RegionEnd(es, starts, c))
    ensures FirstNotLess(es, cmp, search, RegionEnd(es, starts, c))
  {
    hide Offset, Fixed16, Small;
  }

  // ---- Floor. ----

  /** `i` is the last entry whose key is not greater than the search key. */
  ghost predicate IsFloor(es: seq<Entry>, cmp: (Key, Key) -> int, search: Key, i: nat) {
    && i < |es| && cmp(es[i].key, search) <= 0
    && (i + 1 < |es| ==> cmp(es[i + 1].key, search) > 0)
  }

  /**
   * The entry whose large-value flag and expiry SeekFloor leaves behind: the floor itself if the search key is
   * its restart key or if no entry follows it in its region, and the entry after it otherwise.
   */
  function FloorSeen(es: seq<Entry>, starts: seq<nat>, search: Key, at: nat): nat
    requires at < |es|
  {
    if (at in starts && es[at].key == search) || at + 1 == |es| || at + 1 in starts then at else at + 1
  }

  /** The search key is a restart key, the floor ends its region, or its successor has the same flag and expiry. */
  predicate FloorIsSafe(es: seq<Entry>, starts: seq<nat>, search: Key, at: nat)
    requires at < |es|
  {
    || (at in starts && es[at].key == search) || at + 1 == |es| || at + 1 in starts
    || ((es[at + 1].kind == LARGE <==> es[at].kind == LARGE) && es[at + 1].expire == es[at].expire)
  }

  lemma FloorReports(es: seq<Entry>, starts: seq<nat>, search: Key, at: nat, large: bool, expire: Word64)
    requires at < |es| && FloorSeen(es, starts, search, at) < |es|
    requires LeftBehind(es[FloorSeen(es, starts, search, at)], large, expire)
    ensures LeftBehind(es[at], large, expire) <==> FloorIsSafe(es, starts, search, at)
  {
  }

  lemma NextOffset(es: seq<Entry>, starts: seq<nat>, p: nat, offset: nat, idx: nat, key: Key, ts: nat)
    requires Before(es, starts, p, offset, idx, key, ts)
    ensures p <= |es| && offset == Offset(es, starts, p)
  {
    hide InRegion;
  }

  lemma FloorExists(page: seq<Byte>, es: seq<Entry>, starts: seq<nat>, cmp: (Key, Key) -> int, search: Key,
                    equal: bool, c: nat)
    requires IsPage(page, es, starts) && es != [] && Order(cmp) && Sorted(es, cmp)
    requires equal ==> c < |starts| && starts[c] < |es| && es[starts[c]].key == search
    requires !equal ==> Splits(es, starts, cmp, search, c)
    ensures cmp(es[0].key, search) <= 0 <==> equal || c > 0
  {
    hide Offset, Fixed16, Small, Order, Sorted;
    if equal {
      SelfCompare(cmp, search);
      SortedAround(es, cmp, search, 0, starts[c]);
    }
  }

  lemma FloorAtRestart(es: seq<Entry>, starts: seq<nat>, cmp: (Key, Key) -> int, search: Key, c: nat)
    requires Order(cmp) && Sorted(es, cmp) && c < |starts| && starts[c] < |es| && es[starts[c]].key == search
    ensures IsFloor(es, cmp, search, starts[c]) && FloorSeen(es, starts, search, starts[c]) == starts[c]
  {
    hide Order, Sorted;
    SelfCompare(cmp, search);
    if starts[c] + 1 < |es| {
      SortedAround(es, cmp, search, starts[c] + 1, starts[c]);
    }
  }

  /** Strictly between the starts of a region and its end there is no restart point. */
  lemma NotAStart(page: seq<Byte>, es: seq<Entry>, starts: seq<nat>, c: nat, p: nat)
    requires IsPage(page, es, starts) && 0 < c <= |starts| && starts[c - 1] < p < RegionEnd(es, starts, c)
    ensures p !in starts
  {
    hide Offset, Fixed16, Small;
    if p in starts {
      var j :| 0 <= j < |starts| && starts[j] == p;
      StartsAreDistinct(es, starts, c - 1, j);
      if c < |starts| {
        StartsAreDistinct(es, starts, j, c);
      }
    }
  }

  lemma StepBack(es: seq<Entry>, starts: seq<nat>, p: nat, idx: nat)
    requires Layout(es, starts) && p !in starts && InRegion(starts, p + 1, idx)
    ensures InRegion(starts, p, idx)
  {
    hide Small;
    if idx > 0 {
      assert starts[idx - 1] in starts;
      StartsAreDistinct(es, starts, idx - 1, idx);
    }
    assert starts[idx] in starts;
  }

  /** The linear search stopped at `p`, the first entry beyond the search key. */
  lemma FloorInside(page: seq<Byte>, es: seq<Entry>, starts: seq<nat>, cmp: (Key, Key) -> int, search: Key, c: nat,
                    p: nat, idx: nat)
    requires IsPage(page, es, starts) && Order(cmp) && 0 < c <= |starts| && Splits(es, starts, cmp, search, c)
    requires starts[c - 1] <= p < RegionEnd(es, starts, c) <= |es| && cmp(es[p].key, search) > 0
    requires p > starts[c - 1] ==> cmp(es[p - 1].key, search) <= 0
    requires InRegion(starts, p + 1, idx)
    ensures p > starts[c - 1] && IsFloor(es, cmp, search, p - 1) && FloorSeen(es, starts, search, p - 1) == p
    ensures Before(es, starts, p, Offset(es, starts, p), idx, es[p - 1].key, Clamp(es[p - 1].ts))
  {
    hide Offset, Fixed16, Small, InRegion, Clamp, Order;
    PastStart(es, starts, cmp, search, c, p);
    NotAStart(page, es, starts, c, p);
    StepBack(es, starts, p, idx);
    NotARestartKey(es, starts, cmp, search, c, p - 1);
    SmallEntry(es[p - 1]);
  }

  lemma PastStart(es: seq<Entry>, starts: seq<nat>, cmp: (Key, Key) -> int, search: Key, c: nat, p: nat)
    requires 0 < c <= |starts| && Splits(es, starts, cmp, search, c)
    requires starts[c - 1] <= p < |es| && cmp(es[p].key, search) > 0
    ensures p > starts[c - 1]
  {
  }

  lemma NotARestartKey(es: seq<Entry>, starts: seq<nat>, cmp: (Key, Key) -> int, search: Key, c: nat, at: nat)
    requires Order(cmp) && Splits(es, starts, cmp, search, c) && at < |es|
    ensures !(at in starts && es[at].key == search)
  {
    SelfCompare(cmp, search);
    if at in starts {
      var j :| 0 <= j < |starts| && starts[j] == at;
      assert cmp(es[starts[j]].key, search) != 0;
    }
  }

  /** The linear search ran to the end of the region. */
  lemma FloorAtEnd(page: seq<Byte>, es: seq<Entry>, starts: seq<nat>, cmp: (Key, Key) -> int, search: Key, c: nat,
                   idx: nat)
    requires IsPage(page, es, starts) && Order(cmp) && 0 < c <= |starts| && Splits(es, starts, cmp, search, c)
    requires starts[c - 1] < RegionEnd(es, starts, c) <= |es|
    requires cmp(es[RegionEnd(es, starts, c) - 1].key, search) <= 0
    requires InRegion(starts, RegionEnd(es, starts, c), idx)
    ensures var p := RegionEnd(es, starts, c);
      && IsFloor(es, cmp, search, p - 1) && FloorSeen(es, starts, search, p - 1) == p - 1
      && Before(es, starts, p, Offset(es, starts, p), idx, es[p - 1].key, Clamp(es[p - 1].ts))
  {
    hide Offset, Fixed16, Small, InRegion, Clamp;
    var p := RegionEnd(es, starts, c);
    SmallEntry(es[p - 1]);
    if c < |starts| {
      assert starts[c] in starts;
    }
  }
}
