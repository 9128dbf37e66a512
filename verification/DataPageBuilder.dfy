/** src/storage/data_page_builder.cpp: DataPageBuilder. */
module DataPageBuilder {
  import opened Bytes
  import opened Coding
  import opened PageEntry
  import opened PageLayout

  // ---- Sizes. ----

  /** The size of a finished page without its padding. */
  function ContentSize(es: seq<Entry>, starts: seq<nat>): nat {
    Offset(es, starts, |es|) + 2 * |starts| + 2
  }

  function Low32(n: nat): Word32 {
    n % TWO32
  }

  /** The longest-common-prefix loop of CalculateDelta. */
  method SharedPrefix(lastKey: seq<Byte>, key: seq<Byte>) returns (shared: nat)
    ensures shared == Shared(lastKey, key)
  {
    shared := 0;
    var minLength := if |lastKey| < |key| then |lastKey| else |key|;
    while shared < minLength && lastKey[shared] == key[shared]
      invariant shared <= minLength
      invariant Shared(lastKey, key) == shared + Shared(lastKey[shared..], key[shared..])
    {
      assert lastKey[shared..][1..] == lastKey[shared + 1..] && key[shared..][1..] == key[shared + 1..];
      shared := shared + 1;
    }
  }

  /** CalculateDelta: the bytes an entry would add; lengths are cut to 32 bits where the source cuts them. */
  method CalculateDelta(e: Entry, lastKey: seq<Byte>, lastTs: nat, restart: bool)
    returns (delta: nat, shared: nat, nonShared: nat, tsDelta: nat)
    ensures shared == (if restart then 0 else Shared(lastKey, e.key)) && nonShared == |e.key| - shared
    ensures tsDelta == EncodeDelta(Clamp(e.ts) - (if restart then 0 else lastTs))
    ensures delta == (if restart then 2 else 0) + Varint32Size(Low32(shared)) + Varint32Size(Low32(nonShared))
                     + Varint32Size(Low32(StoredLen(e))) + nonShared + StoredLen(e) / 16 + |Expiry(e)|
                     + |Varint(tsDelta)|
  {
    hide Varint, Shared, StoredLen, EncodeDelta, Clamp;
    delta, shared := 0, 0;
    var before := lastTs;
    if restart {
      delta := delta + 2;
      before := 0;
    } else {
      shared := SharedPrefix(lastKey, e.key);
    }
    nonShared := |e.key| - shared;
    delta := delta + Varint32Size(Low32(shared));
    delta := delta + Varint32Size(Low32(nonShared));
    delta := delta + Varint32Size(Low32(StoredLen(e)));
    delta := delta + nonShared;
    delta := delta + StoredLen(e) / 16;
    if e.expire != 0 {
      delta := delta + |Varint(e.expire)|;
    }
    tsDelta := EncodeDelta(Clamp(e.ts) - before);
    delta := delta + |Varint(tsDelta)|;
  }

  lemma LowIsExact(n: nat)
    requires n < TWO32
    ensures Low32(n) == n && Varint32Size(Low32(n)) == |Varint(n)|
  {
    Varint32SizeIsLength(n);
  }

  /** The computed size is exact for entries whose lengths fit 16 bits, and too large for a page otherwise. */
  lemma DeltaIsExact(e: Entry, key: seq<Byte>, ts: nat, delta: nat)
    requires e.Valid() && |key| < 0x1_0000
    requires var n := Shared(key, e.key);
             delta == Varint32Size(Low32(n)) + Varint32Size(Low32(|e.key| - n)) + Varint32Size(Low32(StoredLen(e)))
                      + (|e.key| - n) + StoredLen(e) / 16 + |Expiry(e)| + |Varint(EncodeDelta(Clamp(e.ts) - ts))|
    ensures Small(e) ==> delta == |EncodeEntry(e, key, ts)|
    ensures !Small(e) ==> delta >= 0x1_0000 - |key| && |EncodeEntry(e, key, ts)| >= 0x1_0000 - |key|
  {
    hide Varint, Shared, StoredLen, Expiry, EncodeDelta, Clamp, Low32, Varint32Size, EncodeEntry;
    var n := Shared(key, e.key);
    EncodedLength(e, key, ts);
    StoredLenFields(e);
    if Small(e) {
      LowIsExact(n);
      LowIsExact(|e.key| - n);
      LowIsExact(StoredLen(e));
    }
  }

  // ---- What the builder's fields stand for. ----

  /** Buffer and restart array hold these entries. */
  ghost predicate Built(buffer: seq<Byte>, restarts: seq<nat>, es: seq<Entry>, starts: seq<nat>) {
    && Layout(es, starts)
    && |buffer| >= HEADER && buffer[HEADER..] == Body(es, starts, |es|)
    && |restarts| == |starts| && (forall j :: 0 <= j < |starts| ==> restarts[j] == RestartAt(es, starts, j))
  }

  /** The running fields: entries since the last restart, last key and last timestamp. */
  ghost predicate Running(counter: nat, lastKey: seq<Byte>, lastTs: nat, es: seq<Entry>, starts: seq<nat>) {
    && |starts| > 0 && starts[|starts| - 1] + counter == |es|
    && lastKey == (if es == [] then [] else es[|es| - 1].key)
    && lastTs == (if es == [] then 0 else Clamp(es[|es| - 1].ts))
    && |lastKey| <= |Body(es, starts, |es|)|
  }

  /** Where compression starts afresh once another entry is added. */
  function NextStarts(starts: seq<nat>, n: nat, restart: bool): seq<nat> {
    if restart then starts + [n] else starts
  }

  lemma NextLayout(es: seq<Entry>, starts: seq<nat>, e: Entry, counter: nat, restart: bool)
    requires Layout(es, starts) && Small(e) && starts[|starts| - 1] + counter == |es| && (restart ==> counter > 0)
    ensures Layout(es + [e], NextStarts(starts, |es|, restart))
  {
    hide Small;
    var es', starts' := es + [e], NextStarts(starts, |es|, restart);
    forall i, j | 0 <= i < j < |starts'|
      ensures starts'[i] < starts'[j]
    {
      if i < |starts| - 1 {
        assert starts[i] < starts[|starts| - 1];
      }
    }
  }

  /** The last index is a start exactly when the builder restarts; the others keep their standing. */
  lemma NextMembers(es: seq<Entry>, starts: seq<nat>, counter: nat, restart: bool)
    requires Layout(es, starts) && starts[|starts| - 1] + counter == |es| && (restart ==> counter > 0)
    ensures var starts' := NextStarts(starts, |es|, restart);
      && (forall i :: 0 <= i < |es| ==> (i in starts <==> i in starts'))
      && (|es| > 0 && counter > 0 ==> (|es| in starts' <==> restart))
      && (es == [] ==> counter == 0)
  {
    hide Small;
  }

  /** The body, the offset and the encoding of one more entry. */
  lemma NextBody(es: seq<Entry>, starts: seq<nat>, e: Entry, counter: nat, restart: bool, lastKey: seq<Byte>,
                 lastTs: nat)
    requires Layout(es, starts) && Running(counter, lastKey, lastTs, es, starts) && (restart ==> counter > 0)
    requires es != [] ==> counter > 0
    ensures var es', starts' := es + [e], NextStarts(starts, |es|, restart);
            var enc := NextEncoding(e, lastKey, lastTs, restart);
      && Body(es', starts', |es|) == Body(es, starts, |es|)
      && Body(es', starts', |es'|) == Body(es, starts, |es|) + enc
  {
    hide EncodeEntry, Clamp, Small;
    var es', starts' := es + [e], NextStarts(starts, |es|, restart);
    NextMembers(es, starts, counter, restart);
    assert es'[..|es|] == es[..|es|];
    BodyPrefix(es, starts, es', starts', |es|);
    assert es'[|es|] == e;
    if es != [] {
      assert es'[|es| - 1] == es[|es| - 1];
    }
  }

  function NextEncoding(e: Entry, lastKey: seq<Byte>, lastTs: nat, restart: bool): seq<Byte> {
    if restart then EncodeEntry(e, [], 0) else EncodeEntry(e, lastKey, lastTs)
  }

  /** One more entry in the buffer, and its restart point if it has one. */
  lemma NextBuilt(buffer: seq<Byte>, restarts: seq<nat>, es: seq<Entry>, starts: seq<nat>, e: Entry,
                  counter: nat, restart: bool, lastKey: seq<Byte>, lastTs: nat)
    requires Built(buffer, restarts, es, starts) && Running(counter, lastKey, lastTs, es, starts)
    requires (restart ==> counter > 0) && (es != [] ==> counter > 0) && Small(e)
    ensures Built(buffer + NextEncoding(e, lastKey, lastTs, restart),
                  if restart then restarts + [|buffer|] else restarts,
                  es + [e], NextStarts(starts, |es|, restart))
  {
    hide NextEncoding, EncodeEntry, Small, Layout, Body;
    var enc := NextEncoding(e, lastKey, lastTs, restart);
    var es', starts' := es + [e], NextStarts(starts, |es|, restart);
    NextLayout(es, starts, e, counter, restart);
    NextBody(es, starts, e, counter, restart, lastKey, lastTs);
    assert (buffer + enc)[HEADER..] == buffer[HEADER..] + enc;
    forall j | 0 <= j < |starts|
      ensures RestartAt(es', starts', j) == RestartAt(es, starts, j)
    {
      KeptRestart(es, starts, e, counter, restart, j);
    }
  }

  lemma NextRunning(es: seq<Entry>, starts: seq<nat>, e: Entry, counter: nat, restart: bool, lastKey: seq<Byte>,
                    lastTs: nat)
    requires Layout(es, starts) && Running(counter, lastKey, lastTs, es, starts)
    requires (restart ==> counter > 0) && (es != [] ==> counter > 0)
    ensures Running(if restart then 1 else counter + 1, e.key, Clamp(e.ts), es + [e], NextStarts(starts, |es|, restart))
  {
    hide EncodeEntry, Clamp, Small, Layout, Body;
    NextBody(es, starts, e, counter, restart, lastKey, lastTs);
    KeyFits(e, if restart then [] else lastKey, if restart then 0 else lastTs);
  }

  lemma KeptRestart(es: seq<Entry>, starts: seq<nat>, e: Entry, counter: nat, restart: bool, j: nat)
    requires Layout(es, starts) && starts[|starts| - 1] + counter == |es| && (restart ==> counter > 0) && j < |starts|
    ensures RestartAt(es + [e], NextStarts(starts, |es|, restart), j) == RestartAt(es, starts, j)
  {
    hide Small;
    var starts' := NextStarts(starts, |es|, restart);
    NextMembers(es, starts, counter, restart);
    StartsAreDistinct(es, starts, j, |starts| - 1);
    assert starts'[j] == starts[j];
    assert (es + [e])[..starts[j]] == es[..starts[j]];
    BodyPrefix(es, starts, es + [e], starts', starts[j]);
  }

  /** A key is no longer than its shared part and what is written of it. */
  lemma KeyFits(e: Entry, key: seq<Byte>, ts: nat)
    ensures |e.key| <= |key| + |EncodeEntry(e, key, ts)|
  {
    hide Varint, StoredLen, Expiry, EncodeDelta, Clamp;
    EncodedLength(e, key, ts);
  }

  class Builder {
    const pageSize: nat
    const interval: nat
    var buffer: seq<Byte>
    var restarts: seq<nat>
    var counter: nat
    var cnt: nat
    var finished: bool
    var lastKey: seq<Byte>
    var lastTs: nat
    /** The entries accepted so far and where compression started afresh. */
    ghost var es: seq<Entry>
    ghost var starts: seq<nat>

    ghost predicate Valid()
      reads this
    {
      && !finished && interval > 0 && pageSize < 0x1_0000
      && Built(buffer, restarts, es, starts) && Running(counter, lastKey, lastTs, es, starts)
      && counter <= interval && cnt == |es| && (es != [] ==> counter > 0)
      && |buffer| + 2 * |restarts| + 2 <= pageSize
    }

    constructor (pageSize: nat, interval: nat)
      requires HEADER + 4 <= pageSize < 0x1_0000 && interval > 0
      ensures Valid() && es == [] && starts == [0] && this.pageSize == pageSize && this.interval == interval
    {
      this.pageSize, this.interval := pageSize, interval;
      buffer, restarts, counter, cnt, finished, lastKey, lastTs := seq(HEADER, _ => 0), [HEADER], 0, 0, false, [], 0;
      es, starts := [], [0];
    }

    predicate NeedRestart()
      reads this
    {
      counter >= interval
    }

    /** Add: takes the entry exactly when the finished page would still fit. */
    method Add(e: Entry) returns (ok: bool)
      requires Valid() && e.Valid()
      modifies this
      ensures Valid()
      ensures ok <==> ContentSize(old(es) + [e], NextStarts(old(starts), |old(es)|, old(NeedRestart()))) <= pageSize
      ensures ok ==> es == old(es) + [e] && starts == NextStarts(old(starts), |old(es)|, old(NeedRestart()))
      ensures !ok ==> unchanged(this)
    {
      hide Built, Running, NextEncoding, Varint, Shared, StoredLen, EncodeDelta, Clamp, Low32, Varint32Size, Expiry,
           EncodeEntry, Body, Small, Layout, ContentSize, NextStarts;
      var restart := NeedRestart();
      var delta, shared, nonShared, tsDelta := CalculateDelta(e, lastKey, lastTs, restart);
      FitsExactly(buffer, restarts, es, starts, e, counter, restart, lastKey, lastTs, delta, pageSize);
      if |buffer| + 2 * |restarts| + 2 + delta > pageSize {
        return false;
      }
      NextBuilt(buffer, restarts, es, starts, e, counter, restart, lastKey, lastTs);
      NextRunning(es, starts, e, counter, restart, lastKey, lastTs);
      ghost var key, ts := if restart then [] else lastKey, if restart then 0 else lastTs;
      NextEncodingIs(e, lastKey, lastTs, restart, key, ts);
      es, starts := es + [e], NextStarts(starts, |es|, restart);
      if restart {
        restarts := restarts + [|buffer|];
        counter := 0;
        lastTs := 0;
      }
      NothingShared(e.key);
      Rejoined(lastKey, e.key, shared);
      buffer := AppendEntry(buffer, e, shared, nonShared, tsDelta, key, ts);
      lastKey := lastKey[..shared] + e.key[shared..];
      lastTs := Clamp(e.ts);
      counter := counter + 1;
      cnt := cnt + 1;
      return true;
    }

    /** Finish: the restart array, its length, the content size in the header, and padding to the page size. */
    method Finish() returns (page: seq<Byte>)
      requires Valid()
      modifies this`buffer, this`finished
      ensures |page| == pageSize && IsPage(page, es, starts)
    {
      hide Built, Running, IsPage, Array16, Body, WriteLE;
      HeaderFits(buffer, restarts, es, starts);
      var b := buffer;
      NoRestarts(buffer);
      for i := 0 to |restarts|
        modifies {}
        invariant b == buffer + Array16(restarts[..i])
      {
        MoreRestarts(buffer, restarts, i);
        b := b + WriteLE(restarts[i], 2);
      }
      assert restarts[..|restarts|] == restarts;
      b := b + WriteLE(|restarts|, 2);
      var contentSize := |b|;
      b := b[..SIZE_OFFSET] + WriteLE(contentSize, 2) + b[SIZE_OFFSET + 2..];
      page := b + seq(pageSize - |b|, _ => 0);
      Assembled(buffer, restarts, es, starts, buffer + Array16(restarts), page[|b|..], page);
      buffer := page;
      finished := true;
    }
  }

  /** The triple, the rest of the key, the value, the expiry and the timestamp delta. */
  method AppendEntry(buffer: seq<Byte>, e: Entry, shared: nat, nonShared: nat, tsDelta: nat, ghost key: seq<Byte>,
                     ghost ts: nat)
    returns (r: seq<Byte>)
    requires shared == Shared(key, e.key) && nonShared == |e.key| - shared && tsDelta == EncodeDelta(Clamp(e.ts) - ts)
    ensures r == buffer + EncodeEntry(e, key, ts)
  {
    hide Varint, Shared, StoredLen, EncodeDelta, Clamp;
    var b1 := buffer + Varint(shared);
    var b2 := b1 + Varint(nonShared);
    var b3 := b2 + Varint(StoredLen(e));
    var b4 := b3 + e.key[shared..];
    var b5 := b4 + e.value;
    var b6 := b5;
    if e.expire != 0 {
      b6 := b6 + Varint(e.expire);
    }
    r := b6 + Varint(tsDelta);
    ghost var t1 := Expiry(e) + Varint(tsDelta);
    ghost var t2 := e.value + t1;
    ghost var t3 := e.key[shared..] + t2;
    ghost var t4 := Varint(StoredLen(e)) + t3;
    ghost var t5 := Varint(nonShared) + t4;
    Assoc(buffer, Varint(shared), t5);
    Assoc(b1, Varint(nonShared), t4);
    Assoc(b2, Varint(StoredLen(e)), t3);
    Assoc(b3, e.key[shared..], t2);
    Assoc(b4, e.value, t1);
    Assoc(b5, Expiry(e), Varint(tsDelta));
  }

  /** The test of Add is exact, and an entry that passes it has lengths of 16 bits. */
  lemma FitsExactly(buffer: seq<Byte>, restarts: seq<nat>, es: seq<Entry>, starts: seq<nat>, e: Entry, counter: nat,
                    restart: bool, lastKey: seq<Byte>, lastTs: nat, delta: nat, pageSize: nat)
    requires Built(buffer, restarts, es, starts) && Running(counter, lastKey, lastTs, es, starts) && e.Valid()
    requires (restart ==> counter > 0) && (es != [] ==> counter > 0)
    requires |buffer| + 2 * |restarts| + 2 <= pageSize < 0x1_0000
    requires var n := if restart then 0 else Shared(lastKey, e.key);
             delta == (if restart then 2 else 0) + Varint32Size(Low32(n)) + Varint32Size(Low32(|e.key| - n))
                      + Varint32Size(Low32(StoredLen(e))) + (|e.key| - n) + StoredLen(e) / 16 + |Expiry(e)|
                      + |Varint(EncodeDelta(Clamp(e.ts) - (if restart then 0 else lastTs)))|
    ensures Layout(es, starts)
    ensures var fits := |buffer| + 2 * |restarts| + 2 + delta <= pageSize;
      && (fits <==> ContentSize(es + [e], NextStarts(starts, |es|, restart)) <= pageSize)
      && (fits ==> Small(e))
      && (fits ==> delta == |NextEncoding(e, lastKey, lastTs, restart)| + (if restart then 2 else 0))
  {
    hide Varint, Shared, StoredLen, EncodeDelta, Clamp, Low32, Varint32Size, Expiry, EncodeEntry, Body, Layout, Small;
    var key, ts := if restart then [] else lastKey, if restart then 0 else lastTs;
    if restart {
      NothingShared(e.key);
    }
    NextBody(es, starts, e, counter, restart, lastKey, lastTs);
    DeltaIsExact(e, key, ts, if restart then delta - 2 else delta);
  }

  lemma Rejoined(a: seq<Byte>, b: seq<Byte>, n: nat)
    requires n <= |a| && n <= |b| && a[..n] == b[..n]
    ensures a[..n] + b[n..] == b
  {
  }

  lemma NextEncodingIs(e: Entry, lastKey: seq<Byte>, lastTs: nat, restart: bool, key: seq<Byte>, ts: nat)
    requires key == (if restart then [] else lastKey) && ts == (if restart then 0 else lastTs)
    ensures EncodeEntry(e, key, ts) == NextEncoding(e, lastKey, lastTs, restart)
  {
  }

  lemma NothingShared(key: seq<Byte>)
    ensures Shared([], key) == 0
  {
  }

  /** The restart array as bytes. */
  function Array16(restarts: seq<nat>): (b: seq<Byte>)
    ensures |b| == 2 * |restarts|
  {
    if restarts == [] then [] else Array16(restarts[..|restarts| - 1]) + WriteLE(restarts[|restarts| - 1], 2)
  }

  lemma NoRestarts(buffer: seq<Byte>)
    ensures buffer == buffer + Array16([])
  {
  }

  lemma MoreRestarts(buffer: seq<Byte>, restarts: seq<nat>, i: nat)
    requires i < |restarts|
    ensures buffer + Array16(restarts[..i]) + WriteLE(restarts[i], 2) == buffer + Array16(restarts[..i + 1])
  {
    hide WriteLE;
    assert restarts[..i + 1][..i] == restarts[..i];
    Assoc(buffer, Array16(restarts[..i]), WriteLE(restarts[i], 2));
  }

  lemma HeaderFits(buffer: seq<Byte>, restarts: seq<nat>, es: seq<Entry>, starts: seq<nat>)
    requires Built(buffer, restarts, es, starts)
    ensures |buffer| >= HEADER
  {
  }

  lemma FrontPart(a: seq<Byte>, b: seq<Byte>, i: nat, j: nat)
    requires i <= j <= |a|
    ensures (a + b)[i..j] == a[i..j]
  {
  }

  lemma LastPart(a: seq<Byte>, b: seq<Byte>)
    ensures (a + b)[|a|..|a| + |b|] == b
  {
  }

  lemma {:induction false} Array16At(restarts: seq<nat>, j: nat)
    requires j < |restarts|
    ensures Array16(restarts)[2 * j..2 * j + 2] == WriteLE(restarts[j], 2)
  {
    hide WriteLE;
    var n := |restarts| - 1;
    var front, last := Array16(restarts[..n]), WriteLE(restarts[n], 2);
    assert Array16(restarts) == front + last;
    if j < n {
      Array16At(restarts[..n], j);
      FrontPart(front, last, 2 * j, 2 * j + 2);
    } else {
      LastPart(front, last);
    }
  }

  lemma Read16(page: seq<Byte>, at: nat, v: nat)
    requires v < 0x1_0000 && at + 2 <= |page| && page[at..at + 2] == WriteLE(v, 2)
    ensures Fixed16(page, at) == v
  {
    assert Pow256(2) == 0x1_0000;
    ReadWriteLE(v, 2);
  }

  /** Behind the patched content size the bytes are as they were. */
  lemma Patched(b: seq<Byte>, w: seq<Byte>, pad: seq<Byte>, at: nat, to: nat)
    requires |w| == 2 && SIZE_OFFSET + 2 <= at <= to <= |b|
    ensures (b[..SIZE_OFFSET] + w + b[SIZE_OFFSET + 2..] + pad)[at..to] == b[at..to]
  {
  }

  lemma PatchedSize(b: seq<Byte>, w: seq<Byte>, pad: seq<Byte>)
    requires |w| == 2 && SIZE_OFFSET + 2 <= |b|
    ensures (b[..SIZE_OFFSET] + w + b[SIZE_OFFSET + 2..] + pad)[SIZE_OFFSET..SIZE_OFFSET + 2] == w
  {
  }

  lemma Pieces(buffer: seq<Byte>, a: seq<Byte>, w: seq<Byte>)
    ensures forall i, j :: 0 <= i <= j <= |buffer| ==> (buffer + a + w)[i..j] == buffer[i..j]
    ensures forall i, j :: 0 <= i <= j <= |a| ==> (buffer + a + w)[|buffer| + i..|buffer| + j] == a[i..j]
    ensures (buffer + a + w)[|buffer| + |a|..] == w
  {
  }

  /** A finished buffer is a page of the entries that were added. */
  lemma Assembled(buffer: seq<Byte>, restarts: seq<nat>, es: seq<Entry>, starts: seq<nat>, listed: seq<Byte>,
                  pad: seq<Byte>, page: seq<Byte>)
    requires Built(buffer, restarts, es, starts) && listed == buffer + Array16(restarts)
    requires var b := listed + WriteLE(|restarts|, 2);
             page == b[..SIZE_OFFSET] + WriteLE(|b|, 2) + b[SIZE_OFFSET + 2..] + pad
    requires |page| < 0x1_0000
    ensures IsPage(page, es, starts)
  {
    hide WriteLE, Array16, Body, Layout, Fixed16;
    var b, w, n := listed + WriteLE(|restarts|, 2), WriteLE(|listed| + 2, 2), |restarts|;
    var end := |buffer|;
    Pieces(buffer, Array16(restarts), WriteLE(n, 2));
    PatchedSize(b, w, pad);
    Read16(page, SIZE_OFFSET, |b|);
    Patched(b, w, pad, HEADER, end);
    assert page[HEADER..end] == buffer[HEADER..end] == buffer[HEADER..];
    Patched(b, w, pad, |b| - 2, |b|);
    Read16(page, |b| - 2, n);
    forall j | 0 <= j < n
      ensures Fixed16(page, end + 2 * j) == RestartAt(es, starts, j)
    {
      Array16At(restarts, j);
      Patched(b, w, pad, end + 2 * j, end + 2 * j + 2);
      RestartIsShort(es, starts, j);
      Read16(page, end + 2 * j, restarts[j]);
    }
  }

  lemma RestartIsShort(es: seq<Entry>, starts: seq<nat>, j: nat)
    requires Layout(es, starts) && j < |starts|
    ensures RestartAt(es, starts, j) <= Offset(es, starts, |es|)
  {
    hide Offset;
    StartsAreDistinct(es, starts, j, j);
    OffsetOrder(es, starts, |es|, starts[j]);
  }
}
