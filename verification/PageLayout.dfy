/** The bytes of a data page: header, entries in restart regions, restart array, its length. */
module PageLayout {
  import opened Bytes
  import opened Coding
  import opened Options
  import opened PageEntry

  /** Checksum, page type, content length and the ids of the neighbouring pages. */
  const HEADER := 19
  const SIZE_OFFSET := 9

  /** The entries of a page and the indices at which prefix compression starts afresh. */
  ghost predicate Layout(es: seq<Entry>, starts: seq<nat>) {
    && |starts| > 0 && starts[0] == 0
    && (forall i, j :: 0 <= i < j < |starts| ==> starts[i] < starts[j])
    && (forall j :: 0 < j < |starts| ==> starts[j] < |es|)
    && (forall i :: 0 <= i < |es| ==> Small(es[i]))
  }

  function KeyBefore(es: seq<Entry>, starts: seq<nat>, i: nat): seq<Byte>
    requires i <= |es|
  {
    if i == 0 || i in starts then [] else es[i - 1].key
  }

  function TsBefore(es: seq<Entry>, starts: seq<nat>, i: nat): nat
    requires i <= |es|
  {
    if i == 0 || i in starts then 0 else Clamp(es[i - 1].ts)
  }

  function EncodedAt(es: seq<Entry>, starts: seq<nat>, i: nat): seq<Byte>
    requires i < |es|
  {
    EncodeEntry(es[i], KeyBefore(es, starts, i), TsBefore(es, starts, i))
  }

  /** The first `n` entries, one after another. */
  function Body(es: seq<Entry>, starts: seq<nat>, n: nat): seq<Byte>
    requires n <= |es|
  {
    if n == 0 then [] else Body(es, starts, n - 1) + EncodedAt(es, starts, n - 1)
  }

  function Offset(es: seq<Entry>, starts: seq<nat>, i: nat): (r: nat)
    requires i <= |es|
    ensures r >= HEADER
  {
    HEADER + |Body(es, starts, i)|
  }

  lemma EncodedIsNotEmpty(es: seq<Entry>, starts: seq<nat>, i: nat)
    requires i < |es|
    ensures |EncodedAt(es, starts, i)| > 0
  {
    EncodedLength(es[i], KeyBefore(es, starts, i), TsBefore(es, starts, i));
  }

  lemma {:induction false} OffsetGrows(es: seq<Entry>, starts: seq<nat>, i: nat, j: nat)
    requires i < j <= |es|
    ensures Offset(es, starts, i) < Offset(es, starts, j)
  {
    hide EncodedAt;
    EncodedIsNotEmpty(es, starts, j - 1);
    if i < j - 1 {
      OffsetGrows(es, starts, i, j - 1);
    }
  }

  /** Offsets tell indices apart. */
  lemma OffsetOrder(es: seq<Entry>, starts: seq<nat>, i: nat, j: nat)
    requires i <= |es| && j <= |es|
    ensures Offset(es, starts, i) < Offset(es, starts, j) <==> i < j
  {
    hide Offset;
    if i < j {
      OffsetGrows(es, starts, i, j);
    } else if j < i {
      OffsetGrows(es, starts, j, i);
    }
  }

  /** What the body holds from the `i`-th entry on. */
  lemma {:induction false} BodyAt(es: seq<Entry>, starts: seq<nat>, i: nat, n: nat) returns (rest: seq<Byte>)
    requires i < n <= |es|
    ensures |Body(es, starts, i)| <= |Body(es, starts, n)|
    ensures Body(es, starts, n)[|Body(es, starts, i)|..] == EncodedAt(es, starts, i) + rest
  {
    hide EncodedAt;
    var b := Body(es, starts, n - 1);
    if i == n - 1 {
      rest := [];
    } else {
      rest := BodyAt(es, starts, i, n - 1);
      var at := |Body(es, starts, i)|;
      var last := EncodedAt(es, starts, n - 1);
      assert (b + last)[at..] == b[at..] + last;
      rest := rest + last;
    }
  }

  /** Entries already written do not depend on what is added later. */
  lemma {:induction false} BodyPrefix(es: seq<Entry>, starts: seq<nat>, es': seq<Entry>, starts': seq<nat>, n: nat)
    requires n <= |es| && n <= |es'| && es[..n] == es'[..n]
    requires forall i :: 0 <= i < n ==> (i in starts <==> i in starts')
    ensures Body(es, starts, n) == Body(es', starts', n)
  {
    hide EncodeEntry;
    if n > 0 {
      assert es[..n - 1] == es[..n][..n - 1] == es'[..n][..n - 1] == es'[..n - 1];
      BodyPrefix(es, starts, es', starts', n - 1);
      assert es[n - 1] == es[..n][n - 1] == es'[..n][n - 1] == es'[n - 1];
      if n > 1 {
        assert es[n - 2] == es[..n][n - 2] == es'[..n][n - 2] == es'[n - 2];
      }
    }
  }

  // ---- The page. ----

  function Fixed16(page: seq<Byte>, at: nat): nat
    requires at + 2 <= |page|
  {
    ReadLE(page[at..at + 2])
  }

  /** The page holds these entries with these restart points. */
  ghost predicate IsPage(page: seq<Byte>, es: seq<Entry>, starts: seq<nat>) {
    && Layout(es, starts) && |page| < 0x1_0000
    && var end := Offset(es, starts, |es|);
       var content := end + 2 * |starts| + 2;
    && content <= |page| && Fixed16(page, SIZE_OFFSET) == content
    && page[HEADER..end] == Body(es, starts, |es|)
    && Fixed16(page, content - 2) == |starts|
    && (forall j :: 0 <= j < |starts| ==> Fixed16(page, end + 2 * j) == RestartAt(es, starts, j))
  }

  function RestartAt(es: seq<Entry>, starts: seq<nat>, j: nat): nat
    requires j < |starts|
  {
    if starts[j] <= |es| then Offset(es, starts, starts[j]) else 0
  }

  lemma StartsAreDistinct(es: seq<Entry>, starts: seq<nat>, i: nat, j: nat)
    requires Layout(es, starts) && i < |starts| && j < |starts|
    ensures starts[i] < starts[j] <==> i < j
    ensures starts[i] <= |es|
  {
    if j < i {
      assert starts[j] < starts[i];
    }
  }

  /** Parsing where an entry begins gives the entry and leads to where the next one begins. */
  lemma ParseAt(page: seq<Byte>, es: seq<Entry>, starts: seq<nat>, p: nat, key: seq<Byte>, ts: Word64)
    requires IsPage(page, es, starts) && p < |es|
    requires |key| < 0x1_0000 && ts <= MAX_INT64
    requires p > 0 && p !in starts ==> key == es[p - 1].key && ts == Clamp(es[p - 1].ts)
    ensures Offset(es, starts, p) < Offset(es, starts, |es|) <= |page|
    ensures ParseEntry(page[Offset(es, starts, p)..Offset(es, starts, |es|)], key, ts, p in starts)
         == Some((Stored(es[p]), Offset(es, starts, p + 1) - Offset(es, starts, p)))
  {
    hide IsPage, EncodeEntry, ParseEntry, Body, Clamp, Stored, Small;
    var rest := SliceAt(page, es, starts, p);
    EntryIsSmall(page, es, starts, p);
    EntryRoundTrip(es[p], key, ts, p in starts, rest);
  }

  /** The bytes from an entry to the restart array. */
  lemma SliceAt(page: seq<Byte>, es: seq<Entry>, starts: seq<nat>, p: nat) returns (rest: seq<Byte>)
    requires IsPage(page, es, starts) && p < |es|
    ensures Offset(es, starts, p) < Offset(es, starts, |es|) <= |page|
    ensures page[Offset(es, starts, p)..Offset(es, starts, |es|)] == EncodedAt(es, starts, p) + rest
    ensures Offset(es, starts, p + 1) == Offset(es, starts, p) + |EncodedAt(es, starts, p)|
  {
    hide EncodedAt, Fixed16, Layout;
    var n := |es|;
    var body, at := Body(es, starts, n), |Body(es, starts, p)|;
    OffsetGrows(es, starts, p, n);
    rest := BodyAt(es, starts, p, n);
    assert page[HEADER + at..HEADER + |body|] == page[HEADER..HEADER + |body|][at..];
  }

  lemma EntryIsSmall(page: seq<Byte>, es: seq<Entry>, starts: seq<nat>, p: nat)
    requires IsPage(page, es, starts) && p < |es|
    ensures Small(es[p]) && (p == 0 ==> p in starts)
  {
    hide Offset, Fixed16, Small;
  }

  lemma SmallEntry(e: Entry)
    requires Small(e)
    ensures |e.key| < 0x1_0000 && Clamp(e.ts) <= MAX_INT64
  {
  }

  /** At a restart the whole key stands right after the three lengths. */
  lemma KeyAtRestart(page: seq<Byte>, es: seq<Entry>, starts: seq<nat>, p: nat)
    requires IsPage(page, es, starts) && p < |es| && p in starts
    ensures Offset(es, starts, p) < Offset(es, starts, |es|) <= |page|
    ensures var data := page[Offset(es, starts, p)..Offset(es, starts, |es|)];
            var h := DecodeHead(data);
            h.Some? && h.value.shared == 0 && data[h.value.used..][..h.value.nonShared] == es[p].key
  {
    hide IsPage, EncodeEntry, DecodeHead, Body, Clamp;
    var rest := SliceAt(page, es, starts, p);
    EntryIsSmall(page, es, starts, p);
    FirstHead(es[p], rest);
  }

  lemma FirstHead(e: Entry, rest: seq<Byte>)
    requires Small(e)
    ensures var data := EncodeEntry(e, [], 0) + rest;
            var h := DecodeHead(data);
            h.Some? && h.value.shared == 0 && data[h.value.used..][..h.value.nonShared] == e.key
  {
    hide Varint, StoredLen, Expiry, EncodeDelta, Clamp, DecodeHead, EncodeEntry;
    var tail := Tail(e, 0, EncodeDelta(Clamp(e.ts) - 0), rest);
    EncodedGroups(e, [], 0, rest);
    StoredLenFields(e);
    HeadRoundTrip(0, |e.key|, StoredLen(e), tail);
    assert e.key[0..] == e.key;
    Cut(e.key, e.value + (Expiry(e) + (Varint(EncodeDelta(Clamp(e.ts) - 0)) + rest)));
  }

  /** What the restart array says. */
  lemma RestartRead(page: seq<Byte>, es: seq<Entry>, starts: seq<nat>, j: nat)
    requires IsPage(page, es, starts) && j < |starts|
    ensures Offset(es, starts, |es|) + 2 * j + 2 <= |page|
    ensures Fixed16(page, Offset(es, starts, |es|) + 2 * j) == RestartAt(es, starts, j)
  {
    hide Offset, Fixed16, Layout;
  }
}
