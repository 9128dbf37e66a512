/** src/storage/data_page.cpp, src/storage/data_page_builder.cpp: one prefix-compressed entry of a data page. */
module PageEntry {
  import opened Bytes
  import opened Coding
  import opened Modular
  import opened Options

  const MAX_INT64: nat := TWO64 / 2 - 1
  /** The compression bits of a value kept in segment files. */
  const LARGE: nat := 3

  /** `kind` is the compression type, or LARGE; `expire` is zero for none. */
  datatype Entry = Entry(key: seq<Byte>, value: seq<Byte>, overflow: bool, kind: nat, expire: Word64, ts: Word64) {
    predicate Valid() {
      kind <= LARGE
    }
  }

  /** ClampTimestampToInt64. */
  function Clamp(ts: Word64): Word64 {
    if ts > MAX_INT64 then MAX_INT64 else ts
  }

  /** The entry as a page can give it back. */
  function Stored(e: Entry): Entry {
    e.(ts := Clamp(e.ts))
  }

  function Flag(b: bool): nat {
    if b then 1 else 0
  }

  /** Value length and flags in one number: overflow, expiry, two bits of kind, then the length. */
  function StoredLen(e: Entry): nat {
    Flag(e.overflow) + 2 * (Flag(e.expire != 0) + 2 * (e.kind + 4 * |e.value|))
  }

  /** The longest common prefix of two keys. */
  function Shared(a: seq<Byte>, b: seq<Byte>): (n: nat)
    ensures n <= |a| && n <= |b| && a[..n] == b[..n]
  {
    if a == [] || b == [] || a[0] != b[0] then 0 else 1 + Shared(a[1..], b[1..])
  }

  function Expiry(e: Entry): seq<Byte> {
    if e.expire != 0 then Varint(e.expire) else []
  }

  /** What Add appends, after an entry with key `key` and clamped timestamp `ts`; a restart has neither. */
  function EncodeEntry(e: Entry, key: seq<Byte>, ts: nat): seq<Byte> {
    var n := Shared(key, e.key);
    Varint(n) + (Varint(|e.key| - n) + (Varint(StoredLen(e))
      + (e.key[n..] + (e.value + (Expiry(e) + Varint(EncodeDelta(Clamp(e.ts) - ts)))))))
  }

  // ---- Reading. ----

  datatype Head = Head(shared: nat, nonShared: nat, stored: nat, used: nat)

  function Head32(data: seq<Byte>): Option<(nat, nat)> {
    match GetVarint(data, 5)
    case None => None
    case Some((v, used)) => Some((v % TWO32, used))
  }

  /** Three numbers, each of up to five bytes. */
  function SlowHead(data: seq<Byte>): Option<Head> {
    match Head32(data)
    case None => None
    case Some((shared, a)) =>
      match Head32(data[a..])
      case None => None
      case Some((nonShared, b)) =>
        match Head32(data[a..][b..])
        case None => None
        case Some((stored, c)) => Some(Head(shared, nonShared, stored, a + b + c))
  }

  /** DecodeEntry: one byte each is read directly; then the key and the value must fit. */
  function DecodeHead(data: seq<Byte>): (r: Option<Head>)
    ensures r.Some? ==> r.value.used + r.value.nonShared + r.value.stored / 16 <= |data|
  {
    if |data| < 3 then None else
      var h := if data[0] < 128 && data[1] < 128 && data[2] < 128 then Some(Head(data[0], data[1], data[2], 3))
               else SlowHead(data);
      if h.None? || |data| - h.value.used < h.value.nonShared + h.value.stored / 16 then None else h
  }

  function Number64(data: seq<Byte>): (r: Option<(Word64, nat)>)
    ensures r.Some? ==> r.value.1 <= |data|
  {
    match GetVarint(data, 10)
    case None => None
    case Some((v, used)) => Some((v % TWO64, used))
  }

  /** The expiry, if the flag says there is one. */
  function GetExpiry(data: seq<Byte>, present: bool): (r: Option<(Word64, nat)>)
    ensures r.Some? ==> r.value.1 <= |data|
  {
    if present then Number64(data) else Some((0, 0))
  }

  /**
   * ParseNextKey on the bytes up to the restart array: the entry and the bytes used.  `key` and `ts` are those
   * of the entry before; at a restart the stored timestamp is the whole of it.
   */
  function ParseEntry(data: seq<Byte>, key: seq<Byte>, ts: Word64, restart: bool): Option<(Entry, nat)> {
    var h := DecodeHead(data);
    if h.None? || |key| < h.value.shared then None else
      var n, len := h.value.nonShared, h.value.stored / 16;
      var atKey := data[h.value.used..];
      var atValue := atKey[n..];
      var atExpiry := atValue[len..];
      var expire := GetExpiry(atExpiry, h.value.stored / 2 % 2 == 1);
      if expire.None? then None else
        var delta := Number64(atExpiry[expire.value.1..]);
        if delta.None? then None else
          Some((Entry(key[..h.value.shared] + atKey[..n], atValue[..len], h.value.stored % 2 == 1,
                      h.value.stored / 4 % 4, expire.value.0,
                      ((if restart then 0 else ts) + DecodeDelta(delta.value.0)) % TWO64),
                h.value.used + n + len + expire.value.1 + delta.value.1))
  }

  // ---- Round trip. ----

  lemma Head32RoundTrip(v: Word32, rest: seq<Byte>)
    ensures Head32(Varint(v) + rest) == Some((v, |Varint(v)|)) && (Varint(v) + rest)[|Varint(v)|..] == rest
  {
    Varint32RoundTrip(v, rest);
    Cut(Varint(v), rest);
  }

  lemma SlowHeadOf(d0: seq<Byte>, d1: seq<Byte>, d2: seq<Byte>, a: (nat, nat), b: (nat, nat), c: (nat, nat))
    requires Head32(d0) == Some(a) && a.1 <= |d0| && d0[a.1..] == d1
    requires Head32(d1) == Some(b) && b.1 <= |d1| && d1[b.1..] == d2
    requires Head32(d2) == Some(c)
    ensures SlowHead(d0) == Some(Head(a.0, b.0, c.0, a.1 + b.1 + c.1))
  {
    hide Head32;
  }

  lemma SlowHeadRoundTrip(a: Word32, b: Word32, c: Word32, rest: seq<Byte>)
    ensures SlowHead(Varint(a) + (Varint(b) + (Varint(c) + rest)))
         == Some(Head(a, b, c, |Varint(a)| + |Varint(b)| + |Varint(c)|))
  {
    hide Varint, Head32, SlowHead;
    var d2 := Varint(c) + rest;
    var d1 := Varint(b) + d2;
    Head32RoundTrip(a, d1);
    Head32RoundTrip(b, d2);
    Head32RoundTrip(c, rest);
    SlowHeadOf(Varint(a) + d1, d1, d2, (a, |Varint(a)|), (b, |Varint(b)|), (c, |Varint(c)|));
  }

  /** The fast path reads what the slow path would. */
  lemma FastHead(a: Word32, b: Word32, c: Word32, rest: seq<Byte>)
    ensures var data := Varint(a) + (Varint(b) + (Varint(c) + rest));
      && |data| >= 3
      && (data[0] < 128 && data[1] < 128 && data[2] < 128 ==>
            Head(data[0], data[1], data[2], 3) == Head(a, b, c, |Varint(a)| + |Varint(b)| + |Varint(c)|))
  {
    var data := Varint(a) + (Varint(b) + (Varint(c) + rest));
    SmallVarint(a, Varint(b) + (Varint(c) + rest));
    if data[0] < 128 {
      assert data[1..] == Varint(b) + (Varint(c) + rest);
      SmallVarint(b, Varint(c) + rest);
      if data[1] < 128 {
        assert data[1..][1..] == Varint(c) + rest;
        SmallVarint(c, rest);
      }
    }
  }

  predicate Small(e: Entry) {
    e.Valid() && |e.key| < 0x1_0000 && |e.value| < 0x1_0000
  }

  lemma StoredLenFields(e: Entry)
    requires e.Valid()
    ensures var s := StoredLen(e);
      && (s % 2 == 1 <==> e.overflow) && (s / 2 % 2 == 1 <==> e.expire != 0) && s / 4 % 4 == e.kind
      && s / 16 == |e.value|
    ensures |e.value| < 0x1_0000 ==> StoredLen(e) < TWO32
  {
    var a, b, k, n := Flag(e.overflow), Flag(e.expire != 0), e.kind, |e.value|;
    var s := StoredLen(e);
    QuotientRemainder(s, b + 2 * (k + 4 * n), a, 2);
    QuotientRemainder(b + 2 * (k + 4 * n), k + 4 * n, b, 2);
    QuotientRemainder(s, k + 4 * n, a + 2 * b, 4);
    QuotientRemainder(k + 4 * n, n, k, 4);
    QuotientRemainder(s, n, a + 2 * b + 4 * k, 16);
  }

  lemma DeltaFits(ts: Word64, before: nat)
    requires before <= MAX_INT64
    ensures EncodeDelta(Clamp(ts) - before) < TWO64
    ensures (before + DecodeDelta(EncodeDelta(Clamp(ts) - before))) % TWO64 == Clamp(ts)
  {
    DeltaRoundTrip(Clamp(ts) - before);
  }

  /** The bytes of an entry, grouped from the right as they are read, with a rest. */
  function Tail(e: Entry, n: nat, delta: nat, rest: seq<Byte>): seq<Byte>
    requires n <= |e.key|
  {
    e.key[n..] + (e.value + (Expiry(e) + (Varint(delta) + rest)))
  }

  lemma EncodedGroups(e: Entry, key: seq<Byte>, ts: nat, rest: seq<Byte>)
    ensures var n := Shared(key, e.key);
            EncodeEntry(e, key, ts) + rest == Varint(n) + (Varint(|e.key| - n) + (Varint(StoredLen(e))
              + Tail(e, n, EncodeDelta(Clamp(e.ts) - ts), rest)))
  {
    hide Varint, Shared, StoredLen, Expiry, EncodeDelta, Clamp;
    var n := Shared(key, e.key);
    var d := Varint(EncodeDelta(Clamp(e.ts) - ts));
    var t1 := Expiry(e) + d;
    var t2 := e.value + t1;
    var t3 := e.key[n..] + t2;
    var t4 := Varint(StoredLen(e)) + t3;
    var t5 := Varint(|e.key| - n) + t4;
    Assoc(Varint(n), t5, rest);
    Assoc(Varint(|e.key| - n), t4, rest);
    Assoc(Varint(StoredLen(e)), t3, rest);
    Assoc(e.key[n..], t2, rest);
    Assoc(e.value, t1, rest);
    Assoc(Expiry(e), d, rest);
  }

  lemma ExpiryRoundTrip(e: Entry, rest: seq<Byte>)
    ensures GetExpiry(Expiry(e) + rest, e.expire != 0) == Some((e.expire, |Expiry(e)|))
    ensures (Expiry(e) + rest)[|Expiry(e)|..] == rest
  {
    Cut(Expiry(e), rest);
    if e.expire != 0 {
      Varint64RoundTrip(e.expire, rest);
    }
  }

  lemma Number64RoundTrip(v: Word64, rest: seq<Byte>)
    ensures Number64(Varint(v) + rest) == Some((v, |Varint(v)|))
  {
    Varint64RoundTrip(v, rest);
  }

  /** ParseEntry, put together from its parts. */
  lemma ParseOf(data: seq<Byte>, key: seq<Byte>, ts: Word64, restart: bool, h: Head, atKey: seq<Byte>,
                atValue: seq<Byte>, atExpiry: seq<Byte>, atDelta: seq<Byte>, expire: (Word64, nat),
                delta: (Word64, nat))
    requires DecodeHead(data) == Some(h) && h.shared <= |key| && data[h.used..] == atKey
    requires h.nonShared <= |atKey| && atKey[h.nonShared..] == atValue
    requires h.stored / 16 <= |atValue| && atValue[h.stored / 16..] == atExpiry
    requires GetExpiry(atExpiry, h.stored / 2 % 2 == 1) == Some(expire) && expire.1 <= |atExpiry|
      && atExpiry[expire.1..] == atDelta
    requires Number64(atDelta) == Some(delta)
    ensures ParseEntry(data, key, ts, restart)
         == Some((Entry(key[..h.shared] + atKey[..h.nonShared], atValue[..h.stored / 16], h.stored % 2 == 1,
                        h.stored / 4 % 4, expire.0, ((if restart then 0 else ts) + DecodeDelta(delta.0)) % TWO64),
                  h.used + h.nonShared + h.stored / 16 + expire.1 + delta.1))
  {
    hide DecodeHead, GetExpiry, Number64, DecodeDelta;
  }

  lemma SkipThree(a: seq<Byte>, b: seq<Byte>, c: seq<Byte>, rest: seq<Byte>)
    ensures (a + (b + (c + rest)))[|a| + |b| + |c|..] == rest
  {
    Cut(a, b + (c + rest));
    Cut(b, c + rest);
    Cut(c, rest);
    var d := a + (b + (c + rest));
    assert d[|a| + |b| + |c|..] == d[|a|..][|b| + |c|..];
    assert (b + (c + rest))[|b| + |c|..] == (b + (c + rest))[|b|..][|c|..];
  }

  lemma HeadRoundTrip(a: Word32, b: Word32, c: Word32, rest: seq<Byte>)
    requires b + c / 16 <= |rest|
    ensures var h := Head(a, b, c, |Varint(a)| + |Varint(b)| + |Varint(c)|);
            var data := Varint(a) + (Varint(b) + (Varint(c) + rest));
            DecodeHead(data) == Some(h) && data[h.used..] == rest
  {
    hide Varint, SlowHead, DecodeHead;
    var data := Varint(a) + (Varint(b) + (Varint(c) + rest));
    SlowHeadRoundTrip(a, b, c, rest);
    FastHead(a, b, c, rest);
    SkipThree(Varint(a), Varint(b), Varint(c), rest);
    HeadOf(data, Head(a, b, c, |Varint(a)| + |Varint(b)| + |Varint(c)|));
  }

  lemma HeadOf(data: seq<Byte>, h: Head)
    requires |data| >= 3 && SlowHead(data) == Some(h) && h.used + h.nonShared + h.stored / 16 <= |data|
    requires data[0] < 128 && data[1] < 128 && data[2] < 128 ==> Head(data[0], data[1], data[2], 3) == h
    ensures DecodeHead(data) == Some(h)
  {
    hide SlowHead;
  }

  /** The same with the key and the timestamp that the encoder compared with. */
  lemma EntryParses(e: Entry, key: seq<Byte>, ts: Word64, restart: bool, rest: seq<Byte>, k0: seq<Byte>, t0: Word64)
    requires Small(e) && |key| < 0x1_0000 && t0 <= MAX_INT64
    requires k0 == (if restart then [] else key) && t0 == (if restart then 0 else ts)
    ensures ParseEntry(EncodeEntry(e, k0, t0) + rest, key, ts, restart) == Some((Stored(e), |EncodeEntry(e, k0, t0)|))
  {
    hide Varint, Shared, StoredLen, Expiry, EncodeDelta, DecodeDelta, Clamp, DecodeHead, GetExpiry, Number64,
         ParseEntry, EncodeEntry, Tail;
    var n, delta, stored := Shared(k0, e.key), EncodeDelta(Clamp(e.ts) - t0), StoredLen(e);
    var atKey := Tail(e, n, delta, rest);
    StoredLenFields(e);
    DeltaFits(e.ts, t0);
    var atValue, atExpiry, atDelta := TailParts(e, n, delta, rest);
    EncodedGroups(e, k0, t0, rest);
    HeadRoundTrip(n, |e.key| - n, stored, atKey);
    var h := Head(n, |e.key| - n, stored, |Varint(n)| + |Varint(|e.key| - n)| + |Varint(stored)|);
    ParseOf(EncodeEntry(e, k0, t0) + rest, key, ts, restart, h, atKey, atValue, atExpiry, atDelta,
            (e.expire, |Expiry(e)|), (delta, |Varint(delta)|));
    Rejoin(k0, key, e.key, n);
    EncodedLength(e, k0, t0);
  }

  /** An entry reads back, whatever follows it; at a restart nothing carried over matters. */
  lemma EntryRoundTrip(e: Entry, key: seq<Byte>, ts: Word64, restart: bool, rest: seq<Byte>)
    requires Small(e) && |key| < 0x1_0000 && ts <= MAX_INT64
    ensures var b := if restart then EncodeEntry(e, [], 0) else EncodeEntry(e, key, ts);
            ParseEntry(b + rest, key, ts, restart) == Some((Stored(e), |b|))
  {
    hide EncodeEntry, ParseEntry, Clamp;
    EntryParses(e, key, ts, restart, rest, if restart then [] else key, if restart then 0 else ts);
  }

  /** The pieces of a tail, as they are cut off one by one. */
  lemma TailParts(e: Entry, n: nat, delta: Word64, rest: seq<Byte>)
    returns (atValue: seq<Byte>, atExpiry: seq<Byte>, atDelta: seq<Byte>)
    requires n <= |e.key|
    ensures var atKey, m := Tail(e, n, delta, rest), |e.key| - n;
      && |atKey| >= m + |e.value| && atKey[..m] == e.key[n..] && atKey[m..] == atValue
      && |atValue| >= |e.value| && atValue[..|e.value|] == e.value && atValue[|e.value|..] == atExpiry
      && GetExpiry(atExpiry, e.expire != 0) == Some((e.expire, |Expiry(e)|))
      && |Expiry(e)| <= |atExpiry| && atExpiry[|Expiry(e)|..] == atDelta
      && Number64(atDelta) == Some((delta, |Varint(delta)|))
  {
    hide Varint, Expiry, GetExpiry, Number64;
    atDelta := Varint(delta) + rest;
    atExpiry := Expiry(e) + atDelta;
    atValue := e.value + atExpiry;
    Cut(e.key[n..], atValue);
    Cut(e.value, atExpiry);
    ExpiryRoundTrip(e, atDelta);
    Number64RoundTrip(delta, rest);
  }

  lemma Rejoin(k0: seq<Byte>, key: seq<Byte>, whole: seq<Byte>, n: nat)
    requires n <= |k0| && n <= |whole| && k0[..n] == whole[..n] && (k0 == key || k0 == [])
    ensures n <= |key| && key[..n] + whole[n..] == whole
  {
  }

  lemma EncodedLength(e: Entry, key: seq<Byte>, ts: nat)
    ensures var n := Shared(key, e.key);
            |EncodeEntry(e, key, ts)| == |Varint(n)| + |Varint(|e.key| - n)| + |Varint(StoredLen(e))| + (|e.key| - n)
              + |e.value| + |Expiry(e)| + |Varint(EncodeDelta(Clamp(e.ts) - ts))|
  {
    hide Varint, Shared, StoredLen, Expiry, EncodeDelta, Clamp;
  }
}
