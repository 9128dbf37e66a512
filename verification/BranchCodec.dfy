/** include/common.h: the binary form of branch file mappings and branch manifest metadata. */
module BranchCodec {
  import opened Bytes
  import opened Options

  datatype BranchFileRange = BranchFileRange(name: seq<Byte>, term: Word64, maxFile: Word64, maxSegment: Word64)

  datatype BranchManifestMetadata = BranchManifestMetadata(name: seq<Byte>, term: Word64, ranges: seq<BranchFileRange>)

  // ---- Specification: one entry, then a list of them. ----

  /** The length field keeps only the low 32 bits of the name's length. */
  function EncodeRange(r: BranchFileRange): (b: seq<Byte>)
    ensures |b| == 28 + |r.name|
  {
    WriteLE(|r.name|, 4) + r.name + WriteLE(r.term, 8) + WriteLE(r.maxFile, 8) + WriteLE(r.maxSegment, 8)
  }

  function EncodeRanges(m: seq<BranchFileRange>): seq<Byte> {
    if m == [] then [] else EncodeRanges(m[..|m| - 1]) + EncodeRange(m[|m| - 1])
  }

  /** One entry off the front of `data`, and what follows it. */
  function DecodeRange(data: seq<Byte>): Option<(BranchFileRange, seq<Byte>)> {
    if |data| < 4 then None else
      var n := ReadLE(data[..4]);
      var d := data[4..];
      if |d| < n + 24 then None else
        var e := d[n..];
        var f := e[8..];
        var g := f[8..];
        Some((BranchFileRange(d[..n], Word(e[..8]), Word(f[..8]), Word(g[..8])), g[8..]))
  }

  function DecodeRanges(data: seq<Byte>, n: nat): Option<seq<BranchFileRange>> {
    if n == 0 then Some([]) else
      match DecodeRange(data)
      case None => None
      case Some((r, rest)) =>
        match DecodeRanges(rest, n - 1)
        case None => None
        case Some(m) => Some([r] + m)
  }

  function EncodeMapping(m: seq<BranchFileRange>): seq<Byte> {
    WriteLE(|m|, 8) + EncodeRanges(m)
  }

  /** Any error gives the empty mapping; bytes after the last entry are ignored. */
  function DecodeMapping(data: seq<Byte>): seq<BranchFileRange> {
    if |data| < 8 then [] else
      match DecodeRanges(data[8..], ReadLE(data[..8]))
      case None => []
      case Some(m) => m
  }

  function EncodeMetadata(x: BranchManifestMetadata): seq<Byte> {
    WriteLE(|x.name|, 4) + x.name + WriteLE(x.term, 8) + EncodeMapping(x.ranges)
  }

  /** The mapping is the last field, and an error in it is not an error of the metadata. */
  function DecodeMetadata(data: seq<Byte>): Option<BranchManifestMetadata> {
    if |data| < 4 then None else
      var n := ReadLE(data[..4]);
      var d := data[4..];
      if |d| < n + 8 then None else
        Some(BranchManifestMetadata(d[..n], Word(d[n..n + 8]), DecodeMapping(d[n + 8..])))
  }

  // ---- One entry. ----

  lemma ReadBack4(n: nat)
    ensures ReadLE(WriteLE(n, 4)) == n <==> n < TWO32
    ensures ReadLE(WriteLE(n, 4)) < TWO32
  {
    WordSizes();
    if n < TWO32 {
      ReadWriteLE(n, 4);
    }
  }

  lemma ReadBack8(w: Word64)
    ensures Word(WriteLE(w, 8)) == w
  {
    WordSizes();
    ReadWriteLE(w, 8);
  }

  lemma Paste(b: seq<Byte>, n: nat)
    requires n <= |b|
    ensures b[..n] + b[n..] == b
  {
  }

  /** The fields of an entry and a rest, grouped from the right as they are read. */
  function Fields(a: seq<Byte>, name: seq<Byte>, x: seq<Byte>, y: seq<Byte>, z: seq<Byte>, rest: seq<Byte>): seq<Byte> {
    a + (name + (x + (y + (z + rest))))
  }

  lemma Regroup(a: seq<Byte>, name: seq<Byte>, x: seq<Byte>, y: seq<Byte>, z: seq<Byte>, rest: seq<Byte>)
    ensures a + name + x + y + z + rest == Fields(a, name, x, y, z, rest)
  {
    assert (a + name + x + y) + z + rest == (a + name + x + y) + (z + rest);
    assert (a + name + x) + y + (z + rest) == (a + name + x) + (y + (z + rest));
    assert (a + name) + x + (y + (z + rest)) == (a + name) + (x + (y + (z + rest)));
    assert a + name + (x + (y + (z + rest))) == a + (name + (x + (y + (z + rest))));
  }

  /** An entry reads back, with what follows it, exactly when its name's length fits the field. */
  lemma RangeRoundTrip(r: BranchFileRange, rest: seq<Byte>)
    ensures |r.name| < TWO32 ==> DecodeRange(EncodeRange(r) + rest) == Some((r, rest))
    ensures |r.name| >= TWO32 ==>
      var d := DecodeRange(EncodeRange(r) + rest);
      d.Some? ==> d.value.0 != r
  {
    var a, x, y, z := WriteLE(|r.name|, 4), WriteLE(r.term, 8), WriteLE(r.maxFile, 8), WriteLE(r.maxSegment, 8);
    Regroup(a, r.name, x, y, z, rest);
    Cut(a, r.name + (x + (y + (z + rest))));
    Cut(r.name, x + (y + (z + rest)));
    Cut(x, y + (z + rest));
    Cut(y, z + rest);
    Cut(z, rest);
    ReadBack4(|r.name|);
    ReadBack8(r.term);
    ReadBack8(r.maxFile);
    ReadBack8(r.maxSegment);
  }

  /** No strict prefix of an entry is an entry. */
  lemma RangePrefix(r: BranchFileRange, p: seq<Byte>)
    requires |r.name| < TWO32 && p < EncodeRange(r)
    ensures DecodeRange(p) == None
  {
    if |p| >= 4 {
      assert p[..4] == EncodeRange(r)[..4] == WriteLE(|r.name|, 4);
      ReadBack4(|r.name|);
    }
  }

  /** What was decoded encodes to what was consumed. */
  lemma RangeCanonical(data: seq<Byte>)
    requires DecodeRange(data).Some?
    ensures var (r, rest) := DecodeRange(data).value; |r.name| < TWO32 && EncodeRange(r) + rest == data
  {
    var d := data[4..];
    var n := ReadLE(data[..4]);
    var e := d[n..];
    var f := e[8..];
    var g := f[8..];
    WordSizes();
    WriteReadLE(data[..4]);
    WriteReadLE(e[..8]);
    WriteReadLE(f[..8]);
    WriteReadLE(g[..8]);
    Paste(data, 4);
    Paste(d, n);
    Paste(e, 8);
    Paste(f, 8);
    Paste(g, 8);
    Regroup(data[..4], d[..n], e[..8], f[..8], g[..8], g[8..]);
  }

  // ---- A list of entries. ----

  predicate Short(m: seq<BranchFileRange>) {
    forall i :: 0 <= i < |m| ==> |m[i].name| < TWO32
  }

  lemma {:induction false} EncodeFront(m: seq<BranchFileRange>)
    requires m != []
    ensures EncodeRanges(m) == EncodeRange(m[0]) + EncodeRanges(m[1..])
  {
    hide EncodeRange;
    var k := |m| - 1;
    if k == 0 {
      assert m[..0] == m[1..] == [];
    } else {
      EncodeFront(m[..k]);
      var tail := m[1..];
      assert m[..k][1..] == tail[..k - 1];
      var a, b, c := EncodeRange(m[0]), EncodeRanges(tail[..k - 1]), EncodeRange(m[k]);
      assert EncodeRanges(tail) == b + c;
      assert EncodeRanges(m) == (a + b) + c;
      assert (a + b) + c == a + (b + c);
    }
  }

  lemma {:induction false} RangesRoundTrip(m: seq<BranchFileRange>, extra: seq<Byte>)
    ensures DecodeRanges(EncodeRanges(m) + extra, |m|) == Some(m) <==> Short(m)
  {
    hide EncodeRange, DecodeRange;
    if m != [] {
      EncodeFront(m);
      var rest := EncodeRanges(m[1..]) + extra;
      assert EncodeRanges(m) + extra == EncodeRange(m[0]) + rest;
      RangeRoundTrip(m[0], rest);
      RangesRoundTrip(m[1..], extra);
      assert m == [m[0]] + m[1..];
      if |m[0].name| < TWO32 {
        assert Short(m) <==> Short(m[1..]);
      }
    }
  }

  lemma {:induction false} RangesPrefix(m: seq<BranchFileRange>, p: seq<Byte>)
    requires Short(m) && p < EncodeRanges(m)
    ensures DecodeRanges(p, |m|) == None
  {
    hide EncodeRange, DecodeRange;
    assert m != [];
    EncodeFront(m);
    var e := EncodeRange(m[0]);
    if |p| < |e| {
      assert p < e;
      RangePrefix(m[0], p);
    } else {
      var q := p[|e|..];
      assert p == e + q;
      assert EncodeRanges(m)[|e|..] == EncodeRanges(m[1..]);
      RangeRoundTrip(m[0], q);
      RangesPrefix(m[1..], q);
    }
  }

  lemma {:induction false} RangesCanonical(data: seq<Byte>, n: nat)
    requires DecodeRanges(data, n).Some?
    ensures var m := DecodeRanges(data, n).value; |m| == n && Short(m) && EncodeRanges(m) <= data
    decreases n
  {
    hide EncodeRange, DecodeRange;
    if n > 0 {
      var (r, rest) := DecodeRange(data).value;
      var m := DecodeRanges(data, n).value;
      RangeCanonical(data);
      RangesCanonical(rest, n - 1);
      EncodeFront(m);
      assert m[1..] == DecodeRanges(rest, n - 1).value;
      assert data[|EncodeRange(r)|..] == rest;
    }
  }

  // ---- The mapping. ----

  /** A mapping followed by anything reads back exactly when every name's length fits 32 bits. */
  lemma MappingRoundTrip(m: seq<BranchFileRange>, extra: seq<Byte>)
    requires |m| < TWO64
    ensures DecodeMapping(EncodeMapping(m) + extra) == m <==> Short(m)
  {
    hide EncodeRanges, DecodeRanges;
    var data := EncodeMapping(m) + extra;
    assert data[..8] == WriteLE(|m|, 8);
    assert data[8..] == EncodeRanges(m) + extra;
    ReadBack8(|m|);
    RangesRoundTrip(m, extra);
  }

  /** A mapping cut short reads back as the empty mapping. */
  lemma MappingPrefix(m: seq<BranchFileRange>, p: seq<Byte>)
    requires |m| < TWO64 && Short(m) && p < EncodeMapping(m)
    ensures DecodeMapping(p) == []
  {
    hide EncodeRanges, DecodeRanges;
    if |p| >= 8 {
      assert p[..8] == EncodeMapping(m)[..8] == WriteLE(|m|, 8);
      assert EncodeMapping(m)[8..] == EncodeRanges(m);
      ReadBack8(|m|);
      RangesPrefix(m, p[8..]);
    }
  }

  lemma Inside(name: seq<Byte>, t: seq<Byte>, rest: seq<Byte>)
    ensures (name + (t + rest))[|name|..|name| + |t|] == t
    ensures (name + (t + rest))[|name| + |t|..] == rest
  {
  }

  /** Whatever bytes a non-empty mapping was read from begin with its encoding. */
  lemma MappingCanonical(data: seq<Byte>)
    requires DecodeMapping(data) != []
    ensures EncodeMapping(DecodeMapping(data)) <= data
  {
    hide EncodeRanges, DecodeRanges;
    RangesCanonical(data[8..], ReadLE(data[..8]));
    WriteReadLE(data[..8]);
  }

  // ---- The metadata. ----

  lemma MetadataRoundTrip(x: BranchManifestMetadata, extra: seq<Byte>)
    requires |x.ranges| < TWO64
    ensures DecodeMetadata(EncodeMetadata(x) + extra) == Some(x) <==> |x.name| < TWO32 && Short(x.ranges)
  {
    hide EncodeMapping, DecodeMapping, WriteLE, ReadLE, Word, Short;
    var a, t, m := WriteLE(|x.name|, 4), WriteLE(x.term, 8), EncodeMapping(x.ranges) + extra;
    Assoc(a + x.name + t, EncodeMapping(x.ranges), extra);
    Assoc(a + x.name, t, m);
    Assoc(a, x.name, t + m);
    Cut(a, x.name + (t + m));
    Cut(x.name, t + m);
    Cut(t, m);
    Inside(x.name, t, m);
    ReadBack4(|x.name|);
    ReadBack8(x.term);
    if |x.name| < TWO32 {
      MappingRoundTrip(x.ranges, extra);
    }
  }

  /** Cut inside the name or the term the metadata is rejected; cut later it loses its whole mapping. */
  lemma MetadataPrefix(x: BranchManifestMetadata, p: seq<Byte>)
    requires |x.ranges| < TWO64 && |x.name| < TWO32 && Short(x.ranges) && p < EncodeMetadata(x)
    ensures DecodeMetadata(p) == if |p| < 12 + |x.name| then None else Some(x.(ranges := []))
  {
    hide EncodeMapping, DecodeMapping;
    var n := |x.name|;
    var whole := EncodeMetadata(x);
    if |p| >= 4 {
      assert p[..4] == whole[..4] == WriteLE(n, 4);
      ReadBack4(n);
    }
    if |p| >= 12 + n {
      var d := whole[4..];
      assert d == x.name + (WriteLE(x.term, 8) + EncodeMapping(x.ranges));
      assert d[..n] == x.name && d[n..n + 8] == WriteLE(x.term, 8) && d[n + 8..] == EncodeMapping(x.ranges);
      assert p[4..] < d && p[4..][..n] == d[..n] && p[4..][n..n + 8] == d[n..n + 8];
      assert p[4..][n + 8..] < d[n + 8..];
      ReadBack8(x.term);
      MappingPrefix(x.ranges, p[4..][n + 8..]);
    }
  }

  // ---- The loops. ----

  method SerializeMapping(m: seq<BranchFileRange>) returns (b: seq<Byte>)
    ensures b == EncodeMapping(m)
  {
    hide EncodeRange;
    b := WriteLE(|m|, 8);
    for i := 0 to |m|
      invariant b == WriteLE(|m|, 8) + EncodeRanges(m[..i])
    {
      assert m[..i + 1][..i] == m[..i];
      b := b + EncodeRange(m[i]);
    }
    assert m[..|m|] == m;
  }

  /** The entries already read, put before those still to come. */
  ghost function After<T>(m: seq<T>, rest: Option<seq<T>>): Option<seq<T>> {
    if rest.None? then None else Some(m + rest.value)
  }

  lemma AfterNone<T>(rest: Option<seq<T>>)
    ensures After([], rest) == rest
  {
    if rest.Some? {
      assert [] + rest.value == rest.value;
    }
  }

  lemma AfterOne<T>(m: seq<T>, x: T, rest: Option<seq<T>>)
    ensures After(m + [x], rest) == After(m, After([x], rest))
  {
    if rest.Some? {
      assert m + [x] + rest.value == m + ([x] + rest.value);
    }
  }

  method DeserializeMapping(data: seq<Byte>) returns (m: seq<BranchFileRange>)
    ensures m == DecodeMapping(data)
  {
    hide DecodeRange;
    m := [];
    if |data| < 8 {
      return;
    }
    var entries := ReadLE(data[..8]);
    var rest := data[8..];
    AfterNone(DecodeRanges(rest, entries));
    for i := 0 to entries
      invariant DecodeRanges(data[8..], entries) == After(m, DecodeRanges(rest, entries - i))
    {
      var next := DecodeRange(rest);
      if next.None? {
        return [];
      }
      AfterOne(m, next.value.0, DecodeRanges(next.value.1, entries - i - 1));
      m := m + [next.value.0];
      rest := next.value.1;
    }
  }
}
