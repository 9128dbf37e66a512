/** src/coding.cpp, include/coding.h: variable-length integers and signed deltas. */
module Coding {
  import opened Bytes
  import opened Options

  /** EncodeVarint64: seven bits a byte, low bits first, the top bit set on all but the last. */
  function Varint(v: nat): (b: seq<Byte>)
    ensures |b| >= 1
  {
    if v < 128 then [v] else [v % 128 + 128] + Varint(v / 128)
  }

  /** GetVarint32Ptr (at most five bytes) and GetVarint64Ptr (at most ten): the value and the bytes used. */
  function GetVarint(data: seq<Byte>, most: nat): (r: Option<(nat, nat)>)
    ensures r.Some? ==> 0 < r.value.1 <= |data|
  {
    if most == 0 || data == [] then None
    else if data[0] < 128 then Some((data[0], 1))
    else
      match GetVarint(data[1..], most - 1)
      case None => None
      case Some((v, used)) => Some((data[0] - 128 + 128 * v, used + 1))
  }

  function Pow128(n: nat): nat {
    if n == 0 then 1 else 128 * Pow128(n - 1)
  }

  lemma {:induction false} VarintRoundTrip(v: nat, most: nat, rest: seq<Byte>)
    requires most > 0 && v < Pow128(most)
    ensures GetVarint(Varint(v) + rest, most) == Some((v, |Varint(v)|))
  {
    if v >= 128 {
      VarintRoundTrip(v / 128, most - 1, rest);
      assert (Varint(v) + rest)[1..] == Varint(v / 128) + rest;
    }
  }

  lemma VarintWidths()
    ensures Pow128(5) > TWO32 && Pow128(10) > TWO64
  {
    assert Pow128(2) == 16384;
    assert Pow128(4) == 16384 * 16384;
    assert Pow128(5) == 128 * (16384 * 16384);
    assert Pow128(7) == 128 * (128 * Pow128(5));
    assert Pow128(9) == 128 * (128 * Pow128(7));
    assert Pow128(10) == 128 * Pow128(9);
  }

  lemma Varint32RoundTrip(v: Word32, rest: seq<Byte>)
    ensures GetVarint(Varint(v) + rest, 5) == Some((v, |Varint(v)|))
  {
    VarintWidths();
    VarintRoundTrip(v, 5, rest);
  }

  lemma Varint64RoundTrip(v: Word64, rest: seq<Byte>)
    ensures GetVarint(Varint(v) + rest, 10) == Some((v, |Varint(v)|))
  {
    VarintWidths();
    VarintRoundTrip(v, 10, rest);
  }

  /** A first byte below 128 is the whole number. */
  lemma SmallVarint(v: nat, rest: seq<Byte>)
    ensures (Varint(v) + rest)[0] < 128 <==> v < 128
    ensures v < 128 ==> Varint(v) == [v]
  {
  }

  /** EncodeVarint32, branch by branch. */
  function EncodeVarint32(v: Word32): seq<Byte> {
    if v < 128 then [v]
    else if v < 16384 then [v % 128 + 128, v / 128]
    else if v < 0x20_0000 then [v % 128 + 128, v / 128 % 128 + 128, v / 128 / 128]
    else if v < 0x1000_0000 then [v % 128 + 128, v / 128 % 128 + 128, v / 128 / 128 % 128 + 128, v / 128 / 128 / 128]
    else [v % 128 + 128, v / 128 % 128 + 128, v / 128 / 128 % 128 + 128, v / 128 / 128 / 128 % 128 + 128,
          v / 128 / 128 / 128 / 128]
  }

  /** The unrolled encoder writes what the loop writes. */
  lemma EncodeVarint32IsVarint(v: Word32)
    ensures EncodeVarint32(v) == Varint(v)
  {
    if v >= 128 {
      var v1 := v / 128;
      assert Varint(v) == [v % 128 + 128] + Varint(v1);
      if v1 >= 128 {
        var v2 := v1 / 128;
        assert Varint(v1) == [v1 % 128 + 128] + Varint(v2);
        if v2 >= 128 {
          var v3 := v2 / 128;
          assert Varint(v2) == [v2 % 128 + 128] + Varint(v3);
          if v3 >= 128 {
            assert Varint(v3) == [v3 % 128 + 128] + Varint(v3 / 128);
          }
        }
      }
    }
  }

  /** Varint32Size. */
  function Varint32Size(v: Word32): nat {
    if v < 128 then 1 else if v < 16384 then 2 else if v < 0x20_0000 then 3 else if v < 0x1000_0000 then 4 else 5
  }

  lemma Varint32SizeIsLength(v: Word32)
    ensures |Varint(v)| == Varint32Size(v)
  {
    if v >= 128 {
      assert |Varint(v)| == 1 + |Varint(v / 128)|;
      if v >= 16384 {
        assert |Varint(v / 128)| == 1 + |Varint(v / 128 / 128)|;
        if v >= 0x20_0000 {
          assert |Varint(v / 128 / 128)| == 1 + |Varint(v / 128 / 128 / 128)|;
        }
      }
    }
  }

  /** EncodeInt64Delta: the sign in the lowest bit. */
  function EncodeDelta(d: int): nat {
    if d >= 0 then 2 * d else -2 * d + 1
  }

  function DecodeDelta(n: nat): int {
    if n % 2 == 1 then -(n / 2) else n / 2
  }

  lemma DeltaRoundTrip(d: int)
    ensures DecodeDelta(EncodeDelta(d)) == d
  {
  }
}
