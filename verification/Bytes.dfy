/** Bytes, fixed-width words and their little-endian encodings. */
module Bytes {
  type Byte = x: nat | x < 256

  const TWO32 := 0x1_0000_0000
  const TWO64 := 0x1_0000_0000_0000_0000

  type Word32 = x: nat | x < TWO32
  type Word64 = x: nat | x < TWO64

  /** 64-bit addition and subtraction, with wrap-around. */
  function Add64(a: Word64, b: Word64): Word64 {
    if a + b < TWO64 then a + b else a + b - TWO64
  }

  function Sub64(a: Word64, b: Word64): Word64 {
    if b <= a then a - b else a + TWO64 - b
  }

  function Pow256(n: nat): (p: nat)
    ensures p > 0
  {
    if n == 0 then 1 else 256 * Pow256(n - 1)
  }

  /** The number whose little-endian bytes are `b`. */
  function ReadLE(b: seq<Byte>): (w: nat)
    ensures w < Pow256(|b|)
  {
    if b == [] then 0 else b[0] + 256 * ReadLE(b[1..])
  }

  /** The low `n` bytes of `w`, least significant first. */
  function WriteLE(w: nat, n: nat): (b: seq<Byte>)
    ensures |b| == n
  {
    if n == 0 then [] else [w % 256] + WriteLE(w / 256, n - 1)
  }

  lemma LowByte(x: Byte, r: nat)
    ensures (x + 256 * r) % 256 == x && (x + 256 * r) / 256 == r
  {
  }

  lemma {:induction false} WriteReadLE(b: seq<Byte>)
    ensures WriteLE(ReadLE(b), |b|) == b
  {
    if b != [] {
      WriteReadLE(b[1..]);
      LowByte(b[0], ReadLE(b[1..]));
    }
  }

  lemma {:induction false} ReadWriteLE(w: nat, n: nat)
    requires w < Pow256(n)
    ensures ReadLE(WriteLE(w, n)) == w
  {
    if n > 0 {
      ReadWriteLE(w / 256, n - 1);
      assert WriteLE(w, n)[1..] == WriteLE(w / 256, n - 1);
    }
  }

  lemma WordSizes()
    ensures Pow256(4) == TWO32 && Pow256(8) == TWO64
  {
    assert Pow256(4) == 256 * (256 * (256 * 256));
    assert Pow256(8) == 256 * (256 * (256 * (256 * Pow256(4))));
  }

  /** The 64-bit word whose little-endian bytes are `b`. */
  function Word(b: seq<Byte>): Word64
    requires |b| == 8
  {
    WordSizes();
    ReadLE(b)
  }

  /** A length counter kept modulo 2^64 follows the true length. */
  lemma AddModulo(a: nat, b: Word64)
    ensures Add64(a % TWO64, b) == (a + b) % TWO64
  {
    var q, r := a / TWO64, a % TWO64;
    if r + b < TWO64 {
      assert a + b == TWO64 * q + (r + b);
    } else {
      assert a + b == TWO64 * (q + 1) + (r + b - TWO64);
    }
  }

  lemma Cut(a: seq<Byte>, b: seq<Byte>)
    ensures (a + b)[..|a|] == a && (a + b)[|a|..] == b
  {
  }

  lemma Assoc<T>(a: seq<T>, b: seq<T>, c: seq<T>)
    ensures (a + b) + c == a + (b + c)
  {
  }

  /** memcpy into a fixed buffer. */
  method CopyInto(dst: array<Byte>, at: nat, src: seq<Byte>)
    requires at + |src| <= dst.Length
    modifies dst
    ensures dst[..] == old(dst[..])[..at] + src + old(dst[..])[at + |src|..]
  {
    forall i | 0 <= i < |src| {
      dst[at + i] := src[i];
    }
  }
}
