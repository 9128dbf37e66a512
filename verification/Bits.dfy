/** Bitwise operations on unbounded naturals, defined bit by bit. */
module Bits {
  import opened Modular

  function Pow2(n: nat): (p: nat)
    ensures p > 0
  {
    if n == 0 then 1 else 2 * Pow2(n - 1)
  }

  /** The powers of two that the words and masks of the other modules are made of. */
  lemma Powers()
    ensures Pow2(1) == 2 && Pow2(14) == 0x4000 && Pow2(15) == 0x8000 && Pow2(16) == 0x1_0000
    ensures Pow2(30) == 0x4000_0000 && Pow2(31) == 0x8000_0000 && Pow2(32) == 0x1_0000_0000
  {
    assert Pow2(4) == 16;
    assert Pow2(8) == 256;
    assert Pow2(12) == 0x1000;
    assert Pow2(16) == 0x1_0000;
    assert Pow2(20) == 0x10_0000;
    assert Pow2(24) == 0x100_0000;
    assert Pow2(28) == 0x1000_0000;
  }

  lemma Power64()
    ensures Pow2(64) == 0x1_0000_0000_0000_0000
  {
    Powers();
    PowSum(32, 32);
  }

  lemma {:induction false} PowSum(a: nat, b: nat)
    ensures Pow2(a + b) == Pow2(a) * Pow2(b)
    decreases a
  {
    if a > 0 {
      PowSum(a - 1, b);
      Regroup(2, Pow2(a - 1), Pow2(b));
    }
  }

  /** x >> s */
  function Shr(x: nat, s: nat): nat {
    if s == 0 then x else Shr(x / 2, s - 1)
  }

  /** x ^ y */
  function Xor(x: nat, y: nat): nat {
    if x == 0 && y == 0 then 0
    else (if x % 2 == y % 2 then 0 else 1) + 2 * Xor(x / 2, y / 2)
  }

  /** x & y */
  function And(x: nat, y: nat): nat {
    if x == 0 || y == 0 then 0
    else (if x % 2 == 1 && y % 2 == 1 then 1 else 0) + 2 * And(x / 2, y / 2)
  }

  /** x & ~y */
  function AndNot(x: nat, y: nat): nat {
    if x == 0 then 0
    else (if x % 2 == 1 && y % 2 == 0 then 1 else 0) + 2 * AndNot(x / 2, y / 2)
  }

  /** x | y */
  function Or(x: nat, y: nat): nat {
    if x == 0 && y == 0 then 0
    else (if x % 2 == 1 || y % 2 == 1 then 1 else 0) + 2 * Or(x / 2, y / 2)
  }

  lemma XorHalf(x: nat, y: nat)
    ensures Xor(x, y) / 2 == Xor(x / 2, y / 2)
    ensures Xor(x, y) % 2 == if x % 2 == y % 2 then 0 else 1
  {
  }

  lemma {:induction false} XorZero(x: nat)
    ensures Xor(x, 0) == x
  {
    if x > 0 {
      XorZero(x / 2);
    }
  }

  lemma {:induction false} XorSelf(x: nat)
    ensures Xor(x, x) == 0
  {
    if x > 0 {
      XorSelf(x / 2);
    }
  }

  lemma {:induction false} XorAssoc(x: nat, y: nat, z: nat)
    ensures Xor(Xor(x, y), z) == Xor(x, Xor(y, z))
    decreases x + y + z
  {
    if x > 0 || y > 0 || z > 0 {
      XorAssoc(x / 2, y / 2, z / 2);
      XorHalf(x, y);
      XorHalf(y, z);
      XorHalf(Xor(x, y), z);
      XorHalf(x, Xor(y, z));
    }
  }

  lemma XorCancel(x: nat, y: nat)
    ensures Xor(Xor(x, y), y) == x
  {
    XorAssoc(x, y, y);
    XorSelf(y);
    XorZero(x);
  }

  lemma {:induction false} XorBound(x: nat, y: nat, n: nat)
    requires x < Pow2(n) && y < Pow2(n)
    ensures Xor(x, y) < Pow2(n)
  {
    if n > 0 {
      XorBound(x / 2, y / 2, n - 1);
      XorHalf(x, y);
    }
  }

  lemma {:induction false} ShrXor(x: nat, y: nat, s: nat)
    ensures Shr(Xor(x, y), s) == Xor(Shr(x, s), Shr(y, s))
    decreases s
  {
    if s > 0 {
      XorHalf(x, y);
      ShrXor(x / 2, y / 2, s - 1);
    }
  }

  lemma {:induction false} ShrShr(x: nat, s: nat, t: nat)
    ensures Shr(Shr(x, s), t) == Shr(x, s + t)
    decreases s
  {
    if s > 0 {
      ShrShr(x / 2, s - 1, t);
    }
  }

  lemma {:induction false} ShrBound(x: nat, s: nat, n: nat)
    requires x < Pow2(n)
    ensures Shr(x, s) < Pow2(n)
    ensures s >= n ==> Shr(x, s) == 0
    decreases s
  {
    if n > 0 && s > 0 {
      ShrBound(x / 2, s - 1, n - 1);
    } else if s > 0 {
      ShrBound(x / 2, s - 1, n);
    }
  }

  /** Masking with 2^k - 1 is the remainder by 2^k. */
  lemma {:induction false} AndMask(x: nat, k: nat)
    ensures And(x, Pow2(k) - 1) == x % Pow2(k)
    decreases k
  {
    if k > 0 {
      AndMask(x / 2, k - 1);
      HalfModulo(x, Pow2(k - 1));
      AndOdd(x, Pow2(k - 1));
    }
  }

  lemma AndOdd(x: nat, m: nat)
    requires m > 0
    ensures And(x, 2 * m - 1) == x % 2 + 2 * And(x / 2, m - 1)
  {
    assert (2 * m - 1) / 2 == m - 1 && (2 * m - 1) % 2 == 1;
  }

  /** Dividing by 2m is halving and then dividing by m. */
  lemma HalfModulo(x: nat, m: nat)
    requires m > 0
    ensures x % (2 * m) == x % 2 + 2 * (x / 2 % m) && x / (2 * m) == x / 2 / m
  {
    var h, b := x / 2, x % 2;
    var q, r := h / m, h % m;
    assert h == q * m + r;
    Regroup(q, 2, m);
    QuotientRemainder(x, q, 2 * r + b, 2 * m);
  }

  /** A mask shifted left by `j` picks the same bits `j` places higher. */
  lemma {:induction false} AndShift(x: nat, y: nat, j: nat)
    ensures And(x, y * Pow2(j)) == And(Shr(x, j), y) * Pow2(j)
    decreases j
  {
    hide And;
    if j > 0 {
      var p := Pow2(j - 1);
      var a := And(Shr(x / 2, j - 1), y);
      AndShift(x / 2, y, j - 1);
      AndDouble(x, y * p);
      calc {
        And(x, y * Pow2(j));
        { Regroup(y, 2, p); }
        And(x, 2 * (y * p));
        2 * (a * p);
        { Regroup(a, 2, p); }
        a * Pow2(j);
      }
    }
  }

  lemma AndDouble(x: nat, z: nat)
    ensures And(x, 2 * z) == 2 * And(x / 2, z)
  {
  }

  lemma {:induction false} ShrDivides(x: nat, j: nat)
    ensures Shr(x, j) == x / Pow2(j)
    decreases j
  {
    if j > 0 {
      ShrDivides(x / 2, j - 1);
      HalfModulo(x, Pow2(j - 1));
    }
  }

  lemma {:induction false} AndNotSubtracts(x: nat, y: nat)
    ensures AndNot(x, y) + And(x, y) == x
  {
    if x > 0 {
      AndNotSubtracts(x / 2, y / 2);
    }
  }

  lemma {:induction false} OrAdds(x: nat, y: nat)
    requires And(x, y) == 0
    ensures Or(x, y) == x + y
    decreases x + y
  {
    if x > 0 || y > 0 {
      if x > 0 && y > 0 {
        assert And(x / 2, y / 2) == 0;
      }
      OrAdds(x / 2, y / 2);
    }
  }

  lemma {:induction false} AndNotSelf(x: nat)
    ensures AndNot(x, x) == 0
  {
    if x > 0 {
      AndNotSelf(x / 2);
    }
  }

  /** Clearing a mask makes room for any part that fits it. */
  lemma {:induction false} ClearedIsDisjoint(x: nat, mask: nat, part: nat)
    requires AndNot(part, mask) == 0
    ensures And(AndNot(x, mask), part) == 0
    decreases x
  {
    if x > 0 && part > 0 {
      assert AndNot(part / 2, mask / 2) == 0;
      ClearedIsDisjoint(x / 2, mask / 2, part / 2);
      AndNotHalf(x, mask);
    }
  }

  lemma AndNotHalf(x: nat, y: nat)
    ensures AndNot(x, y) / 2 == AndNot(x / 2, y / 2)
    ensures AndNot(x, y) % 2 == if x % 2 == 1 && y % 2 == 0 then 1 else 0
  {
  }

  /** Overwriting the bits of a mask: clear, then or. */
  lemma Overwrite(x: nat, mask: nat, part: nat)
    requires AndNot(part, mask) == 0
    ensures Or(AndNot(x, mask), part) == x - And(x, mask) + part
  {
    ClearedIsDisjoint(x, mask, part);
    OrAdds(AndNot(x, mask), part);
    AndNotSubtracts(x, mask);
  }
}
