/** Division with remainder, stated once for the modular arguments of the other modules. */
module Modular {

  lemma Distribute(x: int, y: int, z: int)
    ensures (x + y) * z == x * z + y * z
  {
  }

  lemma ProductMonotone(a: nat, b: nat, c: nat, d: nat)
    requires a <= c && b <= d
    ensures a * b <= c * d
  {
    assert a * b <= c * b <= c * d;
  }

  /** Quotient and remainder are unique. */
  lemma QuotientRemainder(n: nat, q: nat, r: nat, m: nat)
    requires r < m && n == q * m + r
    ensures n / m == q && n % m == r
  {
    var q', r' := n / m, n % m;
    assert n == q' * m + r';
    if q > q' {
      Distribute(q - q', q', m);
      ProductMonotone(1, m, q - q', m);
    } else if q < q' {
      Distribute(q' - q, q, m);
      ProductMonotone(1, m, q' - q, m);
    }
  }

  lemma QuotientMonotone(a: nat, b: nat, m: nat)
    requires a <= b && m > 0
    ensures a / m <= b / m
  {
    var p, q := a / m, b / m;
    assert a == p * m + a % m && b == q * m + b % m;
    if q < p {
      ProductMonotone(q + 1, m, p, m);
      Distribute(q, 1, m);
    }
  }

  lemma DropMultiple(q: nat, r: nat, m: nat)
    requires m > 0
    ensures (q * m + r) % m == r % m
  {
    var p, s := r / m, r % m;
    Distribute(q, p, m);
    QuotientRemainder(q * m + r, q + p, s, m);
  }

  lemma ModProduct(a: nat, b: nat, m: nat)
    requires m > 0
    ensures (a % m * b) % m == (a * b) % m
  {
    var q, r := a / m, a % m;
    assert a * b == q * b * m + r * b by {
      Distribute(q * m, r, b);
      assert q * m * b == q * b * m;
    }
    DropMultiple(q * b, r * b, m);
  }

  /** Multiplying by an inverse modulo `m` undoes a multiplication. */
  lemma InverseUndoes(x: nat, k: nat, k': nat, m: nat)
    requires x < m && (k * k') % m == 1
    ensures (x * k % m * k') % m == x
  {
    calc {
      (x * k % m * k') % m;
      { ModProduct(x * k, k', m); }
      (x * k * k') % m;
      { Regroup(x, k, k'); }
      (k * k' * x) % m;
      { ModProduct(k * k', x, m); }
      ((k * k') % m * x) % m;
      { assert (k * k') % m * x == x; }
      x % m;
      { QuotientRemainder(x, 0, x, m); }
      x;
    }
  }

  lemma SignOfQuotient(q: int, r: int, m: nat)
    requires q * m + r >= 0 && r < m
    ensures q >= 0
  {
    if q < 0 {
      ProductMonotone(1, m, -q, m);
      Distribute(q, -q, m);
    }
  }

  /** The remainder of a difference, from quotients and remainders. */
  lemma Difference(lo: nat, p: nat, r: nat, hi: nat, q: nat, s: nat, m: nat)
    requires r < m && s < m && lo == p * m + r && hi == q * m + s && lo <= hi
    ensures (hi - lo) % m == 0 <==> r == s
  {
    Distribute(q - p, p, m);
    if r <= s {
      SignOfQuotient(q - p, s - r, m);
      QuotientRemainder(hi - lo, q - p, s - r, m);
    } else {
      Distribute(q - p - 1, 1, m);
      SignOfQuotient(q - p - 1, m + s - r, m);
      QuotientRemainder(hi - lo, q - p - 1, m + s - r, m);
    }
  }

  /** Equal remainders are multiples apart. */
  lemma SameRemainder(lo: nat, hi: nat, m: nat)
    requires lo <= hi && m > 0
    ensures lo % m == hi % m <==> (hi - lo) % m == 0
  {
    var p, r, q, s := lo / m, lo % m, hi / m, hi % m;
    assert lo == p * m + r && hi == q * m + s;
    Difference(lo, p, r, hi, q, s, m);
  }

  lemma Regroup(x: nat, y: nat, z: nat)
    ensures x * y * z == y * z * x == x * (y * z) == y * (x * z)
  {
  }

  /** A product of three may be reduced after the first factor or after the second. */
  lemma ReduceEither(x: nat, y: nat, z: nat, m: nat)
    requires m > 0
    ensures (x * y % m * z) % m == (x * (y * z % m)) % m
  {
    var r := y * z % m;
    calc {
      (x * y % m * z) % m;
      { ModProduct(x * y, z, m); }
      (x * y * z) % m;
      { Regroup(x, y, z); }
      (y * z * x) % m;
      { ModProduct(y * z, x, m); }
      (r * x) % m;
      { assert r * x == x * r; }
      (x * r) % m;
    }
  }
}
