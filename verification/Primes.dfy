/** Prime divisors, as far as the period of the random generator needs them. */
module Primes {
  import opened Divisors
  import opened Modular

  predicate Prime(p: nat) {
    p > 1 && forall d :: 1 < d < p ==> !Divides(d, p)
  }

  lemma DivisorBound(d: nat, n: nat)
    requires Divides(d, n) && n > 0
    ensures d <= n && n == n / d * d && 0 < n / d <= n
  {
    var q := n / d;
    assert n == q * d;
    ProductMonotone(1, d, q, d);
    ProductMonotone(q, 1, q, d);
  }

  /** Every number above one has a prime divisor. */
  lemma {:induction false} PrimeFactor(n: nat) returns (p: nat)
    requires n > 1
    ensures Prime(p) && Divides(p, n)
  {
    hide Divides;
    if Prime(n) {
      Multiple(n, 1);
      p := n;
    } else {
      var d :| 1 < d < n && Divides(d, n);
      p := PrimeFactor(d);
      DividesThrough(p, d, n);
    }
  }

  /** A prime that divides a product divides a factor. */
  lemma EuclidsLemma(p: nat, a: nat, b: nat)
    requires Prime(p) && Divides(p, a * b)
    ensures Divides(p, a) || Divides(p, b)
  {
    hide Divides, Gcd;
    var g := Gcd(p, a);
    GcdDivides(p, a);
    DivisorBound(g, p);
    Multiple(p, 0);
    if g == p || b == 0 {
      return;
    }
    assert g == 1;
    GcdScale(b, p, a);
    Multiple(p, b);
    GcdIsGreatest(p, b * p, b * a);
  }

  /** No divisor of `p` lies in [2, b]. */
  predicate TrialDivided(p: nat, b: nat) {
    b < 2 || (p % b != 0 && TrialDivided(p, b - 1))
  }

  lemma {:induction false} TrialFails(p: nat, b: nat, d: nat)
    requires TrialDivided(p, b) && 2 <= d <= b
    ensures !Divides(d, p)
  {
    if d < b {
      TrialFails(p, b - 1, d);
    }
  }

  /** After trial division up to the square root, the only divisor above one is the number itself. */
  lemma OnlyDivisor(p: nat, b: nat, d: nat)
    requires TrialDivided(p, b) && p < (b + 1) * (b + 1) && d > 1 && p > 0 && Divides(d, p)
    ensures d == p
  {
    hide TrialDivided;
    DivisorBound(d, p);
    var q := p / d;
    if q == 1 {
      return;
    }
    Multiple(q, d);
    assert Divides(q, p);
    if d <= b {
      TrialFails(p, b, d);
    } else if q <= b {
      TrialFails(p, b, q);
    } else {
      ProductMonotone(b + 1, b + 1, q, d);
    }
  }
}
