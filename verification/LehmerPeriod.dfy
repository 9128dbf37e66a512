/** external/random.h promises that the generator cycles through every number in [1, M - 1]. */
module LehmerPeriod {
  import opened Divisors
  import opened Lehmer
  import opened Modular
  import opened Primes

  /** The state after `k` calls of Next. */
  function Orbit(x: nat, k: nat): (y: nat)
    ensures x < M ==> y < M
  {
    if k == 0 then x else Step(Orbit(x, k - 1))
  }

  /** A^k mod M: the state after `k` calls from the seed one. */
  function Power(k: nat): (y: nat)
    ensures y < M
  {
    if k == 0 then 1 else Step(Power(k - 1))
  }

  lemma {:induction false} OrbitOfPower(a: nat, k: nat)
    ensures Orbit(Power(a), k) == Power(a + k)
    decreases k
  {
    if k > 0 {
      OrbitOfPower(a, k - 1);
    }
  }

  lemma {:induction false} PowerIsPositive(k: nat)
    ensures Power(k) > 0
  {
    if k > 0 {
      PowerIsPositive(k - 1);
      StepPermutes(Power(k - 1), 0);
    }
  }

  lemma {:induction false} PowerSum(a: nat, b: nat)
    ensures Power(a + b) == Power(a) * Power(b) % M
    decreases b
  {
    hide Step;
    if b == 0 {
      QuotientRemainder(Power(a), 0, Power(a), M);
    } else {
      PowerSum(a, b - 1);
      StepProduct(Power(a), Power(b - 1));
    }
  }

  lemma StepProduct(x: nat, y: nat)
    ensures Step(x * y % M) == x * Step(y) % M
  {
    ReduceEither(x, y, A, M);
  }

  // ---- Exponents at which the power is one. ----

  lemma {:induction false} PowerMultiple(a: nat, q: nat)
    requires Power(a) == 1
    ensures Power(q * a) == 1
  {
    if q > 0 {
      PowerMultiple(a, q - 1);
      Distribute(q - 1, 1, a);
      PowerSum((q - 1) * a, a);
    }
  }

  lemma PowerRemainder(a: nat, b: nat)
    requires b > 0 && Power(a) == 1 && Power(b) == 1
    ensures Power(a % b) == 1
  {
    hide Power;
    var q, r := a / b, a % b;
    assert a == q * b + r;
    PowerMultiple(b, q);
    PowerSum(q * b, r);
    QuotientRemainder(Power(r), 0, Power(r), M);
  }

  lemma {:induction false} PowerGcd(a: nat, b: nat)
    requires Power(a) == 1 && Power(b) == 1
    ensures Power(Gcd(a, b)) == 1
    decreases b
  {
    hide Power;
    if b > 0 {
      PowerRemainder(a, b);
      PowerGcd(b, a % b);
    }
  }

  lemma {:induction false} PowerCancel(i: nat, j: nat)
    requires Power(i) == Power(i + j)
    ensures Power(j) == 1
    decreases i
  {
    if i > 0 {
      StepPermutes(Power(i - 1), Power(i + j - 1));
      PowerCancel(i - 1, j);
    }
  }

  /** If the power is one at some exponent short of `n`, it is one at `n` over a prime divisor of `n`. */
  lemma ShorterPeriod(n: nat, e: nat) returns (p: nat)
    requires 0 < e < n && Power(n) == 1 && Power(e) == 1
    ensures Prime(p) && Divides(p, n) && Power(n / p) == 1
  {
    hide Power, Divides, Prime, Gcd;
    var g := Gcd(e, n);
    PowerGcd(e, n);
    GcdDivides(e, n);
    DivisorBound(g, n);
    DivisorBound(g, e);
    var c := n / g;
    p := PrimeFactor(c);
    DivisorBound(p, c);
    var k := c / p;
    PowerMultiple(g, k);
    assert n == k * g * p by {
      Regroup(k, p, g);
      Regroup(k, g, p);
    }
    PrimeIsPositive(p);
    Multiple(p, k * g);
  }

  lemma PrimeIsPositive(p: nat)
    requires Prime(p)
    ensures p > 1
  {
  }
}
