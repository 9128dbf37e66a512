/** Divisibility and greatest common divisors. */
module Divisors {
  import opened Modular

  predicate Divides(d: nat, n: nat) {
    d > 0 && n % d == 0
  }

  lemma Multiple(d: nat, q: nat)
    requires d > 0
    ensures Divides(d, q * d) && Divides(d, d * q) && q * d / d == q
  {
    QuotientRemainder(q * d, q, 0, d);
  }

  lemma DividesSum(d: nat, a: nat, b: nat)
    requires Divides(d, a) && Divides(d, b)
    ensures Divides(d, a + b)
  {
    var x, y := a / d, b / d;
    assert a == x * d && b == y * d;
    Distribute(x, y, d);
    Multiple(d, x + y);
  }

  lemma DividesDifference(d: nat, a: nat, b: nat)
    requires Divides(d, a) && Divides(d, b) && a >= b
    ensures Divides(d, a - b)
  {
    var x, y := a / d, b / d;
    assert a == x * d && b == y * d;
    if x < y {
      ProductMonotone(x + 1, d, y, d);
      Distribute(x, 1, d);
    } else {
      Distribute(x - y, y, d);
      Multiple(d, x - y);
    }
  }

  lemma DividesTimes(d: nat, a: nat, k: nat)
    requires Divides(d, a)
    ensures Divides(d, k * a) && Divides(d, a * k)
  {
    var x := a / d;
    assert a == x * d;
    assert k * (x * d) == k * x * d;
    Multiple(d, k * x);
  }

  lemma DividesThrough(a: nat, b: nat, c: nat)
    requires Divides(a, b) && Divides(b, c)
    ensures Divides(a, c)
  {
    DividesTimes(a, b, c / b);
  }

  function Gcd(a: nat, b: nat): (g: nat)
    ensures a > 0 || b > 0 ==> g > 0
    decreases b
  {
    if b == 0 then a else Gcd(b, a % b)
  }

  lemma DividesDividend(d: nat, a: nat, b: nat)
    requires b > 0 && Divides(d, b) && Divides(d, a % b)
    ensures Divides(d, a)
  {
    hide Divides;
    var q, r := a / b, a % b;
    assert a == q * b + r;
    DividesTimes(d, b, q);
    DividesSum(d, q * b, r);
  }

  lemma DividesRemainder(d: nat, a: nat, b: nat)
    requires b > 0 && Divides(d, a) && Divides(d, b)
    ensures Divides(d, a % b)
  {
    hide Divides;
    var q, r := a / b, a % b;
    assert a == q * b + r;
    DividesTimes(d, b, q);
    DividesDifference(d, a, q * b);
  }

  lemma {:induction false} GcdDivides(a: nat, b: nat)
    requires a > 0 || b > 0
    ensures Divides(Gcd(a, b), a) && Divides(Gcd(a, b), b)
    decreases b
  {
    hide Divides;
    if b > 0 {
      GcdDivides(b, a % b);
      DividesDividend(Gcd(a, b), a, b);
    } else {
      Multiple(a, 1);
      Multiple(a, 0);
    }
  }

  lemma {:induction false} GcdIsGreatest(c: nat, a: nat, b: nat)
    requires Divides(c, a) && Divides(c, b)
    ensures Divides(c, Gcd(a, b))
    decreases b
  {
    hide Divides;
    if b > 0 {
      DividesRemainder(c, a, b);
      GcdIsGreatest(c, b, a % b);
    }
  }

  lemma ScaleRemainder(k: nat, a: nat, b: nat)
    requires k > 0 && b > 0
    ensures k * b > 0 && (k * a) % (k * b) == k * (a % b) && (k * a) / (k * b) == a / b
  {
    var q, r := a / b, a % b;
    assert a == q * b + r;
    Distribute(q * b, r, k);
    assert k * a == q * (k * b) + k * r;
    assert k * r < k * b;
    QuotientRemainder(k * a, q, k * r, k * b);
  }

  lemma {:induction false} GcdScale(k: nat, a: nat, b: nat)
    requires k > 0
    ensures Gcd(k * a, k * b) == k * Gcd(a, b)
    decreases b
  {
    if b > 0 {
      ScaleRemainder(k, a, b);
      GcdScale(k, b, a % b);
    }
  }
}
