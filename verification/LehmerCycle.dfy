/** The cycle of the generator in external/random.h. */
module LehmerCycle {
  import opened Divisors
  import opened Lehmer
  import opened LehmerCertificate
  import opened LehmerPeriod
  import opened Modular
  import opened Primes
  import opened Sequences

  /** M - 1, the number of states other than zero. */
  const N: nat := 0x7fff_fffe

  /** The prime divisors of M - 1. */
  predicate Listed(p: nat) {
    p == 2 || p == 3 || p == 7 || p == 11 || p == 31 || p == 151 || p == 331
  }

  lemma SmallPrimes(p: nat)
    requires p > 1
    requires Divides(p, 2) || Divides(p, 3) || Divides(p, 7) || Divides(p, 11)
          || Divides(p, 31) || Divides(p, 151) || Divides(p, 331)
    ensures Listed(p)
  {
    hide Divides;
    if Divides(p, 2) {
      OnlyDivisor(2, 1, p);
    } else if Divides(p, 3) {
      OnlyDivisor(3, 1, p);
    } else if Divides(p, 7) {
      OnlyDivisor(7, 2, p);
    } else if Divides(p, 11) {
      OnlyDivisor(11, 3, p);
    } else if Divides(p, 31) {
      OnlyDivisor(31, 5, p);
    } else if Divides(p, 151) {
      Trials();
      OnlyDivisor(151, 12, p);
    } else {
      Trials();
      OnlyDivisor(331, 18, p);
    }
  }

  lemma Trials()
    ensures TrialDivided(151, 12) && TrialDivided(331, 18)
  {
    assert TrialDivided(151, 6);
    assert TrialDivided(331, 6);
    assert TrialDivided(331, 12);
  }

  lemma PrimeDivisors(p: nat)
    requires Prime(p) && Divides(p, N)
    ensures Listed(p)
  {
    hide Divides, Prime, Listed;
    assert N == 2 * (3 * (3 * (7 * (11 * (31 * (151 * 331))))));
    EuclidsLemma(p, 2, 3 * (3 * (7 * (11 * (31 * (151 * 331))))));
    if !Divides(p, 2) {
      EuclidsLemma(p, 3, 3 * (7 * (11 * (31 * (151 * 331)))));
      if !Divides(p, 3) {
        EuclidsLemma(p, 3, 7 * (11 * (31 * (151 * 331))));
        EuclidsLemma(p, 7, 11 * (31 * (151 * 331)));
        if !Divides(p, 7) {
          EuclidsLemma(p, 11, 31 * (151 * 331));
          if !Divides(p, 11) {
            EuclidsLemma(p, 31, 151 * 331);
            if !Divides(p, 31) {
              EuclidsLemma(p, 151, 331);
            }
          }
        }
      }
    }
    PrimeIsPositive(p);
    SmallPrimes(p);
  }

  /** 16807 is a primitive root: no power short of the (M - 1)-th is one. */
  lemma OrderIsFull(e: nat)
    requires 0 < e < N
    ensures Power(N) == 1 && Power(e) != 1
  {
    hide Power, Divides, Prime;
    LeftQuotients();
    MiddleQuotients();
    RightQuotients();
    if Power(e) == 1 {
      var p := ShorterPeriod(N, e);
      PrimeDivisors(p);
    }
  }

  // ---- A repeat-free list of n numbers in [1, n] holds them all. ----

  function UpTo(n: nat): (s: set<nat>)
    ensures forall x: nat :: x in s <==> 1 <= x <= n
  {
    if n == 0 then {} else UpTo(n - 1) + {n}
  }

  lemma {:induction false} UpToSize(n: nat)
    ensures |UpTo(n)| == n
  {
    if n > 0 {
      UpToSize(n - 1);
    }
  }

  lemma {:induction false} SubsetSize(a: set<nat>, b: set<nat>)
    requires a <= b && |a| == |b|
    ensures a == b
  {
    if a != {} {
      var x :| x in a;
      SubsetSize(a - {x}, b - {x});
    }
  }

  lemma Covers(s: seq<nat>, n: nat, y: nat)
    requires Distinct(s) && |s| == n && (forall i :: 0 <= i < n ==> 1 <= s[i] <= n) && 1 <= y <= n
    ensures y in s
  {
    hide UpTo;
    DistinctSize(s);
    UpToSize(n);
    SubsetSize(Elements(s), UpTo(n));
    assert y in UpTo(n);
  }

  function Powers(n: nat): (s: seq<nat>)
    ensures |s| == n && forall i :: 0 <= i < n ==> s[i] == Power(i)
  {
    seq(n, i requires 0 <= i < n => Power(i))
  }

  /** Every state other than zero is a power of A. */
  lemma StateIsPower(y: nat) returns (k: nat)
    requires 0 < y < M
    ensures k < N && Power(k) == y
  {
    hide Power;
    var s := Powers(N);
    forall i, j | 0 <= i < j < N
      ensures s[i] != s[j]
    {
      OrderIsFull(j - i);
      if Power(i) == Power(j) {
        PowerCancel(i, j - i);
      }
    }
    forall i | 0 <= i < N
      ensures 1 <= s[i] <= N
    {
      PowerIsPositive(i);
    }
    Covers(s, N, y);
    k :| 0 <= k < N && s[k] == y;
  }

  /** From any good seed the generator reaches every state, and comes back to it after M - 1 calls and not before. */
  lemma FullCycle(x: nat, y: nat) returns (k: nat)
    requires 0 < x < M && 0 < y < M
    ensures k < N && Orbit(x, k) == y
    ensures Orbit(x, N) == x
    ensures forall e :: 0 < e < N ==> Orbit(x, e) != x
  {
    hide Power, Orbit;
    var a := StateIsPower(x);
    var b := StateIsPower(y);
    OrderIsFull(1);
    k := if a <= b then b - a else b + N - a;
    OrbitOfPower(a, k);
    PowerSum(b, N);
    QuotientRemainder(y, 0, y, M);
    OrbitOfPower(a, N);
    PowerSum(a, N);
    QuotientRemainder(x, 0, x, M);
    forall e | 0 < e < N
      ensures Orbit(x, e) != x
    {
      OrderIsFull(e);
      OrbitOfPower(a, e);
      if Power(a) == Power(a + e) {
        PowerCancel(a, e);
      }
    }
  }

  lemma {:induction false} OrbitSum(x: nat, i: nat, j: nat)
    ensures Orbit(x, i + j) == Orbit(Orbit(x, i), j)
  {
    hide Step;
    if j > 0 {
      OrbitSum(x, i, j - 1);
    }
  }

  lemma {:induction false} OrbitIsPositive(x: nat, k: nat)
    requires 0 < x < M
    ensures 0 < Orbit(x, k) < M
  {
    if k > 0 {
      OrbitIsPositive(x, k - 1);
      StepPermutes(Orbit(x, k - 1), 0);
    }
  }

  /** What any number of calls of Next deliver. */
  method Draw(random: Random, n: nat) returns (outs: seq<nat>)
    requires random.Valid() && random.seed != M
    modifies random
    ensures random.Valid() && random.seed == Orbit(old(random.seed), n) && random.seed != M
    ensures |outs| == n && forall i :: 0 <= i < n ==> outs[i] == Orbit(old(random.seed), i + 1)
  {
    hide Step;
    outs := [];
    ghost var start := random.seed;
    for i := 0 to n
      invariant random.Valid() && random.seed == Orbit(start, i) && random.seed != M
      invariant |outs| == i && forall j :: 0 <= j < i ==> outs[j] == Orbit(start, j + 1)
    {
      var r := random.Next();
      outs := outs + [r];
    }
  }

  /** Up to M - 1 consecutive draws are distinct, and M - 1 of them are all the numbers in [1, M - 1]. */
  lemma DrawnOnce(x: nat, outs: seq<nat>)
    requires 0 < x < M && |outs| <= N && forall i :: 0 <= i < |outs| ==> outs[i] == Orbit(x, i + 1)
    ensures forall i, j :: 0 <= i < j < |outs| ==> outs[i] != outs[j]
    ensures |outs| == N ==> forall y :: 0 < y < M ==> y in outs
  {
    hide Orbit;
    forall i, j | 0 <= i < j < |outs|
      ensures outs[i] != outs[j]
    {
      OrbitIsPositive(x, i + 1);
      OrbitSum(x, i + 1, j - i);
      var _ := FullCycle(outs[i], outs[i]);
    }
    if |outs| == N {
      OrbitIsPositive(x, 1);
      forall y | 0 < y < M
        ensures y in outs
      {
        var k := FullCycle(Orbit(x, 1), y);
        OrbitSum(x, 1, k);
        assert outs[k] == y;
      }
    }
  }
}
