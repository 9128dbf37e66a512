/** include/utils.h: the weighted store-path lookup table. */
module StorePathLut {
  import opened Bytes
  import opened Divisors
  import opened Modular
  import opened Options

  // ---- Specification. ----

  /** The weights with every zero replaced by one. */
  function Filled(w: seq<Word64>): (s: seq<nat>)
    ensures |s| == |w| && forall i :: 0 <= i < |w| ==> s[i] == if w[i] == 0 then 1 else w[i]
  {
    seq(|w|, i requires 0 <= i < |w| => if w[i] == 0 then 1 else w[i])
  }

  predicate Positive(s: seq<nat>) {
    forall i :: 0 <= i < |s| ==> s[i] > 0
  }

  function GcdAll(s: seq<nat>): (g: nat)
    requires s != [] && Positive(s)
    ensures g > 0
  {
    if |s| == 1 then s[0] else Gcd(GcdAll(s[..|s| - 1]), s[|s| - 1])
  }

  function Quotient(a: nat, b: nat): nat
    requires b > 0
  {
    a / b
  }

  function Reduced(s: seq<nat>): (r: seq<nat>)
    requires s != [] && Positive(s)
    ensures |r| == |s| && forall i :: 0 <= i < |s| ==> r[i] == Quotient(s[i], GcdAll(s))
  {
    seq(|s|, i requires 0 <= i < |s| => Quotient(s[i], GcdAll(s)))
  }

  function Sum(s: seq<nat>): nat {
    if s == [] then 0 else Sum(s[..|s| - 1]) + s[|s| - 1]
  }

  function Shrunk(x: nat, scale: nat): (y: nat)
    requires scale > 0
    ensures y > 0
  {
    if x / scale > 1 then x / scale else 1
  }

  function Scaled(s: seq<nat>, scale: nat): (r: seq<nat>)
    requires scale > 0
    ensures |r| == |s| && forall i :: 0 <= i < |s| ==> r[i] == Shrunk(s[i], scale)
  {
    seq(|s|, i requires 0 <= i < |s| => Shrunk(s[i], scale))
  }

  /** The slot count after the sum has been taken modulo 2^64. */
  function Slots(s: seq<nat>): nat {
    if Sum(s) % TWO64 == 0 then |s| else Sum(s) % TWO64
  }

  /** The total over the limit, rounded up by a sum that is taken modulo 2^64. */
  function Scale(total: nat, max: nat): nat
    requires max > 0
  {
    (total + max - 1) % TWO64 / max
  }

  function Repeat(x: nat, n: nat): (r: seq<nat>)
    ensures |r| == n && forall i :: 0 <= i < n ==> r[i] == x
  {
    seq(n, _ => x)
  }

  /** The reduced weights, or one each where their sum wraps to zero. */
  function Spread(r: seq<nat>): (c: seq<nat>)
    ensures |c| == |r|
  {
    if Sum(r) % TWO64 == 0 then Repeat(1, |r|) else r
  }

  /** How many slots each path gets; None where the scale wraps to zero and is divided by. */
  function Counts(w: seq<Word64>, max: Word64): Option<seq<nat>>
    requires w != [] && max > 0
  {
    var r := Reduced(Filled(w));
    if Slots(r) <= max then Some(Spread(r))
    else if Scale(Slots(r), max) == 0 then None
    else Some(Scaled(Spread(r), Scale(Slots(r), max)))
  }

  /** Each index in turn, as often as its count says. */
  function Table(c: seq<nat>): seq<nat> {
    if c == [] then [] else Table(c[..|c| - 1]) + Repeat((|c| - 1) % TWO32, c[|c| - 1])
  }

  // ---- The greatest common divisor of a list. ----

  lemma {:induction false} GcdAllDivides(s: seq<nat>, i: nat)
    requires Positive(s) && i < |s|
    ensures Divides(GcdAll(s), s[i])
  {
    hide Divides, Gcd;
    var n := |s| - 1;
    if n == 0 {
      Multiple(s[0], 1);
    } else {
      var d := GcdAll(s[..n]);
      GcdDivides(d, s[n]);
      if i < n {
        GcdAllDivides(s[..n], i);
        DividesThrough(GcdAll(s), d, s[i]);
      }
    }
  }

  lemma {:induction false} GcdAllIsGreatest(c: nat, s: seq<nat>)
    requires s != [] && Positive(s) && forall i :: 0 <= i < |s| ==> Divides(c, s[i])
    ensures Divides(c, GcdAll(s))
  {
    hide Divides, Gcd;
    var n := |s| - 1;
    if n > 0 {
      GcdAllIsGreatest(c, s[..n]);
      GcdIsGreatest(c, GcdAll(s[..n]), s[n]);
    }
  }

  function Times(k: nat, s: seq<nat>): (r: seq<nat>)
    ensures |r| == |s| && forall i :: 0 <= i < |s| ==> r[i] == k * s[i]
  {
    seq(|s|, i requires 0 <= i < |s| => k * s[i])
  }

  lemma TimesPositive(k: nat, s: seq<nat>)
    requires k > 0 && Positive(s)
    ensures Positive(Times(k, s))
  {
    forall i | 0 <= i < |s|
      ensures Times(k, s)[i] > 0
    {
      ProductMonotone(1, 1, k, s[i]);
    }
  }

  lemma {:induction false} GcdAllScale(k: nat, s: seq<nat>)
    requires k > 0 && s != [] && Positive(s)
    ensures Positive(Times(k, s)) && GcdAll(Times(k, s)) == k * GcdAll(s)
  {
    hide Gcd;
    TimesPositive(k, s);
    var n := |s| - 1;
    if n > 0 {
      GcdAllScale(k, s[..n]);
      assert Times(k, s)[..n] == Times(k, s[..n]);
      GcdScale(k, GcdAll(s[..n]), s[n]);
    }
  }

  /** Multiplying every weight by a constant leaves the reduced weights as they are. */
  lemma ReducedScale(k: nat, s: seq<nat>)
    requires k > 0 && s != [] && Positive(s)
    ensures Positive(Times(k, s)) && Reduced(Times(k, s)) == Reduced(s)
  {
    GcdAllScale(k, s);
    var t := Times(k, s);
    forall i | 0 <= i < |s|
      ensures t[i] / GcdAll(t) == s[i] / GcdAll(s)
    {
      ScaleRemainder(k, s[i], GcdAll(s));
    }
  }

  // ---- Reduced weights. ----

  lemma ExactQuotient(a: nat, d: nat)
    requires a > 0 && Divides(d, a)
    ensures 0 < Quotient(a, d) <= a && Quotient(a, d) * d == a
  {
    var q := a / d;
    assert q * d == a;
    ProductMonotone(q, 1, q, d);
  }

  /** The reduced weights are proportional to the weights, positive and in the same order. */
  lemma ReducedExact(s: seq<nat>, i: nat)
    requires Positive(s) && i < |s|
    ensures Reduced(s)[i] > 0 && Reduced(s)[i] * GcdAll(s) == s[i] && Reduced(s)[i] <= s[i]
  {
    hide Quotient, Divides, GcdAll;
    GcdAllDivides(s, i);
    ExactQuotient(s[i], GcdAll(s));
  }

  lemma ReducedPositive(s: seq<nat>)
    requires s != [] && Positive(s)
    ensures Positive(Reduced(s))
  {
    forall i | 0 <= i < |s|
      ensures Reduced(s)[i] > 0
    {
      ReducedExact(s, i);
    }
  }

  // ---- Sums. ----

  lemma {:induction false} SumPositive(s: seq<nat>)
    requires Positive(s)
    ensures Sum(s) >= |s|
  {
    if s != [] {
      SumPositive(s[..|s| - 1]);
    }
  }

  lemma {:induction false} SumMonotone(s: seq<nat>, t: seq<nat>)
    requires |s| == |t| && forall i :: 0 <= i < |s| ==> s[i] <= t[i]
    ensures Sum(s) <= Sum(t)
  {
    if s != [] {
      SumMonotone(s[..|s| - 1], t[..|t| - 1]);
    }
  }

  lemma ReducedSum(s: seq<nat>)
    requires s != [] && Positive(s)
    ensures 0 < Sum(Reduced(s)) <= Sum(s)
  {
    ReducedPositive(s);
    SumPositive(Reduced(s));
    forall i | 0 <= i < |s|
      ensures Reduced(s)[i] <= s[i]
    {
      ReducedExact(s, i);
    }
    SumMonotone(Reduced(s), s);
  }

  lemma ShrunkBound(x: nat, scale: nat)
    requires scale > 0
    ensures scale * (Shrunk(x, scale) - 1) <= x
  {
    var q := x / scale;
    assert x == q * scale + x % scale;
    if q > 1 {
      Distribute(q - 1, 1, scale);
    }
  }

  lemma AddProducts(k: nat, a: nat, b: nat, x: nat, y: nat)
    requires k * a <= x && k * b <= y
    ensures k * (a + b) <= x + y
  {
  }

  lemma {:induction false} ScaledSum(s: seq<nat>, scale: nat)
    requires scale > 0
    ensures Sum(Scaled(s, scale)) >= |s| && scale * (Sum(Scaled(s, scale)) - |s|) <= Sum(s)
  {
    hide Shrunk;
    if s != [] {
      var n := |s| - 1;
      var t := Scaled(s, scale);
      assert t[..n] == Scaled(s[..n], scale);
      ScaledSum(s[..n], scale);
      ShrunkBound(s[n], scale);
      AddProducts(scale, Sum(t[..n]) - n, t[n] - 1, Sum(s[..n]), s[n]);
    }
  }

  /** The scale is the total over the limit, rounded up. */
  lemma ScaleCovers(total: nat, max: nat)
    requires max > 0
    ensures (total + max - 1) / max * max >= total
  {
    var x := total + max - 1;
    assert x == x / max * max + x % max;
  }

  lemma Overshoot(scale: nat, max: nat, over: nat, total: nat)
    requires scale > 0 && scale * over <= total && total <= scale * max
    ensures over <= max
  {
    if over > max {
      ProductMonotone(scale, max + 1, scale, over);
      Distribute(max, 1, scale);
    }
  }

  lemma ScaledFits(s: seq<nat>, scale: nat, max: nat)
    requires scale > 0 && scale * max >= Sum(s)
    ensures Sum(Scaled(s, scale)) <= max + |s|
  {
    ScaledSum(s, scale);
    Overshoot(scale, max, Sum(Scaled(s, scale)) - |s|, Sum(s));
  }

  // ---- The table. ----

  predicate Sorted(t: seq<nat>) {
    forall i, j :: 0 <= i < j < |t| ==> t[i] <= t[j]
  }

  lemma {:induction false} RepeatCount(x: nat, n: nat)
    ensures forall y :: multiset(Repeat(x, n))[y] == if y == x then n else 0
  {
    if n > 0 {
      RepeatCount(x, n - 1);
      assert Repeat(x, n) == Repeat(x, n - 1) + [x];
    }
  }

  lemma {:induction false} TableLength(c: seq<nat>)
    ensures |Table(c)| == Sum(c)
  {
    if c != [] {
      TableLength(c[..|c| - 1]);
    }
  }

  lemma {:induction false} TableSorted(c: seq<nat>)
    requires |c| <= TWO32
    ensures Sorted(Table(c)) && forall i :: 0 <= i < |Table(c)| ==> Table(c)[i] < |c|
  {
    hide Repeat;
    if c != [] {
      var n := |c| - 1;
      TableSorted(c[..n]);
      QuotientRemainder(n, 0, n, TWO32);
    }
  }

  lemma {:induction false} TableCounts(c: seq<nat>)
    requires |c| <= TWO32
    ensures forall i :: 0 <= i < |c| ==> multiset(Table(c))[i] == c[i]
  {
    hide Repeat, Table;
    if c != [] {
      var n := |c| - 1;
      var front := Table(c[..n]);
      TableCounts(c[..n]);
      TableSorted(c[..n]);
      TableSnoc(c);
      RepeatCount(n, c[n]);
      assert multiset(front + Repeat(n, c[n])) == multiset(front) + multiset(Repeat(n, c[n]));
      assert n !in front;
    }
  }

  lemma TableSnoc(c: seq<nat>)
    requires 0 < |c| <= TWO32
    ensures Table(c) == Table(c[..|c| - 1]) + Repeat(|c| - 1, c[|c| - 1])
  {
    QuotientRemainder(|c| - 1, 0, |c| - 1, TWO32);
  }

  /** The table is sorted and holds each index exactly as often as its count. */
  lemma TableHolds(c: seq<nat>)
    requires |c| <= TWO32
    ensures Sorted(Table(c)) && |Table(c)| == Sum(c)
    ensures forall i :: 0 <= i < |Table(c)| ==> Table(c)[i] < |c|
    ensures forall i :: 0 <= i < |c| ==> multiset(Table(c))[i] == c[i]
  {
    hide Table, Sum, Sorted;
    TableSorted(c);
    TableLength(c);
    TableCounts(c);
  }

  lemma {:induction false} TablePrefix(c: seq<nat>, k: nat)
    requires k <= |c|
    ensures Table(c[..k]) <= Table(c)
  {
    if k < |c| {
      var n := |c| - 1;
      TablePrefix(c[..n], k);
      assert c[..n][..k] == c[..k];
    } else {
      assert c[..k] == c;
    }
  }

  lemma LastSlot(c: seq<nat>)
    requires 0 < |c| <= TWO32 && c[|c| - 1] > 0
    ensures Table(c) != [] && Table(c)[|Table(c)| - 1] == |c| - 1
  {
    hide Table;
    TableSnoc(c);
  }

  /** The index after the last 32-bit one is stored as zero. */
  lemma WrappedSlot(c: seq<nat>)
    requires |c| == TWO32 + 1 && c[TWO32] > 0
    ensures var at := |Table(c[..TWO32])|; at < |Table(c)| && Table(c[..TWO32]) <= Table(c) && Table(c)[at] == 0
  {
    hide Positive;
    QuotientRemainder(TWO32, 1, 0, TWO32);
    var front := Table(c[..|c| - 1]);
    assert Table(c) == front + Repeat(0, c[TWO32]);
  }

  /** Indices are cut to 32 bits, so more than 2^32 paths would not come out sorted. */
  lemma SortedExactly(c: seq<nat>)
    requires Positive(c)
    ensures Sorted(Table(c)) <==> |c| <= TWO32
  {
    hide Table;
    if |c| <= TWO32 {
      TableSorted(c);
    } else {
      var c0, c1 := c[..TWO32], c[..TWO32 + 1];
      assert c1[..TWO32] == c0;
      LastSlot(c0);
      WrappedSlot(c1);
      TablePrefix(c, TWO32 + 1);
      var at := |Table(c0)|;
      assert Table(c)[at - 1] == Table(c1)[at - 1] == Table(c0)[at - 1];
      assert Table(c)[at] == Table(c1)[at];
    }
  }

  // ---- Main results. ----

  /** The scale is divided by while zero exactly when scaling is due and the rounding-up sum wraps. */
  lemma CountsDefined(w: seq<Word64>, max: Word64)
    requires 0 < |w| < TWO64 && max > 0
    ensures var t := Slots(Reduced(Filled(w)));
            Counts(w, max).None? <==> t > max && t + max - 1 >= TWO64
  {
    hide Reduced, Filled, Sum;
    var t := Slots(Reduced(Filled(w)));
    if t + max - 1 >= TWO64 {
      QuotientRemainder(t + max - 1, 1, t + max - 1 - TWO64, TWO64);
      QuotientRemainder(t + max - 1 - TWO64, 0, t + max - 1 - TWO64, max);
    } else {
      QuotientRemainder(t + max - 1, 0, t + max - 1, TWO64);
      if t > max {
        ScaleIsPositive(t, max);
      }
    }
  }

  /**
   * The slot count is the true total exactly when the reduced weights sum to less than 2^64; the branch
   * for an empty total is taken exactly when their sum is a multiple of 2^64, and then it is not the total.
   */
  lemma SlotsExactly(w: seq<Word64>)
    requires 0 < |w| < TWO64
    ensures var r := Reduced(Filled(w));
      && (Slots(r) == Sum(r) <==> Sum(r) < TWO64)
      && (Sum(r) % TWO64 == 0 ==> Sum(r) >= TWO64)
  {
    hide Reduced, Filled, Sum;
    var t := Sum(Reduced(Filled(w)));
    ReducedSum(Filled(w));
    if t < TWO64 {
      QuotientRemainder(t, 0, t, TWO64);
    }
  }

  /** The counts of the code, for every list of weights: spread, then scaled down if there are too many slots. */
  lemma CountsAre(w: seq<Word64>, max: Word64)
    requires 0 < |w| < TWO64 && max > 0
    ensures var r := Reduced(Filled(w));
      && (Slots(r) <= max ==> Counts(w, max) == Some(Spread(r)))
      && (Slots(r) > max && Counts(w, max).Some? ==>
            (Slots(r) + max - 1) / max > 0
            && Counts(w, max) == Some(Scaled(Spread(r), (Slots(r) + max - 1) / max)))
  {
    hide Reduced, Filled, Sum, Scaled, Repeat;
    CountsDefined(w, max);
    var t := Slots(Reduced(Filled(w)));
    if t > max && t + max - 1 < TWO64 {
      QuotientRemainder(t + max - 1, 0, t + max - 1, TWO64);
      ScaleIsPositive(t, max);
    }
  }

  lemma ReducedOrdered(s: seq<nat>, i: nat, j: nat)
    requires Positive(s) && i < |s| && j < |s| && s[i] <= s[j]
    ensures Reduced(s)[i] <= Reduced(s)[j]
  {
    QuotientMonotone(s[i], s[j], GcdAll(s));
  }

  lemma ShrunkOrdered(x: nat, y: nat, scale: nat)
    requires scale > 0 && x <= y
    ensures Shrunk(x, scale) <= Shrunk(y, scale)
  {
    QuotientMonotone(x, y, scale);
  }

  lemma ScaleIsPositive(total: nat, max: nat)
    requires total > max > 0
    ensures (total + max - 1) / max > 0
  {
    QuotientMonotone(max, total + max - 1, max);
  }

  /** Spread counts are positive and in the order of the weights, whatever their sum wraps to. */
  lemma SpreadOrdered(s: seq<nat>, i: nat, j: nat)
    requires Positive(s) && i < |s| && j < |s|
    ensures var c := Spread(Reduced(s)); c[i] > 0 && (s[i] <= s[j] ==> c[i] <= c[j])
  {
    hide Sum, Quotient, GcdAll;
    ReducedExact(s, i);
    if s[i] <= s[j] {
      ReducedOrdered(s, i, j);
    }
  }

  /** Every path has a slot, and a path of larger weight has no fewer, for every list the code has a table for. */
  lemma CountsOrdered(w: seq<Word64>, max: Word64, i: nat, j: nat)
    requires |w| < TWO64 && max > 0 && i < |w| && j < |w| && Counts(w, max).Some?
    ensures var c := Counts(w, max).value;
            && |c| == |w| && c[i] > 0
            && (Filled(w)[i] <= Filled(w)[j] ==> c[i] <= c[j])
  {
    hide Counts, Sum, Quotient, Shrunk, GcdAll, Slots, Spread;
    var s := Filled(w);
    var r := Reduced(s);
    CountsAre(w, max);
    SpreadOrdered(s, i, j);
    if Slots(r) > max && s[i] <= s[j] {
      ShrunkOrdered(Spread(r)[i], Spread(r)[j], (Slots(r) + max - 1) / max);
    }
  }

  lemma {:induction false} SumOfOnes(s: seq<nat>)
    requires forall i :: 0 <= i < |s| ==> s[i] == 1
    ensures Sum(s) == |s|
  {
    if s != [] {
      SumOfOnes(s[..|s| - 1]);
    }
  }

  /** One each is proportional only to equal weights, whose reduced sum does not wrap. */
  lemma OnesAreWrong(s: seq<nat>)
    requires s != [] && Positive(s) && |s| < TWO64 && Sum(Reduced(s)) % TWO64 == 0
    ensures exists i :: 0 <= i < |s| && GcdAll(s) != s[i]
  {
    hide GcdAll, Quotient;
    if forall i :: 0 <= i < |s| ==> GcdAll(s) == s[i] {
      forall i | 0 <= i < |s|
        ensures Reduced(s)[i] == 1
      {
        ReducedExact(s, i);
        OneTimes(Reduced(s)[i], s[i]);
      }
      SumOfOnes(Reduced(s));
    }
  }

  lemma OneTimes(q: nat, x: nat)
    requires q * x == x && x > 0
    ensures q == 1
  {
    if q > 1 {
      ProductMonotone(2, x, q, x);
    }
  }

  /**
   Unscaled, the counts are the weights over their greatest common divisor exactly when the sum does not wrap to
   zero.
   */
  lemma CountsProportional(w: seq<Word64>, max: Word64)
    requires 0 < |w| < TWO64 && max > 0 && Slots(Reduced(Filled(w))) <= max
    ensures Counts(w, max).Some? && |Counts(w, max).value| == |w|
    ensures (forall i :: 0 <= i < |w| ==> Counts(w, max).value[i] * GcdAll(Filled(w)) == Filled(w)[i])
       <==> Sum(Reduced(Filled(w))) % TWO64 != 0
  {
    hide Counts, GcdAll, Quotient, Sum;
    CountsAre(w, max);
    var s := Filled(w);
    if Sum(Reduced(s)) % TWO64 == 0 {
      OnesAreWrong(s);
      var i :| 0 <= i < |s| && GcdAll(s) != s[i];
      assert Counts(w, max).value[i] * GcdAll(s) == GcdAll(s);
    } else {
      forall i | 0 <= i < |w|
        ensures Counts(w, max).value[i] * GcdAll(s) == s[i]
      {
        ReducedExact(s, i);
      }
    }
  }

  lemma ScaledOnes(n: nat, scale: nat)
    requires scale > 0
    ensures Sum(Scaled(Repeat(1, n), scale)) == n
  {
    hide Sum;
    var s := Scaled(Repeat(1, n), scale);
    forall i | 0 <= i < n
      ensures s[i] == 1
    {
      QuotientMonotone(1, scale, scale);
      QuotientRemainder(scale, 1, 0, scale);
    }
    SumOfOnes(s);
  }

  /**
   * The table has at most the limit and one slot per path, unless the sum wraps to something other than
   * zero; if it then stays unscaled, the table has the whole unwrapped sum of slots.
   */
  lemma TableFits(w: seq<Word64>, max: Word64)
    requires 0 < |w| < TWO64 && max > 0 && Counts(w, max).Some?
    ensures var r, size := Reduced(Filled(w)), |Table(Counts(w, max).value)|;
      && (Sum(r) < TWO64 || Sum(r) % TWO64 == 0 ==> size <= max + |w|)
      && (Slots(r) <= max && Sum(r) % TWO64 != 0 ==> size == Sum(r))
  {
    hide Table, Reduced, Filled, Sum, Scaled, Counts, Repeat;
    CountsAre(w, max);
    SlotsExactly(w);
    TableLength(Counts(w, max).value);
    var r := Reduced(Filled(w));
    var scale := (Slots(r) + max - 1) / max;
    if Sum(r) % TWO64 == 0 {
      if Slots(r) <= max {
        SumOfOnes(Repeat(1, |r|));
      } else {
        ScaledOnes(|r|, scale);
      }
    } else if Sum(r) < TWO64 && Slots(r) > max {
      ScaleCovers(Sum(r), max);
      ScaledFits(r, scale, max);
    }
  }

  /** Weights that are all positive may be multiplied by a constant. */
  lemma CountsScale(w: seq<Word64>, v: seq<Word64>, k: nat, max: Word64)
    requires 0 < |w| == |v| && max > 0 && k > 0
    requires forall i :: 0 <= i < |w| ==> w[i] > 0 && v[i] == k * w[i]
    ensures Counts(v, max) == Counts(w, max)
  {
    ReducedScale(k, Filled(w));
    TimesPositive(k, Filled(w));
    assert Filled(v) == Times(k, Filled(w));
  }

  /** Two weights whose sum wraps to zero get one slot each, however far apart they are. */
  lemma WrappedTotalExample(max: Word64)
    requires max >= 2
    ensures Counts([TWO64 - 1, 1], max) == Some([1, 1])
  {
    var s := Filled([TWO64 - 1, 1]);
    assert s == [TWO64 - 1, 1];
    assert s[..1] == [TWO64 - 1];
    assert GcdAll(s) == Gcd(TWO64 - 1, 1) == 1;
    assert Reduced(s) == s;
    assert Sum(s) == Sum(s[..1]) + 1 && Sum(s[..1]) == TWO64 - 1;
    assert Repeat(1, 2) == [1, 1];
  }

  /** A total that fits in 64 bits can still make the scale wrap to zero. */
  lemma WrappedScaleExample(max: Word64)
    requires 2 <= max < TWO64 - 1
    ensures Sum(Filled([TWO64 - 2, 1])) == TWO64 - 1 && Counts([TWO64 - 2, 1], max) == None
  {
    var s := Filled([TWO64 - 2, 1]);
    assert s == [TWO64 - 2, 1];
    assert s[..1] == [TWO64 - 2];
    assert GcdAll(s) == Gcd(TWO64 - 2, 1) == 1;
    assert Reduced(s) == s;
    assert Sum(s) == Sum(s[..1]) + 1 && Sum(s[..1]) == TWO64 - 2;
    CountsDefined([TWO64 - 2, 1], max);
  }

  // ---- The loops. ----

  method FillZeros(weights: seq<Word64>) returns (s: seq<nat>)
    ensures s == Filled(weights)
  {
    s := weights;
    for i := 0 to |s|
      invariant |s| == |weights|
      invariant forall k :: 0 <= k < i ==> s[k] == Filled(weights)[k]
      invariant forall k :: i <= k < |s| ==> s[k] == weights[k]
    {
      if s[i] == 0 {
        s := s[i := 1];
      }
    }
  }

  method DivideByGcd(s: seq<nat>) returns (r: seq<nat>)
    requires s != [] && Positive(s)
    ensures r == Reduced(s)
  {
    hide Gcd;
    var g := s[0];
    assert s[..1] == [s[0]];
    for i := 1 to |s|
      invariant g == GcdAll(s[..i])
    {
      assert s[..i + 1][..i] == s[..i];
      g := Gcd(g, s[i]);
    }
    assert s[..|s|] == s;
    r := s;
    if g > 1 {
      for i := 0 to |r|
        invariant |r| == |s|
        invariant forall k :: 0 <= k < i ==> r[k] == Reduced(s)[k]
        invariant forall k :: i <= k < |r| ==> r[k] == s[k]
      {
        r := r[i := Quotient(r[i], g)];
      }
    }
  }

  lemma SumModulo(a: nat, x: nat)
    ensures (a % TWO64 + x) % TWO64 == (a + x) % TWO64
  {
    DropMultiple(a / TWO64, a % TWO64 + x, TWO64);
  }

  method TotalSlots(s: seq<nat>) returns (total: nat)
    ensures total == Sum(s) % TWO64
  {
    total := 0;
    for i := 0 to |s|
      invariant total == Sum(s[..i]) % TWO64
    {
      assert s[..i + 1][..i] == s[..i];
      SumModulo(Sum(s[..i]), s[i]);
      total := (total + s[i]) % TWO64;
    }
    assert s[..|s|] == s;
  }

  method ScaleDown(s: seq<nat>, scale: nat) returns (r: seq<nat>)
    requires scale > 0
    ensures r == Scaled(s, scale)
  {
    hide Shrunk;
    r := s;
    for i := 0 to |r|
      invariant |r| == |s|
      invariant forall k :: 0 <= k < i ==> r[k] == Scaled(s, scale)[k]
      invariant forall k :: i <= k < |r| ==> r[k] == s[k]
    {
      r := r[i := Shrunk(r[i], scale)];
    }
  }

  method FillTable(c: seq<nat>) returns (lut: seq<nat>)
    ensures lut == Table(c)
  {
    lut := [];
    for idx := 0 to |c|
      invariant lut == Table(c[..idx])
    {
      assert c[..idx + 1][..idx] == c[..idx];
      for slot := 0 to c[idx]
        invariant lut == Table(c[..idx]) + Repeat(idx % TWO32, slot)
      {
        lut := lut + [idx % TWO32];
      }
    }
    assert c[..|c|] == c;
  }

  method ComputeStorePathLut(weights: seq<Word64>, maxEntries: Word64) returns (lut: Option<seq<nat>>)
    requires |weights| < TWO64
    ensures weights == [] || maxEntries == 0 ==> lut == Some([])
    ensures weights != [] && maxEntries > 0 ==>
      lut == match Counts(weights, maxEntries) case None => None case Some(c) => Some(Table(c))
  {
    hide Filled, Reduced, Sum, Scaled, Table, Scale, Repeat;
    if weights == [] || maxEntries == 0 {
      return Some([]);
    }
    var s := FillZeros(weights);
    var c := DivideByGcd(s);
    var total := TotalSlots(c);
    if total == 0 {
      total := |c|;
      c := Repeat(1, |c|);
    }
    if total > maxEntries {
      var scale := Scale(total, maxEntries);
      if scale == 0 {
        return None;
      }
      c := ScaleDown(c, scale);
    }
    var t := FillTable(c);
    return Some(t);
  }
}
