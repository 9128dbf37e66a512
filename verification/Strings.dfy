/** Character classes, searching and decimal numbers. */
module Strings {
  import opened Options

  // ---- Searching. ----

  /** find: the first `c`, or the length if there is none. */
  function Find(s: string, c: char): (i: nat)
    ensures i <= |s|
    ensures i < |s| ==> s[i] == c
  {
    if s == "" || s[0] == c then 0 else 1 + Find(s[1..], c)
  }

  lemma {:induction false} FindInJoin(a: string, c: char, b: string)
    requires c !in a
    ensures Find(a + [c] + b, c) == |a| && (a + [c] + b)[..|a|] == a && (a + [c] + b)[|a| + 1..] == b
  {
    if a != "" {
      FindInJoin(a[1..], c, b);
      assert (a + [c] + b)[1..] == a[1..] + [c] + b;
    }
  }

  lemma {:induction false} FindNothing(s: string, c: char)
    ensures c !in s <==> Find(s, c) == |s|
    ensures c !in s[..Find(s, c)]
  {
    if s != "" {
      FindNothing(s[1..], c);
      assert s == [s[0]] + s[1..];
      if s[0] != c {
        assert s[..Find(s, c)] == [s[0]] + s[1..][..Find(s[1..], c)];
      }
    }
  }

  // ---- Blanks. ----

  /** isspace. */
  predicate IsSpace(c: char) {
    c == ' ' || '\t' <= c <= '\r'
  }

  function SkipSpaces(s: string): (r: string)
    ensures r != "" ==> !IsSpace(r[0])
    ensures |r| <= |s| && r == s[|s| - |r|..]
  {
    if s != "" && IsSpace(s[0]) then SkipSpaces(s[1..]) else s
  }

  function DropSpaces(s: string): (r: string)
    ensures r != "" ==> !IsSpace(r[|r| - 1])
    ensures r <= s
  {
    if s != "" && IsSpace(s[|s| - 1]) then DropSpaces(s[..|s| - 1]) else s
  }

  /** TrimAsciiWhitespace. */
  function Trim(s: string): string {
    DropSpaces(SkipSpaces(s))
  }

  predicate Trimmed(s: string) {
    s != "" && !IsSpace(s[0]) && !IsSpace(s[|s| - 1])
  }

  /** Trimming gives nothing or a string with no blank at either end, made of characters of the original. */
  lemma TrimTrims(s: string)
    ensures Trim(s) == "" || Trimmed(Trim(s))
    ensures forall c :: c in Trim(s) ==> c in s
  {
  }

  lemma TrimKeeps(s: string)
    requires Trimmed(s)
    ensures s != "" && Trim(s) == s
  {
  }

  // ---- Decimal numbers. ----

  predicate IsDigit(c: char) {
    '0' <= c <= '9'
  }

  function Digit(d: nat): (c: char)
    requires d < 10
    ensures IsDigit(c) && (c as int) - ('0' as int) == d
  {
    '0' + d as char
  }

  predicate AllDigits(s: string) {
    forall i :: 0 <= i < |s| ==> IsDigit(s[i])
  }

  /** The number a string of digits stands for. */
  function Value(s: string): nat
    requires AllDigits(s)
  {
    if s == [] then 0 else 10 * Value(s[..|s| - 1]) + (s[|s| - 1] as int - '0' as int)
  }

  /** std::to_string. */
  function Decimal(n: nat): (s: string)
    ensures s != [] && AllDigits(s)
  {
    if n < 10 then [Digit(n)] else Decimal(n / 10) + [Digit(n % 10)]
  }

  lemma {:induction false} DecimalValue(n: nat)
    ensures Value(Decimal(n)) == n
  {
    if n >= 10 {
      DecimalValue(n / 10);
      assert Decimal(n)[..|Decimal(n)| - 1] == Decimal(n / 10);
    } else {
      assert Decimal(n)[..0] == [];
    }
  }

  lemma {:induction false} ValueGrows(s: string, i: nat)
    requires AllDigits(s) && i <= |s|
    ensures Value(s[..i]) <= Value(s)
  {
    if i < |s| {
      ValueGrows(s[..|s| - 1], i);
      assert s[..|s| - 1][..i] == s[..i];
    } else {
      assert s[..i] == s;
    }
  }

  /** A number written in digits alone, up to `max`. */
  function Number(content: string, max: nat): Option<nat> {
    if AllDigits(content) && Value(content) <= max then Some(Value(content)) else None
  }
}
