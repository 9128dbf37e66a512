/** include/common.h: file names, their printers and their parsers. */
module FileNames {
  import opened Bytes
  import opened Options
  import opened Strings

  const SEPARATOR: char := '_'

  // ---- Numbers. ----

  /** The digit loops of ParseBranchTerm (max = 2^64 - 1) and ParseCurrentTermFilename (max = 2^32 - 1). */
  method ParseDecimal(content: string, max: nat) returns (r: Option<nat>)
    requires max >= 9
    ensures r == Number(content, max)
  {
    var result := 0;
    for i := 0 to |content|
      invariant AllDigits(content[..i]) && result == Value(content[..i]) <= max
    {
      var c := content[i];
      if !IsDigit(c) {
        return None;
      }
      var digit := c as int - '0' as int;
      assert content[..i + 1][..i] == content[..i];
      if result > (max - digit) / 10 {
        if AllDigits(content) {
          ValueGrows(content, i + 1);
        }
        return None;
      }
      result := result * 10 + digit;
    }
    assert content[..|content|] == content;
    return Some(result);
  }

  /** The content of a CURRENT_TERM file. */
  function ParseBranchTerm(content: string): Option<nat> {
    if content == "" then None else Number(content, TWO64 - 1)
  }

  lemma TermRoundTrip(term: Word64)
    ensures ParseBranchTerm(Decimal(term)) == Some(term)
  {
    DecimalValue(term);
  }

  // ---- strtoull. ----

  function SkipSign(s: string): string {
    if s != "" && (s[0] == '-' || s[0] == '+') then s[1..] else s
  }

  /**
   * strtoull over the whole of `s`: leading blanks and a sign are allowed, a minus sign negates
   * modulo 2^64, and a magnitude of 2^64 or more is an error.
   */
  function ParseUint64(s: string): Option<Word64> {
    var t := SkipSpaces(s);
    var u := SkipSign(t);
    if u == "" || !AllDigits(u) || Value(u) >= TWO64 then None
    else if t[0] == '-' && Value(u) > 0 then Some(TWO64 - Value(u))
    else Some(Value(u))
  }

  lemma ParsePrinted(n: Word64)
    ensures ParseUint64(Decimal(n)) == Some(n)
  {
    hide Decimal, Value;
    var s := Decimal(n);
    assert IsDigit(s[0]);
    DecimalValue(n);
  }

  // ---- Branch names. ----

  predicate BranchChar(c: char) {
    'a' <= c <= 'z' || 'A' <= c <= 'Z' || IsDigit(c) || c == '-'
  }

  predicate IsValidBranchName(b: string) {
    b != "" && forall i :: 0 <= i < |b| ==> BranchChar(b[i])
  }

  function LowerChar(c: char): char {
    if 'A' <= c <= 'Z' then c + ('a' - 'A') else c
  }

  function Lower(s: string): (r: string)
    ensures |r| == |s| && forall i :: 0 <= i < |s| ==> r[i] == LowerChar(s[i])
  {
    seq(|s|, i requires 0 <= i < |s| => LowerChar(s[i]))
  }

  function Normalized(b: string): string {
    if IsValidBranchName(b) then Lower(b) else ""
  }

  /** One pass both validates and lowers. */
  method NormalizeBranchName(b: string) returns (r: string)
    ensures r == Normalized(b)
  {
    r := "";
    for i := 0 to |b|
      invariant r == Lower(b[..i]) && forall k :: 0 <= k < i ==> BranchChar(b[k])
    {
      var c := b[i];
      if 'a' <= c <= 'z' || '0' <= c <= '9' || c == '-' {
        r := r + [c];
      } else if 'A' <= c <= 'Z' {
        r := r + [c + ('a' - 'A')];
      } else {
        return "";
      }
    }
    assert b[..|b|] == b;
  }

  /** Normalizing keeps a name valid, frees it of separators and changes nothing the second time. */
  lemma NormalizedIsStable(b: string)
    requires IsValidBranchName(b)
    ensures IsValidBranchName(Lower(b)) && SEPARATOR !in Lower(b) && Normalized(Lower(b)) == Lower(b)
  {
  }

  /** The branch names that pass for a number: digits, or a hyphen and digits, below 2^64. */
  lemma NumericBranch(b: string)
    requires IsValidBranchName(b)
    ensures ParseUint64(b).Some? <==>
      var u := if b[0] == '-' then b[1..] else b;
      u != "" && AllDigits(u) && Value(u) < TWO64
  {
    assert BranchChar(b[0]);
  }

  // ---- Separators. ----

  function Join(a: string, b: string): (s: string)
    ensures |s| == |a| + 1 + |b|
  {
    a + [SEPARATOR] + b
  }

  function FirstSep(s: string): nat {
    Find(s, SEPARATOR)
  }

  /** rfind: the last separator, or the length if there is none. */
  function LastSep(s: string): (i: nat)
    ensures i <= |s|
    ensures i < |s| ==> s[i] == SEPARATOR
  {
    if s == "" then 0 else
      var k := LastSep(s[1..]);
      if k < |s| - 1 then k + 1 else if s[0] == SEPARATOR then 0 else |s|
  }

  lemma FirstOfJoin(a: string, b: string)
    requires SEPARATOR !in a
    ensures FirstSep(Join(a, b)) == |a| && Join(a, b)[..|a|] == a && Join(a, b)[|a| + 1..] == b
  {
    FindInJoin(a, SEPARATOR, b);
  }

  lemma NoFirst(s: string)
    requires SEPARATOR !in s
    ensures FirstSep(s) == |s|
  {
    FindNothing(s, SEPARATOR);
  }

  lemma {:induction false} NoLast(s: string)
    requires SEPARATOR !in s
    ensures LastSep(s) == |s|
  {
    if s != "" {
      NoLast(s[1..]);
    }
  }

  lemma {:induction false} LastOfJoin(a: string, b: string)
    requires SEPARATOR !in b
    ensures LastSep(Join(a, b)) == |a| && Join(a, b)[..|a|] == a && Join(a, b)[|a| + 1..] == b
  {
    if a == "" {
      NoLast(b);
      assert Join(a, b)[1..] == b;
    } else {
      LastOfJoin(a[1..], b);
      assert Join(a, b)[1..] == Join(a[1..], b);
    }
  }

  lemma JoinInjective(a: string, b: string, c: string, d: string)
    requires SEPARATOR !in a && SEPARATOR !in c && Join(a, b) == Join(c, d)
    ensures a == c && b == d
  {
    FirstOfJoin(a, b);
    FirstOfJoin(c, d);
  }
}
