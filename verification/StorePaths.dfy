/** include/utils.h: a list of store paths with optional weights, as one string. */
module StorePaths {
  import opened Bytes
  import opened Options
  import opened Strings

  // ---- Specification. ----

  /** What getline yields with ',' as the delimiter: no token after a final delimiter. */
  function Tokens(s: string): seq<string> {
    if s == "" then [] else
      var i := Find(s, ',');
      if i == |s| then [s] else [s[..i]] + Tokens(s[i + 1..])
  }

  /** The tokens trimmed, those that were only blanks left out. */
  function Cleaned(tokens: seq<string>): seq<string> {
    if tokens == [] then [] else Cleaned(tokens[..|tokens| - 1]) + Kept(tokens[|tokens| - 1])
  }

  function Kept(token: string): seq<string> {
    var t := Trim(token);
    if t == "" then [] else [t]
  }

  /** from_chars over a whole token. */
  function ParseWeight(token: string): Option<Word64> {
    if token == "" then None else Number(token, TWO64 - 1)
  }

  function ParseWeights(tokens: seq<string>): Option<seq<Word64>> {
    if tokens == [] then Some([]) else
      var front, last := ParseWeights(tokens[..|tokens| - 1]), ParseWeight(tokens[|tokens| - 1]);
      if front.None? || last.None? then None else Some(front.value + [last.value])
  }

  datatype Parsed = Parsed(ok: bool, paths: seq<string>, weights: seq<Word64>)

  const FAILED := Parsed(false, [], [])

  function Parse(input: string): Parsed {
    var value := Trim(input);
    if value == "" then Parsed(true, [], []) else
      var i := Find(value, ':');
      var paths := Cleaned(Tokens(value[..i]));
      var rest := if i == |value| then "" else value[i + 1..];
      if paths == [] then FAILED
      else if rest == "" then Parsed(true, paths, [])
      else
        var w := ParseWeights(Cleaned(Tokens(rest)));
        if w.None? || |w.value| != |paths| then FAILED else Parsed(true, paths, w.value)
  }

  function Joined(s: seq<string>): string {
    if s == [] then "" else if |s| == 1 then s[0] else Joined(s[..|s| - 1]) + "," + s[|s| - 1]
  }

  function Printed(weights: seq<Word64>): (s: seq<string>)
    ensures |s| == |weights| && forall i :: 0 <= i < |s| ==> s[i] == Decimal(weights[i])
  {
    seq(|weights|, i requires 0 <= i < |weights| => Decimal(weights[i]))
  }

  function Build(paths: seq<string>, weights: seq<Word64>): string {
    Joined(paths) + (if weights == [] then "" else ":" + Joined(Printed(weights)))
  }

  // ---- Lists joined by commas. ----

  /** A token that survives: not empty, no blank at its ends, no comma. */
  predicate Token(t: string) {
    Trimmed(t) && ',' !in t
  }

  predicate AllTokens(s: seq<string>) {
    forall i :: 0 <= i < |s| ==> Token(s[i])
  }

  lemma {:induction false} JoinedFront(s: seq<string>)
    requires |s| > 1
    ensures Joined(s) == s[0] + "," + Joined(s[1..])
  {
    var n := |s| - 1;
    if n > 1 {
      JoinedFront(s[..n]);
      assert s[..n][1..] == s[1..][..n - 1];
    } else {
      assert s[..n] == [s[0]] && s[1..] == [s[1]];
    }
  }

  lemma {:induction false} TokensOfJoined(s: seq<string>)
    requires AllTokens(s)
    ensures Tokens(Joined(s)) == s
  {
    if |s| == 1 {
      FindNothing(s[0], ',');
    } else if |s| > 1 {
      JoinedFront(s);
      FindInJoin(s[0], ',', Joined(s[1..]));
      TokensOfJoined(s[1..]);
    }
  }

  lemma {:induction false} CleanedTokens(s: seq<string>)
    requires AllTokens(s)
    ensures Cleaned(s) == s
  {
    hide Trim, Trimmed;
    if s != [] {
      var n := |s| - 1;
      CleanedTokens(s[..n]);
      assert Token(s[n]);
      TrimKeeps(s[n]);
      assert s == s[..n] + [s[n]];
    }
  }

  /** A joined list starts like its first token, ends like its last and holds only their characters and commas. */
  lemma {:induction false} JoinedShape(s: seq<string>)
    requires AllTokens(s) && s != []
    ensures Trimmed(Joined(s))
    ensures forall c :: c in Joined(s) && c != ',' ==> exists i :: 0 <= i < |s| && c in s[i]
  {
    if |s| > 1 {
      var n := |s| - 1;
      JoinedShape(s[..n]);
      forall c | c in Joined(s) && c != ','
        ensures exists i :: 0 <= i < |s| && c in s[i]
      {
        if c !in s[n] {
          assert c in Joined(s[..n]);
          var i :| 0 <= i < n && c in s[..n][i];
          assert c in s[i];
        }
      }
    } else {
      assert Joined(s) == s[0];
    }
  }

  // ---- What a parse can give. ----

  /** A path that survives: a token without a colon. */
  predicate Path(p: string) {
    Token(p) && ':' !in p
  }

  predicate AllPaths(s: seq<string>) {
    forall i :: 0 <= i < |s| ==> Path(s[i])
  }

  lemma {:induction false} TokenOf(s: string, t: string, banned: char)
    requires t in Tokens(s) && banned !in s
    ensures ',' !in t && banned !in t
  {
    var i := Find(s, ',');
    FindNothing(s, ',');
    if i < |s| && t != s[..i] {
      TokenOf(s[i + 1..], t, banned);
    }
  }

  lemma {:induction false} CleanedAreTokens(s: seq<string>, banned: char)
    requires forall t :: t in s ==> ',' !in t && banned !in t
    ensures AllTokens(Cleaned(s)) && forall t :: t in Cleaned(s) ==> banned !in t
  {
    hide Trim, Trimmed;
    if s != [] {
      var n := |s| - 1;
      CleanedAreTokens(s[..n], banned);
      TrimTrims(s[n]);
    }
  }

  /** Whatever the input, success gives paths that survive and no weights or one per path; failure gives nothing. */
  lemma ParseGivesPaths(input: string)
    ensures var r := Parse(input);
      && AllPaths(r.paths)
      && (r.weights == [] || |r.weights| == |r.paths|)
      && (!r.ok ==> r.paths == [] && r.weights == [])
  {
    hide Trim, Tokens, Cleaned, ParseWeights;
    var value := Trim(input);
    var i := Find(value, ':');
    FindNothing(value, ':');
    var part := value[..i];
    forall t | t in Tokens(part)
      ensures ',' !in t && ':' !in t
    {
      TokenOf(part, t, ':');
    }
    CleanedAreTokens(Tokens(part), ':');
  }

  // ---- Round trip. ----

  lemma PrintedTokens(w: seq<Word64>)
    ensures AllTokens(Printed(w))
  {
    hide Decimal;
    forall i | 0 <= i < |w|
      ensures Token(Printed(w)[i])
    {
      var d := Decimal(w[i]);
      assert IsDigit(d[0]) && IsDigit(d[|d| - 1]);
    }
  }

  lemma {:induction false} WeightsRoundTrip(w: seq<Word64>)
    ensures ParseWeights(Printed(w)) == Some(w)
  {
    hide Decimal, Value;
    if w != [] {
      var n := |w| - 1;
      WeightsRoundTrip(w[..n]);
      assert Printed(w)[..n] == Printed(w[..n]);
      DecimalValue(w[n]);
      assert ParseWeight(Printed(w)[n]) == Some(w[n]);
      assert w == w[..n] + [w[n]];
    }
  }

  lemma NoColon(paths: seq<string>)
    requires AllPaths(paths) && paths != []
    ensures Trimmed(Joined(paths)) && ':' !in Joined(paths)
  {
    hide Trimmed;
    JoinedShape(paths);
  }

  /** The built string is already trimmed and splits at its colon. */
  lemma BuiltShape(paths: seq<string>, weights: seq<Word64>)
    requires AllPaths(paths) && paths != []
    ensures var s := Build(paths, weights);
      && Trimmed(s) && s[..Find(s, ':')] == Joined(paths)
      && (weights == [] ==> Find(s, ':') == |s|)
      && (weights != [] ==> Find(s, ':') < |s| && s[Find(s, ':') + 1..] == Joined(Printed(weights)))
  {
    hide Joined, Decimal;
    NoColon(paths);
    var p := Joined(paths);
    if weights == [] {
      assert Build(paths, weights) == p;
      FindNothing(p, ':');
    } else {
      var w := Joined(Printed(weights));
      PrintedTokens(weights);
      JoinedShape(Printed(weights));
      assert Build(paths, weights) == p + [':'] + w;
      FindInJoin(p, ':', w);
    }
  }

  /** Parsing a built list gives it back exactly when every path survives and there are no weights or one per path. */
  lemma RoundTrip(paths: seq<string>, weights: seq<Word64>)
    ensures Parse(Build(paths, weights)) == Parsed(true, paths, weights)
       <==> AllPaths(paths) && (weights == [] || |weights| == |paths|)
  {
    hide Joined, Tokens, Cleaned, ParseWeights, Trim, Trimmed, Decimal, Find;
    ParseGivesPaths(Build(paths, weights));
    if AllPaths(paths) && paths != [] {
      BuiltShape(paths, weights);
      TrimKeeps(Build(paths, weights));
      TokensOfJoined(paths);
      CleanedTokens(paths);
      if weights != [] {
        PrintedTokens(weights);
        TokensOfJoined(Printed(weights));
        CleanedTokens(Printed(weights));
        WeightsRoundTrip(weights);
        NonEmptyJoin(Printed(weights));
      }
    } else if paths == [] && weights == [] {
      Nothing();
    }
  }

  lemma Nothing()
    ensures Trim(Build([], [])) == ""
  {
  }

  lemma NonEmptyJoin(s: seq<string>)
    requires s != [] && AllTokens(s)
    ensures Joined(s) != ""
  {
    JoinedShape(s);
  }

  // ---- The loops. ----

  lemma {:induction false} CleanedSplit(a: seq<string>, b: seq<string>)
    ensures Cleaned(a + b) == Cleaned(a) + Cleaned(b)
  {
    hide Kept;
    if b == [] {
      assert a + b == a;
    } else {
      var n, ab := |b| - 1, a + b;
      assert ab[..|ab| - 1] == a + b[..n] && ab[|ab| - 1] == b[n];
      CleanedSplit(a, b[..n]);
      Assoc(Cleaned(a), Cleaned(b[..n]), Kept(b[n]));
    }
  }

  lemma {:induction false} WeightsSplit(a: seq<string>, b: seq<string>)
    requires ParseWeights(a).None?
    ensures ParseWeights(a + b).None?
  {
    hide ParseWeight;
    if b == [] {
      assert a + b == a;
    } else {
      var n := |b| - 1;
      WeightsSplit(a, b[..n]);
      assert (a + b)[..|a| + n] == a + b[..n];
    }
  }

  lemma CleanedMore(s: seq<string>, t: string)
    ensures Cleaned(s + [t]) == if Trim(t) == "" then Cleaned(s) else Cleaned(s) + [Trim(t)]
  {
    hide Trim;
    assert (s + [t])[..|s|] == s;
  }

  lemma WeightsMore(s: seq<string>, t: string)
    requires ParseWeights(s).Some?
    ensures ParseWeights(s + [t])
         == if ParseWeight(t).None? then None else Some(ParseWeights(s).value + [ParseWeight(t).value])
  {
    hide ParseWeight;
    assert (s + [t])[..|s|] == s;
  }

  /** getline: the next token and what is left. */
  method NextToken(s: string) returns (token: string, rest: string)
    requires s != ""
    ensures Tokens(s) == [token] + Tokens(rest) && |rest| < |s|
  {
    hide Find;
    var i := Find(s, ',');
    if i == |s| {
      return s, "";
    }
    return s[..i], s[i + 1..];
  }

  method ParseCsvStringList(input: string) returns (out: seq<string>)
    ensures out == Cleaned(Tokens(input))
  {
    hide Tokens, Trim, Cleaned;
    NothingCleaned();
    out := [];
    var rest := input;
    ghost var done: seq<string> := [];
    NoTokens();
    while rest != ""
      invariant Tokens(input) == done + Tokens(rest) && out == Cleaned(done)
      decreases |rest|
    {
      var token;
      token, rest := NextToken(rest);
      CleanedMore(done, token);
      done := done + [token];
      token := Trim(token);
      if token != "" {
        out := out + [token];
      }
    }
    assert done + Tokens(rest) == done;
  }

  lemma NoTokens()
    ensures Tokens("") == []
  {
  }

  lemma NothingCleaned()
    ensures Cleaned([]) == [] && ParseWeights([]) == Some([])
  {
  }

  method ParseWeightList(input: string) returns (ok: bool, weights: seq<Word64>)
    ensures ok == ParseWeights(Cleaned(Tokens(input))).Some?
    ensures ok ==> weights == ParseWeights(Cleaned(Tokens(input))).value
  {
    hide Tokens, Trim, ParseWeight, Cleaned, ParseWeights;
    NothingCleaned();
    weights := [];
    var rest := input;
    ghost var done: seq<string> := [];
    NoTokens();
    while rest != ""
      invariant Tokens(input) == done + Tokens(rest) && ParseWeights(Cleaned(done)) == Some(weights)
      decreases |rest|
    {
      var token;
      token, rest := NextToken(rest);
      CleanedMore(done, token);
      WeightsMore(Cleaned(done), Trim(token));
      done := done + [token];
      token := Trim(token);
      if token == "" {
        continue;
      }
      var weight := ParseWeight(token);
      if weight.None? {
        CleanedSplit(done, Tokens(rest));
        WeightsSplit(Cleaned(done), Cleaned(Tokens(rest)));
        return false, [];
      }
      weights := weights + [weight.value];
    }
    assert done + Tokens(rest) == done;
    return true, weights;
  }

  method ParseStorePathListWithWeights(input: string) returns (ok: bool, paths: seq<string>, weights: seq<Word64>)
    ensures Parsed(ok, paths, weights) == Parse(input)
  {
    hide Tokens, Cleaned, Trim, ParseWeights;
    paths, weights := [], [];
    var value := Trim(input);
    if value == "" {
      return true, paths, weights;
    }
    var i := Find(value, ':');
    var pathPart, weightPart := value[..i], "";
    if i != |value| {
      weightPart := value[i + 1..];
    }
    paths := ParseCsvStringList(pathPart);
    if paths == [] {
      return false, paths, weights;
    }
    if weightPart == "" {
      return true, paths, weights;
    }
    ok, weights := ParseWeightList(weightPart);
    if !ok || |weights| != |paths| {
      return false, [], [];
    }
  }

  /** The loop that puts commas between strings. */
  method JoinLoop(s: seq<string>) returns (r: string)
    ensures r == Joined(s)
  {
    r := "";
    for i := 0 to |s|
      invariant r == Joined(s[..i])
    {
      assert s[..i + 1][..i] == s[..i];
      if i > 0 {
        r := r + ",";
      } else {
        assert "" + s[i] == s[i];
      }
      r := r + s[i];
    }
    assert s[..|s|] == s;
  }

  method BuildStorePathListWithWeights(paths: seq<string>, weights: seq<Word64>) returns (r: string)
    ensures r == Build(paths, weights)
  {
    hide Joined;
    r := JoinLoop(paths);
    if weights != [] {
      var w := JoinLoop(Printed(weights));
      r := r + (":" + w);
    } else {
      r := r + "";
    }
  }
}
