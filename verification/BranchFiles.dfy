/** include/common.h: the printers and parsers of branch-aware file names. */
module BranchFiles {
  import opened Bytes
  import opened FileNames
  import opened Options
  import opened Strings

  datatype FileName =
    | Data(branch: string, id: Word64, term: Word64)
    | Segment(branch: string, id: Word64, term: Word64)
    | Manifest(branch: string, term: Word64)
    | Archive(branch: string, term: Word64, tag: string)
    | CurrentTerm(branch: string, group: Word32)

  /** The same file with its branch name in the form the printers store. */
  function Normal(f: FileName): FileName {
    f.(branch := Lower(f.branch))
  }

  // ---- Printers. ----

  function NumberedSuffix(id: Word64, branch: string, term: Word64): string {
    Join(Decimal(id), Join(branch, Decimal(term)))
  }

  function Suffix(f: FileName, branch: string): string {
    match f
    case Data(_, id, term) => NumberedSuffix(id, branch, term)
    case Segment(_, id, term) => NumberedSuffix(id, branch, term)
    case Manifest(_, term) => Join(branch, Decimal(term))
    case Archive(_, term, tag) => Join(branch, Join(Decimal(term), tag))
    case CurrentTerm(_, group) => Join("TERM", Join(branch, Decimal(group)))
  }

  function Kind(f: FileName): string {
    match f
    case Data(_, _, _) => "data"
    case Segment(_, _, _) => "segment"
    case Manifest(_, _) => "manifest"
    case Archive(_, _, _) => "manifest"
    case CurrentTerm(_, _) => "CURRENT"
  }

  /** The five printers: an invalid branch name prints as nothing. */
  function Print(f: FileName): string {
    var b := Normalized(f.branch);
    if b == "" then "" else Join(Kind(f), Suffix(f, b))
  }

  // ---- Parsers. ----

  function ParseFileName(name: string): (string, string) {
    var i := FirstSep(name);
    if i == |name| then (name, "") else (name[..i], name[i + 1..])
  }

  /** ParseDataFileSuffix, which also serves segments. */
  function ParseNumberedSuffix(suffix: string): Option<(Word64, string, Word64)> {
    var i := FirstSep(suffix);
    if i == |suffix| then None else
      var rest := suffix[i + 1..];
      var j := FirstSep(rest);
      if j == |rest| then None else
        var id, branch, term := ParseUint64(suffix[..i]), rest[..j], ParseUint64(rest[j + 1..]);
        if id.None? || !IsValidBranchName(branch) || term.None? then None
        else Some((id.value, branch, term.value))
  }

  function ParseManifestSuffix(suffix: string): Option<(string, Word64, Option<string>)> {
    var i := FirstSep(suffix);
    if i == |suffix| then None else
      var branch, rest := suffix[..i], suffix[i + 1..];
      if !IsValidBranchName(branch) || ParseUint64(branch).Some? then None else
        var j := FirstSep(rest);
        if j == |rest| then
          match ParseUint64(rest)
          case None => None
          case Some(term) => Some((branch, term, None))
        else
          match ParseUint64(rest[..j])
          case None => None
          case Some(term) => if rest[j + 1..] == "" then None else Some((branch, term, Some(rest[j + 1..])))
  }

  const CURRENT_TERM := "CURRENT_TERM"

  function ParseCurrentTermFilename(name: string): Option<(string, Word32)> {
    var n := |CURRENT_TERM|;
    if |name| <= n || name[..n] != CURRENT_TERM || name[n] != SEPARATOR then None else
      var rest := name[n + 1..];
      var i := LastSep(rest);
      if i == |rest| || i == 0 || i == |rest| - 1 || !IsValidBranchName(rest[..i]) then None else
        match Number(rest[i + 1..], TWO32 - 1)
        case None => None
        case Some(group) => Some((rest[..i], group))
  }

  /** The parsers behind the dispatch on the type before the first separator. */
  function Parse(name: string): Option<FileName> {
    var (kind, suffix) := ParseFileName(name);
    if kind == "data" || kind == "segment" then
      match ParseNumberedSuffix(suffix)
      case None => None
      case Some((id, b, term)) => Some(if kind == "data" then Data(b, id, term) else Segment(b, id, term))
    else if kind == "manifest" then
      match ParseManifestSuffix(suffix)
      case None => None
      case Some((b, term, None)) => Some(Manifest(b, term))
      case Some((b, term, Some(tag))) => Some(Archive(b, term, tag))
    else
      match ParseCurrentTermFilename(name)
      case None => None
      case Some((b, group)) => Some(CurrentTerm(b, group))
  }

  // ---- Round trips. ----

  lemma NumberedRoundTrip(id: Word64, b: string, term: Word64)
    requires IsValidBranchName(b) && SEPARATOR !in b
    ensures ParseNumberedSuffix(NumberedSuffix(id, b, term)) == Some((id, b, term))
  {
    hide ParseUint64, Decimal, FirstSep, Join;
    FirstOfJoin(Decimal(id), Join(b, Decimal(term)));
    FirstOfJoin(b, Decimal(term));
    ParsePrinted(id);
    ParsePrinted(term);
  }

  lemma ManifestRoundTrip(b: string, term: Word64)
    requires IsValidBranchName(b) && SEPARATOR !in b
    ensures ParseManifestSuffix(Join(b, Decimal(term))) == if ParseUint64(b).Some? then None else Some((b, term, None))
  {
    hide ParseUint64, Decimal, FirstSep, Join;
    FirstOfJoin(b, Decimal(term));
    NoFirst(Decimal(term));
    ParsePrinted(term);
  }

  /** A tag may hold separators of its own, but not be empty. */
  lemma ArchiveRoundTrip(b: string, term: Word64, tag: string)
    requires IsValidBranchName(b) && SEPARATOR !in b
    ensures ParseManifestSuffix(Join(b, Join(Decimal(term), tag)))
         == if ParseUint64(b).Some? || tag == "" then None else Some((b, term, Some(tag)))
  {
    hide ParseUint64, Decimal, FirstSep, Join;
    FirstOfJoin(b, Join(Decimal(term), tag));
    FirstOfJoin(Decimal(term), tag);
    ParsePrinted(term);
  }

  lemma TermPrefix(rest: string)
    ensures var name := Join("CURRENT", Join("TERM", rest));
            name[..12] == CURRENT_TERM && name[12] == SEPARATOR && name[13..] == rest
  {
    var name := Join("CURRENT", Join("TERM", rest));
    assert name == (CURRENT_TERM + [SEPARATOR]) + rest;
  }

  lemma CurrentTermRoundTrip(b: string, group: Word32)
    requires IsValidBranchName(b)
    ensures ParseCurrentTermFilename(Join("CURRENT", Join("TERM", Join(b, Decimal(group))))) == Some((b, group))
  {
    hide Decimal, LastSep, Join;
    TermPrefix(Join(b, Decimal(group)));
    LastOfJoin(b, Decimal(group));
    DecimalValue(group);
  }

  /** The names the manifest parser turns away: a branch that passes for a number, or an empty tag. */
  predicate Unreadable(f: FileName) {
    || ((f.Manifest? || f.Archive?) && ParseUint64(Lower(f.branch)).Some?)
    || (f.Archive? && f.tag == "")
  }

  /** Parsing a printed name gives back its fields with the branch normalized, or nothing exactly for those. */
  lemma RoundTrip(f: FileName)
    requires IsValidBranchName(f.branch)
    ensures Parse(Print(f)) == if Unreadable(f) then None else Some(Normal(f))
  {
    hide ParseUint64, Decimal, FirstSep, Join, ParseNumberedSuffix, ParseManifestSuffix, ParseCurrentTermFilename;
    var b := Lower(f.branch);
    NormalizedIsStable(f.branch);
    FirstOfJoin(Kind(f), Suffix(f, b));
    match f {
      case Data(_, id, term) => NumberedRoundTrip(id, b, term);
      case Segment(_, id, term) => NumberedRoundTrip(id, b, term);
      case Manifest(_, term) => ManifestRoundTrip(b, term);
      case Archive(_, term, tag) => ArchiveRoundTrip(b, term, tag);
      case CurrentTerm(_, group) => CurrentTermRoundTrip(b, group);
    }
  }

  lemma DecimalInjective(m: nat, n: nat)
    requires Decimal(m) == Decimal(n)
    ensures m == n
  {
    DecimalValue(m);
    DecimalValue(n);
  }

  lemma NumberedInjective(i: Word64, a: string, s: Word64, j: Word64, b: string, t: Word64)
    requires SEPARATOR !in a && SEPARATOR !in b && NumberedSuffix(i, a, s) == NumberedSuffix(j, b, t)
    ensures i == j && a == b && s == t
  {
    hide Decimal, Join;
    JoinInjective(Decimal(i), Join(a, Decimal(s)), Decimal(j), Join(b, Decimal(t)));
    JoinInjective(a, Decimal(s), b, Decimal(t));
    DecimalInjective(i, j);
    DecimalInjective(s, t);
  }

  lemma PairInjective(a: string, m: nat, b: string, n: nat)
    requires SEPARATOR !in a && SEPARATOR !in b && Join(a, Decimal(m)) == Join(b, Decimal(n))
    ensures a == b && m == n
  {
    hide Decimal, Join;
    JoinInjective(a, Decimal(m), b, Decimal(n));
    DecimalInjective(m, n);
  }

  lemma TaggedInjective(a: string, m: nat, u: string, b: string, n: nat, v: string)
    requires SEPARATOR !in a && SEPARATOR !in b && Join(a, Join(Decimal(m), u)) == Join(b, Join(Decimal(n), v))
    ensures a == b && m == n && u == v
  {
    hide Decimal, Join;
    JoinInjective(a, Join(Decimal(m), u), b, Join(Decimal(n), v));
    JoinInjective(Decimal(m), u, Decimal(n), v);
    DecimalInjective(m, n);
  }

  /** A manifest's suffix has one separator, an archive's at least two. */
  lemma ManifestIsNotArchive(a: string, m: nat, b: string, n: nat, tag: string)
    requires SEPARATOR !in a && SEPARATOR !in b
    ensures Join(a, Decimal(m)) != Join(b, Join(Decimal(n), tag))
  {
    hide Decimal, Join, FirstSep;
    NoFirst(Decimal(m));
    FirstOfJoin(Decimal(n), tag);
    if Join(a, Decimal(m)) == Join(b, Join(Decimal(n), tag)) {
      JoinInjective(a, Decimal(m), b, Join(Decimal(n), tag));
    }
  }

  /** Files that differ once normalized never share a name, whether or not the name can be read back. */
  lemma NamesNeverCollide(f: FileName, g: FileName)
    requires IsValidBranchName(f.branch) && IsValidBranchName(g.branch)
    ensures Print(f) == Print(g) <==> Normal(f) == Normal(g)
  {
    hide Decimal, Join;
    var a, b := Lower(f.branch), Lower(g.branch);
    NormalizedIsStable(f.branch);
    NormalizedIsStable(g.branch);
    if Print(f) == Print(g) {
      JoinInjective(Kind(f), Suffix(f, a), Kind(g), Suffix(g, b));
      match f {
        case Data(_, id, term) => NumberedInjective(id, a, term, g.id, b, g.term);
        case Segment(_, id, term) => NumberedInjective(id, a, term, g.id, b, g.term);
        case CurrentTerm(_, group) =>
          JoinInjective("TERM", Join(a, Decimal(group)), "TERM", Join(b, Decimal(g.group)));
          PairInjective(a, group, b, g.group);
        case Manifest(_, term) =>
          if g.Manifest? {
            PairInjective(a, term, b, g.term);
          } else {
            ManifestIsNotArchive(a, term, b, g.term, g.tag);
          }
        case Archive(_, term, tag) =>
          if g.Archive? {
            TaggedInjective(a, term, tag, b, g.term, g.tag);
          } else {
            ManifestIsNotArchive(b, g.term, a, term, tag);
          }
      }
    }
  }

  // ---- Names from before branches. ----

  function DataFileName(id: Word64, term: Word64): string {
    Join("data", Join(Decimal(id), Decimal(term)))
  }

  function ManifestFileName(term: Word64): string {
    Join("manifest", Decimal(term))
  }

  function ArchiveName(term: Word64, ts: Word64): string {
    Join("manifest", Join(Decimal(term), Decimal(ts)))
  }

  /** The parsers refuse every name in the old format. */
  lemma OldNamesAreRefused(id: Word64, term: Word64, ts: Word64)
    ensures Parse(DataFileName(id, term)) == None
    ensures Parse(ManifestFileName(term)) == None
    ensures Parse(ArchiveName(term, ts)) == None
  {
    hide ParseUint64, Decimal, FirstSep, Join;
    FirstOfJoin("data", Join(Decimal(id), Decimal(term)));
    FirstOfJoin(Decimal(id), Decimal(term));
    NoFirst(Decimal(term));
    FirstOfJoin("manifest", Decimal(term));
    FirstOfJoin("manifest", Join(Decimal(term), Decimal(ts)));
    FirstOfJoin(Decimal(term), Decimal(ts));
    ParsePrinted(term);
  }

  /** What the refusal is for: an old archive has the name of the manifest of a branch that is a number. */
  lemma OldArchiveCollides(f: FileName, term: Word64, ts: Word64)
    requires IsValidBranchName(f.branch)
    ensures Print(f) == ArchiveName(term, ts) <==> f.Manifest? && Lower(f.branch) == Decimal(term) && f.term == ts
  {
    hide Decimal, Join;
    var b := Lower(f.branch);
    NormalizedIsStable(f.branch);
    if Print(f) == ArchiveName(term, ts) {
      JoinInjective(Kind(f), Suffix(f, b), "manifest", Join(Decimal(term), Decimal(ts)));
      if f.Archive? {
        ManifestIsNotArchive(Decimal(term), ts, b, f.term, f.tag);
      } else {
        PairInjective(b, f.term, Decimal(term), ts);
      }
    }
  }

  // ---- Classification by name. ----

  predicate IsBranchManifest(name: string) {
    var (kind, suffix) := ParseFileName(name);
    kind == "manifest" && var m := ParseManifestSuffix(suffix); m.Some? && m.value.2.None?
  }

  predicate IsBranchArchive(name: string) {
    var (kind, suffix) := ParseFileName(name);
    kind == "manifest" && var m := ParseManifestSuffix(suffix); m.Some? && m.value.2.Some?
  }

  predicate IsBranchDataFile(name: string) {
    var (kind, suffix) := ParseFileName(name);
    kind == "data" && ParseNumberedSuffix(suffix).Some?
  }

  function ManifestTermFromFilename(name: string): Word64 {
    var (kind, suffix) := ParseFileName(name);
    var m := ParseManifestSuffix(suffix);
    if kind != "manifest" || m.None? then 0 else m.value.1
  }

  /** Each predicate holds of the printed names of its own kind, when they can be read back, and of no others. */
  lemma Classified(f: FileName)
    requires IsValidBranchName(f.branch)
    ensures IsBranchManifest(Print(f)) <==> f.Manifest? && !Unreadable(f)
    ensures IsBranchArchive(Print(f)) <==> f.Archive? && !Unreadable(f)
    ensures IsBranchDataFile(Print(f)) <==> f.Data?
    ensures ManifestTermFromFilename(Print(f)) == if (f.Manifest? || f.Archive?) && !Unreadable(f) then f.term else 0
  {
    hide ParseUint64, Decimal, FirstSep, Join, ParseNumberedSuffix, ParseManifestSuffix, ParseCurrentTermFilename;
    RoundTrip(f);
    NormalizedIsStable(f.branch);
    FirstOfJoin(Kind(f), Suffix(f, Lower(f.branch)));
  }
}
