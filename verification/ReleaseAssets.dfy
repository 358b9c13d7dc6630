/**
 The names of a release's assets and the body of its page
 (scripts/release-distribution-policy.ts).
 */
module ReleaseAssets {
  import opened Wrappers
  import opened Texts

  datatype Error = BadVersion | BadName | Duplicate | TooMany | Incomplete | BadCount | NoArtifact | BadBody | BadNotes

  type Checked<+T> = Result<T, Error>

  // ---------------------------------------------------------------------- names

  predicate IsLower(c: char) { 'a' <= c <= 'z' }

  // The first place of c in s, or the end.
  function IndexOf(s: string, c: char): (i: nat)
    ensures i <= |s|
    ensures i < |s| ==> s[i] == c
    ensures c !in s[..i]
  {
    if s == "" || s[0] == c then 0 else
      assert s[..1 + IndexOf(s[1..], c)] == [s[0]] + s[1..][..IndexOf(s[1..], c)];
      1 + IndexOf(s[1..], c)
  }

  function Before(s: string, c: char): string { s[..IndexOf(s, c)] }

  function After(s: string, c: char): string {
    var i := IndexOf(s, c);
    if i == |s| then "" else s[i + 1..]
  }

  predicate IsSemver(version: string) {
    var rest := After(version, '.');
    && '.' in version && '.' in rest
    && IsNumeral(Before(version, '.')) && IsNumeral(Before(rest, '.')) && IsNumeral(After(rest, '.'))
  }

  predicate IsSystem(s: string) {
    1 <= |s| <= 32 && forall i :: 0 <= i < |s| ==> IsLower(s[i]) || IsDigit(s[i])
  }

  predicate IsMachine(s: string) {
    1 <= |s| <= 32 && forall i :: 0 <= i < |s| ==> IsLower(s[i]) || IsDigit(s[i]) || s[i] == '_'
  }

  // "<os>-<arch>.tar.gz", and ".zip" for Windows alone.
  predicate IsTarget(s: string) {
    var os, rest := Before(s, '-'), After(s, '-');
    var arch, extension := Before(rest, '.'), After(rest, '.');
    && '-' in s && '.' in rest
    && IsSystem(os) && IsMachine(arch)
    && extension == if os == "windows" then "zip" else "tar.gz"
  }

  const Suffix := ".sha256"

  function Prefix(version: string): string { "xcb-" + version + "-" }

  predicate IsArchive(name: string, version: string) {
    Prefix(version) <= name && IsTarget(name[|Prefix(version)|..])
  }

  predicate IsChecksum(name: string) { |Suffix| <= |name| && name[|name| - |Suffix|..] == Suffix }

  function Base(name: string): string {
    if IsChecksum(name) then name[..|name| - |Suffix|] else name
  }

  // -------------------------------------------------------------------- pairing

  const MaximumPairs: nat := 16

  datatype Pair = Pair(archive: string, checksum: string)

  // How names are read: the base of a name, the checksum's name for a base, and
  // the bases that are archives.
  datatype Naming = Naming(base: string -> string, check: string -> string, valid: string -> bool)

  function Native(version: string): (v: Naming)
    ensures forall n :: v.base(n) == Base(n) && v.check(n) == n + Suffix && v.valid(n) == IsArchive(n, version)
  {
    Naming(Base, (b: string) => b + Suffix, (n: string) => IsArchive(n, version))
  }

  // The bases in the order they first came, and the names seen.
  datatype Pairing = Pairing(order: seq<string>, seen: set<string>)

  function WithName(v: Naming, p: Pairing, name: string): Pairing {
    Pairing(if v.base(name) in p.order then p.order else p.order + [v.base(name)], p.seen + {name})
  }

  function PairFrom(v: Naming, names: seq<string>, p: Pairing): Checked<Pairing>
    decreases |names|
  {
    if names == [] then Ok(p)
    else if !v.valid(v.base(names[0])) then Err(BadName)
    else if names[0] in p.seen then Err(Duplicate)
    else if |WithName(v, p, names[0]).order| > MaximumPairs then Err(TooMany)
    else PairFrom(v, names[1..], WithName(v, p, names[0]))
  }

  function Pairs(v: Naming, order: seq<string>): (pairs: seq<Pair>)
    ensures |pairs| == |order|
    ensures forall i :: 0 <= i < |pairs| ==> pairs[i] == Pair(order[i], v.check(order[i]))
  {
    seq(|order|, i requires 0 <= i < |order| => Pair(order[i], v.check(order[i])))
  }

  predicate Complete(v: Naming, p: Pairing) {
    forall b <- p.order :: b in p.seen && v.check(b) in p.seen
  }

  function PairAll(v: Naming, names: seq<string>): Checked<seq<Pair>> {
    match PairFrom(v, names, Pairing([], {}))
    case Err(e) => Err(e)
    case Ok(p) => if Complete(v, p) then Ok(Pairs(v, p.order)) else Err(Incomplete)
  }

  function NativePairs(names: seq<string>, version: string): Checked<seq<Pair>> {
    if !IsSemver(version) then Err(BadVersion) else PairAll(Native(version), names)
  }

  // The halves of a pair found so far.
  datatype Halves = Halves(archive: bool, checksum: bool)

  // The map holds what has been seen.
  ghost predicate Matches(pairs: map<string, Halves>, p: Pairing) {
    && (forall b :: b in pairs <==> b in p.order)
    && (forall b <- pairs :: !IsChecksum(b))
    && (forall b <- pairs :: (pairs[b].archive <==> b in p.seen) && (pairs[b].checksum <==> b + Suffix in p.seen))
    && (forall n <- p.seen :: Base(n) in pairs)
  }

  function HalvesOf(pairs: map<string, Halves>, base: string): Halves {
    if base in pairs then pairs[base] else Halves(false, false)
  }

  function WithHalf(pair: Halves, checksum: bool): Halves {
    if checksum then pair.(checksum := true) else pair.(archive := true)
  }

  lemma SeenBefore(pairs: map<string, Halves>, p: Pairing, name: string)
    requires Matches(pairs, p) && !IsChecksum(Base(name))
    ensures name in p.seen <==>
      if IsChecksum(name) then HalvesOf(pairs, Base(name)).checksum else HalvesOf(pairs, Base(name)).archive
  {
    NameOfBase(name);
  }

  lemma MatchesOneMore(pairs: map<string, Halves>, p: Pairing, name: string)
    requires Matches(pairs, p) && !IsChecksum(Base(name))
    ensures Matches(pairs[Base(name) := WithHalf(HalvesOf(pairs, Base(name)), IsChecksum(name))],
                    Pairing(if Base(name) in p.order then p.order else p.order + [Base(name)], p.seen + {name}))
  {
    var base := Base(name);
    NameOfBase(name);
    forall b: string ensures b + Suffix == base + Suffix <==> b == base {
      assert (b + Suffix)[..|b|] == b && (base + Suffix)[..|base|] == base;
    }
    forall b: string | !IsChecksum(b) ensures b + Suffix != base {
      assert (b + Suffix)[|b|..] == Suffix;
    }
    SeenOfOther(pairs, p, base);
  }

  lemma SeenOfOther(pairs: map<string, Halves>, p: Pairing, base: string)
    requires Matches(pairs, p) && !IsChecksum(base)
    ensures base !in pairs ==> base !in p.seen && base + Suffix !in p.seen
  {
    NameOfBase(base);
  }

  // The half of its pair that a name is.
  predicate HasHalf(pair: Halves, checksum: bool) { if checksum then pair.checksum else pair.archive }

  lemma OneName(pairs: map<string, Halves>, p: Pairing, names: seq<string>, version: string)
    requires names != [] && Matches(pairs, p)
    ensures var v, name, base := Native(version), names[0], Base(names[0]);
      var pair, checksum := HalvesOf(pairs, base), IsChecksum(name);
      var order := if base in pairs then p.order else p.order + [base];
      && PairFrom(v, names, p)
        == (if !IsArchive(base, version) then Err(BadName)
            else if HasHalf(pair, checksum) then Err(Duplicate)
            else if |order| > MaximumPairs then Err(TooMany)
            else PairFrom(v, names[1..], WithName(v, p, name)))
      && order == WithName(v, p, name).order
      && (IsArchive(base, version) ==> Matches(pairs[base := WithHalf(pair, checksum)], WithName(v, p, name)))
  {
    if IsArchive(Base(names[0]), version) {
      ArchiveIsNoChecksum(Base(names[0]), version);
      SeenBefore(pairs, p, names[0]);
      MatchesOneMore(pairs, p, names[0]);
    }
  }

  method NativeAssetFilePairs(names: seq<string>, version: string) returns (r: Checked<seq<Pair>>)
    ensures r == NativePairs(names, version)
  {
    if !IsSemver(version) { return Err(BadVersion); }
    var pairs: map<string, Halves>, order: seq<string> := map[], [];
    ghost var p := Pairing([], {});
    ghost var v := Native(version);
    ghost var all := PairFrom(v, names, p);
    assert names[0..] == names;
    for i := 0 to |names|
      invariant order == p.order && Matches(pairs, p)
      invariant all == PairFrom(v, names[i..], p)
    {
      assert names[i..][1..] == names[i + 1..];
      OneName(pairs, p, names[i..], version);
      var base, checksum := Base(names[i]), IsChecksum(names[i]);
      if !IsArchive(base, version) { return Err(BadName); }
      var pair := HalvesOf(pairs, base);
      if HasHalf(pair, checksum) { return Err(Duplicate); }
      if base !in pairs { order := order + [base]; }
      pairs := pairs[base := WithHalf(pair, checksum)];
      p := WithName(v, p, names[i]);
      if |order| > MaximumPairs { return Err(TooMany); }
    }
    r := BothHalves(pairs, order, p, version);
  }

  // No archive or checksum may be missing.
  method BothHalves(pairs: map<string, Halves>, order: seq<string>, ghost p: Pairing, version: string)
      returns (r: Checked<seq<Pair>>)
    requires order == p.order && Matches(pairs, p)
    ensures r == if Complete(Native(version), p) then Ok(Pairs(Native(version), order)) else Err(Incomplete)
  {
    for i := 0 to |order|
      invariant forall k :: 0 <= k < i ==> order[k] in p.seen && order[k] + Suffix in p.seen
    {
      if !pairs[order[i]].archive || !pairs[order[i]].checksum { return Err(Incomplete); }
    }
    return Ok(Pairs(Native(version), order));
  }

  lemma AfterIsSuffix(s: string, c: char)
    requires After(s, c) != ""
    ensures s != "" && s[|s| - 1] == After(s, c)[|After(s, c)| - 1]
  {
  }

  lemma ArchiveIsNoChecksum(name: string, version: string)
    requires IsArchive(name, version)
    ensures !IsChecksum(name)
  {
    var s := name[|Prefix(version)|..];
    var rest := After(s, '-');
    AfterIsSuffix(rest, '.');
    AfterIsSuffix(s, '-');
    assert name[|name| - 1] == s[|s| - 1];
    assert name[|name| - 1] == 'p' || name[|name| - 1] == 'z';
  }

  lemma NameOfBase(name: string)
    ensures name == if IsChecksum(name) then Base(name) + Suffix else Base(name)
    ensures IsChecksum(Base(name) + Suffix) && Base(Base(name) + Suffix) == Base(name)
  {
  }

  // ----------------------------------------------------------- a release's assets

  function TarballName(version: string): string { "hraness-xcb-" + version + ".tgz" }

  const SumsName := "SHA256SUMS"

  // The names that are not those of the two artifacts.
  function Natives(names: seq<string>, tarball: string, sums: string): seq<string> {
    if names == [] then []
    else
      (if names[0] == tarball || names[0] == sums then [] else [names[0]])
      + Natives(names[1..], tarball, sums)
  }

  predicate Distinct(names: seq<string>) {
    forall i, j :: 0 <= i < j < |names| ==> names[i] != names[j]
  }

  // The names of the assets of an accepted release, whatever the two artifacts
  // are called.
  function ParseNames(v: Naming, names: seq<string>, tarball: string, sums: string): Checked<seq<Pair>> {
    if |names| < 2 || |names| > 2 + 2 * MaximumPairs || |names| % 2 != 0 then Err(BadCount)
    else if !Distinct(names) then Err(Duplicate)
    else
      match PairAll(v, Natives(names, tarball, sums))
      case Err(e) => Err(e)
      case Ok(pairs) => if tarball !in names || sums !in names then Err(NoArtifact) else Ok(pairs)
  }

  function ParseAssets(names: seq<string>, version: string): Checked<seq<Pair>> {
    if !IsSemver(version) then Err(BadVersion)
    else ParseNames(Native(version), names, TarballName(version), SumsName)
  }

  // ------------------------------------------------------------------- the body

  const Opener := "<!-- Automated public release of "
  const Closer := "-->"

  // The last place where `part` is found in s, or nothing.
  datatype Place = Nowhere | At(index: nat)

  function LastIndexOf(s: string, part: string, below: nat): (p: Place)
    requires below <= |s| + 1
    ensures p.At? ==> p.index < below && p.index + |part| <= |s| && s[p.index..p.index + |part|] == part
  {
    if below == 0 then Nowhere
    else if below - 1 + |part| <= |s| && s[below - 1..below - 1 + |part|] == part then At(below - 1)
    else LastIndexOf(s, part, below - 1)
  }

  // How often `part` is found from the left, without overlap.
  function Count(s: string, part: string): nat
    requires part != ""
    decreases |s|
  {
    if |s| < |part| then 0
    else if s[..|part|] == part then 1 + Count(s[|part|..], part)
    else Count(s[1..], part)
  }

  predicate EndsWith(s: string, part: string) { |part| <= |s| && s[|s| - |part|..] == part }

  datatype Body = Body(identity: string, notes: string)

  // A body is split at the last opener; the rest must be closed once, at its end.
  function SplitAt(body: string, opener: string, closer: string): Checked<Body>
    requires closer != ""
  {
    if !EndsWith(body, closer) then Err(BadBody)
    else
      match LastIndexOf(body, opener, |body| + 1)
      case Nowhere => Err(BadBody)
      case At(start) =>
        var identity, prefix := body[start..], body[..start];
        if Count(identity, closer) != 1 then Err(BadBody)
        else if !EndsWith(prefix, "\n\n") then Err(BadBody)
        else Ok(Body(identity, prefix[..start - 2]))
  }

  function SplitBody(body: string): Checked<Body> { SplitAt(body, Opener, Closer) }

  predicate AssertBody(body: string, notes: string, identity: string) {
    var parsed := SplitBody(body);
    parsed.Ok? && parsed.value.identity == identity && parsed.value.notes == notes
  }

  predicate IsSpace(c: char) {
    || '\t' <= c <= '\r' || c == ' ' || c == '\U{A0}' || c == '\U{1680}'
    || '\U{2000}' <= c <= '\U{200A}' || c == '\U{2028}' || c == '\U{2029}'
    || c == '\U{202F}' || c == '\U{205F}' || c == '\U{3000}' || c == '\U{FEFF}'
  }

  // Notes must be there and carry no white space around them.
  function ReleaseBody(notes: string, identity: string): Checked<string> {
    if notes == "" || IsSpace(notes[0]) || IsSpace(notes[|notes| - 1]) then Err(BadNotes)
    else Ok(notes + "\n\n" + identity)
  }

  function IdentityRecord(name: string, version: string, tag: string): Checked<string> {
    if !IsSemver(version) || tag != "v" + version then Err(BadVersion)
    else Ok(Opener + (name + "@" + version + " from " + tag + ". ") + Closer)
  }
}
