/**
 The inventory of remote refs that a release is checked against: its rows, its
 tags and the newest version among them (scripts/release-ref-authority.ts).
 Text stands for the decoded bytes.
 */
module RefInventory {
  import opened Wrappers
  import opened Texts

  datatype Error =
    | BadSize | NotLines | BadRowCount | MalformedRow | BadObject | DuplicateRef | BadOrder
    | NotStable | UnexpectedRef | MissingTag | NotNewest | NotMain

  type Checked<+T> = Result<T, Error>

  const MaximumBytes: nat := 65536
  const MaximumRows: nat := 500

  datatype Ref = Ref(oid: string, ref: string)

  // ---------------------------------------------------------------------- text

  function Utf8Size(s: string): nat {
    if s == "" then 0 else
      (if s[0] < '\U{80}' then 1 else if s[0] < '\U{800}' then 2 else if s[0] < '\U{10000}' then 3 else 4)
      + Utf8Size(s[1..])
  }

  // The order of strings by UTF-16 code units: the surrogates of characters past
  // U+FFFF come before U+E000.
  function Rank(c: char): int {
    if '\U{E000}' <= c < '\U{10000}' then c as int + 0x110000 else c as int
  }

  predicate Less(a: string, b: string) {
    b != "" && (a == "" || Rank(a[0]) < Rank(b[0]) || (a[0] == b[0] && Less(a[1..], b[1..])))
  }

  // ---------------------------------------------------------------------- rows

  predicate IsHex(c: char) { '0' <= c <= '9' || 'a' <= c <= 'f' }

  predicate IsSha(s: string) { |s| == 40 && forall i :: 0 <= i < |s| ==> IsHex(s[i]) }

  function Line(e: Ref): string { e.oid + "\t" + e.ref }

  function Printed(entries: seq<Ref>): string {
    if entries == [] then "" else Line(entries[0]) + "\n" + Printed(entries[1..])
  }

  function Row(line: string): Checked<Ref> {
    var fields := Split(line, '\t');
    if |fields| != 2 then Err(MalformedRow)
    else if !IsSha(fields[0]) then Err(BadObject)
    else Ok(Ref(fields[0], fields[1]))
  }

  predicate HasRef(entries: seq<Ref>, ref: string) { exists i :: 0 <= i < |entries| && entries[i].ref == ref }

  // The loop over the lines; `entries` are the rows read before.
  function RowsFrom(lines: seq<string>, entries: seq<Ref>): Checked<seq<Ref>>
    decreases |lines|
  {
    if lines == [] then Ok(entries)
    else
      match Row(lines[0])
      case Err(e) => Err(e)
      case Ok(row) =>
        if HasRef(entries, row.ref) then Err(DuplicateRef) else RowsFrom(lines[1..], entries + [row])
  }

  function Inserted(e: Ref, sorted: seq<Ref>): (r: seq<Ref>)
    ensures |r| == |sorted| + 1
  {
    if sorted == [] || Less(e.ref, sorted[0].ref) then [e] + sorted
    else [sorted[0]] + Inserted(e, sorted[1..])
  }

  // In the order of the refs.  A sort is determined by that where refs differ.
  function Sorted(entries: seq<Ref>): (r: seq<Ref>)
    ensures |r| == |entries|
  {
    if entries == [] then [] else Inserted(entries[|entries| - 1], Sorted(entries[..|entries| - 1]))
  }

  function LinesOf(input: string): seq<string>
    requires input != ""
  {
    Split(input[..|input| - 1], '\n')
  }

  function ParseRows(input: string): Checked<seq<Ref>> {
    if input == "" || Utf8Size(input) > MaximumBytes then Err(BadSize)
    else if '\0' in input || '\r' in input || input[|input| - 1] != '\n' then Err(NotLines)
    else if |LinesOf(input)| > MaximumRows || "" in LinesOf(input) then Err(BadRowCount)
    else
      match RowsFrom(LinesOf(input), [])
      case Err(e) => Err(e)
      case Ok(entries) => if Printed(Sorted(entries)) != input then Err(BadOrder) else Ok(entries)
  }

  method ParseInventoryRows(input: string) returns (r: Checked<seq<Ref>>)
    ensures r == ParseRows(input)
  {
    if input == "" || Utf8Size(input) > MaximumBytes { return Err(BadSize); }
    if '\0' in input || '\r' in input || input[|input| - 1] != '\n' { return Err(NotLines); }
    var lines := LinesOf(input);
    if |lines| > MaximumRows || "" in lines { return Err(BadRowCount); }
    var entries: seq<Ref> := [];
    var byRef: map<string, string> := map[];
    ghost var all := RowsFrom(lines, []);
    assert lines[0..] == lines;
    for i := 0 to |lines|
      invariant forall ref :: ref in byRef <==> HasRef(entries, ref)
      invariant RowsFrom(lines[i..], entries) == all
    {
      assert lines[i..][1..] == lines[i + 1..];
      var fields := Split(lines[i], '\t');
      if |fields| != 2 { return Err(MalformedRow); }
      var oid, ref := fields[0], fields[1];
      if !IsSha(oid) { return Err(BadObject); }
      if ref in byRef { return Err(DuplicateRef); }
      byRef := byRef[ref := oid];
      HasRefAppend(entries, Ref(oid, ref));
      entries := entries + [Ref(oid, ref)];
    }
    if Printed(Sorted(entries)) != input { return Err(BadOrder); }
    return Ok(entries);
  }

  lemma HasRefAppend(entries: seq<Ref>, e: Ref)
    ensures forall ref :: HasRef(entries + [e], ref) <==> HasRef(entries, ref) || ref == e.ref
  {
    forall ref ensures HasRef(entries + [e], ref) <==> HasRef(entries, ref) || ref == e.ref {
      if HasRef(entries, ref) {
        var i :| 0 <= i < |entries| && entries[i].ref == ref;
        assert (entries + [e])[i].ref == ref;
      }
      if ref == e.ref { assert (entries + [e])[|entries|].ref == ref; }
    }
  }

  // ------------------------------------------------------------------ versions

  datatype Version = Version(major: nat, minor: nat, patch: nat)

  function StableVersion(tag: string): Option<Version> {
    if tag == "" || tag[0] != 'v' then None
    else
      var parts := Split(tag[1..], '.');
      if |parts| == 3 && IsNumeral(parts[0]) && IsNumeral(parts[1]) && IsNumeral(parts[2])
      then Some(Version(Digits(parts[0]), Digits(parts[1]), Digits(parts[2])))
      else None
  }

  function Part(v: Version, i: nat): nat
    requires i < 3
  {
    if i == 0 then v.major else if i == 1 then v.minor else v.patch
  }

  // The loop over the parts, from the i-th on.
  function CompareFrom(l: Version, r: Version, i: nat): int
    requires i <= 3
    decreases 3 - i
  {
    if i == 3 then 0
    else if Part(l, i) < Part(r, i) then -1
    else if Part(l, i) > Part(r, i) then 1
    else CompareFrom(l, r, i + 1)
  }

  function Compare(l: Version, r: Version): int { CompareFrom(l, r, 0) }

  // ---------------------------------------------------------------------- tags

  const TagPrefix := "refs/tags/"
  const MainRef := "refs/heads/main"

  predicate IsLetterOrDigit(c: char) { IsDigit(c) || 'a' <= c <= 'z' || 'A' <= c <= 'Z' }

  predicate EndsWith(s: string, suffix: string) { |suffix| <= |s| && s[|s| - |suffix|..] == suffix }

  predicate ValidTagName(name: string) {
    && 2 <= |name| <= 128 && name[0] == 'v' && IsLetterOrDigit(name[1])
    && (forall i :: 2 <= i < |name| ==> IsLetterOrDigit(name[i]) || name[i] in "._-")
    && (forall i :: 0 <= i < |name| - 1 ==> !(name[i] == '.' && name[i + 1] == '.'))
    && name[|name| - 1] != '.' && !EndsWith(name, ".lock")
  }

  predicate ValidTagRef(ref: string) { TagPrefix <= ref && ValidTagName(ref[|TagPrefix|..]) }

  function StableRef(ref: string): Option<Version> {
    if TagPrefix <= ref then StableVersion(ref[|TagPrefix|..]) else None
  }

  function ObjectOf(entries: seq<Ref>, ref: string): Option<string> {
    if entries == [] then None
    else if entries[0].ref == ref then Some(entries[0].oid)
    else ObjectOf(entries[1..], ref)
  }

  datatype Newest = NoneYet | Newest(ref: string, version: Version)

  // The loop that keeps the first of the greatest.
  function NewestFrom(entries: seq<Ref>, newest: Newest): Newest
    decreases |entries|
  {
    if entries == [] then newest
    else NewestFrom(entries[1..], Newer(newest, entries[0].ref))
  }

  function Newer(newest: Newest, ref: string): Newest {
    match StableRef(ref)
    case None => newest
    case Some(v) => if newest.NoneYet? || Compare(v, newest.version) > 0 then Newest(ref, v) else newest
  }

  datatype Snapshot = Snapshot(entries: seq<Ref>, requestedOid: string)

  function ParseTags(input: string, requested: string): Checked<Snapshot> {
    if StableVersion(requested) == None then Err(NotStable)
    else
      match ParseRows(input)
      case Err(e) => Err(e)
      case Ok(entries) =>
        if exists i :: 0 <= i < |entries| && !ValidTagRef(entries[i].ref) then Err(UnexpectedRef)
        else
          match ObjectOf(entries, TagPrefix + requested)
          case None => Err(MissingTag)
          case Some(oid) =>
            var newest := NewestFrom(entries, NoneYet);
            if newest.NoneYet? || newest.ref != TagPrefix + requested then Err(NotNewest)
            else Ok(Snapshot(entries, oid))
  }

  method ParseRemoteSnapshot(input: string, requested: string) returns (r: Checked<Snapshot>)
    ensures r == ParseTags(input, requested)
  {
    if StableVersion(requested) == None { return Err(NotStable); }
    var parsed := ParseInventoryRows(input);
    if parsed.Err? { return Err(parsed.error); }
    var entries := parsed.value;
    for i := 0 to |entries|
      invariant forall k :: 0 <= k < i ==> ValidTagRef(entries[k].ref)
    {
      if !ValidTagRef(entries[i].ref) { return Err(UnexpectedRef); }
    }
    var oid := ObjectOf(entries, TagPrefix + requested);
    if oid == None { return Err(MissingTag); }
    var newest := FindNewest(entries);
    if newest.NoneYet? || newest.ref != TagPrefix + requested { return Err(NotNewest); }
    return Ok(Snapshot(entries, oid.value));
  }

  method FindNewest(entries: seq<Ref>) returns (newest: Newest)
    ensures newest == NewestFrom(entries, NoneYet)
  {
    newest := NoneYet;
    ghost var all := NewestFrom(entries, NoneYet);
    assert entries[0..] == entries;
    for i := 0 to |entries|
      invariant NewestFrom(entries[i..], newest) == all
    {
      assert entries[i..][1..] == entries[i + 1..];
      var stable := StableRef(entries[i].ref);
      if stable.Some? && (newest.NoneYet? || Compare(stable.value, newest.version) > 0) {
        newest := Newest(entries[i].ref, stable.value);
      }
    }
  }

  function Newlines(s: string): nat {
    if s == "" then 0 else (if s[0] == '\n' then 1 else 0) + Newlines(s[1..])
  }

  datatype Governed = Governed(canonical: string, mainOid: string, requestedOid: string)

  function ParseGoverned(main: string, tags: string, requested: string): Checked<Governed> {
    if Utf8Size(main) + Utf8Size(tags) > MaximumBytes then Err(BadSize)
    else if Newlines(main) + Newlines(tags) > MaximumRows then Err(BadRowCount)
    else
      match ParseRows(main)
      case Err(e) => Err(e)
      case Ok(rows) =>
        match ParseTags(tags, requested)
        case Err(e) => Err(e)
        case Ok(Snapshot(entries, oid)) =>
          if |rows| + |entries| > MaximumRows then Err(BadRowCount)
          else if |rows| != 1 || rows[0].ref != MainRef then Err(NotMain)
          else Ok(Governed(Printed(Sorted(rows)) + Printed(Sorted(entries)), rows[0].oid, oid))
  }
}
