/**
 The inventory parser accepts exactly the printed form of sorted, duplicate-free
 rows; an accepted tag is the one greatest version; and equal inventories give
 equal objects.
 */
module RefLaws {
  import opened Wrappers
  import opened Texts
  import opened RefInventory

  // ----------------------------------------------------------------------- rows

  // No character of a row can be taken for a separator.
  predicate Plain(s: string) { '\0' !in s && '\r' !in s && '\n' !in s && '\t' !in s }

  predicate GoodRow(e: Ref) { IsSha(e.oid) && Plain(e.ref) }

  predicate GoodRows(entries: seq<Ref>) { forall i :: 0 <= i < |entries| ==> GoodRow(entries[i]) }

  lemma ShaIsPlain(s: string)
    requires IsSha(s)
    ensures Plain(s)
  {
  }

  lemma RowReads(e: Ref)
    requires GoodRow(e)
    ensures Row(Line(e)) == Ok(e) && Line(e) != ""
    ensures '\n' !in Line(e) && '\0' !in Line(e) && '\r' !in Line(e)
  {
    ShaIsPlain(e.oid);
    assert e.oid + "\t" + e.ref == e.oid + ['\t'] + e.ref;
    SplitAtFirst(e.oid, '\t', e.ref);
    SplitWithout(e.ref, '\t');
  }

  lemma RowShape(line: string)
    requires Row(line).Ok? && '\n' !in line && '\0' !in line && '\r' !in line
    ensures GoodRow(Row(line).value) && Line(Row(line).value) == line
  {
    var fields := Split(line, '\t');
    SplitJoins(line, '\t');
    PartsWithout(line, '\t', '\t');
    PartsWithout(line, '\t', '\n');
    PartsWithout(line, '\t', '\0');
    PartsWithout(line, '\t', '\r');
    assert Join(fields, '\t') == fields[0] + ['\t'] + Join(fields[1..], '\t');
  }

  function Lines(entries: seq<Ref>): (lines: seq<string>)
    ensures |lines| == |entries|
    ensures forall i :: 0 <= i < |lines| ==> lines[i] == Line(entries[i])
  {
    seq(|entries|, i requires 0 <= i < |entries| => Line(entries[i]))
  }

  lemma {:induction false} PrintedIsJoined(entries: seq<Ref>)
    requires entries != []
    ensures Printed(entries) == Join(Lines(entries), '\n') + "\n"
    decreases |entries|
  {
    if |entries| == 1 {
      assert Printed(entries[1..]) == "";
    } else {
      PrintedIsJoined(entries[1..]);
      assert Lines(entries)[1..] == Lines(entries[1..]);
    }
  }

  lemma PrintedLines(entries: seq<Ref>)
    requires entries != [] && GoodRows(entries)
    ensures Printed(entries) != "" && LinesOf(Printed(entries)) == Lines(entries)
    ensures Printed(entries)[|Printed(entries)| - 1] == '\n'
  {
    PrintedIsJoined(entries);
    forall i | 0 <= i < |entries| ensures '\n' !in Lines(entries)[i] { RowReads(entries[i]); }
    JoinSplits(Lines(entries), '\n');
    var input := Printed(entries);
    assert input[..|input| - 1] == Join(Lines(entries), '\n');
  }

  lemma {:induction false} PrintedWithout(entries: seq<Ref>, c: char)
    requires GoodRows(entries) && (c == '\0' || c == '\r')
    ensures c !in Printed(entries)
    decreases |entries|
  {
    if entries != [] {
      RowReads(entries[0]);
      PrintedWithout(entries[1..], c);
    }
  }

  predicate NoRefTwice(entries: seq<Ref>) {
    forall i, j :: 0 <= i < j < |entries| ==> entries[i].ref != entries[j].ref
  }

  // The rows are read one by one; a row read is the row printed.
  lemma {:induction false} RowsRead(entries: seq<Ref>, before: seq<Ref>)
    requires GoodRows(entries) && NoRefTwice(before + entries)
    ensures RowsFrom(Lines(entries), before) == Ok(before + entries)
    decreases |entries|
  {
    if entries == [] {
      assert before + entries == before;
    } else {
      RowReads(entries[0]);
      assert !HasRef(before, entries[0].ref) by {
        forall i | 0 <= i < |before| ensures before[i].ref != entries[0].ref {
          assert (before + entries)[i] == before[i] && (before + entries)[|before|] == entries[0];
        }
      }
      assert Lines(entries)[1..] == Lines(entries[1..]);
      assert before + [entries[0]] + entries[1..] == before + entries;
      RowsRead(entries[1..], before + [entries[0]]);
    }
  }

  lemma {:induction false} RowsShape(lines: seq<string>, before: seq<Ref>) returns (entries: seq<Ref>)
    requires RowsFrom(lines, before).Ok? && NoRefTwice(before)
    requires forall i :: 0 <= i < |lines| ==> '\n' !in lines[i] && '\0' !in lines[i] && '\r' !in lines[i]
    ensures RowsFrom(lines, before) == Ok(before + entries)
    ensures GoodRows(entries) && Lines(entries) == lines && NoRefTwice(before + entries)
    decreases |lines|
  {
    entries := [];
    if lines == [] {
      assert before + entries == before;
    } else {
      var row := Row(lines[0]).value;
      RowShape(lines[0]);
      assert NoRefTwice(before + [row]) by {
        forall i | 0 <= i < |before| ensures before[i].ref != row.ref { assert HasRef(before, before[i].ref); }
      }
      var rest := RowsShape(lines[1..], before + [row]);
      entries := [row] + rest;
      assert before + [row] + rest == before + entries;
      assert Lines(entries) == [lines[0]] + lines[1..];
    }
  }

  // ---------------------------------------------------------------------- order

  lemma {:induction false} LessIsIrreflexive(a: string)
    ensures !Less(a, a)
  {
    if a != "" { LessIsIrreflexive(a[1..]); }
  }

  lemma {:induction false} LessIsTransitive(a: string, b: string, c: string)
    requires Less(a, b) && Less(b, c)
    ensures Less(a, c)
  {
    if a != "" && a[0] == b[0] == c[0] { LessIsTransitive(a[1..], b[1..], c[1..]); }
  }

  lemma {:induction false} LessIsTotal(a: string, b: string)
    ensures a == b || Less(a, b) || Less(b, a)
  {
    if a != "" && b != "" && a[0] == b[0] {
      LessIsTotal(a[1..], b[1..]);
      assert a == [a[0]] + a[1..] && b == [b[0]] + b[1..];
    }
  }

  predicate Ascending(entries: seq<Ref>) {
    forall i, j :: 0 <= i < j < |entries| ==> Less(entries[i].ref, entries[j].ref)
  }

  lemma {:induction false} InsertedLast(e: Ref, sorted: seq<Ref>)
    requires forall i :: 0 <= i < |sorted| ==> Less(sorted[i].ref, e.ref)
    ensures Inserted(e, sorted) == sorted + [e]
    decreases |sorted|
  {
    if sorted != [] {
      if Less(e.ref, sorted[0].ref) {
        LessIsTransitive(e.ref, sorted[0].ref, e.ref);
        LessIsIrreflexive(e.ref);
        assert false;
      }
      InsertedLast(e, sorted[1..]);
    }
  }

  lemma {:induction false} SortingTheSorted(entries: seq<Ref>)
    requires Ascending(entries)
    ensures Sorted(entries) == entries
    decreases |entries|
  {
    if entries != [] {
      var init, e := entries[..|entries| - 1], entries[|entries| - 1];
      SortingTheSorted(init);
      InsertedLast(e, init);
    }
  }

  lemma {:induction false} InsertedHolds(e: Ref, sorted: seq<Ref>, x: Ref)
    ensures x in Inserted(e, sorted) <==> x == e || x in sorted
    decreases |sorted|
  {
    if sorted != [] && !Less(e.ref, sorted[0].ref) {
      InsertedHolds(e, sorted[1..], x);
      assert x in sorted <==> x == sorted[0] || x in sorted[1..];
    }
  }

  lemma {:induction false} InsertedAscends(e: Ref, sorted: seq<Ref>)
    requires Ascending(sorted) && forall i :: 0 <= i < |sorted| ==> sorted[i].ref != e.ref
    ensures Ascending(Inserted(e, sorted))
    decreases |sorted|
  {
    if sorted != [] {
      if Less(e.ref, sorted[0].ref) {
        forall i | 0 <= i < |sorted| ensures Less(e.ref, sorted[i].ref) {
          if i > 0 { LessIsTransitive(e.ref, sorted[0].ref, sorted[i].ref); }
        }
      } else {
        LessIsTotal(e.ref, sorted[0].ref);
        InsertedAscends(e, sorted[1..]);
        var rest := Inserted(e, sorted[1..]);
        forall i | 0 <= i < |rest| ensures Less(sorted[0].ref, rest[i].ref) {
          InsertedHolds(e, sorted[1..], rest[i]);
        }
      }
    }
  }

  lemma {:induction false} SortedAscends(entries: seq<Ref>)
    requires NoRefTwice(entries)
    ensures Ascending(Sorted(entries))
    ensures forall x :: x in Sorted(entries) <==> x in entries
    decreases |entries|
  {
    if entries != [] {
      var init, e := entries[..|entries| - 1], entries[|entries| - 1];
      SortedAscends(init);
      forall i | 0 <= i < |Sorted(init)| ensures Sorted(init)[i].ref != e.ref {
        var x := Sorted(init)[i];
        assert x in Sorted(init);
        var k :| 0 <= k < |init| && init[k] == x;
      }
      InsertedAscends(e, Sorted(init));
      forall x ensures x in Sorted(entries) <==> x in entries {
        InsertedHolds(e, Sorted(init), x);
        assert entries == init + [e];
      }
    }
  }

  // ----------------------------------------------------------------- the parser

  predicate Canonical(entries: seq<Ref>) {
    && 1 <= |entries| <= MaximumRows && GoodRows(entries) && Ascending(entries)
    && Utf8Size(Printed(entries)) <= MaximumBytes
  }

  lemma AscendingHasNoRefTwice(entries: seq<Ref>)
    requires Ascending(entries)
    ensures NoRefTwice(entries)
  {
    forall i, j | 0 <= i < j < |entries| ensures entries[i].ref != entries[j].ref {
      LessIsIrreflexive(entries[i].ref);
    }
  }

  lemma ParseRowsIs(input: string, lines: seq<string>, entries: seq<Ref>)
    requires input != "" && Utf8Size(input) <= MaximumBytes
    requires '\0' !in input && '\r' !in input && input[|input| - 1] == '\n'
    requires LinesOf(input) == lines && |lines| <= MaximumRows && "" !in lines
    requires RowsFrom(lines, []) == Ok(entries) && Printed(Sorted(entries)) == input
    ensures ParseRows(input) == Ok(entries)
  {
  }

  lemma NoEmptyLine(entries: seq<Ref>)
    requires GoodRows(entries)
    ensures "" !in Lines(entries)
  {
    forall i | 0 <= i < |entries| ensures Lines(entries)[i] != "" { RowReads(entries[i]); }
  }

  lemma PrintedParses(entries: seq<Ref>)
    requires Canonical(entries)
    ensures ParseRows(Printed(entries)) == Ok(entries)
  {
    PrintedLines(entries);
    PrintedWithout(entries, '\0');
    PrintedWithout(entries, '\r');
    NoEmptyLine(entries);
    assert RowsFrom(Lines(entries), []) == Ok(entries) by {
      AscendingHasNoRefTwice(entries);
      assert [] + entries == entries;
      RowsRead(entries, []);
    }
    SortingTheSorted(entries);
    ParseRowsIs(Printed(entries), Lines(entries), entries);
  }

  lemma {:induction false} PrintedDetermines(a: seq<Ref>, b: seq<Ref>)
    requires GoodRows(a) && GoodRows(b) && NoRefTwice(a) && NoRefTwice(b) && a != [] && b != []
    requires Printed(a) == Printed(b)
    ensures a == b
  {
    PrintedLines(a);
    PrintedLines(b);
    RowsRead(a, []);
    RowsRead(b, []);
    assert [] + a == a && [] + b == b;
  }

  lemma LinesAreClean(input: string)
    requires input != "" && '\0' !in input && '\r' !in input
    ensures forall i :: 0 <= i < |LinesOf(input)| ==>
      '\n' !in LinesOf(input)[i] && '\0' !in LinesOf(input)[i] && '\r' !in LinesOf(input)[i]
  {
    var text := input[..|input| - 1];
    PartsWithout(text, '\n', '\n');
    PartsWithout(text, '\n', '\0');
    PartsWithout(text, '\n', '\r');
  }

  lemma LinesJoin(input: string)
    requires input != "" && input[|input| - 1] == '\n'
    ensures Join(LinesOf(input), '\n') + "\n" == input
  {
    SplitJoins(input[..|input| - 1], '\n');
  }

  lemma LinesArePrinted(input: string) returns (entries: seq<Ref>)
    requires input != "" && '\0' !in input && '\r' !in input && input[|input| - 1] == '\n'
    requires RowsFrom(LinesOf(input), []).Ok?
    ensures RowsFrom(LinesOf(input), []) == Ok(entries) && |entries| == |LinesOf(input)|
    ensures GoodRows(entries) && NoRefTwice(entries) && Printed(entries) == input
  {
    LinesAreClean(input);
    LinesJoin(input);
    entries := RowsShape(LinesOf(input), []);
    assert [] + entries == entries;
    PrintedIsJoined(entries);
  }

  // Rows that print the same in order are in order.
  lemma OrderedAsPrinted(entries: seq<Ref>)
    requires entries != [] && GoodRows(entries) && NoRefTwice(entries)
    requires Printed(Sorted(entries)) == Printed(entries)
    ensures Sorted(entries) == entries && Ascending(entries)
  {
    SortedAscends(entries);
    var sorted := Sorted(entries);
    forall i | 0 <= i < |sorted| ensures GoodRow(sorted[i]) {
      assert sorted[i] in sorted;
      assert sorted[i] in entries;
    }
    AscendingHasNoRefTwice(sorted);
    PrintedDetermines(sorted, entries);
  }

  lemma ParsedIsPrinted(input: string)
    requires ParseRows(input).Ok?
    ensures var entries := ParseRows(input).value;
      Canonical(entries) && Printed(entries) == input && Sorted(entries) == entries
  {
    var entries := LinesArePrinted(input);
    OrderedAsPrinted(entries);
  }

  // The parser accepts exactly the printed form of rows in strict order within
  // the bounds, and printing and parsing are inverses.
  lemma ParsesExactly(input: string, entries: seq<Ref>)
    ensures ParseRows(input) == Ok(entries) <==> Canonical(entries) && input == Printed(entries)
  {
    if ParseRows(input) == Ok(entries) { ParsedIsPrinted(input); }
    if Canonical(entries) && input == Printed(entries) { PrintedParses(entries); }
  }

  // ------------------------------------------------------------------- versions

  function TagOf(v: Version): string {
    "v" + Decimal(v.major) + "." + Decimal(v.minor) + "." + Decimal(v.patch)
  }

  lemma TagIsJoined(v: Version)
    ensures TagOf(v) == ['v'] + Join([Decimal(v.major), Decimal(v.minor), Decimal(v.patch)], '.')
  {
    JoinOfThree(Decimal(v.major), Decimal(v.minor), Decimal(v.patch));
  }

  lemma TagIsStable(v: Version)
    ensures StableVersion(TagOf(v)) == Some(v)
  {
    var parts := [Decimal(v.major), Decimal(v.minor), Decimal(v.patch)];
    DecimalIsNumeral(v.major);
    DecimalIsNumeral(v.minor);
    DecimalIsNumeral(v.patch);
    TagIsJoined(v);
    JoinSplits(parts, '.');
    assert TagOf(v)[1..] == Join(parts, '.');
  }

  lemma StableIsTag(tag: string)
    requires StableVersion(tag).Some?
    ensures tag == TagOf(StableVersion(tag).value)
  {
    var v, parts := StableVersion(tag).value, Split(tag[1..], '.');
    NumeralIsDecimal(parts[0]);
    NumeralIsDecimal(parts[1]);
    NumeralIsDecimal(parts[2]);
    assert parts == [Decimal(v.major), Decimal(v.minor), Decimal(v.patch)];
    TagIsJoined(v);
    SplitJoins(tag[1..], '.');
    assert tag == ['v'] + tag[1..];
  }

  // A tag is that of a version exactly when the version prints as the tag.
  lemma StableTagsAreCanonical(tag: string, v: Version)
    ensures StableVersion(tag) == Some(v) <==> tag == TagOf(v)
  {
    TagIsStable(v);
    if StableVersion(tag) == Some(v) { StableIsTag(tag); }
  }

  lemma JoinOfThree(a: string, b: string, c: string)
    ensures Join([a, b, c], '.') == a + "." + b + "." + c
  {
    assert [a, b, c][1..] == [b, c] && [b, c][1..] == [c];
    assert Join([b, c], '.') == b + ['.'] + c;
  }

  ghost predicate Older(l: Version, r: Version) {
    l.major < r.major || (l.major == r.major && (l.minor < r.minor || (l.minor == r.minor && l.patch < r.patch)))
  }

  // Comparison is by major, then minor, then patch, and total.
  lemma CompareIsOrder(l: Version, r: Version)
    ensures Compare(l, r) in {-1, 0, 1}
    ensures Compare(l, r) < 0 <==> Older(l, r)
    ensures Compare(l, r) > 0 <==> Older(r, l)
    ensures Compare(l, r) == 0 <==> l == r
  {
    assert CompareFrom(l, r, 3) == 0;
  }

  // ----------------------------------------------------------------------- tags

  // The newest so far is at least as new as every stable ref seen.
  ghost predicate IsNewest(newest: Newest, refs: set<string>) {
    && (newest.Newest? ==> newest.ref in refs && StableRef(newest.ref) == Some(newest.version))
    && (forall r <- refs :: StableRef(r).Some? ==>
          newest.Newest? && (r == newest.ref || Older(StableRef(r).value, newest.version)))
  }

  lemma NewerIsNewest(newest: Newest, refs: set<string>, ref: string)
    requires IsNewest(newest, refs)
    ensures IsNewest(Newer(newest, ref), refs + {ref})
  {
    if StableRef(ref).Some? && newest.Newest? {
      var v := StableRef(ref).value;
      CompareIsOrder(v, newest.version);
      if v == newest.version {
        StableTagsAreCanonical(ref[|TagPrefix|..], v);
        StableTagsAreCanonical(newest.ref[|TagPrefix|..], v);
        assert ref == TagPrefix + ref[|TagPrefix|..] && newest.ref == TagPrefix + newest.ref[|TagPrefix|..];
      }
    }
  }

  function RefsOf(entries: seq<Ref>): set<string> { set e <- entries :: e.ref }

  lemma {:induction false} NewestIsFound(entries: seq<Ref>, newest: Newest, refs: set<string>)
    requires IsNewest(newest, refs)
    ensures IsNewest(NewestFrom(entries, newest), refs + RefsOf(entries))
    decreases |entries|
  {
    if entries == [] {
      assert refs + RefsOf(entries) == refs;
    } else {
      NewerIsNewest(newest, refs, entries[0].ref);
      NewestIsFound(entries[1..], Newer(newest, entries[0].ref), refs + {entries[0].ref});
      assert entries == [entries[0]] + entries[1..];
      assert refs + {entries[0].ref} + RefsOf(entries[1..]) == refs + RefsOf(entries);
    }
  }

  lemma {:induction false} ObjectFound(entries: seq<Ref>, ref: string, oid: string)
    requires NoRefTwice(entries)
    ensures ObjectOf(entries, ref) == Some(oid) <==> Ref(oid, ref) in entries
    decreases |entries|
  {
    if entries != [] {
      ObjectFound(entries[1..], ref, oid);
      assert Ref(oid, ref) in entries <==> Ref(oid, ref) == entries[0] || Ref(oid, ref) in entries[1..];
      if entries[0].ref == ref {
        forall k | 0 <= k < |entries[1..]| ensures entries[1..][k] != Ref(oid, ref) {
          assert entries[0].ref != entries[k + 1].ref;
        }
      }
    }
  }

  // The requested tag is a stable tag of the inventory and every other stable
  // tag there is older.
  ghost predicate IsGreatest(entries: seq<Ref>, requested: string) {
    && StableVersion(requested).Some?
    && TagPrefix + requested in RefsOf(entries)
    && forall r <- RefsOf(entries) :: StableRef(r).Some? && r != TagPrefix + requested ==>
         Older(StableRef(r).value, StableVersion(requested).value)
  }

  // The loop ends with the requested tag exactly when that is the greatest.
  lemma NewestIsGreatest(entries: seq<Ref>, requested: string)
    requires StableVersion(requested).Some? && TagPrefix + requested in RefsOf(entries)
    ensures var newest := NewestFrom(entries, NoneYet);
      newest.Newest? && newest.ref == TagPrefix + requested <==> IsGreatest(entries, requested)
  {
    var ref, newest := TagPrefix + requested, NewestFrom(entries, NoneYet);
    NewestIsFound(entries, NoneYet, {});
    assert {} + RefsOf(entries) == RefsOf(entries);
    assert ref[|TagPrefix|..] == requested;
  }

  lemma ParseTagsIs(input: string, requested: string, entries: seq<Ref>, oid: string)
    ensures ParseTags(input, requested) == Ok(Snapshot(entries, oid)) <==>
      && ParseRows(input) == Ok(entries)
      && (forall i :: 0 <= i < |entries| ==> ValidTagRef(entries[i].ref))
      && ObjectOf(entries, TagPrefix + requested) == Some(oid)
      && StableVersion(requested).Some?
      && var newest := NewestFrom(entries, NoneYet);
         newest.Newest? && newest.ref == TagPrefix + requested
  {
  }

  // A snapshot is accepted exactly when its rows are canonical tag refs and the
  // requested tag, with its object, is the one greatest version.
  lemma AcceptsTheGreatest(input: string, requested: string, entries: seq<Ref>, oid: string)
    ensures ParseTags(input, requested) == Ok(Snapshot(entries, oid)) <==>
      && Canonical(entries) && input == Printed(entries)
      && (forall i :: 0 <= i < |entries| ==> ValidTagRef(entries[i].ref))
      && Ref(oid, TagPrefix + requested) in entries
      && IsGreatest(entries, requested)
  {
    ParsesExactly(input, entries);
    ParseTagsIs(input, requested, entries, oid);
    var ref := TagPrefix + requested;
    if Canonical(entries) && StableVersion(requested).Some? {
      assert ObjectOf(entries, ref) == Some(oid) <==> Ref(oid, ref) in entries by {
        AscendingHasNoRefTwice(entries);
        ObjectFound(entries, ref, oid);
      }
      if Ref(oid, ref) in entries {
        assert ref in RefsOf(entries);
        NewestIsGreatest(entries, requested);
      }
    }
  }

  // At most one tag of an inventory can be accepted.
  lemma OneTagIsAccepted(entries: seq<Ref>, a: string, b: string)
    requires IsGreatest(entries, a) && IsGreatest(entries, b)
    ensures a == b
  {
    var ra, rb := TagPrefix + a, TagPrefix + b;
    assert ra[|TagPrefix|..] == a && rb[|TagPrefix|..] == b;
  }

  lemma MainRowIsFixed(a: seq<Ref>, b: seq<Ref>)
    requires GoodRows(a) && GoodRows(b) && |a| == |b| == 1 && a[0].ref == b[0].ref == MainRef
    ensures |Printed(a)| == |Printed(b)| == 41 + |MainRef| + 1
  {
    assert Printed(a[1..]) == "" && Printed(b[1..]) == "";
  }

  lemma GovernedParts(main: string, tags: string, requested: string)
    requires ParseGoverned(main, tags, requested).Ok?
    ensures ParseTags(tags, requested).Ok?
    ensures |main| == 41 + |MainRef| + 1
    ensures ParseGoverned(main, tags, requested).value.canonical == main + tags
  {
    ParsedIsPrinted(main);
    ParsedIsPrinted(tags);
    MainRowIsFixed(ParseRows(main).value, ParseRows(main).value);
  }

  lemma SameParts(a1: string, b1: string, a2: string, b2: string)
    requires |a1| == |a2| && a1 + b1 == a2 + b2
    ensures a1 == a2 && b1 == b2
  {
    assert a1 == (a1 + b1)[..|a1|] && b1 == (a1 + b1)[|a1|..];
    assert a2 == (a2 + b2)[..|a2|] && b2 == (a2 + b2)[|a2|..];
  }

  // One inventory accepts one tag.
  lemma TagsDetermine(tags: string, a: string, b: string)
    requires ParseTags(tags, a).Ok? && ParseTags(tags, b).Ok?
    ensures a == b
  {
    var sa, sb := ParseTags(tags, a).value, ParseTags(tags, b).value;
    AcceptsTheGreatest(tags, a, sa.entries, sa.requestedOid);
    AcceptsTheGreatest(tags, b, sb.entries, sb.requestedOid);
    OneTagIsAccepted(sa.entries, a, b);
  }

  // Equal combined inventories come from equal inputs: the same main object, the
  // same tag, the same tag object.
  lemma CombinedDetermines(main1: string, tags1: string, tag1: string, main2: string, tags2: string, tag2: string)
    requires ParseGoverned(main1, tags1, tag1).Ok? && ParseGoverned(main2, tags2, tag2).Ok?
    requires ParseGoverned(main1, tags1, tag1).value.canonical == ParseGoverned(main2, tags2, tag2).value.canonical
    ensures main1 == main2 && tags1 == tags2 && tag1 == tag2
    ensures ParseGoverned(main1, tags1, tag1) == ParseGoverned(main2, tags2, tag2)
  {
    GovernedParts(main1, tags1, tag1);
    GovernedParts(main2, tags2, tag2);
    SameParts(main1, tags1, main2, tags2);
    TagsDetermine(tags1, tag1, tag2);
  }

  // ------------------------------------------------------------- orders and bounds

  // The UTF-16 code units of a character.
  function Units(c: char): seq<int> {
    var n := c as int;
    if n < 0x10000 then [n] else [0xD800 + (n - 0x10000) / 0x400, 0xDC00 + (n - 0x10000) % 0x400]
  }

  // The first unit that differs is smaller.
  predicate UnitsBefore(a: seq<int>, b: seq<int>) {
    && a != [] && b != []
    && (a[0] < b[0] || (a[0] == b[0] && |a| == |b| == 2 && a[1] < b[1]))
  }

  lemma RankIsUnits(a: char, b: char)
    ensures Rank(a) < Rank(b) <==> UnitsBefore(Units(a), Units(b))
  {
  }

  // From the i-th character on the strings differ, and the first is before.
  predicate BeforeFrom(a: string, b: string, i: nat) {
    && i <= |a| && i < |b| && a[..i] == b[..i]
    && (i == |a| || UnitsBefore(Units(a[i]), Units(b[i])))
  }

  // Refs are ordered as JavaScript orders strings, by their UTF-16 code units.
  lemma {:induction false} LessExactly(a: string, b: string)
    ensures Less(a, b) <==> exists i: nat :: BeforeFrom(a, b, i)
    decreases |a|
  {
    if a != "" && b != "" {
      RankIsUnits(a[0], b[0]);
      RankIsUnits(b[0], a[0]);
      LessExactly(a[1..], b[1..]);
      if Less(a[1..], b[1..]) && a[0] == b[0] {
        var i: nat :| BeforeFrom(a[1..], b[1..], i);
        assert a[..i + 1] == [a[0]] + a[1..][..i] && b[..i + 1] == [b[0]] + b[1..][..i];
        assert BeforeFrom(a, b, i + 1);
      }
      assert UnitsBefore(Units(a[0]), Units(b[0])) ==> BeforeFrom(a, b, 0);
      forall i: nat | BeforeFrom(a, b, i) ensures Less(a, b) {
        if i > 0 {
          assert a[0] == a[..i][0] == b[..i][0] == b[0];
          assert a[1..][..i - 1] == a[..i][1..] && b[1..][..i - 1] == b[..i][1..];
          assert BeforeFrom(a[1..], b[1..], i - 1);
        }
      }
    } else if b != "" {
      assert BeforeFrom(a, b, 0);
    }
  }

  // The tag of every version is a valid name, up to the length that tags may have.
  lemma StableTagsAreValid(v: Version)
    ensures ValidTagName(TagOf(v)) <==> |TagOf(v)| <= 128
  {
    var a, b, c := Decimal(v.major), Decimal(v.minor), Decimal(v.patch);
    var tag := TagOf(v);
    DecimalIsNumeral(v.major);
    DecimalIsNumeral(v.minor);
    DecimalIsNumeral(v.patch);
    assert tag == "v" + a + "." + b + "." + c;
    DigitsAndPoints(a, b, c);
    var last := tag[|tag| - 1];
    assert last == c[|c| - 1];
    if EndsWith(tag, ".lock") {
      assert tag[|tag| - 5..][4] == last;
    }
  }

  lemma DigitsAndPoints(a: string, b: string, c: string)
    requires IsNumeral(a) && IsNumeral(b) && IsNumeral(c)
    ensures var tag := "v" + a + "." + b + "." + c;
      && (forall i :: 1 <= i < |tag| ==> IsDigit(tag[i]) || tag[i] == '.')
      && IsDigit(tag[1]) && (forall i :: 1 <= i < |tag| - 1 && tag[i] == '.' ==> IsDigit(tag[i + 1]))
  {
  }

  // The first part is the one row of the main branch, and both parts together are
  // within bounds.
  predicate MainAndTags(main: string, tags: string, rows: nat, mainOid: string) {
    && Utf8Size(main) + Utf8Size(tags) <= MaximumBytes
    && Newlines(main) + Newlines(tags) <= MaximumRows && 1 + rows <= MaximumRows
    && IsSha(mainOid) && main == mainOid + "\t" + MainRef + "\n"
  }

  // The combined inventory is accepted exactly when that is so and the tags are
  // accepted; it is the two parts one after the other.
  lemma GovernedExactly(main: string, tags: string, requested: string, g: Governed)
    ensures ParseGoverned(main, tags, requested) == Ok(g) <==>
      && ParseTags(tags, requested).Ok?
      && MainAndTags(main, tags, |ParseTags(tags, requested).value.entries|, g.mainOid)
      && ParseTags(tags, requested).value.requestedOid == g.requestedOid
      && g.canonical == main + tags
  {
    if ParseGoverned(main, tags, requested) == Ok(g) { GovernedShape(main, tags, requested, g); }
    if ParseTags(tags, requested).Ok? {
      if MainAndTags(main, tags, |ParseTags(tags, requested).value.entries|, g.mainOid) {
        GovernedAccepted(main, tags, requested, g.mainOid);
      }
    }
  }

  lemma GovernedShape(main: string, tags: string, requested: string, g: Governed)
    requires ParseGoverned(main, tags, requested) == Ok(g)
    ensures ParseTags(tags, requested).Ok?
    ensures MainAndTags(main, tags, |ParseTags(tags, requested).value.entries|, g.mainOid)
    ensures ParseTags(tags, requested).value.requestedOid == g.requestedOid && g.canonical == main + tags
  {
    GovernedParts(main, tags, requested);
    ParsedIsPrinted(main);
    OneRowPrinted(ParseRows(main).value[0]);
    assert ParseRows(main).value == [Ref(g.mainOid, MainRef)];
  }

  lemma GovernedAccepted(main: string, tags: string, requested: string, mainOid: string)
    requires ParseTags(tags, requested).Ok?
    requires MainAndTags(main, tags, |ParseTags(tags, requested).value.entries|, mainOid)
    ensures ParseGoverned(main, tags, requested)
      == Ok(Governed(main + tags, mainOid, ParseTags(tags, requested).value.requestedOid))
  {
    var row := Ref(mainOid, MainRef);
    OneRowPrinted(row);
    MainRowParses(row);
    ParsedIsPrinted(tags);
  }

  lemma OneRowPrinted(row: Ref)
    ensures Printed([row]) == row.oid + "\t" + row.ref + "\n"
  {
    assert Printed([row][1..]) == "";
    assert row.oid + "\t" + row.ref + "\n" + "" == row.oid + "\t" + row.ref + "\n";
  }

  lemma MainRowParses(row: Ref)
    requires IsSha(row.oid) && row.ref == MainRef && Utf8Size(Printed([row])) <= MaximumBytes
    ensures ParseRows(Printed([row])) == Ok([row]) && Printed(Sorted([row])) == Printed([row])
  {
    MainRowIsCanonical(row);
    SortingTheSorted([row]);
    PrintedParses([row]);
  }

  lemma MainRowIsCanonical(row: Ref)
    requires IsSha(row.oid) && row.ref == MainRef && Utf8Size(Printed([row])) <= MaximumBytes
    ensures Canonical([row])
  {
    MainRefIsPlain();
    ShaIsPlain(row.oid);
  }

  lemma MainRefIsPlain()
    ensures Plain(MainRef)
  {
  }
}
