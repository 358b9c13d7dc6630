/**
 Pairing succeeds exactly on complete pairs, an accepted release has exactly its
 two artifacts and those pairs, and a body splits exactly into what it was built
 from.
 */
module ReleaseLaws {
  import opened Wrappers
  import opened Texts
  import opened Sets
  import opened ReleaseAssets

  // ------------------------------------------------------------------- counting

  function Elements(names: seq<string>): set<string> { set n <- names }

  lemma {:induction false} DistinctCounts(names: seq<string>)
    ensures Distinct(names) <==> forall n :: multiset(names)[n] <= 1
    decreases |names|
  {
    if names != [] {
      var first, rest := names[0], names[1..];
      DistinctCounts(rest);
      assert names == [first] + rest;
      DistinctHead(first, rest);
      forall n ensures multiset(names)[n] == multiset(rest)[n] + (if n == first then 1 else 0) {
        CountCons(first, rest, n);
      }
      assert first in rest <==> multiset(rest)[first] >= 1;
      if forall n :: multiset(names)[n] <= 1 {
        forall n ensures multiset(rest)[n] <= 1 { assert multiset(rest)[n] <= multiset(names)[n]; }
        assert multiset(names)[first] <= 1;
      }
    }
  }

  lemma DistinctHead(first: string, rest: seq<string>)
    ensures Distinct([first] + rest) <==> first !in rest && Distinct(rest)
  {
    var names := [first] + rest;
    if Distinct(names) {
      forall i | 0 <= i < |rest| ensures rest[i] != first { assert names[0] != names[i + 1]; }
      forall i, j | 0 <= i < j < |rest| ensures rest[i] != rest[j] { assert names[i + 1] != names[j + 1]; }
    }
  }

  lemma SameElements(a: seq<string>, b: seq<string>)
    requires Distinct(a) && Distinct(b) && Elements(a) == Elements(b)
    ensures multiset(a) == multiset(b)
  {
    DistinctCounts(a);
    DistinctCounts(b);
    forall n ensures multiset(a)[n] == multiset(b)[n] {
      assert n in a <==> n in Elements(a);
      assert n in b <==> n in Elements(b);
    }
  }

  lemma SameCounts(a: seq<string>, b: seq<string>)
    requires multiset(a) == multiset(b) && Distinct(b)
    ensures Distinct(a) && Elements(a) == Elements(b) && |a| == |b|
  {
    DistinctCounts(a);
    DistinctCounts(b);
    assert |multiset(a)| == |a| && |multiset(b)| == |b|;
    forall n ensures n in a <==> n in b {
      assert n in a <==> n in multiset(a);
      assert n in b <==> n in multiset(b);
    }
  }

  lemma {:induction false} DistinctSize(names: seq<string>)
    requires Distinct(names)
    ensures |Elements(names)| == |names|
    decreases |names|
  {
    if names != [] {
      assert names == [names[0]] + names[1..];
      DistinctHead(names[0], names[1..]);
      DistinctSize(names[1..]);
      assert Elements(names) == {names[0]} + Elements(names[1..]);
    }
  }

  // -------------------------------------------------------------------- pairing

  function Flattened(pairs: seq<Pair>): seq<string> {
    if pairs == [] then [] else [pairs[0].archive, pairs[0].checksum] + Flattened(pairs[1..])
  }

  function Archives(pairs: seq<Pair>): seq<string> {
    if pairs == [] then [] else [pairs[0].archive] + Archives(pairs[1..])
  }

  // Up to sixteen archives, each with its own checksum.
  ghost predicate GoodPairs(v: Naming, pairs: seq<Pair>) {
    && |pairs| <= MaximumPairs && Distinct(Archives(pairs))
    && forall p <- pairs :: v.valid(p.archive) && p.checksum == v.check(p.archive)
  }

  // Names have one reading.
  ghost predicate Lawful(v: Naming) {
    && (forall b :: v.valid(b) ==> v.base(b) == b)
    && (forall b :: v.base(v.check(b)) == b && v.check(b) != b)
    && (forall n :: n == v.base(n) || n == v.check(v.base(n)))
  }

  lemma NativeIsLawful(version: string)
    ensures Lawful(Native(version))
  {
    var v := Native(version);
    forall b ensures v.valid(b) ==> v.base(b) == b {
      if IsArchive(b, version) { ArchiveIsNoChecksum(b, version); }
    }
    forall b ensures v.base(v.check(b)) == b && v.check(b) != b {
      assert (b + Suffix)[|b|..] == Suffix && (b + Suffix)[..|b|] == b;
    }
    forall n ensures n == v.base(n) || n == v.check(v.base(n)) {
      NameOfBase(n);
    }
  }

  lemma {:induction false} ArchivesOf(pairs: seq<Pair>)
    ensures |Archives(pairs)| == |pairs|
    ensures forall a :: a in Archives(pairs) <==> exists p :: p in pairs && p.archive == a
    decreases |pairs|
  {
    if pairs != [] {
      assert pairs == [pairs[0]] + pairs[1..];
      ArchivesOf(pairs[1..]);
    }
  }

  lemma {:induction false} FlattenedHolds(pairs: seq<Pair>, name: string)
    ensures name in Flattened(pairs) <==> exists p :: p in pairs && (name == p.archive || name == p.checksum)
    ensures |Flattened(pairs)| == 2 * |pairs|
    decreases |pairs|
  {
    if pairs != [] {
      assert pairs == [pairs[0]] + pairs[1..];
      FlattenedHolds(pairs[1..], name);
    }
  }

  // The names of one pair are not those of another.
  lemma PairsApart(v: Naming, a: string, b: string)
    requires Lawful(v) && v.valid(a) && v.valid(b) && a != b
    ensures a != v.check(b) && v.check(a) != v.check(b) && a != v.check(a)
  {
    assert v.base(v.check(b)) == b && v.base(v.check(a)) == a;
  }

  // The names of good pairs are all different.
  lemma {:induction false} FlattenedDistinct(v: Naming, pairs: seq<Pair>)
    requires Lawful(v) && GoodPairs(v, pairs)
    ensures Distinct(Flattened(pairs))
    decreases |pairs|
  {
    if pairs != [] {
      var p, rest := pairs[0], pairs[1..];
      assert pairs == [p] + rest;
      DistinctHead(p.archive, Archives(rest));
      FlattenedDistinct(v, rest);
      ArchivesOf(rest);
      forall q | q in rest
        ensures q.archive != p.archive && q.archive != p.checksum && q.checksum != p.archive && q.checksum != p.checksum
      {
        assert q.archive in Archives(rest);
        PairsApart(v, p.archive, q.archive);
        PairsApart(v, q.archive, p.archive);
      }
      FlattenedHolds(rest, p.archive);
      FlattenedHolds(rest, p.checksum);
      assert v.check(p.archive) != p.archive;
      DistinctHead(p.checksum, Flattened(rest));
      DistinctHead(p.archive, [p.checksum] + Flattened(rest));
      assert Flattened(pairs) == [p.archive] + ([p.checksum] + Flattened(rest));
    }
  }

  // What the loop has done when it succeeds.
  ghost predicate Paired(v: Naming, names: seq<string>, p: Pairing, q: Pairing) {
    && (forall n <- names :: v.valid(v.base(n)) && n !in p.seen)
    && Distinct(names) && Distinct(q.order)
    && q.seen == p.seen + Elements(names)
    && (forall b :: b in q.order <==> b in p.order || HasBase(v, names, b))
  }

  ghost predicate HasBase(v: Naming, names: seq<string>, b: string) {
    exists n :: n in names && v.base(n) == b
  }

  lemma AppendDistinct(order: seq<string>, b: string)
    requires Distinct(order) && b !in order
    ensures Distinct(order + [b])
  {
  }

  lemma {:induction false} PairShape(v: Naming, names: seq<string>, p: Pairing)
    requires PairFrom(v, names, p).Ok? && Distinct(p.order) && |p.order| <= MaximumPairs
    ensures Paired(v, names, p, PairFrom(v, names, p).value)
    ensures |PairFrom(v, names, p).value.order| <= MaximumPairs
    decreases |names|
  {
    if names != [] {
      var first, rest := names[0], names[1..];
      var q := WithName(v, p, first);
      if v.base(first) !in p.order { AppendDistinct(p.order, v.base(first)); }
      PairShape(v, rest, q);
      PairedOneMore(v, first, rest, p, PairFrom(v, rest, q).value);
      assert names == [first] + rest;
    }
  }

  lemma BasesOneMore(v: Naming, first: string, rest: seq<string>, b: string)
    ensures HasBase(v, [first] + rest, b) <==> b == v.base(first) || HasBase(v, rest, b)
  {
    var names := [first] + rest;
    assert first in names;
    if HasBase(v, rest, b) {
      var n :| n in rest && v.base(n) == b;
      assert n in names;
    }
  }

  lemma PairedOneMore(v: Naming, first: string, rest: seq<string>, p: Pairing, last: Pairing)
    requires v.valid(v.base(first)) && first !in p.seen && Paired(v, rest, WithName(v, p, first), last)
    ensures Paired(v, [first] + rest, p, last)
  {
    var names := [first] + rest;
    assert first !in rest;
    DistinctHead(first, rest);
    assert Elements(names) == {first} + Elements(rest);
    forall b ensures b in last.order <==> b in p.order || HasBase(v, names, b) {
      BasesOneMore(v, first, rest, b);
      assert b in WithName(v, p, first).order <==> b in p.order || b == v.base(first);
    }
  }

  // The loop succeeds when the bases are few enough.
  lemma {:induction false} PairFromSucceeds(v: Naming, names: seq<string>, p: Pairing, bases: set<string>)
    requires Distinct(names) && Distinct(p.order) && |bases| <= MaximumPairs && Elements(p.order) <= bases
    requires forall n <- names :: v.valid(v.base(n)) && n !in p.seen && v.base(n) in bases
    ensures PairFrom(v, names, p).Ok?
    decreases |names|
  {
    if names != [] {
      var first, rest := names[0], names[1..];
      assert names == [first] + rest;
      DistinctHead(first, rest);
      var q := WithName(v, p, first);
      if v.base(first) !in p.order { AppendDistinct(p.order, v.base(first)); }
      assert first in names;
      DistinctSize(q.order);
      SubsetSize(Elements(q.order), bases);
      PairFromSucceeds(v, rest, q, bases);
    }
  }

  lemma {:induction false} ArchivesAreOrder(v: Naming, order: seq<string>)
    ensures Archives(Pairs(v, order)) == order
    decreases |order|
  {
    if order != [] {
      assert Pairs(v, order)[1..] == Pairs(v, order[1..]);
      ArchivesAreOrder(v, order[1..]);
    }
  }

  lemma OrderedPairs(v: Naming, p: Pairing, b: string)
    ensures b in p.order <==> Pair(b, v.check(b)) in Pairs(v, p.order)
    ensures forall x <- Pairs(v, p.order) :: x.archive in p.order && x.checksum == v.check(x.archive)
  {
    var pairs := Pairs(v, p.order);
    if b in p.order {
      var k :| 0 <= k < |p.order| && p.order[k] == b;
      assert pairs[k] == Pair(b, v.check(b));
    }
  }

  // The names are those of the pairs.
  lemma PairedNames(v: Naming, names: seq<string>, p: Pairing, n: string)
    requires Lawful(v) && Paired(v, names, Pairing([], {}), p) && Complete(v, p)
    ensures n in Flattened(Pairs(v, p.order)) <==> n in names
  {
    var pairs := Pairs(v, p.order);
    FlattenedHolds(pairs, n);
    OrderedPairs(v, p, v.base(n));
    assert n in p.seen <==> n in names;
    if n in names {
      assert HasBase(v, names, v.base(n));
      assert n == v.base(n) || n == v.check(v.base(n));
    }
  }

  lemma PairsAreGood(v: Naming, names: seq<string>, p: Pairing)
    requires Lawful(v) && Paired(v, names, Pairing([], {}), p) && Complete(v, p) && |p.order| <= MaximumPairs
    ensures GoodPairs(v, Pairs(v, p.order)) && multiset(Flattened(Pairs(v, p.order))) == multiset(names)
  {
    var pairs := Pairs(v, p.order);
    ArchivesAreOrder(v, p.order);
    OrderedPairs(v, p, "");
    forall x | x in pairs ensures v.valid(x.archive) && x.checksum == v.check(x.archive) {
      assert HasBase(v, names, x.archive);
    }
    FlattenedDistinct(v, pairs);
    forall n ensures n in Elements(Flattened(pairs)) <==> n in Elements(names) {
      PairedNames(v, names, p, n);
    }
    SameElements(Flattened(pairs), names);
  }

  lemma BaseOfPaired(v: Naming, pairs: seq<Pair>, n: string)
    requires Lawful(v) && GoodPairs(v, pairs) && n in Flattened(pairs)
    ensures v.valid(v.base(n)) && v.base(n) in Archives(pairs)
  {
    FlattenedHolds(pairs, n);
    ArchivesOf(pairs);
    var p :| p in pairs && (n == p.archive || n == p.checksum);
    assert v.base(v.check(p.archive)) == p.archive;
  }

  lemma BothNames(v: Naming, pairs: seq<Pair>, b: string)
    requires GoodPairs(v, pairs) && b in Archives(pairs)
    ensures b in Flattened(pairs) && v.check(b) in Flattened(pairs)
  {
    ArchivesOf(pairs);
    FlattenedHolds(pairs, b);
    FlattenedHolds(pairs, v.check(b));
  }

  lemma GoodPairsPair(v: Naming, names: seq<string>, pairs: seq<Pair>)
    requires Lawful(v) && GoodPairs(v, pairs) && multiset(Flattened(pairs)) == multiset(names)
    ensures PairAll(v, names).Ok?
  {
    FlattenedDistinct(v, pairs);
    SameCounts(names, Flattened(pairs));
    ArchivesOf(pairs);
    var bases := Elements(Archives(pairs));
    DistinctSize(Archives(pairs));
    forall n | n in names ensures v.valid(v.base(n)) && v.base(n) in bases {
      assert n in Elements(names);
      BaseOfPaired(v, pairs, n);
    }
    PairFromSucceeds(v, names, Pairing([], {}), bases);
    PairShape(v, names, Pairing([], {}));
    var p := PairFrom(v, names, Pairing([], {})).value;
    forall b | b in p.order ensures b in p.seen && v.check(b) in p.seen {
      assert HasBase(v, names, b);
      BothNames(v, pairs, b);
      assert b in Elements(names) && v.check(b) in Elements(names);
    }
  }

  lemma PairAllExactly(v: Naming, names: seq<string>)
    requires Lawful(v)
    ensures PairAll(v, names).Ok? <==> exists pairs :: PairsAre(v, names, pairs)
    ensures PairAll(v, names).Ok? ==> PairsAre(v, names, PairAll(v, names).value)
  {
    if PairAll(v, names).Ok? {
      PairShape(v, names, Pairing([], {}));
      PairsAreGood(v, names, PairFrom(v, names, Pairing([], {})).value);
      assert PairsAre(v, names, PairAll(v, names).value);
    }
    forall pairs | PairsAre(v, names, pairs) ensures PairAll(v, names).Ok? {
      GoodPairsPair(v, names, pairs);
    }
  }

  // The names are, in some order, those of these pairs.
  ghost predicate PairsAre(v: Naming, names: seq<string>, pairs: seq<Pair>) {
    GoodPairs(v, pairs) && multiset(Flattened(pairs)) == multiset(names)
  }

  // Pairing succeeds exactly when the names are, in some order, those of up to
  // sixteen complete pairs of the version, and returns such pairs.
  lemma PairsExactly(names: seq<string>, version: string)
    ensures NativePairs(names, version).Ok? <==>
      IsSemver(version) && exists pairs :: PairsAre(Native(version), names, pairs)
    ensures NativePairs(names, version).Ok? ==> PairsAre(Native(version), names, NativePairs(names, version).value)
  {
    NativeIsLawful(version);
    PairAllExactly(Native(version), names);
  }

  // ----------------------------------------------------------- a release's assets

  lemma CountCons(first: string, rest: seq<string>, n: string)
    ensures multiset([first] + rest)[n] == multiset(rest)[n] + (if n == first then 1 else 0)
  {
    assert multiset([first] + rest) == multiset{first} + multiset(rest);
  }

  lemma {:induction false} NativesCount(names: seq<string>, a: string, b: string, n: string)
    ensures multiset(Natives(names, a, b))[n] == if n == a || n == b then 0 else multiset(names)[n]
    decreases |names|
  {
    if names != [] {
      var first, rest := names[0], names[1..];
      NativesCount(rest, a, b, n);
      assert names == [first] + rest;
      CountCons(first, rest, n);
      if first == a || first == b {
        assert Natives(names, a, b) == Natives(rest, a, b);
      } else {
        CountCons(first, Natives(rest, a, b), n);
      }
    }
  }

  // The assets are the two artifacts and the names of these pairs.
  ghost predicate NamesAre(v: Naming, names: seq<string>, a: string, b: string, pairs: seq<Pair>) {
    GoodPairs(v, pairs) && multiset(names) == multiset{a, b} + multiset(Flattened(pairs))
  }

  // The assets are the tarball, the sums and the names of these pairs.
  ghost predicate AssetsAre(names: seq<string>, version: string, pairs: seq<Pair>) {
    NamesAre(Native(version), names, TarballName(version), SumsName, pairs)
  }

  // No archive and no checksum is called so.
  ghost predicate Apart(v: Naming, n: string) {
    forall b :: v.valid(b) ==> n != b && n != v.check(b)
  }

  lemma ArtifactsAreApart(version: string)
    ensures Apart(Native(version), TarballName(version)) && Apart(Native(version), SumsName)
    ensures TarballName(version) != SumsName
  {
    forall b | Native(version).valid(b) ensures b[0] == 'x' && Native(version).check(b)[0] == 'x' {
      assert Prefix(version)[0] == 'x';
    }
    assert TarballName(version)[0] == 'h' && SumsName[0] == 'S';
  }

  lemma ApartFromPairs(v: Naming, pairs: seq<Pair>, n: string)
    requires GoodPairs(v, pairs) && Apart(v, n)
    ensures n !in Flattened(pairs)
  {
    FlattenedHolds(pairs, n);
  }

  // With both artifacts there once, the rest are the natives.
  lemma ArtifactsAside(names: seq<string>, a: string, b: string)
    requires a != b && Distinct(names) && a in names && b in names
    ensures multiset(names) == multiset{a, b} + multiset(Natives(names, a, b))
  {
    DistinctCounts(names);
    forall n ensures multiset(names)[n] == (multiset{a, b} + multiset(Natives(names, a, b)))[n] {
      NativesCount(names, a, b, n);
    }
  }

  // Names made of two others and natives: their natives are those.
  lemma NativesAre(names: seq<string>, a: string, b: string, natives: seq<string>)
    requires a != b && Distinct(natives) && a !in natives && b !in natives
    requires multiset(names) == multiset{a, b} + multiset(natives)
    ensures Distinct(names) && |names| == 2 + |natives| && a in names && b in names
    ensures multiset(Natives(names, a, b)) == multiset(natives)
  {
    var all := [a] + ([b] + natives);
    DistinctHead(b, natives);
    DistinctHead(a, [b] + natives);
    assert multiset(all) == multiset{a, b} + multiset(natives);
    SameCounts(names, all);
    assert a in Elements(all) && b in Elements(all);
    forall n ensures multiset(Natives(names, a, b))[n] == multiset(natives)[n] {
      NativesCount(names, a, b, n);
    }
  }

  lemma ParseNamesIs(v: Naming, names: seq<string>, a: string, b: string, n: nat)
    requires |names| == 2 + 2 * n && n <= MaximumPairs && Distinct(names) && a in names && b in names
    requires PairAll(v, Natives(names, a, b)).Ok?
    ensures ParseNames(v, names, a, b).Ok?
  {
  }

  lemma NamesBesideTwo(v: Naming, names: seq<string>, a: string, b: string, pairs: seq<Pair>)
    requires Lawful(v) && a != b && Apart(v, a) && Apart(v, b) && NamesAre(v, names, a, b, pairs)
    ensures Distinct(names) && |names| == 2 + 2 * |pairs| && a in names && b in names
    ensures multiset(Natives(names, a, b)) == multiset(Flattened(pairs))
  {
    ApartFromPairs(v, pairs, a);
    ApartFromPairs(v, pairs, b);
    FlattenedDistinct(v, pairs);
    FlattenedHolds(pairs, a);
    NativesAre(names, a, b, Flattened(pairs));
  }

  lemma NamesAccepted(v: Naming, names: seq<string>, a: string, b: string, pairs: seq<Pair>)
    requires Lawful(v) && a != b && Apart(v, a) && Apart(v, b) && NamesAre(v, names, a, b, pairs)
    ensures ParseNames(v, names, a, b).Ok?
  {
    NamesBesideTwo(v, names, a, b, pairs);
    GoodPairsPair(v, Natives(names, a, b), pairs);
    ParseNamesIs(v, names, a, b, |pairs|);
  }

  lemma NamesExactly(v: Naming, names: seq<string>, a: string, b: string)
    requires Lawful(v) && a != b && Apart(v, a) && Apart(v, b)
    ensures ParseNames(v, names, a, b).Ok? <==> exists pairs :: NamesAre(v, names, a, b, pairs)
    ensures ParseNames(v, names, a, b).Ok? ==> NamesAre(v, names, a, b, ParseNames(v, names, a, b).value)
  {
    if ParseNames(v, names, a, b).Ok? {
      PairAllExactly(v, Natives(names, a, b));
      ArtifactsAside(names, a, b);
      assert NamesAre(v, names, a, b, ParseNames(v, names, a, b).value);
    }
    forall pairs | NamesAre(v, names, a, b, pairs) ensures ParseNames(v, names, a, b).Ok? {
      NamesAccepted(v, names, a, b, pairs);
    }
  }

  // A release is accepted exactly when its assets are the tarball, SHA256SUMS and
  // up to sixteen complete native pairs of its version.
  lemma AssetsExactly(names: seq<string>, version: string)
    ensures ParseAssets(names, version).Ok? <==> IsSemver(version) && exists pairs :: AssetsAre(names, version, pairs)
    ensures ParseAssets(names, version).Ok? ==> AssetsAre(names, version, ParseAssets(names, version).value)
  {
    NativeIsLawful(version);
    ArtifactsAreApart(version);
    NamesExactly(Native(version), names, TarballName(version), SumsName);
    forall pairs
      ensures AssetsAre(names, version, pairs)
        <==> NamesAre(Native(version), names, TarballName(version), SumsName, pairs)
    {
    }
  }

  // ------------------------------------------------------------------- the body

  predicate FoundAt(s: string, part: string, i: nat) { i + |part| <= |s| && s[i..i + |part|] == part }

  lemma {:induction false} LastIndexIsLast(s: string, part: string, below: nat)
    requires below <= |s| + 1
    ensures match LastIndexOf(s, part, below)
      case Nowhere => forall i: nat :: i < below ==> !FoundAt(s, part, i)
      case At(k) => FoundAt(s, part, k) && forall i: nat :: k < i < below ==> !FoundAt(s, part, i)
    decreases below
  {
    if below > 0 { LastIndexIsLast(s, part, below - 1); }
  }

  // A record: one trailing comment, opened once and closed once.
  ghost predicate OneRecord(identity: string, opener: string, closer: string)
    requires closer != ""
  {
    && FoundAt(identity, opener, 0) && (forall i: nat :: i > 0 ==> !FoundAt(identity, opener, i))
    && EndsWith(identity, closer) && Count(identity, closer) == 1
  }

  ghost predicate WellFormed(identity: string) { OneRecord(identity, Opener, Closer) }

  lemma FoundInSuffix(s: string, start: nat, part: string, i: nat)
    requires start <= |s|
    ensures FoundAt(s[start..], part, i) <==> FoundAt(s, part, start + i)
  {
    if start + i + |part| <= |s| {
      assert s[start..][i..i + |part|] == s[start + i..start + i + |part|];
    }
  }

  lemma LastIndexIs(s: string, part: string, start: nat)
    requires FoundAt(s, part, start) && forall i: nat :: i > start ==> !FoundAt(s, part, i)
    ensures LastIndexOf(s, part, |s| + 1) == At(start)
  {
    LastIndexIsLast(s, part, |s| + 1);
  }

  lemma BodySplits(identity: string, notes: string, opener: string, closer: string)
    requires closer != "" && OneRecord(identity, opener, closer)
    ensures SplitAt(notes + "\n\n" + identity, opener, closer) == Ok(Body(identity, notes))
  {
    var body, start := notes + "\n\n" + identity, |notes| + 2;
    BodyParts(notes, identity, closer);
    OpenedLast(body, start, opener);
  }

  lemma OpenedLast(body: string, start: nat, opener: string)
    requires start <= |body| && FoundAt(body[start..], opener, 0)
    requires forall i: nat :: i > 0 ==> !FoundAt(body[start..], opener, i)
    ensures LastIndexOf(body, opener, |body| + 1) == At(start)
  {
    FoundInSuffix(body, start, opener, 0);
    forall i: nat | i > start ensures !FoundAt(body, opener, i) {
      FoundInSuffix(body, start, opener, i - start);
    }
    LastIndexIs(body, opener, start);
  }

  lemma BodyParts(notes: string, identity: string, closer: string)
    requires EndsWith(identity, closer)
    ensures var body, start := notes + "\n\n" + identity, |notes| + 2;
      && body[start..] == identity && EndsWith(body[..start], "\n\n")
      && body[..start][..start - 2] == notes && EndsWith(body, closer)
  {
    var body, start := notes + "\n\n" + identity, |notes| + 2;
    assert body[..start] == notes + "\n\n";
    assert body[|body| - |closer|..] == identity[|identity| - |closer|..];
  }

  lemma SuffixEnds(s: string, start: nat, part: string)
    requires EndsWith(s, part) && start + |part| <= |s|
    ensures EndsWith(s[start..], part)
  {
    assert s[start..][|s| - start - |part|..] == s[|s| - |part|..];
  }

  lemma EndsApart(s: string, part: string)
    requires EndsWith(s, part)
    ensures s == s[..|s| - |part|] + part
  {
  }

  lemma LastOpened(body: string, start: nat, opener: string)
    requires LastIndexOf(body, opener, |body| + 1) == At(start)
    ensures FoundAt(body[start..], opener, 0)
    ensures forall i: nat :: i > 0 ==> !FoundAt(body[start..], opener, i)
  {
    LastIndexIsLast(body, opener, |body| + 1);
    FoundInSuffix(body, start, opener, 0);
    forall i: nat | i > 0 ensures !FoundAt(body[start..], opener, i) {
      FoundInSuffix(body, start, opener, i);
    }
  }

  lemma SplitIsBody(body: string, opener: string, closer: string)
    requires closer != "" && |closer| <= |opener| && SplitAt(body, opener, closer).Ok?
    ensures var Body(identity, notes) := SplitAt(body, opener, closer).value;
      OneRecord(identity, opener, closer) && body == notes + "\n\n" + identity
  {
    var start := LastIndexOf(body, opener, |body| + 1).index;
    LastOpened(body, start, opener);
    SuffixEnds(body, start, closer);
    EndsApart(body[..start], "\n\n");
    assert body[..start][..start - 2] == body[..start - 2];
    assert body == body[..start] + body[start..];
  }

  // A body splits into notes and identity exactly when it is the notes, a blank
  // line and a well-formed identity, whatever the notes hold.
  lemma SplitsExactly(body: string, identity: string, notes: string)
    ensures SplitBody(body) == Ok(Body(identity, notes)) <==>
      WellFormed(identity) && body == notes + "\n\n" + identity
  {
    if SplitBody(body) == Ok(Body(identity, notes)) { SplitIsBody(body, Opener, Closer); }
    if WellFormed(identity) { BodySplits(identity, notes, Opener, Closer); }
  }

  // For a well-formed identity a body is accepted exactly when it is the notes,
  // a blank line and that identity.
  lemma AssertsExactly(body: string, notes: string, identity: string)
    requires WellFormed(identity)
    ensures AssertBody(body, notes, identity) <==> body == notes + "\n\n" + identity
  {
    SplitsExactly(body, identity, notes);
  }

  // What is built is accepted.
  lemma BuiltIsAccepted(notes: string, identity: string)
    requires WellFormed(identity) && ReleaseBody(notes, identity).Ok?
    ensures AssertBody(ReleaseBody(notes, identity).value, notes, identity)
  {
    AssertsExactly(notes + "\n\n" + identity, notes, identity);
  }

  // ---------------------------------------------------------------- the identity

  lemma NumeralIsPlain(s: string)
    requires IsNumeral(s)
    ensures '<' !in s && '>' !in s
  {
  }

  lemma SemverIsPlain(version: string)
    requires IsSemver(version)
    ensures '<' !in version && '>' !in version
  {
    var first, rest := Before(version, '.'), After(version, '.');
    var second, third := Before(rest, '.'), After(rest, '.');
    NumeralIsPlain(first);
    NumeralIsPlain(second);
    NumeralIsPlain(third);
    assert version == first + "." + rest by { PartsOf(version); }
    assert rest == second + "." + third by { PartsOf(rest); }
  }

  lemma PartsOf(s: string)
    requires '.' in s
    ensures s == Before(s, '.') + "." + After(s, '.')
  {
    assert s[..|s|] == s;
  }

  lemma {:induction false} ClosedOnce(s: string)
    requires EndsWith(s, Closer) && '>' !in s[..|s| - 1]
    ensures Count(s, Closer) == 1
    decreases |s|
  {
    if |s| == |Closer| {
      assert s[..|Closer|] == s;
      assert Count(s[|Closer|..], Closer) == 0;
    } else {
      assert s[2] == s[..|s| - 1][2];
      assert s[..|Closer|][2] == s[2] != Closer[2];
      assert s[1..][..|s[1..]| - 1] == s[..|s| - 1][1..];
      assert s[1..][|s[1..]| - |Closer|..] == s[|s| - |Closer|..];
      ClosedOnce(s[1..]);
    }
  }

  lemma OpenedOnce(opener: string, inner: string)
    requires opener != "" && opener[0] == '<' && '<' !in opener[1..] && '<' !in inner
    ensures FoundAt(opener + inner, opener, 0)
    ensures forall i: nat :: i > 0 ==> !FoundAt(opener + inner, opener, i)
  {
    var s := opener + inner;
    assert s[0..|opener|] == opener;
    forall i: nat | 0 < i < |s| ensures s[i] != '<' {
      if i < |opener| { assert s[i] == opener[1..][i - 1]; }
    }
    forall i: nat | i > 0 ensures !FoundAt(s, opener, i) {
      if i + |opener| <= |s| { assert s[i..i + |opener|][0] == s[i] != opener[0]; }
    }
  }

  lemma OpenerOpens()
    ensures Opener != "" && Opener[0] == '<' && '<' !in Opener[1..]
  {
    assert Opener[1..] == "!-- Automated public release of ";
  }

  lemma OpenerDoesNotClose()
    ensures '>' !in Opener
  {
  }

  lemma Closing(s: string)
    requires '>' !in s
    ensures EndsWith(s + Closer, Closer) && Count(s + Closer, Closer) == 1
  {
    assert (s + Closer)[|s|..] == Closer;
    assert (s + Closer)[..|s| + 2] == s + "--";
    ClosedOnce(s + Closer);
  }

  lemma OneComment(opener: string, inner: string)
    requires opener != "" && opener[0] == '<' && '<' !in opener[1..] && '<' !in inner
    requires '>' !in opener && '>' !in inner
    ensures var s := opener + inner + Closer;
      && FoundAt(s, opener, 0) && (forall i: nat :: i > 0 ==> !FoundAt(s, opener, i))
      && EndsWith(s, Closer) && Count(s, Closer) == 1
  {
    assert opener + inner + Closer == opener + (inner + Closer);
    OpenedOnce(opener, inner + Closer);
    Closing(opener + inner);
  }

  lemma InnerIsPlain(name: string, version: string, tag: string)
    requires '<' !in name && '>' !in name && '<' !in version && '>' !in version && tag == "v" + version
    ensures var inner := name + "@" + version + " from " + tag + ". "; '<' !in inner && '>' !in inner
  {
  }

  // The record of every version is well-formed, for a package name that holds no
  // angle brackets.
  lemma IdentityIsWellFormed(name: string, version: string, tag: string)
    requires '<' !in name && '>' !in name && IdentityRecord(name, version, tag).Ok?
    ensures WellFormed(IdentityRecord(name, version, tag).value)
  {
    SemverIsPlain(version);
    OpenerOpens();
    OpenerDoesNotClose();
    InnerIsPlain(name, version, tag);
    OneComment(Opener, name + "@" + version + " from " + tag + ". ");
  }

  // -------------------------------------------------------------- names, spelled out

  lemma {:induction false} CutAtFirst(a: string, c: char, b: string)
    requires c !in a
    ensures Before(a + [c] + b, c) == a && After(a + [c] + b, c) == b
    decreases |a|
  {
    var s := a + [c] + b;
    if a != "" {
      assert s[1..] == a[1..] + [c] + b;
      CutAtFirst(a[1..], c, b);
      IndexIs(a[1..], c, b);
    }
    IndexIs(a, c, b);
  }

  lemma {:induction false} IndexIs(a: string, c: char, b: string)
    requires c !in a
    ensures IndexOf(a + [c] + b, c) == |a|
    decreases |a|
  {
    if a != "" {
      assert (a + [c] + b)[1..] == a[1..] + [c] + b;
      IndexIs(a[1..], c, b);
    }
  }

  lemma Glued(s: string, c: char)
    requires c in s
    ensures s == Before(s, c) + [c] + After(s, c) && c !in Before(s, c)
  {
    assert s[..|s|] == s;
  }

  // A target: a system and a machine, as a zip file for Windows and a tarball for
  // any other.
  function Target(os: string, arch: string): string {
    os + "-" + arch + (if os == "windows" then ".zip" else ".tar.gz")
  }

  lemma TargetReads(os: string, arch: string)
    requires IsSystem(os) && IsMachine(arch)
    ensures IsTarget(Target(os, arch))
  {
    TargetGlued(os, arch);
    CutAtFirst(os, '-', arch + ['.'] + Extension(os));
    CutAtFirst(arch, '.', Extension(os));
  }

  function Extension(os: string): string { if os == "windows" then "zip" else "tar.gz" }

  lemma TargetGlued(os: string, arch: string)
    ensures Target(os, arch) == os + ['-'] + (arch + ['.'] + Extension(os))
  {
    var dotted := if os == "windows" then ".zip" else ".tar.gz";
    assert dotted == ['.'] + Extension(os);
    assert os + "-" + arch + dotted == os + ['-'] + (arch + dotted);
    assert arch + dotted == arch + ['.'] + Extension(os);
  }

  lemma TargetShape(s: string)
    requires IsTarget(s)
    ensures s == Target(Before(s, '-'), Before(After(s, '-'), '.'))
  {
    Glued(s, '-');
    Glued(After(s, '-'), '.');
    TargetGlued(Before(s, '-'), Before(After(s, '-'), '.'));
  }

  // The archives of a version are those of a system and a machine.
  lemma ArchiveExactly(name: string, version: string)
    ensures IsArchive(name, version) <==>
      exists os, arch :: IsSystem(os) && IsMachine(arch) && name == "xcb-" + version + "-" + Target(os, arch)
  {
    if IsArchive(name, version) {
      var s := name[|Prefix(version)|..];
      TargetShape(s);
      Prefixed(name, Prefix(version), s);
    }
    forall os, arch | IsSystem(os) && IsMachine(arch) && name == "xcb-" + version + "-" + Target(os, arch)
      ensures IsArchive(name, version)
    {
      TargetReads(os, arch);
      Prefixed(name, Prefix(version), Target(os, arch));
    }
  }

  lemma Prefixed(name: string, prefix: string, rest: string)
    ensures name == prefix + rest <==> prefix <= name && name[|prefix|..] == rest
  {
  }

  lemma SemverShape(version: string) returns (a: nat, b: nat, c: nat)
    requires IsSemver(version)
    ensures version == Decimal(a) + "." + Decimal(b) + "." + Decimal(c)
  {
    var rest := After(version, '.');
    var x, y, z := Before(version, '.'), Before(rest, '.'), After(rest, '.');
    Glued(version, '.');
    Glued(rest, '.');
    PointsGlued(x, y, z);
    NumeralIsDecimal(x);
    NumeralIsDecimal(y);
    NumeralIsDecimal(z);
    a, b, c := Digits(x), Digits(y), Digits(z);
  }

  lemma PointsGlued(x: string, y: string, z: string)
    ensures x + "." + y + "." + z == x + ['.'] + (y + ['.'] + z)
  {
  }

  lemma DecimalsAreSemver(a: nat, b: nat, c: nat)
    ensures IsSemver(Decimal(a) + "." + Decimal(b) + "." + Decimal(c))
  {
    DecimalIsNumeral(a);
    DecimalIsNumeral(b);
    DecimalIsNumeral(c);
    NumeralsAreSemver(Decimal(a), Decimal(b), Decimal(c));
  }

  lemma NumeralsAreSemver(a: string, b: string, c: string)
    requires IsNumeral(a) && IsNumeral(b) && IsNumeral(c)
    ensures IsSemver(a + "." + b + "." + c)
  {
    PointsGlued(a, b, c);
    CutAtFirst(a, '.', b + ['.'] + c);
    CutAtFirst(b, '.', c);
  }

  // The versions are three decimal numbers with points between them.
  lemma SemverExactly(version: string)
    ensures IsSemver(version) <==>
      exists a: nat, b: nat, c: nat :: version == Decimal(a) + "." + Decimal(b) + "." + Decimal(c)
  {
    if IsSemver(version) { var a, b, c := SemverShape(version); }
    forall a: nat, b: nat, c: nat | version == Decimal(a) + "." + Decimal(b) + "." + Decimal(c)
      ensures IsSemver(version)
    {
      DecimalsAreSemver(a, b, c);
    }
  }
}
