/**
 Which drafts can be resumed, and that a release is published from nothing even if
 its draft is listed late.
 */
module DraftProgress {
  import opened Wrappers
  import opened Sets
  import opened DraftModel
  import opened DraftLaws

  // ------------------------------------------------------------ what a draft lacks

  predicate Unnamed(assets: seq<Asset>, name: Name) { forall a <- assets :: a.name != name }

  // The sources that no asset is named after, in their order.
  function Lacking(assets: seq<Asset>, sources: seq<Source>): seq<Source> {
    if sources == [] then []
    else
      var last := sources[|sources| - 1];
      Lacking(assets, sources[..|sources| - 1]) + (if Unnamed(assets, last.name) then [last] else [])
  }

  // No asset named after a source is other than it.
  predicate NothingForeign(assets: seq<Asset>, sources: seq<Source>) {
    forall a <- assets, s <- sources :: a.name == s.name ==> a.uploaded && a.bytes == s.bytes
  }

  lemma {:induction false} LackingFirst(assets: seq<Asset>, first: Source, rest: seq<Source>)
    ensures Lacking(assets, [first] + rest)
      == (if Unnamed(assets, first.name) then [first] else []) + Lacking(assets, rest)
    decreases |rest|
  {
    var all := [first] + rest;
    if rest == [] {
      assert all[..0] == [] && all == [first];
    } else {
      var n := |rest| - 1;
      assert all[..n + 1] == [first] + rest[..n] && all[n + 1] == rest[n];
      LackingFirst(assets, first, rest[..n]);
    }
  }

  // What is missing of a draft is what no asset is named after, unless an asset is
  // named after a source and is not it: then the draft is refused.
  lemma {:induction false} MissingExactly(assets: seq<Asset>, sources: seq<Source>)
    requires DistinctAssets(assets)
    ensures Missing(assets, sources) == if NothingForeign(assets, sources) then Some(Lacking(assets, sources)) else None
    decreases |sources|
  {
    if sources != [] {
      var first, rest := sources[0], sources[1..];
      assert sources == [first] + rest;
      MissingExactly(assets, rest);
      LackingFirst(assets, first, rest);
      forall a | a in assets && a.name == first.name ensures Find(assets, first.name) == Some(a) {
        FindIsUnique(assets, a);
      }
      assert NothingForeign(assets, sources)
        <==> NothingForeign(assets, rest)
             && forall a <- assets :: a.name == first.name ==> a.uploaded && a.bytes == first.bytes;
    }
  }

  // A draft can be resumed exactly when its page is that of the release and its
  // assets are, each once, sources, byte for byte.
  lemma ResumableExactly(draft: Draft, sources: seq<Source>)
    requires DistinctNames(sources)
    ensures Resumable(draft, sources)
      <==> draft.exact && DistinctAssets(draft.assets) && forall a <- draft.assets :: Genuine(a, sources)
  {
    var assets := draft.assets;
    if DistinctAssets(assets) { MissingExactly(assets, sources); }
    if Resumable(draft, sources) {
      forall a | a in assets ensures Genuine(a, sources) {
        var i :| 0 <= i < |assets| && assets[i] == a;
        assert Expected(sources, a.name);
        var j :| 0 <= j < |sources| && sources[j].name == a.name;
        assert sources[j] in sources;
        assert Source(a.name, a.bytes) == sources[j];
      }
    }
    if draft.exact && DistinctAssets(assets) && forall a <- assets :: Genuine(a, sources) {
      GenuineIsExact(draft, sources);
      GenuineIsNotForeign(assets, sources);
    }
  }

  lemma GenuineIsNotForeign(assets: seq<Asset>, sources: seq<Source>)
    requires DistinctNames(sources) && forall a <- assets :: Genuine(a, sources)
    ensures NothingForeign(assets, sources)
  {
    forall a, s | a in assets && s in sources && a.name == s.name ensures a.uploaded && a.bytes == s.bytes {
      assert Genuine(a, sources);
      var i :| 0 <= i < |sources| && sources[i] == s;
      var j :| 0 <= j < |sources| && sources[j] == Source(a.name, a.bytes);
    }
  }

  lemma GenuineIsExact(draft: Draft, sources: seq<Source>)
    requires draft.exact && DistinctAssets(draft.assets) && forall a <- draft.assets :: Genuine(a, sources)
    ensures ExactDraft(draft, sources)
  {
    var assets := draft.assets;
    forall i | 0 <= i < |assets| ensures Expected(sources, assets[i].name) {
      assert Genuine(assets[i], sources);
      var j :| 0 <= j < |sources| && sources[j] == Source(assets[i].name, assets[i].bytes);
    }
    NoMoreAssets(assets, sources);
  }

  lemma {:induction false} NoMoreAssets(assets: seq<Asset>, sources: seq<Source>)
    requires DistinctAssets(assets) && forall a <- assets :: Genuine(a, sources)
    ensures |assets| <= |sources|
  {
    DistinctCount(assets);
    SubsetSize(Elements(assets), Wanted(sources)) by {
      forall a | a in Elements(assets) ensures a in Wanted(sources) {
        assert a in assets && Genuine(a, sources);
        var s := Source(a.name, a.bytes);
        assert Asset(s.name, s.bytes, true) == a;
      }
    }
    WantedAtMost(sources);
  }

  lemma {:induction false} DistinctCount(assets: seq<Asset>)
    requires DistinctAssets(assets)
    ensures |Elements(assets)| == |assets|
    decreases |assets|
  {
    if assets != [] {
      var rest := assets[1..];
      DistinctCount(rest);
      assert assets == [assets[0]] + rest;
      assert Elements(assets) == {assets[0]} + Elements(rest);
      forall i | 0 <= i < |rest| ensures rest[i] != assets[0] { assert assets[0].name != assets[i + 1].name; }
    }
  }

  lemma {:induction false} WantedAtMost(sources: seq<Source>)
    ensures |Wanted(sources)| <= |sources|
    decreases |sources|
  {
    if sources != [] {
      var s, rest := sources[0], sources[1..];
      WantedAtMost(rest);
      assert sources == [s] + rest;
      assert Wanted(sources) == {Asset(s.name, s.bytes, true)} + Wanted(rest);
    }
  }

  // ------------------------------------------------------------ listed late enough

  function Looks(n: nat): seq<Event> { seq(n, _ => Look) }

  // A new draft that the list does not show yet is looked for six times.
  lemma {:induction false} LooksExactly(r: Remote, n: nat, sources: seq<Source>)
    requires Listed(r) == {}
    ensures n <= 6 ==> IsRun(State(r, Looking(1)), Looks(n), State(r, if n < 6 then Looking(n + 1) else Idle), sources)
    ensures n > 6 ==> forall last :: !IsRun(State(r, Looking(1)), Looks(n), last, sources)
    decreases n
  {
    LooksFrom(r, 1, n, sources);
  }

  lemma {:induction false} LooksFrom(r: Remote, k: nat, n: nat, sources: seq<Source>)
    requires Listed(r) == {} && 1 <= k <= 6
    ensures k + n <= 7 ==>
      IsRun(State(r, Looking(k)), Looks(n), State(r, if k + n < 7 then Looking(k + n) else Idle), sources)
    ensures k + n > 7 ==> forall last :: !IsRun(State(r, Looking(k)), Looks(n), last, sources)
    decreases n
  {
    if n > 0 {
      assert Looks(n)[1..] == Looks(n - 1);
      var next := Next(State(r, Looking(k)), Look, sources);
      if k < 6 {
        assert next == State(r, Looking(k + 1));
        LooksFrom(r, k + 1, n - 1, sources);
      } else {
        assert next == State(r, Idle);
        if n > 1 { assert Looks(n - 1)[0] == Look && !Enabled(next, Look); }
      }
    }
  }

  // A run that creates the draft, and finds it when it is listed after n looks.
  function LateListing(n: nat): seq<Event> {
    [Begin(NotFound), Look, Create(1)] + Looks(n) + [List(1)] + [Look]
  }

  lemma ListedLateIsFound(sources: seq<Source>, n: nat) returns (s: State)
    requires n < 6
    ensures IsRun(Nothing, LateListing(n), s, sources)
    ensures s.phase == Found(1) && s.remote.drafts == map[1 := Draft(true, [])] && s.remote.published == None
  {
    var events;
    events, s := StepsOn([], Nothing, Begin(NotFound), sources);
    events, s := StepsOn(events, s, Look, sources);
    assert s.phase.Creating?;
    events, s := StepsOn(events, s, Create(1), sources);
    assert events == [Begin(NotFound), Look, Create(1)];
    var looked := State(s.remote, Looking(n + 1));
    LooksExactly(s.remote, n, sources);
    RunsOn(Nothing, events, s, Looks(n), looked, sources);
    events, s := StepsOn(events + Looks(n), looked, List(1), sources);
    assert Listed(s.remote) == {1};
    events, s := StepsOn(events, s, Look, sources);
  }

  // From nothing a release is published, exactly its sources, when its new draft is
  // listed before the last of the looks.
  lemma ListedLateIsPublished(sources: seq<Source>, n: nat) returns (rest: seq<Event>, last: State)
    requires DistinctNames(sources) && n < 6
    ensures IsRun(Nothing, LateListing(n) + rest, last, sources)
    ensures last.remote.published.Some? && HoldsExactly(last.remote.published.value, sources)
    ensures last.remote.drafts == map[]
  {
    var s := ListedLateIsFound(sources, n);
    EmptyDraftLacksAll(sources);
    rest := FoundPublishes(s.remote, 1, sources);
    UploadsAddCalls(s.remote, 1, sources);
    last := State(PublishedFrom(AllUploaded(s.remote, 1, sources), 1), Idle);
    RunsOn(Nothing, LateListing(n), s, rest, last, sources);
  }
}
