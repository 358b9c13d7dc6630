/**
 The resumable GitHub release draft: finding it, completing its assets and
 publishing it (scripts/publish-github-release.ts), as steps between which the
 run can die.  One run is at work at a time, and nothing else changes drafts.
 */
module DraftModel {
  import opened Wrappers
  import opened Sets

  type Name = string
  type Bytes = seq<int>

  datatype Source = Source(name: Name, bytes: Bytes)

  datatype Asset = Asset(name: Name, bytes: Bytes, uploaded: bool)

  // `exact` says that tag, title, body and flags are those of the release.
  datatype Draft = Draft(exact: bool, assets: seq<Asset>)

  // ----------------------------------------------------------------- the checks

  predicate DistinctNames(sources: seq<Source>) {
    forall i, j :: 0 <= i < j < |sources| ==> sources[i].name != sources[j].name
  }

  predicate DistinctAssets(assets: seq<Asset>) {
    forall i, j :: 0 <= i < j < |assets| ==> assets[i].name != assets[j].name
  }

  predicate Expected(sources: seq<Source>, name: Name) {
    exists i :: 0 <= i < |sources| && sources[i].name == name
  }

  // A draft that may be resumed at all.
  predicate ExactDraft(draft: Draft, sources: seq<Source>) {
    && draft.exact && |draft.assets| <= |sources| && DistinctAssets(draft.assets)
    && forall i :: 0 <= i < |draft.assets| ==> Expected(sources, draft.assets[i].name)
  }

  function Find(assets: seq<Asset>, name: Name): (r: Option<Asset>)
    ensures r.Some? ==> r.value in assets && r.value.name == name
    ensures r.None? ==> forall a <- assets :: a.name != name
  {
    if assets == [] then None
    else if assets[0].name == name then Some(assets[0])
    else Find(assets[1..], name)
  }

  predicate Holds(asset: Asset, source: Source) { asset.uploaded && asset.bytes == source.bytes }

  // Which of the sources the draft lacks; nothing when it holds another's bytes.
  function Missing(assets: seq<Asset>, sources: seq<Source>): Option<seq<Source>> {
    if sources == [] then Some([])
    else
      var asset, rest := Find(assets, sources[0].name), Missing(assets, sources[1..]);
      if asset.Some? && !Holds(asset.value, sources[0]) then None
      else if rest.None? then None
      else Some((if asset.None? then [sources[0]] else []) + rest.value)
  }

  method VerifyDraftAssets(assets: seq<Asset>, sources: seq<Source>) returns (missing: Option<seq<Source>>)
    ensures missing == Missing(assets, sources)
  {
    var found: seq<Source> := [];
    ghost var all := Missing(assets, sources);
    assert sources[0..] == sources;
    PrependedNothing(all);
    for i := 0 to |sources|
      invariant all == Prepended(found, Missing(assets, sources[i..]))
    {
      assert sources[i..][1..] == sources[i + 1..];
      PrependedTwice(assets, sources[i..], found);
      var asset := Find(assets, sources[i].name);
      if asset == None {
        found := found + [sources[i]];
      } else if !Holds(asset.value, sources[i]) {
        return None;
      } else {
        assert found + [] == found;
      }
    }
    assert found + [] == found;
    return Some(found);
  }

  function Prepended(found: seq<Source>, r: Option<seq<Source>>): Option<seq<Source>> {
    if r.None? then None else Some(found + r.value)
  }

  lemma PrependedNothing(r: Option<seq<Source>>)
    ensures Prepended([], r) == r
  {
    if r.Some? { assert [] + r.value == r.value; }
  }

  lemma PrependedTwice(assets: seq<Asset>, sources: seq<Source>, found: seq<Source>)
    requires sources != []
    ensures var asset := Find(assets, sources[0].name);
      Prepended(found, Missing(assets, sources))
        == if asset.Some? && !Holds(asset.value, sources[0]) then None
           else Prepended(found + (if asset.None? then [sources[0]] else []), Missing(assets, sources[1..]))
  {
    var rest := Missing(assets, sources[1..]);
    if rest.Some? {
      assert found + ([sources[0]] + rest.value) == found + [sources[0]] + rest.value;
      assert found + ([] + rest.value) == found + [] + rest.value;
    }
  }

  // ------------------------------------------------------------------ the steps

  datatype Call = Created(id: nat) | Uploaded(id: nat, name: Name) | Published(id: nat)

  // The drafts of the tag, those of them that the list shows, and the published
  // assets; and the calls that changed them.
  datatype Remote = Remote(drafts: map<nat, Draft>, listed: set<nat>, published: Option<seq<Asset>>, calls: seq<Call>)

  datatype Phase =
    | Idle
    | Looking(attempt: nat)
    | Creating
    | Found(id: nat)
    | Uploading(id: nat, current: Draft, missing: seq<Source>)
    | Rereading(id: nat, source: Source, rest: seq<Source>)
    | Patching(id: nat)

  datatype State = State(remote: Remote, phase: Phase)

  // What the release by its tag is said to be.
  datatype Answer = IsPublished | IsDraft(id: nat) | NotFound

  datatype Event =
    | Begin(answer: Answer)
    | Look
    | Create(id: nat)
    | Resume
    | Upload
    | Reread
    | Finish
    | Patch
    | Stop
    | List(id: nat)

  const Attempts: nat := 6

  // A draft's number is used once.
  function Numbers(calls: seq<Call>): set<nat> { set c <- calls :: c.id }

  function Listed(r: Remote): set<nat> { set id <- r.listed | id in r.drafts }

  predicate Enabled(s: State, e: Event) {
    match e
    case Begin(answer) =>
      && s.phase.Idle?
      && (match answer
          case IsPublished => s.remote.published.Some?
          case IsDraft(id) => id in s.remote.drafts
          case NotFound => s.remote.published.None?)
    case Look => s.phase.Looking?
    case Create(id) => s.phase.Creating? && id !in s.remote.drafts && id !in Numbers(s.remote.calls)
    case Resume => s.phase.Found?
    case Upload => s.phase.Uploading? && s.phase.missing != []
    case Reread => s.phase.Rereading?
    case Finish => s.phase.Uploading? && s.phase.missing == []
    case Patch => s.phase.Patching? && s.phase.id in s.remote.drafts
    case Stop => true
    case List(id) => id in s.remote.drafts
  }

  function WithAsset(r: Remote, id: nat, source: Source): Remote
    requires id in r.drafts
  {
    var draft := r.drafts[id];
    r.(drafts := r.drafts[id := draft.(assets := draft.assets + [Asset(source.name, source.bytes, true)])],
       calls := r.calls + [Uploaded(id, source.name)])
  }

  // findDraft, and what follows from what it finds.
  ghost function AfterLook(r: Remote, attempt: nat, sources: seq<Source>): Phase {
    if |Listed(r)| > 1 then Idle
    else if |Listed(r)| == 1 then
      var id :| id in Listed(r);
      if ExactDraft(r.drafts[id], sources) then Found(id) else Idle
    else if attempt == 0 then Creating
    else if attempt < Attempts then Looking(attempt + 1)
    else Idle
  }

  function AfterResume(r: Remote, id: nat, sources: seq<Source>): Phase {
    if id !in r.drafts || !ExactDraft(r.drafts[id], sources) then Idle
    else
      var missing := Missing(r.drafts[id].assets, sources);
      if missing.None? then Idle else Uploading(id, r.drafts[id], missing.value)
  }

  function AfterReread(r: Remote, id: nat, source: Source, rest: seq<Source>, sources: seq<Source>): Phase {
    if id !in r.drafts || !ExactDraft(r.drafts[id], sources) then Idle
    else if Missing(r.drafts[id].assets, [source]) != Some([]) then Idle
    else Uploading(id, r.drafts[id], rest)
  }

  ghost function Next(s: State, e: Event, sources: seq<Source>): State
    requires Enabled(s, e)
  {
    var r := s.remote;
    match e
    case Begin(answer) =>
      s.(phase := match answer
         case IsPublished => Idle
         case IsDraft(id) => if ExactDraft(r.drafts[id], sources) then Found(id) else Idle
         case NotFound => Looking(0))
    case Look => s.(phase := AfterLook(r, s.phase.attempt, sources))
    case Create(id) =>
      State(r.(drafts := r.drafts[id := Draft(true, [])], calls := r.calls + [Created(id)]), Looking(1))
    case Resume => s.(phase := AfterResume(r, s.phase.id, sources))
    case Upload =>
      var id, source := s.phase.id, s.phase.missing[0];
      // A name that is taken is refused.
      if id !in r.drafts || Find(r.drafts[id].assets, source.name).Some? then s.(phase := Idle)
      else State(WithAsset(r, id, source), Rereading(id, source, s.phase.missing[1..]))
    case Reread => s.(phase := AfterReread(r, s.phase.id, s.phase.source, s.phase.rest, sources))
    case Finish =>
      s.(phase := if Missing(s.phase.current.assets, sources) == Some([]) then Patching(s.phase.id) else Idle)
    case Patch =>
      var id := s.phase.id;
      State(r.(drafts := r.drafts - {id}, published := Some(r.drafts[id].assets), calls := r.calls + [Published(id)]),
            Idle)
    case Stop => s.(phase := Idle)
    case List(id) => s.(remote := r.(listed := r.listed + {id}))
  }

  ghost predicate IsRun(s: State, events: seq<Event>, last: State, sources: seq<Source>)
    decreases |events|
  {
    if events == [] then last == s
    else Enabled(s, events[0]) && IsRun(Next(s, events[0], sources), events[1..], last, sources)
  }

  // ----------------------------------------------------------- without dying

  function AllUploaded(r: Remote, id: nat, sources: seq<Source>): Remote
    requires id in r.drafts
    decreases |sources|
  {
    if sources == [] then r else AllUploaded(WithAsset(r, id, sources[0]), id, sources[1..])
  }

  /** The remote side as one run that is not interrupted sees it. */
  class GitHub {
    var remote: Remote

    constructor (remote: Remote)
      ensures this.remote == remote
    {
      this.remote := remote;
    }

    method UploadAsset(id: nat, source: Source)
      requires id in remote.drafts
      modifies this
      ensures remote == WithAsset(old(remote), id, source)
    {
      remote := WithAsset(remote, id, source);
    }

    // Prove what is there once, then each upload by itself.
    method CompleteDraftAssets(id: nat, sources: seq<Source>) returns (r: Option<Draft>)
      requires DistinctNames(sources)
      modifies this
      ensures r.Some? <==>
        && id in old(remote).drafts && ExactDraft(old(remote).drafts[id], sources)
        && Missing(old(remote).drafts[id].assets, sources).Some?
      ensures r.None? ==> remote == old(remote)
      ensures r.Some? ==>
        && remote == AllUploaded(old(remote), id, Missing(old(remote).drafts[id].assets, sources).value)
        && id in remote.drafts && r.value == remote.drafts[id]
        && ExactDraft(r.value, sources) && Missing(r.value.assets, sources) == Some([])
    {
      if id !in remote.drafts || !ExactDraft(remote.drafts[id], sources) { return None; }
      var current := remote.drafts[id];
      var missing := VerifyDraftAssets(current.assets, sources);
      if missing == None { return None; }
      ghost var all := AllUploaded(remote, id, missing.value);
      assert missing.value[0..] == missing.value;
      for i := 0 to |missing.value|
        invariant Completing(remote, id, current, missing.value[i..], all, sources)
      {
        OneUpload(remote, id, current, missing.value[i..], all, sources);
        assert missing.value[i..][1..] == missing.value[i + 1..];
        UploadAsset(id, missing.value[i]);
        // Read again: the draft is still exact, and now holds this source.
        current := remote.drafts[id];
      }
      return Some(current);
    }
  }

  // The draft is `current`, lacks `missing`, and will be as in `all`.
  ghost predicate Completing(r: Remote, id: nat, current: Draft, missing: seq<Source>, all: Remote,
                             sources: seq<Source>)
  {
    && id in r.drafts && r.drafts[id] == current && ExactDraft(current, sources)
    && Missing(current.assets, sources) == Some(missing)
    && AllUploaded(r, id, missing) == all
  }

  lemma OneUpload(r: Remote, id: nat, current: Draft, missing: seq<Source>, all: Remote, sources: seq<Source>)
    requires DistinctNames(sources) && missing != [] && Completing(r, id, current, missing, all, sources)
    ensures Find(current.assets, missing[0].name).None?
    ensures var r' := WithAsset(r, id, missing[0]);
      Completing(r', id, r'.drafts[id], missing[1..], all, sources)
  {
    assert missing == [missing[0]] + missing[1..];
    UploadedIsNoLongerMissing(current, sources, missing[0], missing[1..]);
  }

  function AssetNames(assets: seq<Asset>): set<Name> { set a <- assets :: a.name }
  function SourceNames(sources: seq<Source>): set<Name> { set s <- sources :: s.name }

  lemma {:induction false} DistinctAssetsCount(assets: seq<Asset>)
    requires DistinctAssets(assets)
    ensures |AssetNames(assets)| == |assets|
    decreases |assets|
  {
    if assets != [] {
      var a, rest := assets[0], assets[1..];
      DistinctAssetsCount(rest);
      assert assets == [a] + rest;
      assert AssetNames(assets) == {a.name} + AssetNames(rest);
      forall i | 0 <= i < |rest| ensures rest[i].name != a.name { assert assets[0].name != assets[i + 1].name; }
      assert a.name !in AssetNames(rest);
    }
  }

  lemma {:induction false} SourceNamesCount(sources: seq<Source>)
    ensures |SourceNames(sources)| <= |sources|
    decreases |sources|
  {
    if sources != [] {
      SourceNamesCount(sources[1..]);
      assert sources == [sources[0]] + sources[1..];
      assert SourceNames(sources) == {sources[0].name} + SourceNames(sources[1..]);
    }
  }

  // There is room for one more in an exact draft that lacks a source.
  lemma RoomForOneMore(assets: seq<Asset>, sources: seq<Source>, source: Source)
    requires DistinctAssets(assets) && source in sources && Find(assets, source.name).None?
    requires forall i :: 0 <= i < |assets| ==> Expected(sources, assets[i].name)
    ensures |assets| < |sources|
  {
    DistinctAssetsCount(assets);
    SourceNamesCount(sources);
    forall a | a in assets ensures a.name in SourceNames(sources) {
      var i :| 0 <= i < |assets| && assets[i] == a;
      assert Expected(sources, assets[i].name);
    }
    SubsetSize(AssetNames(assets) + {source.name}, SourceNames(sources));
    assert source.name !in AssetNames(assets);
  }

  lemma UploadedIsNoLongerMissing(draft: Draft, sources: seq<Source>, source: Source, rest: seq<Source>)
    requires DistinctNames(sources) && ExactDraft(draft, sources)
    requires Missing(draft.assets, sources) == Some([source] + rest)
    ensures Find(draft.assets, source.name).None?
    ensures var after := draft.(assets := draft.assets + [Asset(source.name, source.bytes, true)]);
      ExactDraft(after, sources) && Missing(after.assets, sources) == Some(rest)
  {
    MissingIsSo(draft.assets, sources);
    assert source in [source] + rest;
    RoomForOneMore(draft.assets, sources, source);
    var k :| 0 <= k < |sources| && sources[k] == source;
    MissingAfter(draft.assets, sources, source, rest);
  }

  lemma {:induction false} MissingIsSo(assets: seq<Asset>, sources: seq<Source>)
    requires Missing(assets, sources).Some?
    ensures forall s <- Missing(assets, sources).value :: (s in sources && Find(assets, s.name).None?)
    decreases |sources|
  {
    if sources != [] { MissingIsSo(assets, sources[1..]); }
  }

  lemma {:induction false} FindAfter(assets: seq<Asset>, a: Asset, name: Name)
    ensures Find(assets + [a], name)
      == if Find(assets, name).Some? then Find(assets, name) else if a.name == name then Some(a) else None
    decreases |assets|
  {
    if assets == [] {
      assert [a][1..] == [];
    } else {
      assert (assets + [a])[1..] == assets[1..] + [a];
      FindAfter(assets[1..], a, name);
    }
  }

  // An asset that no source has the name of changes nothing.
  lemma {:induction false} OtherAssetAfter(assets: seq<Asset>, sources: seq<Source>, a: Asset)
    requires !Expected(sources, a.name)
    ensures Missing(assets + [a], sources) == Missing(assets, sources)
    decreases |sources|
  {
    if sources != [] {
      FindAfter(assets, a, sources[0].name);
      forall i | 0 <= i < |sources[1..]| ensures sources[1..][i].name != a.name {
        assert sources[i + 1].name != a.name;
      }
      OtherAssetAfter(assets, sources[1..], a);
    }
  }

  lemma MissingHead(assets: seq<Asset>, sources: seq<Source>)
    requires sources != [] && Missing(assets, sources).Some?
    ensures Missing(assets, sources[1..]).Some?
    ensures Find(assets, sources[0].name).None? ==>
      Missing(assets, sources).value == [sources[0]] + Missing(assets, sources[1..]).value
    ensures Find(assets, sources[0].name).Some? ==>
      && Missing(assets, sources) == Missing(assets, sources[1..])
      && Holds(Find(assets, sources[0].name).value, sources[0])
  {
    var rest := Missing(assets, sources[1..]).value;
    assert [] + rest == rest;
  }

  lemma HeadHeld(assets: seq<Asset>, sources: seq<Source>, rest: seq<Source>)
    requires sources != [] && Missing(assets, sources[1..]) == Some(rest)
    requires Find(assets, sources[0].name).Some? && Holds(Find(assets, sources[0].name).value, sources[0])
    ensures Missing(assets, sources) == Some(rest)
  {
    assert [] + rest == rest;
  }

  // Uploading what is first missing leaves the rest missing.
  lemma {:induction false} MissingAfter(assets: seq<Asset>, sources: seq<Source>, source: Source, rest: seq<Source>)
    requires DistinctNames(sources) && Missing(assets, sources) == Some([source] + rest)
    ensures Missing(assets + [Asset(source.name, source.bytes, true)], sources) == Some(rest)
    decreases |sources|
  {
    var a := Asset(source.name, source.bytes, true);
    MissingHead(assets, sources);
    FindAfter(assets, a, sources[0].name);
    if Find(assets, sources[0].name).None? {
      var others := Missing(assets, sources[1..]).value;
      assert source == ([sources[0]] + others)[0] == sources[0];
      assert rest == ([sources[0]] + others)[1..] == others;
      forall i | 0 <= i < |sources[1..]| ensures sources[1..][i].name != source.name {
        assert sources[0].name != sources[i + 1].name;
      }
      OtherAssetAfter(assets, sources[1..], a);
    } else {
      MissingAfter(assets, sources[1..], source, rest);
    }
    HeadHeld(assets + [a], sources, rest);
  }
}
