/**
 What is published is exactly the sources, and however often the run dies each
 asset is uploaded once.
 */
module DraftLaws {
  import opened Wrappers
  import opened Sets
  import opened DraftModel

  // The draft holds the sources, byte for byte, and nothing else.
  ghost predicate HoldsExactly(assets: seq<Asset>, sources: seq<Source>) {
    && |assets| == |sources| && DistinctAssets(assets)
    && (forall a <- assets :: Genuine(a, sources))
    && (forall s <- sources :: Asset(s.name, s.bytes, true) in assets)
  }

  predicate Genuine(a: Asset, sources: seq<Source>) {
    a.uploaded && Source(a.name, a.bytes) in sources
  }

  lemma {:induction false} NothingMissing(assets: seq<Asset>, sources: seq<Source>)
    requires Missing(assets, sources) == Some([])
    ensures forall s <- sources :: Asset(s.name, s.bytes, true) in assets
    decreases |sources|
  {
    if sources != [] {
      NothingMissing(assets, sources[1..]);
      assert sources == [sources[0]] + sources[1..];
    }
  }

  // What is missing, and that nothing else is wrong.
  lemma {:induction false} MissingMeans(assets: seq<Asset>, sources: seq<Source>)
    requires Missing(assets, sources).Some?
    ensures forall s <- Missing(assets, sources).value :: s in sources && Find(assets, s.name).None?
    ensures forall s <- sources :: s in Missing(assets, sources).value || Asset(s.name, s.bytes, true) in assets
    decreases |sources|
  {
    if sources != [] {
      MissingMeans(assets, sources[1..]);
      assert sources == [sources[0]] + sources[1..];
    }
  }

  lemma {:induction false} FindIsUnique(assets: seq<Asset>, a: Asset)
    requires DistinctAssets(assets) && a in assets
    ensures Find(assets, a.name) == Some(a)
    decreases |assets|
  {
    if assets[0] != a {
      var k :| 0 <= k < |assets| && assets[k] == a;
      assert assets[0].name != assets[k].name;
      assert assets[1..][k - 1] == a;
      FindIsUnique(assets[1..], a);
    }
  }

  // ------------------------------------------------------------ publishing exactly

  function Wanted(sources: seq<Source>): set<Asset> { set s <- sources :: Asset(s.name, s.bytes, true) }

  lemma {:induction false} WantedCount(sources: seq<Source>)
    requires DistinctNames(sources)
    ensures |Wanted(sources)| == |sources|
    decreases |sources|
  {
    if sources != [] {
      var s, rest := sources[0], sources[1..];
      WantedCount(rest);
      assert sources == [s] + rest;
      assert Wanted(sources) == {Asset(s.name, s.bytes, true)} + Wanted(rest);
      forall i | 0 <= i < |rest| ensures rest[i].name != s.name { assert sources[0].name != sources[i + 1].name; }
    }
  }

  function Elements(assets: seq<Asset>): set<Asset> { set a <- assets }

  lemma {:induction false} ElementsCount(assets: seq<Asset>)
    ensures |Elements(assets)| <= |assets|
    decreases |assets|
  {
    if assets != [] {
      ElementsCount(assets[1..]);
      assert assets == [assets[0]] + assets[1..];
      assert Elements(assets) == {assets[0]} + Elements(assets[1..]);
    }
  }

  // As many assets as sources, among them all that are wanted, are no others.
  lemma Pigeonhole(assets: seq<Asset>, sources: seq<Source>)
    requires DistinctNames(sources) && |assets| <= |sources|
    requires forall s <- sources :: Asset(s.name, s.bytes, true) in assets
    ensures |assets| == |sources| && forall a <- assets :: Genuine(a, sources)
  {
    var all := Elements(assets);
    WantedCount(sources);
    ElementsCount(assets);
    assert Wanted(sources) <= all;
    SubsetSize(Wanted(sources), all);
    assert |all - Wanted(sources)| == |all| - |Wanted(sources)|;
    forall a | a in assets ensures Genuine(a, sources) {
      assert a in all;
      assert a in Wanted(sources);
    }
  }

  lemma VerifiedIsExact(draft: Draft, sources: seq<Source>)
    requires DistinctNames(sources) && ExactDraft(draft, sources) && Missing(draft.assets, sources) == Some([])
    ensures HoldsExactly(draft.assets, sources)
  {
    NothingMissing(draft.assets, sources);
    Pigeonhole(draft.assets, sources);
  }

  // What the run believes of the draft is so.
  ghost predicate Believes(s: State, sources: seq<Source>) {
    && (s.phase.Uploading? ==>
          && s.phase.id in s.remote.drafts && s.remote.drafts[s.phase.id] == s.phase.current
          && ExactDraft(s.phase.current, sources)
          && forall x <- s.phase.missing :: x in sources)
    && (s.phase.Rereading? ==> s.phase.source in sources && forall x <- s.phase.rest :: x in sources)
    && (s.phase.Patching? ==>
          s.phase.id in s.remote.drafts && HoldsExactly(s.remote.drafts[s.phase.id].assets, sources))
  }

  lemma BelievesKept(s: State, e: Event, sources: seq<Source>)
    requires DistinctNames(sources) && Believes(s, sources) && Enabled(s, e)
    ensures Believes(Next(s, e, sources), sources)
  {
    var r := s.remote;
    if e.Finish? && Missing(s.phase.current.assets, sources) == Some([]) {
      VerifiedIsExact(s.phase.current, sources);
    }
    if e.Resume? && s.phase.id in r.drafts && Missing(r.drafts[s.phase.id].assets, sources).Some? {
      MissingMeans(r.drafts[s.phase.id].assets, sources);
    }
  }

  // Every publishing call of a run, from any drafts whatever, publishes exactly
  // the sources.
  lemma {:induction false} PublishesExactly(s: State, events: seq<Event>, last: State, sources: seq<Source>)
    requires DistinctNames(sources) && Believes(s, sources) && IsRun(s, events, last, sources)
    ensures Believes(last, sources)
    ensures last.remote.published == s.remote.published
      || (last.remote.published.Some? && HoldsExactly(last.remote.published.value, sources))
    decreases |events|
  {
    if events != [] {
      BelievesKept(s, events[0], sources);
      PublishesExactly(Next(s, events[0], sources), events[1..], last, sources);
    }
  }

  // ------------------------------------------------------------- uploading once

  function Uploads(calls: seq<Call>, name: Name): nat {
    if calls == [] then 0
    else
      var last := calls[|calls| - 1];
      Uploads(calls[..|calls| - 1], name) + (if last.Uploaded? && last.name == name then 1 else 0)
  }

  function Creations(calls: seq<Call>): nat {
    if calls == [] then 0
    else Creations(calls[..|calls| - 1]) + (if calls[|calls| - 1].Created? then 1 else 0)
  }

  lemma CountOneMore(calls: seq<Call>, c: Call)
    ensures Creations(calls + [c]) == Creations(calls) + (if c.Created? then 1 else 0)
    ensures forall name ::
      Uploads(calls + [c], name) == Uploads(calls, name) + (if c.Uploaded? && c.name == name then 1 else 0)
  {
    assert (calls + [c])[..|calls|] == calls;
  }

  // Whenever a run first looks, the list shows every draft.
  ghost predicate ListShows(s: State, events: seq<Event>, sources: seq<Source>)
    decreases |events|
  {
    events == [] || (Enabled(s, events[0])
      && (events[0].Look? && s.phase.attempt == 0 ==> Listed(s.remote) == s.remote.drafts.Keys)
      && ListShows(Next(s, events[0], sources), events[1..], sources))
  }

  // The draft's assets are genuine, and each was uploaded once.
  ghost predicate AssetsAccounted(draft: Draft, calls: seq<Call>, sources: seq<Source>) {
    && draft.exact && DistinctAssets(draft.assets)
    && (forall a <- draft.assets :: Genuine(a, sources))
    && forall name :: Uploads(calls, name) == if Find(draft.assets, name).Some? then 1 else 0
  }

  // There is no draft yet, or one, or it has been published.
  ghost predicate OneDraft(s: State, sources: seq<Source>) {
    var r := s.remote;
    if r.published.Some? then
      && s.phase == Idle && r.drafts == map[]
      && AssetsAccounted(Draft(true, r.published.value), r.calls, sources)
      && HoldsExactly(r.published.value, sources) && Creations(r.calls) == 1
    else if r.drafts == map[] then
      && (s.phase.Idle? || s.phase == Looking(0) || s.phase.Creating?)
      && Creations(r.calls) == 0 && forall name :: Uploads(r.calls, name) == 0
    else
      && !s.phase.Creating? && Creations(r.calls) == 1
      && exists id ::
        id in r.drafts && r.drafts == map[id := r.drafts[id]] && AssetsAccounted(r.drafts[id], r.calls, sources)
  }

  lemma AccountedOneMore(r: Remote, id: nat, source: Source, sources: seq<Source>)
    requires id in r.drafts && AssetsAccounted(r.drafts[id], r.calls, sources)
    requires source in sources && Find(r.drafts[id].assets, source.name).None?
    ensures AssetsAccounted(WithAsset(r, id, source).drafts[id], WithAsset(r, id, source).calls, sources)
  {
    var a := Asset(source.name, source.bytes, true);
    CountOneMore(r.calls, Uploaded(id, source.name));
    forall name ensures Find(r.drafts[id].assets + [a], name)
      == if Find(r.drafts[id].assets, name).Some? then Find(r.drafts[id].assets, name)
         else if a.name == name then Some(a) else None {
      FindAfter(r.drafts[id].assets, a, name);
    }
    forall i | 0 <= i < |r.drafts[id].assets| ensures r.drafts[id].assets[i].name != a.name {
      assert r.drafts[id].assets[i] in r.drafts[id].assets;
    }
  }

  lemma OneDraftKept(s: State, e: Event, sources: seq<Source>)
    requires OneDraft(s, sources) && Believes(s, sources) && Enabled(s, e)
    requires e.Look? && s.phase.attempt == 0 ==> Listed(s.remote) == s.remote.drafts.Keys
    ensures OneDraft(Next(s, e, sources), sources)
  {
    var r := s.remote;
    match e
    case Create(id) =>
      CountOneMore(r.calls, Created(id));
    case Upload =>
      if Find(r.drafts[s.phase.id].assets, s.phase.missing[0].name).None? {
        AccountedOneMore(r, s.phase.id, s.phase.missing[0], sources);
      }
    case Patch =>
      CountOneMore(r.calls, Published(s.phase.id));
    case Look =>
      if s.phase.attempt == 0 && r.drafts != map[] {
        var id :| id in r.drafts;
        assert id in Listed(r);
      }
    case _ =>
  }

  // However often the run dies, if every first look shows the draft there is: at
  // most one draft is created, no asset is uploaded twice, and once published
  // each source has been uploaded exactly once.
  lemma {:induction false} EachAssetOnce(s: State, events: seq<Event>, last: State, sources: seq<Source>)
    requires DistinctNames(sources) && OneDraft(s, sources) && Believes(s, sources)
    requires IsRun(s, events, last, sources) && ListShows(s, events, sources)
    ensures OneDraft(last, sources) && Creations(last.remote.calls) <= 1
    ensures forall name :: Uploads(last.remote.calls, name) <= 1
    ensures last.remote.published.Some? ==> forall x <- sources :: Uploads(last.remote.calls, x.name) == 1
    decreases |events|
  {
    if events == [] {
      if s.remote.published.Some? { EachUploaded(s.remote.published.value, s.remote.calls, sources); }
    } else {
      OneDraftKept(s, events[0], sources);
      BelievesKept(s, events[0], sources);
      EachAssetOnce(Next(s, events[0], sources), events[1..], last, sources);
    }
  }

  lemma EachUploaded(assets: seq<Asset>, calls: seq<Call>, sources: seq<Source>)
    requires HoldsExactly(assets, sources) && AssetsAccounted(Draft(true, assets), calls, sources)
    ensures forall x <- sources :: Uploads(calls, x.name) == 1
  {
    forall x | x in sources ensures Uploads(calls, x.name) == 1 {
      FindIsUnique(assets, Asset(x.name, x.bytes, true));
    }
  }

  // From nothing, over any runs.
  lemma DraftsFromNothing(listed: set<nat>, events: seq<Event>, last: State, sources: seq<Source>)
    requires DistinctNames(sources)
    requires var s := State(Remote(map[], listed, None, []), Idle);
      IsRun(s, events, last, sources) && ListShows(s, events, sources)
    ensures Creations(last.remote.calls) <= 1
    ensures forall name :: Uploads(last.remote.calls, name) <= 1
    ensures last.remote.published.Some? ==>
      && HoldsExactly(last.remote.published.value, sources)
      && forall x <- sources :: Uploads(last.remote.calls, x.name) == 1
  {
    EachAssetOnce(State(Remote(map[], listed, None, []), Idle), events, last, sources);
  }

  // -------------------------------------------------------------------- resuming

  lemma UploadedIsThere(assets: seq<Asset>, source: Source)
    requires Find(assets, source.name).None?
    ensures Missing(assets + [Asset(source.name, source.bytes, true)], [source]) == Some([])
  {
    var a := Asset(source.name, source.bytes, true);
    FindAfter(assets, a, source.name);
    assert [source][1..] == [];
    HeadHeld(assets + [a], [source], []);
  }

  function PublishedFrom(r: Remote, id: nat): Remote
    requires id in r.drafts
  {
    r.(drafts := r.drafts - {id}, published := Some(r.drafts[id].assets), calls := r.calls + [Published(id)])
  }

  // No new run begins, and the list shows no more.
  predicate Undisturbed(events: seq<Event>) {
    forall e :: e in events ==> !e.Begin? && !e.List?
  }

  // A run that does not die uploads what is missing, once each, and publishes.
  lemma {:induction false} RunsToTheEnd(r: Remote, id: nat, current: Draft, missing: seq<Source>, all: Remote,
                                        sources: seq<Source>) returns (events: seq<Event>)
    requires DistinctNames(sources) && Completing(r, id, current, missing, all, sources)
    ensures id in all.drafts
    ensures IsRun(State(r, Uploading(id, current, missing)), events, State(PublishedFrom(all, id), Idle), sources)
    ensures Undisturbed(events)
    decreases |missing|
  {
    var s := State(r, Uploading(id, current, missing));
    if missing == [] {
      var patching := State(r, Patching(id));
      assert Next(s, Finish, sources) == patching;
      assert Next(patching, Patch, sources) == State(PublishedFrom(r, id), Idle);
      events := [Finish, Patch];
      assert events[1..] == [Patch] && events[1..][1..] == [];
    } else {
      OneUpload(r, id, current, missing, all, sources);
      UploadedIsThere(current.assets, missing[0]);
      var r' := WithAsset(r, id, missing[0]);
      var reading := State(r', Rereading(id, missing[0], missing[1..]));
      var next := State(r', Uploading(id, r'.drafts[id], missing[1..]));
      assert Next(s, Upload, sources) == reading;
      assert Next(reading, Reread, sources) == next;
      var rest := RunsToTheEnd(r', id, r'.drafts[id], missing[1..], all, sources);
      events := [Upload, Reread] + rest;
      assert events[1..] == [Reread] + rest && events[1..][1..] == rest;
    }
  }

  // A rerun that finds one recoverable draft ends with exactly the sources
  // published, having uploaded exactly what was missing.
  lemma ResumingPublishes(r: Remote, id: nat, sources: seq<Source>) returns (events: seq<Event>)
    requires DistinctNames(sources) && r.published.None? && r.drafts.Keys == {id} && id in r.listed
    requires ExactDraft(r.drafts[id], sources) && Missing(r.drafts[id].assets, sources).Some?
    ensures var all := AllUploaded(r, id, Missing(r.drafts[id].assets, sources).value);
      && id in all.drafts && HoldsExactly(all.drafts[id].assets, sources)
      && IsRun(State(r, Idle), events, State(PublishedFrom(all, id), Idle), sources)
  {
    var missing := Missing(r.drafts[id].assets, sources).value;
    var all := AllUploaded(r, id, missing);
    var rest := RunsToTheEnd(r, id, r.drafts[id], missing, all, sources);
    assert Listed(r) == {id};
    var looking, found := State(r, Looking(0)), State(r, Found(id));
    var uploading := State(r, Uploading(id, r.drafts[id], missing));
    assert Next(State(r, Idle), Begin(NotFound), sources) == looking;
    assert Next(looking, Look, sources) == found;
    assert Next(found, Resume, sources) == uploading;
    events := [Begin(NotFound), Look, Resume] + rest;
    assert events[1..] == [Look, Resume] + rest;
    assert events[1..][1..] == [Resume] + rest;
    assert events[1..][1..][1..] == rest;
    CompletedIsExact(r, id, r.drafts[id], missing, all, sources);
  }

  lemma {:induction false} CompletedIsExact(r: Remote, id: nat, current: Draft, missing: seq<Source>, all: Remote,
                                            sources: seq<Source>)
    requires DistinctNames(sources) && Completing(r, id, current, missing, all, sources)
    ensures id in all.drafts && HoldsExactly(all.drafts[id].assets, sources)
    decreases |missing|
  {
    if missing == [] {
      VerifiedIsExact(current, sources);
    } else {
      OneUpload(r, id, current, missing, all, sources);
      var r' := WithAsset(r, id, missing[0]);
      CompletedIsExact(r', id, r'.drafts[id], missing[1..], all, sources);
    }
  }

  // ------------------------------------------------------------------ two drafts

  predicate NoBegin(events: seq<Event>) { forall e :: e in events ==> !e.Begin? }

  // The run looks while the list shows at most one draft.
  ghost predicate LooksAtOne(s: State, events: seq<Event>, sources: seq<Source>)
    decreases |events|
  {
    events != [] && Enabled(s, events[0])
    && ((events[0].Look? && |Listed(s.remote)| <= 1) || LooksAtOne(Next(s, events[0], sources), events[1..], sources))
  }

  lemma {:induction false} StillLooking(s: State, events: seq<Event>, last: State, sources: seq<Source>)
    requires s.phase.Idle? || s.phase.Looking?
    requires NoBegin(events) && IsRun(s, events, last, sources) && !LooksAtOne(s, events, sources)
    ensures last.remote.calls == s.remote.calls && last.remote.drafts == s.remote.drafts
    ensures last.remote.published == s.remote.published
    decreases |events|
  {
    if events != [] {
      assert events[0] in events;
      StillLooking(Next(s, events[0], sources), events[1..], last, sources);
    }
  }

  // A run creates, uploads or publishes only if it was answered with a draft by
  // its tag, or looked while the list showed at most one.
  lemma CallsNeedADecision(s: State, answer: Answer, events: seq<Event>, last: State, sources: seq<Source>)
    requires s.phase.Idle? && NoBegin(events) && IsRun(s, [Begin(answer)] + events, last, sources)
    requires last.remote.calls != s.remote.calls
    ensures answer.IsDraft? || LooksAtOne(Next(s, Begin(answer), sources), events, sources)
  {
    assert ([Begin(answer)] + events)[1..] == events;
    var begun := Next(s, Begin(answer), sources);
    if !answer.IsDraft? && !LooksAtOne(begun, events, sources) { StillLooking(begun, events, last, sources); }
  }

  lemma {:induction false} TwoStayListed(s: State, events: seq<Event>, sources: seq<Source>, last: State)
    requires (s.phase.Idle? || s.phase.Looking?) && |Listed(s.remote)| >= 2
    requires NoBegin(events) && IsRun(s, events, last, sources)
    ensures !LooksAtOne(s, events, sources)
    decreases |events|
  {
    if events != [] {
      var next := Next(s, events[0], sources);
      assert events[0] in events;
      SubsetSize(Listed(s.remote), Listed(next.remote));
      TwoStayListed(next, events[1..], sources, last);
    }
  }

  // Two drafts that the list shows stop the run, unless it is answered with one by
  // its tag: until the next run nothing is created, uploaded or published.
  lemma TwoDraftsStop(s: State, answer: Answer, events: seq<Event>, last: State, sources: seq<Source>)
    requires s.phase.Idle? && |Listed(s.remote)| >= 2 && !answer.IsDraft?
    requires NoBegin(events) && IsRun(s, [Begin(answer)] + events, last, sources)
    ensures last.remote.calls == s.remote.calls && last.remote.drafts == s.remote.drafts
    ensures last.remote.published == s.remote.published
  {
    assert ([Begin(answer)] + events)[1..] == events;
    var begun := Next(s, Begin(answer), sources);
    TwoStayListed(begun, events, sources, last);
    StillLooking(begun, events, last, sources);
  }

  // ---- exactly when a run goes on

  predicate Resumable(draft: Draft, sources: seq<Source>) {
    ExactDraft(draft, sources) && Missing(draft.assets, sources).Some?
  }

  // Answered with a draft to resume, or not found and the list shows none, or one
  // to resume.
  ghost predicate GoesOn(r: Remote, answer: Answer, sources: seq<Source>) {
    match answer
    case IsPublished => false
    case IsDraft(id) => id in r.drafts && Resumable(r.drafts[id], sources)
    case NotFound =>
      Listed(r) == {} || exists id :: id in r.drafts && Listed(r) == {id} && Resumable(r.drafts[id], sources)
  }

  // Some continuation of a run so answered makes a call, with the list as it is.
  ghost predicate CanCall(s: State, answer: Answer, sources: seq<Source>) {
    exists events, last ::
      Undisturbed(events) && IsRun(s, [Begin(answer)] + events, last, sources) && last.remote.calls != s.remote.calls
  }

  // A run that will make no call.
  ghost predicate Fruitless(s: State, sources: seq<Source>) {
    && (s.phase.Idle? || s.phase.Looking? || s.phase.Found?)
    && (s.phase.Looking? ==> !GoesOn(s.remote, NotFound, sources))
    && (s.phase.Found? ==> !GoesOn(s.remote, IsDraft(s.phase.id), sources))
  }

  lemma FruitlessLook(s: State, sources: seq<Source>)
    requires s.phase.Looking? && Fruitless(s, sources)
    ensures Fruitless(Next(s, Look, sources), sources)
  {
    if |Listed(s.remote)| == 1 && Next(s, Look, sources).phase.Found? {
      var id := Next(s, Look, sources).phase.id;
      assert Listed(s.remote) == {id} by { SingleMember(Listed(s.remote), id); }
    }
  }

  lemma SingleMember(ids: set<nat>, id: nat)
    requires |ids| == 1 && id in ids
    ensures ids == {id}
  {
    SubsetSize(ids - {id}, {});
    assert |ids - {id}| == 0;
  }

  lemma {:induction false} FruitlessMakesNoCall(s: State, events: seq<Event>, last: State, sources: seq<Source>)
    requires Fruitless(s, sources) && Undisturbed(events) && IsRun(s, events, last, sources)
    ensures last.remote.calls == s.remote.calls
    decreases |events|
  {
    if events != [] {
      var e := events[0];
      assert e in events;
      if e.Look? { FruitlessLook(s, sources); }
      FruitlessMakesNoCall(Next(s, e, sources), events[1..], last, sources);
    }
  }

  lemma {:induction false} UploadsAddCalls(r: Remote, id: nat, sources: seq<Source>)
    requires id in r.drafts
    ensures var all := AllUploaded(r, id, sources);
      && r.calls <= all.calls && all.drafts.Keys == r.drafts.Keys && all.listed == r.listed
      && forall other :: other in r.drafts && other != id ==> all.drafts[other] == r.drafts[other]
    decreases |sources|
  {
    if sources != [] { UploadsAddCalls(WithAsset(r, id, sources[0]), id, sources[1..]); }
  }

  // From a draft found and resumable the run publishes.
  lemma FoundPublishes(r: Remote, id: nat, sources: seq<Source>) returns (events: seq<Event>)
    requires DistinctNames(sources) && id in r.drafts && Resumable(r.drafts[id], sources)
    ensures var all := AllUploaded(r, id, Missing(r.drafts[id].assets, sources).value);
      && id in all.drafts && HoldsExactly(all.drafts[id].assets, sources)
      && IsRun(State(r, Found(id)), events, State(PublishedFrom(all, id), Idle), sources)
    ensures Undisturbed(events)
  {
    var missing := Missing(r.drafts[id].assets, sources).value;
    var all := AllUploaded(r, id, missing);
    var rest := RunsToTheEnd(r, id, r.drafts[id], missing, all, sources);
    assert Next(State(r, Found(id)), Resume, sources) == State(r, Uploading(id, r.drafts[id], missing));
    events := [Resume] + rest;
    assert events[1..] == rest;
    CompletedIsExact(r, id, r.drafts[id], missing, all, sources);
  }

  lemma {:induction false} SomeNumberIsFresh(used: set<nat>, below: nat) returns (id: nat)
    requires |used| <= below
    ensures id !in used && id <= below
    decreases below
  {
    if below !in used {
      id := below;
    } else {
      var rest := used - {below};
      assert |rest| == |used| - 1;
      id := SomeNumberIsFresh(rest, below - 1);
    }
  }

  lemma AnsweredCalls(s: State, id: nat, sources: seq<Source>)
    requires DistinctNames(sources) && s.phase.Idle? && GoesOn(s.remote, IsDraft(id), sources)
    ensures CanCall(s, IsDraft(id), sources)
  {
    var r := s.remote;
    var rest := FoundPublishes(r, id, sources);
    var all := AllUploaded(r, id, Missing(r.drafts[id].assets, sources).value);
    UploadsAddCalls(r, id, Missing(r.drafts[id].assets, sources).value);
    assert ([Begin(IsDraft(id))] + rest)[1..] == rest;
    assert IsRun(s, [Begin(IsDraft(id))] + rest, State(PublishedFrom(all, id), Idle), sources);
  }

  lemma ListedCalls(s: State, id: nat, sources: seq<Source>)
    requires DistinctNames(sources) && s.phase.Idle? && Enabled(s, Begin(NotFound))
    requires id in s.remote.drafts && Listed(s.remote) == {id} && Resumable(s.remote.drafts[id], sources)
    ensures CanCall(s, NotFound, sources)
  {
    var r := s.remote;
    var rest := FoundPublishes(r, id, sources);
    var all := AllUploaded(r, id, Missing(r.drafts[id].assets, sources).value);
    UploadsAddCalls(r, id, Missing(r.drafts[id].assets, sources).value);
    assert Next(State(r, Looking(0)), Look, sources) == State(r, Found(id));
    var events := [Look] + rest;
    assert events[1..] == rest && ([Begin(NotFound)] + events)[1..] == events;
    assert IsRun(s, [Begin(NotFound)] + events, State(PublishedFrom(all, id), Idle), sources);
  }

  lemma UnlistedCalls(s: State, sources: seq<Source>)
    requires s.phase.Idle? && Enabled(s, Begin(NotFound)) && Listed(s.remote) == {}
    ensures CanCall(s, NotFound, sources)
  {
    var used := s.remote.drafts.Keys + Numbers(s.remote.calls);
    var id := SomeNumberIsFresh(used, |used|);
    var looking, creating := State(s.remote, Looking(0)), State(s.remote, Creating);
    assert Next(looking, Look, sources) == creating;
    var last := Next(creating, Create(id), sources);
    var events := [Look, Create(id)];
    assert [Create(id)][1..] == [] && IsRun(creating, [Create(id)], last, sources);
    assert events[1..] == [Create(id)] && IsRun(looking, events, last, sources);
    assert ([Begin(NotFound)] + events)[1..] == events && Next(s, Begin(NotFound), sources) == looking;
    assert IsRun(s, [Begin(NotFound)] + events, last, sources);
  }

  // With the list as it is, a run so answered can create, upload or publish exactly
  // when it is answered with a draft to resume, or not found while the list shows
  // none, or one to resume.
  lemma CallsExactly(s: State, answer: Answer, sources: seq<Source>)
    requires DistinctNames(sources) && s.phase.Idle? && Enabled(s, Begin(answer))
    ensures CanCall(s, answer, sources) <==> GoesOn(s.remote, answer, sources)
  {
    if GoesOn(s.remote, answer, sources) {
      if answer.IsDraft? {
        AnsweredCalls(s, answer.id, sources);
      } else if Listed(s.remote) == {} {
        UnlistedCalls(s, sources);
      } else {
        var id :| id in s.remote.drafts && Listed(s.remote) == {id} && Resumable(s.remote.drafts[id], sources);
        ListedCalls(s, id, sources);
      }
    } else {
      forall events, last | Undisturbed(events) && IsRun(s, [Begin(answer)] + events, last, sources)
        ensures last.remote.calls == s.remote.calls
      {
        assert ([Begin(answer)] + events)[1..] == events;
        FruitlessMakesNoCall(Next(s, Begin(answer), sources), events, last, sources);
      }
    }
  }

  // ---- exactly when a second draft is created

  // The run will create no draft.
  predicate CreatesNone(s: State) {
    !s.phase.Creating? && (s.phase == Looking(0) ==> Listed(s.remote) != {})
  }

  lemma CreatesNoneKept(s: State, e: Event, sources: seq<Source>)
    requires CreatesNone(s) && !e.Begin? && Enabled(s, e)
    ensures CreatesNone(Next(s, e, sources))
    ensures Creations(Next(s, e, sources).remote.calls) == Creations(s.remote.calls)
  {
    match e
    case Upload => CountOneMore(s.remote.calls, Uploaded(s.phase.id, s.phase.missing[0].name));
    case Patch => CountOneMore(s.remote.calls, Published(s.phase.id));
    case List(id) => assert Listed(s.remote) <= Listed(Next(s, e, sources).remote);
    case _ =>
  }

  lemma {:induction false} NoneCreated(s: State, events: seq<Event>, last: State, sources: seq<Source>)
    requires CreatesNone(s) && NoBegin(events) && IsRun(s, events, last, sources)
    ensures Creations(last.remote.calls) == Creations(s.remote.calls)
    decreases |events|
  {
    if events != [] {
      var e := events[0];
      assert e in events;
      CreatesNoneKept(s, e, sources);
      NoneCreated(Next(s, e, sources), events[1..], last, sources);
    }
  }

  // There is no draft yet, or one that no other will join.
  ghost predicate Lone(s: State) {
    s.remote.drafts == map[] || (CreatesNone(s) && exists id :: s.remote.drafts.Keys == {id})
  }

  lemma LoneKept(s: State, e: Event, sources: seq<Source>)
    requires Lone(s) && !e.Begin? && Enabled(s, e)
    ensures Lone(Next(s, e, sources))
  {
    var next := Next(s, e, sources);
    if e.Create? { assert next.remote.drafts.Keys == {e.id}; }
    if s.remote.drafts != map[] {
      var id :| s.remote.drafts.Keys == {id};
      assert e.List? ==> Listed(s.remote) <= Listed(next.remote);
      if e.Patch? { assert next.remote.drafts.Keys == {}; } else { assert next.remote.drafts.Keys == {id}; }
    }
  }

  lemma {:induction false} LoneStays(s: State, events: seq<Event>, last: State, sources: seq<Source>)
    requires Lone(s) && NoBegin(events) && IsRun(s, events, last, sources)
    ensures |last.remote.drafts| <= 1
    decreases |events|
  {
    if events == [] {
      assert |s.remote.drafts| == |s.remote.drafts.Keys|;
    } else {
      assert events[0] in events;
      LoneKept(s, events[0], sources);
      LoneStays(Next(s, events[0], sources), events[1..], last, sources);
    }
  }

  // Until the next run begins a draft is created, and there are two or more.
  ghost predicate CreatesBeside(s: State, sources: seq<Source>) {
    exists events, last ::
      && NoBegin(events) && IsRun(s, events, last, sources)
      && Creations(last.remote.calls) > Creations(s.remote.calls) && |last.remote.drafts| >= 2
  }

  lemma HiddenIsDoubled(s: State, sources: seq<Source>)
    requires s.phase == Looking(0) && s.remote.drafts != map[] && Listed(s.remote) == {}
    ensures CreatesBeside(s, sources)
  {
    var used := s.remote.drafts.Keys + Numbers(s.remote.calls);
    var other := SomeNumberIsFresh(used, |used|);
    var creating := State(s.remote, Creating);
    var last := Next(creating, Create(other), sources);
    var events := [Look, Create(other)];
    assert Next(s, Look, sources) == creating;
    assert events[1..] == [Create(other)] && events[1..][1..] == [];
    assert IsRun(creating, events[1..], last, sources);
    assert IsRun(s, events, last, sources);
    CountOneMore(s.remote.calls, Created(other));
    var id :| id in s.remote.drafts;
    SubsetSize({id, other}, last.remote.drafts.Keys);
  }

  // A run about to look for the first time can create a draft beside another
  // exactly when there is a draft and the list still shows none.
  lemma SecondDraftExactly(s: State, sources: seq<Source>)
    requires s.phase == Looking(0)
    ensures CreatesBeside(s, sources) <==> s.remote.drafts != map[] && Listed(s.remote) == {}
  {
    if s.remote.drafts != map[] && Listed(s.remote) == {} {
      HiddenIsDoubled(s, sources);
    } else {
      forall events, last | NoBegin(events) && IsRun(s, events, last, sources)
        ensures Creations(last.remote.calls) == Creations(s.remote.calls) || |last.remote.drafts| <= 1
      {
        if s.remote.drafts == map[] {
          LoneStays(s, events, last, sources);
        } else {
          NoneCreated(s, events, last, sources);
        }
      }
    }
  }

  // ---- two drafts, and one of them published

  const Nothing := State(Remote(map[], {}, None, []), Idle)

  lemma {:induction false} RunsOn(s: State, a: seq<Event>, mid: State, b: seq<Event>, last: State, sources: seq<Source>)
    requires IsRun(s, a, mid, sources) && IsRun(mid, b, last, sources)
    ensures IsRun(s, a + b, last, sources)
    decreases |a|
  {
    if a == [] {
      assert a + b == b;
    } else {
      assert (a + b)[1..] == a[1..] + b;
      RunsOn(Next(s, a[0], sources), a[1..], mid, b, last, sources);
    }
  }

  lemma StepsOn(events: seq<Event>, s: State, e: Event, sources: seq<Source>) returns (more: seq<Event>, next: State)
    requires IsRun(Nothing, events, s, sources) && Enabled(s, e)
    ensures more == events + [e] && next == Next(s, e, sources) && IsRun(Nothing, more, next, sources)
  {
    more, next := events + [e], Next(s, e, sources);
    assert [e][1..] == [];
    RunsOn(Nothing, events, s, [e], next, sources);
  }

  // Two runs that each see an empty list, and each create a draft.
  lemma DoubledFromNothing(sources: seq<Source>) returns (events: seq<Event>, s: State)
    ensures IsRun(Nothing, events, s, sources)
    ensures var drafts := map[1 := Draft(true, []), 2 := Draft(true, [])];
      s == State(Remote(drafts, {}, None, [Created(1), Created(2)]), Looking(1))
  {
    events, s := StepsOn([], Nothing, Begin(NotFound), sources);
    events, s := StepsOn(events, s, Look, sources);
    assert s.phase.Creating?;
    events, s := StepsOn(events, s, Create(1), sources);
    events, s := StepsOn(events, s, Stop, sources);
    events, s := StepsOn(events, s, Begin(NotFound), sources);
    events, s := StepsOn(events, s, Look, sources);
    assert s.phase.Creating?;
    events, s := StepsOn(events, s, Create(2), sources);
  }

  lemma {:induction false} EmptyDraftLacksAll(sources: seq<Source>)
    ensures Missing([], sources) == Some(sources)
    decreases |sources|
  {
    if sources != [] {
      EmptyDraftLacksAll(sources[1..]);
      assert sources == [sources[0]] + sources[1..];
    }
  }

  // One of two drafts is found, and is published with the other still there.
  lemma PublishesBesideOther(events: seq<Event>, s: State, id: nat, other: nat, sources: seq<Source>)
      returns (more: seq<Event>, last: State)
    requires DistinctNames(sources) && IsRun(Nothing, events, s, sources) && s.phase == Found(id)
    requires s.remote.drafts == map[id := Draft(true, []), other := Draft(true, [])] && id != other
    ensures IsRun(Nothing, more, last, sources)
    ensures last.remote.published.Some? && HoldsExactly(last.remote.published.value, sources)
    ensures last.remote.drafts.Keys == {other} && last.remote.listed == s.remote.listed
  {
    EmptyDraftLacksAll(sources);
    var rest := FoundPublishes(s.remote, id, sources);
    var all := AllUploaded(s.remote, id, sources);
    UploadsAddCalls(s.remote, id, sources);
    last := State(PublishedFrom(all, id), Idle);
    RunsOn(Nothing, events, s, rest, last, sources);
    more := events + rest;
  }

  // A second draft that is listed only after the deciding look does not stop the
  // run: it publishes beside it.
  lemma LateListingPublishes(sources: seq<Source>) returns (events: seq<Event>, last: State)
    requires DistinctNames(sources)
    ensures IsRun(Nothing, events, last, sources)
    ensures last.remote.published.Some? && HoldsExactly(last.remote.published.value, sources)
    ensures last.remote.drafts.Keys == {1} && last.remote.listed == {1, 2}
  {
    var s;
    events, s := DoubledFromNothing(sources);
    events, s := StepsOn(events, s, List(2), sources);
    assert Listed(s.remote) == {2};
    events, s := StepsOn(events, s, Look, sources);
    assert s.phase == Found(2);
    events, s := StepsOn(events, s, List(1), sources);
    events, last := PublishesBesideOther(events, s, 2, 1, sources);
  }

  // Nor do two listed drafts stop a run that is answered with one by its tag.
  lemma AnsweredPublishes(sources: seq<Source>) returns (events: seq<Event>, begun: State, last: State)
    requires DistinctNames(sources)
    ensures IsRun(Nothing, events, last, sources)
    ensures begun.phase.Idle? && Listed(begun.remote) == {1, 2} && Enabled(begun, Begin(IsDraft(2)))
    ensures exists before, after ::
      events == before + [Begin(IsDraft(2))] + after && IsRun(Nothing, before, begun, sources)
    ensures last.remote.published.Some? && HoldsExactly(last.remote.published.value, sources)
    ensures last.remote.drafts.Keys == {1} && last.remote.listed == {1, 2}
  {
    var s;
    events, s := DoubledFromNothing(sources);
    events, s := StepsOn(events, s, Stop, sources);
    events, s := StepsOn(events, s, List(1), sources);
    events, s := StepsOn(events, s, List(2), sources);
    var before := events;
    begun := s;
    events, s := StepsOn(events, s, Begin(IsDraft(2)), sources);
    assert s.phase == Found(2);
    EmptyDraftLacksAll(sources);
    var rest := FoundPublishes(s.remote, 2, sources);
    var all := AllUploaded(s.remote, 2, sources);
    UploadsAddCalls(s.remote, 2, sources);
    last := State(PublishedFrom(all, 2), Idle);
    RunsOn(Nothing, events, s, rest, last, sources);
    events := events + rest;
    assert events == before + [Begin(IsDraft(2))] + rest;
  }
}
