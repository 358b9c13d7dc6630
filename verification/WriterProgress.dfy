/**
 What a versioned write gets done: when its turn comes, and exactly when it
 replaces the file.
 */
module WriterProgress {
  import opened Wrappers
  import opened WriterModel
  import opened WriterLaws

  // A waiting writer can begin exactly when every earlier writer of its file is over.
  lemma TurnComesExactly(s: State, i: nat)
    requires Chained(s) && i < |s.writers| && s.writers[i].phase.Waiting?
    requires s.writers[i].phase.previous.Some? ==> Earlier(s, s.writers[i].phase.previous.value, i)
    ensures Enabled(s, Begin(i)) <==> forall j: nat :: Earlier(s, j, i) ==> s.writers[j].phase.Over()
  {
    if Enabled(s, Begin(i)) {
      forall j: nat | Earlier(s, j, i) ensures s.writers[j].phase.Over() { EarlierAreOver(s, i, j); }
    }
  }

  // The tail that a writer waits for is over only if all before it are.
  lemma EarlierAreOver(s: State, i: nat, j: nat)
    requires Chained(s) && Enabled(s, Begin(i)) && Earlier(s, j, i)
    ensures s.writers[j].phase.Over()
  {
    if s.writers[i].phase.previous.Some? {
      var k := s.writers[i].phase.previous.value;
      if j < k { assert Earlier(s, j, k); }
    }
  }

  // Whom a writer waits for is a writer of its file.
  predicate WaitsForOwn(s: State) {
    forall i: nat :: i < |s.writers| && s.writers[i].phase.Waiting? && s.writers[i].phase.previous.Some? ==>
      Earlier(s, s.writers[i].phase.previous.value, i)
  }

  lemma WaitsForOwnKept(s: State, e: Event)
    requires WaitsForOwn(s) && TailsAreLast(s) && Enabled(s, e)
    ensures WaitsForOwn(Next(s, e))
  {
    var s' := Next(s, e);
    if !e.Call? && !e.Edit? { EventMovesOn(s, e); }
    forall i: nat | i < |s'.writers| && s'.writers[i].phase.Waiting? && s'.writers[i].phase.previous.Some?
      ensures Earlier(s', s'.writers[i].phase.previous.value, i)
    {
      assert i < |s.writers| ==> s'.writers[i].phase == s.writers[i].phase;
    }
  }

  lemma {:induction false} WaitsForOwnInRuns(s: State, events: seq<Event>, last: State)
    requires WaitsForOwn(s) && Chained(s) && IsRun(s, events, last)
    ensures WaitsForOwn(last) && Chained(last)
    decreases |events|
  {
    if events != [] {
      WaitsForOwnKept(s, events[0]);
      ChainedKept(s, events[0]);
      WaitsForOwnInRuns(Next(s, events[0]), events[1..], last);
    }
  }

  // So in every run: a write waits for the writes of its file called before it, and
  // for nothing else.
  lemma WaitsForEarlierOnly(files: map<Path, Text>, events: seq<Event>, s: State, i: nat)
    requires IsRun(Fresh(files), events, s) && i < |s.writers| && s.writers[i].phase.Waiting?
    ensures Enabled(s, Begin(i)) <==> forall j: nat :: Earlier(s, j, i) ==> s.writers[j].phase.Over()
  {
    FreshInvariant(files);
    WaitsForOwnInRuns(Fresh(files), events, s);
    TurnComesExactly(s, i);
  }

  // --------------------------------------------------------------- an expected file

  // What the caller expects of the file is so: anything, that it is not there, or the
  // text it holds.
  predicate AsExpected(files: map<Path, Text>, path: Path, expected: Expectation) {
    && (expected.Absent? ==> path !in files)
    && (expected.Exactly? ==> path in files && files[path] == expected.text)
  }

  lemma {:induction false} RunCons(s: State, e: Event, rest: seq<Event>, last: State)
    requires Enabled(s, e) && IsRun(Next(s, e), rest, last)
    ensures IsRun(s, [e] + rest, last)
  {
    assert ([e] + rest)[1..] == rest;
  }

  // The write of the file, undisturbed from its turn on.
  function Undisturbed(i: nat): seq<Event> {
    [Compare(i)] + ([Open(i)] + ([Write(i)] + ([Recheck(i)] + ([Publish(i)] + []))))
  }

  // The i-th writer is in this phase, with the files as they were and these stages.
  predicate Reached(s: State, t: State, i: nat, phase: Phase, staging: map<nat, Text>) {
    && i < |s.writers| == |t.writers| && t.writers[i] == s.writers[i].(phase := phase)
    && t.files == s.files && t.staging == staging
  }

  lemma ComparesExactly(s: State, i: nat)
    requires i < |s.writers| && s.writers[i].phase.Started?
    ensures var w := s.writers[i];
      if AsExpected(s.files, w.path, w.expected)
      then Reached(s, Next(s, Compare(i)), i, Compared(Lookup(s.files, w.path)), s.staging)
      else Next(s, Compare(i)) == At(s, i, Settled(false))
  {
  }

  lemma Opens(s: State, t: State, i: nat, current: Option<Text>)
    requires Reached(s, t, i, Compared(current), s.staging)
    ensures Enabled(t, Open(i)) && Reached(s, Next(t, Open(i)), i, Opened(current), s.staging[i := ""])
  {
  }

  lemma Writes(s: State, t: State, i: nat, current: Option<Text>)
    requires Reached(s, t, i, Opened(current), s.staging[i := ""])
    ensures Enabled(t, Write(i))
    ensures Reached(s, Next(t, Write(i)), i, Written(current), s.staging[i := s.writers[i].text])
  {
  }

  lemma Rechecks(s: State, t: State, i: nat, staging: map<nat, Text>)
    requires i < |s.writers| && Reached(s, t, i, Written(Lookup(s.files, s.writers[i].path)), staging)
    ensures Enabled(t, Recheck(i))
    ensures Reached(s, Next(t, Recheck(i)), i, Rechecked(Lookup(s.files, s.writers[i].path)), staging)
  {
  }

  lemma Publishes(s: State, t: State, i: nat, current: Option<Text>)
    requires i < |s.writers| && Reached(s, t, i, Rechecked(current), s.staging[i := s.writers[i].text])
    ensures Enabled(t, Publish(i))
    ensures var last := Next(t, Publish(i));
      && |last.writers| == |s.writers| && last.writers[i] == s.writers[i].(phase := Settled(true))
      && last.files == s.files[s.writers[i].path := s.writers[i].text] && last.staging == s.staging - {i}
  {
  }

  // A write whose turn has come, and that nothing disturbs, succeeds exactly when the
  // file is as its caller expects, and then the file holds its text, and no stage is
  // left. If the file is not, the write fails at once, and changes nothing.
  lemma WritesExactly(s: State, i: nat) returns (last: State)
    requires i < |s.writers| && s.writers[i].phase.Started?
    ensures |last.writers| == |s.writers|
    ensures var w := s.writers[i];
      if AsExpected(s.files, w.path, w.expected) then
        && IsRun(s, Undisturbed(i), last)
        && last.writers[i] == w.(phase := Settled(true))
        && last.files == s.files[w.path := w.text] && last.staging == s.staging - {i}
      else
        last == Next(s, Compare(i)) == At(s, i, Settled(false))
  {
    var w := s.writers[i];
    var s1 := Next(s, Compare(i));
    ComparesExactly(s, i);
    last := s1;
    if AsExpected(s.files, w.path, w.expected) {
      var current := Lookup(s.files, w.path);
      Opens(s, s1, i, current);
      var s2 := Next(s1, Open(i));
      Writes(s, s2, i, current);
      var s3 := Next(s2, Write(i));
      Rechecks(s, s3, i, s.staging[i := w.text]);
      var s4 := Next(s3, Recheck(i));
      Publishes(s, s4, i, current);
      last := Next(s4, Publish(i));
      RunCons(s4, Publish(i), [], last);
      RunCons(s3, Recheck(i), [Publish(i)] + [], last);
      RunCons(s2, Write(i), [Recheck(i)] + ([Publish(i)] + []), last);
      RunCons(s1, Open(i), [Write(i)] + ([Recheck(i)] + ([Publish(i)] + [])), last);
      RunCons(s, Compare(i), [Open(i)] + ([Write(i)] + ([Recheck(i)] + ([Publish(i)] + []))), last);
    }
  }

  // The owner's edit before the second read is noticed exactly when it changes what
  // the file held: then the write is given up, with the edit in place.
  lemma EditIsNoticedExactly(s: State, i: nat, content: Option<Text>)
    requires i < |s.writers| && s.writers[i].phase.Written?
    ensures var path, seen := s.writers[i].path, s.writers[i].phase.current;
      var edited := Next(s, Edit(path, content));
      && Enabled(edited, Recheck(i))
      && var rechecked := Next(edited, Recheck(i));
         && Lookup(rechecked.files, path) == content
         && if content == seen then rechecked.writers[i].phase == Rechecked(seen)
            else
              && rechecked.writers[i].phase == Discarding
              && var removed := Next(rechecked, Unlink(i, true));
                 && removed.writers[i].phase == Settled(false)
                 && removed.files == edited.files && removed.staging == s.staging - {i}
  {
    var edited := Next(s, Edit(s.writers[i].path, content));
    assert Lookup(edited.files, s.writers[i].path) == content;
  }

  // Whatever happened meanwhile, a write that succeeded had found the file as its
  // caller expected: not there, or with the very text; and it put its own text there.
  lemma SuccessWasExpected(files: map<Path, Text>, events: seq<Event>, s: State, k: nat)
    requires IsRun(Fresh(files), events, s) && k < |s.history| && s.history[k].author.Broker?
    ensures s.history[k].author.writer < |s.writers|
    ensures var c, w := s.history[k], s.writers[s.history[k].author.writer];
      && (w.expected.Absent? ==> c.author.seen == None)
      && (w.expected.Exactly? ==> c.author.seen == Some(w.expected.text))
      && c.path == w.path && c.new_ == Some(w.text)
  {
    CompareAndSwap(files, events, s);
    assert ChangeIsTrue(files, s, k);
  }
}
