/**
 What holds in every interleaving of writers and owner: writers of one file do
 not overlap, the map holds the tail of every chain in use, and every write that
 the owner did not race replaces exactly the text it names.
 */
module WriterLaws {
  import opened Wrappers
  import opened WriterModel

  // ------------------------------------------------------------------ the chain

  predicate Earlier(s: State, j: nat, i: nat) {
    j < i < |s.writers| && s.writers[j].path == s.writers[i].path
  }

  // A writer that has started comes after all earlier writers of its file.
  ghost predicate InTurn(s: State) {
    forall i: nat, j: nat :: (Earlier(s, j, i) && !s.writers[i].phase.Waiting?) ==> s.writers[j].phase.Over()
  }

  // A waiting one waits for the last of them, or they are all over.
  ghost predicate WaitsForLast(s: State) {
    forall i: nat, j: nat :: (Earlier(s, j, i) && s.writers[i].phase.Waiting?) ==>
      match s.writers[i].phase.previous
      case None => s.writers[j].phase.Over()
      case Some(k) => j <= k && Earlier(s, k, i)
  }

  ghost predicate TailsAreLast(s: State) {
    forall p <- s.tails ::
      && s.tails[p] < |s.writers| && s.writers[s.tails[p]].path == p && !s.writers[s.tails[p]].phase.Gone?
      && forall j :: s.tails[p] < j < |s.writers| ==> s.writers[j].path != p
  }

  // The map holds a tail while a writer is queued or running.
  ghost predicate TailsAreHeld(s: State) {
    forall i :: 0 <= i < |s.writers| && !s.writers[i].phase.Over() ==> s.writers[i].path in s.tails
  }

  ghost predicate Chained(s: State) {
    InTurn(s) && WaitsForLast(s) && TailsAreLast(s) && TailsAreHeld(s)
  }

  // One writer moves on: it stays what it is but for its phase, does not wait
  // again, is over for good, and has started in its turn.
  ghost predicate MovesOn(s: State, s': State, i: nat) {
    && i < |s.writers| == |s'.writers|
    && s'.writers == s.writers[i := s.writers[i].(phase := s'.writers[i].phase)]
    && !s'.writers[i].phase.Waiting? && (s.writers[i].phase.Over() ==> s'.writers[i].phase.Over())
    && (s.writers[i].phase.Waiting? && s.writers[i].phase.previous.Some? ==>
          var k := s.writers[i].phase.previous.value;
          k < |s.writers| && s.writers[k].phase.Over())
  }

  lemma WritersGrow(s: State, e: Event)
    requires Enabled(s, e)
    ensures |s.writers| <= |Next(s, e).writers|
  {
  }

  lemma EventMovesOn(s: State, e: Event)
    requires Enabled(s, e) && !e.Call? && !e.Edit?
    ensures MovesOn(s, Next(s, e), e.writer)
  {
  }

  // How the phase of the writer whose event it is changes.
  predicate Steps(e: Event, a: Phase, b: Phase) {
    match e
    case Begin(_) => a.Waiting? && b.Started?
    case Compare(_) => a.Started? && (b.Compared? || b == Settled(false))
    case Open(_) => a.Compared? && b == Opened(a.current)
    case Write(_) => a.Opened? && b == Written(a.current)
    case Recheck(_) => a.Written? && (b == Rechecked(a.current) || b.Discarding?)
    case Publish(_) => a.Rechecked? && b == Settled(true)
    case Fail(_) => a.Running() && !a.Discarding? && b == if a.HasStage() then Discarding else Settled(false)
    case Unlink(_, _) => a.Discarding? && b == Settled(false)
    case Leave(_) => a.Settled? && b == Gone(a.wrote)
    case _ => false
  }

  lemma EventSteps(s: State, e: Event)
    requires Enabled(s, e) && !e.Call? && !e.Edit?
    ensures e.writer < |s.writers| == |Next(s, e).writers|
    ensures Steps(e, s.writers[e.writer].phase, Next(s, e).writers[e.writer].phase)
  {
  }

  lemma InTurnMoves(s: State, s': State, i: nat)
    requires InTurn(s) && WaitsForLast(s) && MovesOn(s, s', i)
    ensures InTurn(s')
  {
    forall a: nat, b: nat | Earlier(s', b, a) && !s'.writers[a].phase.Waiting?
      ensures s'.writers[b].phase.Over()
    {
      assert Earlier(s, b, a);
    }
  }

  lemma WaitsMove(s: State, s': State, i: nat)
    requires WaitsForLast(s) && MovesOn(s, s', i)
    ensures WaitsForLast(s')
  {
    forall a: nat, b: nat | Earlier(s', b, a) && s'.writers[a].phase.Waiting?
      ensures match s'.writers[a].phase.previous
        case None => s'.writers[b].phase.Over()
        case Some(k) => b <= k && Earlier(s', k, a)
    {
      assert Earlier(s, b, a);
    }
  }

  lemma CalledKeepsTurns(s: State, e: Event)
    requires Chained(s) && e.Call?
    ensures InTurn(Next(s, e)) && WaitsForLast(Next(s, e))
  {
    var s' := Next(s, e);
    forall a: nat, b: nat | Earlier(s', b, a) && a < |s.writers| ensures Earlier(s, b, a) {}
  }

  lemma TurnsKept(s: State, e: Event)
    requires Chained(s) && Enabled(s, e)
    ensures InTurn(Next(s, e)) && WaitsForLast(Next(s, e))
  {
    var s' := Next(s, e);
    if e.Call? {
      CalledKeepsTurns(s, e);
    } else if e.Edit? {
      forall a: nat, b: nat | Earlier(s', b, a) ensures Earlier(s, b, a) {}
    } else {
      EventMovesOn(s, e);
      InTurnMoves(s, s', e.writer);
      WaitsMove(s, s', e.writer);
    }
  }

  lemma TailsLastSame(s: State, s': State)
    requires TailsAreLast(s) && s'.tails == s.tails && |s'.writers| == |s.writers|
    requires forall i :: 0 <= i < |s.writers| ==>
      s'.writers[i].path == s.writers[i].path && (s'.writers[i].phase.Gone? ==> s.writers[i].phase.Gone?)
    ensures TailsAreLast(s')
  {
  }

  lemma TailsLastCalled(s: State, e: Event)
    requires TailsAreLast(s) && e.Call?
    ensures TailsAreLast(Next(s, e))
  {
  }

  lemma TailsLastLeft(s: State, e: Event)
    requires TailsAreLast(s) && e.Leave? && Enabled(s, e)
    ensures TailsAreLast(Next(s, e))
  {
  }

  lemma TailsUntouched(s: State, e: Event)
    requires Enabled(s, e) && !e.Call? && !e.Leave?
    ensures Next(s, e).tails == s.tails
  {
  }

  lemma TailsLastKept(s: State, e: Event)
    requires TailsAreLast(s) && Enabled(s, e)
    ensures TailsAreLast(Next(s, e))
  {
    if e.Call? {
      TailsLastCalled(s, e);
    } else if e.Leave? {
      TailsLastLeft(s, e);
    } else {
      TailsUntouched(s, e);
      if !e.Edit? {
        EventMovesOn(s, e);
        EventSteps(s, e);
      }
      TailsLastSame(s, Next(s, e));
    }
  }

  lemma TailsHeldLeft(s: State, e: Event)
    requires InTurn(s) && TailsAreLast(s) && TailsAreHeld(s) && e.Leave? && Enabled(s, e)
    ensures TailsAreHeld(Next(s, e))
  {
    forall i: nat | i < e.writer && s.writers[i].path == s.writers[e.writer].path
      ensures s.writers[i].phase.Over()
    {
      assert Earlier(s, i, e.writer);
    }
  }

  lemma TailsHeldSame(s: State, s': State, i: nat)
    requires TailsAreHeld(s) && MovesOn(s, s', i) && s'.tails == s.tails
    ensures TailsAreHeld(s')
  {
  }

  lemma TailsHeldKept(s: State, e: Event)
    requires InTurn(s) && TailsAreLast(s) && TailsAreHeld(s) && Enabled(s, e)
    ensures TailsAreHeld(Next(s, e))
  {
    if e.Leave? {
      TailsHeldLeft(s, e);
    } else if !e.Call? && !e.Edit? {
      TailsUntouched(s, e);
      EventMovesOn(s, e);
      TailsHeldSame(s, Next(s, e), e.writer);
    }
  }

  lemma ChainedKept(s: State, e: Event)
    requires Chained(s) && Enabled(s, e)
    ensures Chained(Next(s, e))
  {
    TurnsKept(s, e);
    TailsLastKept(s, e);
    TailsHeldKept(s, e);
  }

  // ------------------------------------------------------------- files and stages

  // A stage is there exactly while its writer needs it, or was left behind.
  ghost predicate StagesExplained(s: State) {
    && (forall i :: i in s.orphans ==> i < |s.writers| && s.writers[i].phase.Over())
    && (forall i :: i in s.staging ==> i in s.orphans || (i < |s.writers| && s.writers[i].phase.HasStage()))
  }

  ghost predicate StagesFilled(s: State) {
    forall i :: 0 <= i < |s.writers| && s.writers[i].phase.HasStage() ==>
      && i in s.staging
      && (s.writers[i].phase.Written? || s.writers[i].phase.Rechecked? ==> s.staging[i] == s.writers[i].text)
  }

  ghost predicate StagesAccounted(s: State) { StagesExplained(s) && StagesFilled(s) }

  // An event that touches no stage, and does not change who needs one.
  lemma StagesSame(s: State, s': State)
    requires StagesAccounted(s) && s'.staging == s.staging && s'.orphans == s.orphans
    requires |s.writers| <= |s'.writers|
    requires forall i :: 0 <= i < |s.writers| ==>
      && s'.writers[i].text == s.writers[i].text
      && s'.writers[i].phase.HasStage() == s.writers[i].phase.HasStage()
      && (s.writers[i].phase.Over() ==> s'.writers[i].phase.Over())
      && (s'.writers[i].phase.Written? || s'.writers[i].phase.Rechecked? ==>
            s.writers[i].phase.Written? || s.writers[i].phase.Rechecked?)
    requires forall i :: |s.writers| <= i < |s'.writers| ==> !s'.writers[i].phase.HasStage()
    ensures StagesAccounted(s')
  {
  }

  predicate TouchesStage(e: Event) { e.Open? || e.Write? || e.Publish? || e.Unlink? }

  lemma StagesExplainedKept(s: State, e: Event)
    requires StagesExplained(s) && Enabled(s, e) && TouchesStage(e)
    ensures StagesExplained(Next(s, e))
  {
  }

  lemma StagesFilledKept(s: State, e: Event)
    requires StagesFilled(s) && Enabled(s, e) && TouchesStage(e)
    ensures StagesFilled(Next(s, e))
  {
  }

  lemma StagesUntouched(s: State, e: Event)
    requires Enabled(s, e) && !TouchesStage(e)
    ensures Next(s, e).staging == s.staging && Next(s, e).orphans == s.orphans
  {
  }

  lemma StageNeeds(e: Event, a: Phase, b: Phase)
    requires Steps(e, a, b) && !TouchesStage(e)
    ensures b.HasStage() == a.HasStage()
    ensures b.Written? || b.Rechecked? ==> a.Written? || a.Rechecked?
  {
  }

  lemma StagesKept(s: State, e: Event)
    requires StagesAccounted(s) && Enabled(s, e)
    ensures StagesAccounted(Next(s, e))
  {
    if TouchesStage(e) {
      StagesExplainedKept(s, e);
      StagesFilledKept(s, e);
    } else {
      if !e.Call? && !e.Edit? {
        EventMovesOn(s, e);
        EventSteps(s, e);
        StageNeeds(e, s.writers[e.writer].phase, Next(s, e).writers[e.writer].phase);
      }
      StagesUntouched(s, e);
      StagesSame(s, Next(s, e));
    }
  }

  // -------------------------------------------------------------------- history

  function Replayed(files: map<Path, Text>, history: seq<Change>): map<Path, Text> {
    if history == [] then files
    else
      var last := history[|history| - 1];
      With(Replayed(files, history[..|history| - 1]), last.path, last.new_)
  }

  lemma ReplayedAppend(files: map<Path, Text>, history: seq<Change>, c: Change)
    ensures Replayed(files, history + [c]) == With(Replayed(files, history), c.path, c.new_)
  {
    assert (history + [c])[..|history|] == history;
  }

  // What a file holds after the first n changes.
  function HeldAt(files: map<Path, Text>, history: seq<Change>, n: nat, path: Path): Option<Text>
    requires n <= |history|
  {
    Lookup(Replayed(files, history[..n]), path)
  }

  // From `from` on only the owner changes the file, up to `to`.
  predicate OnlyOwner(history: seq<Change>, from: nat, to: nat, path: Path) {
    forall l :: from <= l < to <= |history| && history[l].path == path ==> history[l].author.Owner?
  }

  // A read of a writer: what its caller expects, and what the file held then;
  // since then no other writer has changed the file.
  ghost predicate ReadIsTrue(files: map<Path, Text>, s: State, i: nat, current: Option<Text>, k: nat)
    requires i < |s.writers| && k <= |s.history|
  {
    && Meets(s.writers[i].expected, current)
    && i in s.firstReads && s.firstReads[i] <= k
    && HeldAt(files, s.history, s.firstReads[i], s.writers[i].path) == current
    && OnlyOwner(s.history, s.firstReads[i], k, s.writers[i].path)
  }

  // And read again it held the same.
  ghost predicate RecheckIsTrue(files: map<Path, Text>, s: State, i: nat, current: Option<Text>, k: nat)
    requires i < |s.writers| && k <= |s.history|
  {
    && i in s.firstReads && i in s.secondReads && s.firstReads[i] <= s.secondReads[i] <= k
    && HeldAt(files, s.history, s.secondReads[i], s.writers[i].path) == current
  }

  ghost predicate ReadsAreTrue(files: map<Path, Text>, s: State) {
    forall i :: 0 <= i < |s.writers| && s.writers[i].phase.HasRead() ==> WriterIsTrue(files, s, i)
  }

  ghost predicate WriterIsTrue(files: map<Path, Text>, s: State, i: nat)
    requires i < |s.writers| && s.writers[i].phase.HasRead()
  {
    && ReadIsTrue(files, s, i, s.writers[i].phase.current, |s.history|)
    && (s.writers[i].phase.Rechecked? ==> RecheckIsTrue(files, s, i, s.writers[i].phase.current, |s.history|))
  }

  // A change replaces what the changes before it left; a writer's puts in place
  // what its caller gave, and both its reads were true.
  ghost predicate ChangeIsTrue(files: map<Path, Text>, s: State, k: nat)
    requires k < |s.history|
  {
    var c := s.history[k];
    && c.old_ == HeldAt(files, s.history, k, c.path)
    && (c.author.Broker? ==>
          && c.author.writer < |s.writers|
          && var w := s.writers[c.author.writer];
             && c.path == w.path && c.new_ == Some(w.text) && w.phase.Wrote()
             && ReadIsTrue(files, s, c.author.writer, c.author.seen, k)
             && RecheckIsTrue(files, s, c.author.writer, c.author.seen, k))
  }

  ghost predicate HistoryIsTrue(files: map<Path, Text>, s: State) {
    && s.files == Replayed(files, s.history)
    && forall k :: 0 <= k < |s.history| ==> ChangeIsTrue(files, s, k)
  }

  lemma HeldInLonger(files: map<Path, Text>, history: seq<Change>, longer: seq<Change>, n: nat, path: Path)
    requires n <= |history| && history <= longer
    ensures HeldAt(files, longer, n, path) == HeldAt(files, history, n, path)
  {
    assert longer[..n] == history[..n];
  }

  // A read stays true while its writer's notes stay as they are and no other
  // writer changes the file.
  lemma ReadStaysTrue(files: map<Path, Text>, s: State, s': State, i: nat, current: Option<Text>, k: nat, k': nat)
    requires i < |s.writers| <= |s'.writers| && k <= |s.history| && k <= k' <= |s'.history| && s.history <= s'.history
    requires s'.writers[i].(phase := s.writers[i].phase) == s.writers[i]
    requires i in s.firstReads && i in s'.firstReads && s'.firstReads[i] == s.firstReads[i]
    requires ReadIsTrue(files, s, i, current, k) && OnlyOwner(s'.history, k, k', s.writers[i].path)
    ensures ReadIsTrue(files, s', i, current, k')
  {
    HeldInLonger(files, s.history, s'.history, s.firstReads[i], s.writers[i].path);
    forall l | s.firstReads[i] <= l < k' && s'.history[l].path == s.writers[i].path
      ensures s'.history[l].author.Owner?
    {
      if l < k { assert s'.history[l] == s.history[l]; }
    }
  }

  lemma RecheckStaysTrue(files: map<Path, Text>, s: State, s': State, i: nat, current: Option<Text>, k: nat, k': nat)
    requires i < |s.writers| <= |s'.writers| && k <= |s.history| && k <= k' <= |s'.history| && s.history <= s'.history
    requires s'.writers[i].(phase := s.writers[i].phase) == s.writers[i]
    requires i in s.firstReads && i in s'.firstReads && s'.firstReads[i] == s.firstReads[i]
    requires i in s.secondReads && i in s'.secondReads && s'.secondReads[i] == s.secondReads[i]
    requires RecheckIsTrue(files, s, i, current, k)
    ensures RecheckIsTrue(files, s', i, current, k')
  {
    HeldInLonger(files, s.history, s'.history, s.secondReads[i], s.writers[i].path);
  }

  // A step adds at most one change, and of a running writer's file only if it is
  // the owner's or the writer's own.
  lemma StepHistory(s: State, e: Event)
    requires InTurn(s) && Enabled(s, e)
    ensures s.history <= Next(s, e).history
    ensures forall i: nat :: i < |s.writers| && s.writers[i].phase.HasRead() && e != Publish(i) ==>
      OnlyOwner(Next(s, e).history, |s.history|, |Next(s, e).history|, s.writers[i].path)
  {
    if e.Publish? {
      forall i: nat | i < |s.writers| && i != e.writer && s.writers[i].phase.HasRead()
        ensures s.writers[i].path != s.writers[e.writer].path
      {
        assert !Earlier(s, i, e.writer) && !Earlier(s, e.writer, i);
      }
    }
  }

  // What a step leaves as it was of a writer and its notes.
  lemma NotesFrame(s: State, e: Event, i: nat)
    requires Enabled(s, e)
    ensures e != Compare(i) && i in s.firstReads ==>
      i in Next(s, e).firstReads && Next(s, e).firstReads[i] == s.firstReads[i]
    ensures e != Recheck(i) && i in s.secondReads ==>
      i in Next(s, e).secondReads && Next(s, e).secondReads[i] == s.secondReads[i]
  {
  }

  lemma WriterFrame(s: State, e: Event, i: nat)
    requires Enabled(s, e) && i < |s.writers|
    ensures i < |Next(s, e).writers|
    ensures Next(s, e).writers[i].(phase := s.writers[i].phase) == s.writers[i]
  {
    if !e.Call? && !e.Edit? { EventMovesOn(s, e); }
  }

  // How the phase of any writer changes: its own event, or not at all.
  lemma AnyPhase(s: State, e: Event, i: nat)
    requires Enabled(s, e) && i < |s.writers|
    ensures i < |Next(s, e).writers|
    ensures var a, b := s.writers[i].phase, Next(s, e).writers[i].phase;
      b == a || (!e.Call? && !e.Edit? && e.writer == i && Steps(e, a, b))
  {
    if !e.Call? && !e.Edit? {
      EventMovesOn(s, e);
      EventSteps(s, e);
    }
  }

  lemma CalledWaits(s: State, e: Event, i: nat)
    requires Enabled(s, e) && |s.writers| <= i < |Next(s, e).writers|
    ensures Next(s, e).writers[i].phase.Waiting?
  {
    if !e.Call? && !e.Edit? { EventMovesOn(s, e); }
  }

  lemma WroteStays(s: State, e: Event, i: nat)
    requires Enabled(s, e) && i < |s.writers| && s.writers[i].phase.Wrote()
    ensures i < |Next(s, e).writers| && Next(s, e).writers[i].phase.Wrote() && e != Compare(i) && e != Recheck(i)
  {
    AnyPhase(s, e, i);
  }

  lemma PhaseFrame(s: State, e: Event, i: nat)
    requires Enabled(s, e) && i < |Next(s, e).writers| && Next(s, e).writers[i].phase.HasRead()
    ensures i < |s.writers|
    ensures e != Compare(i) ==>
      && s.writers[i].phase.HasRead() && e != Publish(i)
      && s.writers[i].phase.current == Next(s, e).writers[i].phase.current
    ensures Next(s, e).writers[i].phase.Rechecked? ==>
      e == Recheck(i) || (e != Compare(i) && s.writers[i].phase.Rechecked?)
  {
    if i < |s.writers| { AnyPhase(s, e, i); } else { CalledWaits(s, e, i); }
  }

  // The first read notes what the file held then, and the second the same again.
  lemma ReadNoted(files: map<Path, Text>, s: State, i: nat)
    requires HistoryIsTrue(files, s) && Enabled(s, Compare(i)) && Next(s, Compare(i)).writers[i].phase.HasRead()
    ensures WriterIsTrue(files, Next(s, Compare(i)), i)
  {
    assert s.history[..|s.history|] == s.history;
  }

  lemma RecheckNoted(files: map<Path, Text>, s: State, i: nat)
    requires HistoryIsTrue(files, s) && Enabled(s, Recheck(i)) && Next(s, Recheck(i)).writers[i].phase.HasRead()
    requires WriterIsTrue(files, s, i)
    ensures WriterIsTrue(files, Next(s, Recheck(i)), i)
  {
    assert s.history[..|s.history|] == s.history;
  }

  lemma ReadKept(files: map<Path, Text>, s: State, e: Event, i: nat)
    requires HistoryIsTrue(files, s) && ReadsAreTrue(files, s) && InTurn(s) && Enabled(s, e)
    requires i < |Next(s, e).writers| && Next(s, e).writers[i].phase.HasRead()
    ensures WriterIsTrue(files, Next(s, e), i)
  {
    PhaseFrame(s, e, i);
    if e == Compare(i) {
      ReadNoted(files, s, i);
    } else if e == Recheck(i) {
      RecheckNoted(files, s, i);
    } else {
      var s', current := Next(s, e), s.writers[i].phase.current;
      StepHistory(s, e);
      WriterFrame(s, e, i);
      NotesFrame(s, e, i);
      assert WriterIsTrue(files, s, i);
      ReadStaysTrue(files, s, s', i, current, |s.history|, |s'.history|);
      if s'.writers[i].phase.Rechecked? {
        RecheckStaysTrue(files, s, s', i, current, |s.history|, |s'.history|);
      }
    }
  }

  lemma ReadsKept(files: map<Path, Text>, s: State, e: Event)
    requires HistoryIsTrue(files, s) && ReadsAreTrue(files, s) && InTurn(s) && Enabled(s, e)
    ensures ReadsAreTrue(files, Next(s, e))
  {
    var s' := Next(s, e);
    forall i: nat | i < |s'.writers| && s'.writers[i].phase.HasRead() ensures WriterIsTrue(files, s', i) {
      ReadKept(files, s, e, i);
    }
  }

  // A change stays true.
  lemma ChangeKept(files: map<Path, Text>, s: State, e: Event, k: nat)
    requires InTurn(s) && Enabled(s, e) && k < |s.history| && ChangeIsTrue(files, s, k)
    ensures k < |Next(s, e).history| && ChangeIsTrue(files, Next(s, e), k)
  {
    StepHistory(s, e);
    if s.history[k].author.Broker? {
      var i := s.history[k].author.writer;
      WriterFrame(s, e, i);
      NotesFrame(s, e, i);
      WroteStays(s, e, i);
      assert |s.writers| <= |Next(s, e).writers| by { WritersGrow(s, e); }
    }
    ChangeStaysTrue(files, s, Next(s, e), k);
  }

  lemma ChangeStaysTrue(files: map<Path, Text>, s: State, s': State, k: nat)
    requires k < |s.history| && s.history <= s'.history && ChangeIsTrue(files, s, k)
    requires s.history[k].author.Broker? ==>
      var i := s.history[k].author.writer;
      && |s.writers| <= |s'.writers| && s'.writers[i].(phase := s.writers[i].phase) == s.writers[i]
      && s'.writers[i].phase.Wrote()
      && i in s'.firstReads && s'.firstReads[i] == s.firstReads[i]
      && i in s'.secondReads && s'.secondReads[i] == s.secondReads[i]
    ensures ChangeIsTrue(files, s', k)
  {
    var c := s.history[k];
    HeldInLonger(files, s.history, s'.history, k, c.path);
    if c.author.Broker? {
      var i := c.author.writer;
      assert OnlyOwner(s'.history, k, k, s.writers[i].path);
      ReadStaysTrue(files, s, s', i, c.author.seen, k, k);
      RecheckStaysTrue(files, s, s', i, c.author.seen, k, k);
    }
  }

  lemma NewChangeIsTrue(files: map<Path, Text>, s: State, e: Event)
    requires s.files == Replayed(files, s.history) && ReadsAreTrue(files, s) && StagesAccounted(s)
    requires InTurn(s) && Enabled(s, e) && (e.Publish? || e.Edit?)
    ensures var s' := Next(s, e);
      |s'.history| == |s.history| + 1 && s'.files == Replayed(files, s'.history) && ChangeIsTrue(files, s', |s.history|)
  {
    var s', n := Next(s, e), |s.history|;
    var c := s'.history[n];
    assert s'.history == s.history + [c] && s'.history[..n] == s.history;
    ReplayedAppend(files, s.history, c);
    if e.Publish? {
      var i := e.writer;
      var current := s.writers[i].phase.current;
      assert WriterIsTrue(files, s, i);
      assert OnlyOwner(s'.history, n, n, s.writers[i].path);
      ReadStaysTrue(files, s, s', i, current, n, n);
      RecheckStaysTrue(files, s, s', i, current, n, n);
    }
  }

  lemma NoNewChange(s: State, e: Event)
    requires Enabled(s, e) && !e.Publish? && !e.Edit?
    ensures Next(s, e).history == s.history && Next(s, e).files == s.files
  {
  }

  lemma HistoryKept(files: map<Path, Text>, s: State, e: Event)
    requires HistoryIsTrue(files, s) && ReadsAreTrue(files, s) && StagesAccounted(s) && InTurn(s) && Enabled(s, e)
    ensures HistoryIsTrue(files, Next(s, e))
  {
    var s', n := Next(s, e), |s.history|;
    if e.Publish? || e.Edit? { NewChangeIsTrue(files, s, e); } else { NoNewChange(s, e); }
    forall k | 0 <= k < n ensures k < |s'.history| && ChangeIsTrue(files, s', k) {
      ChangeKept(files, s, e, k);
    }
  }

  // The writers that succeeded are those in the history, each once.
  ghost predicate EachOnce(s: State) {
    && (forall i :: 0 <= i < |s.writers| && s.writers[i].phase.Wrote() ==>
          exists k :: 0 <= k < |s.history| && WroteAt(s, k, i))
    && (forall k, l :: 0 <= k < l < |s.history| && s.history[k].author.Broker? && s.history[l].author.Broker? ==>
          s.history[k].author.writer != s.history[l].author.writer)
  }

  ghost predicate WroteAt(s: State, k: nat, i: nat)
    requires k < |s.history|
  {
    s.history[k].author.Broker? && s.history[k].author.writer == i
  }

  lemma PublishedOnce(files: map<Path, Text>, s: State, e: Event)
    requires EachOnce(s) && HistoryIsTrue(files, s) && Enabled(s, e) && e.Publish?
    ensures EachOnce(Next(s, e))
  {
    var s' := Next(s, e);
    assert WroteAt(s', |s.history|, e.writer);
    forall i: nat | i < |s.writers| && s.writers[i].phase.Wrote()
      ensures exists k :: 0 <= k < |s'.history| && WroteAt(s', k, i)
    {
      var k :| 0 <= k < |s.history| && WroteAt(s, k, i);
      assert WroteAt(s', k, i);
    }
    forall k | 0 <= k < |s.history| && s.history[k].author.Broker?
      ensures s.history[k].author.writer != e.writer
    {
      assert ChangeIsTrue(files, s, k);
    }
  }

  lemma StillEachOnce(s: State, s': State)
    requires EachOnce(s) && s.history <= s'.history
    requires forall k :: |s.history| <= k < |s'.history| ==> s'.history[k].author.Owner?
    requires forall i :: 0 <= i < |s'.writers| && s'.writers[i].phase.Wrote() ==>
      i < |s.writers| && s.writers[i].phase.Wrote()
    ensures EachOnce(s')
  {
    forall i: nat | i < |s'.writers| && s'.writers[i].phase.Wrote()
      ensures exists k :: 0 <= k < |s'.history| && WroteAt(s', k, i)
    {
      var k :| 0 <= k < |s.history| && WroteAt(s, k, i);
      assert WroteAt(s', k, i);
    }
  }

  lemma OnlyPublishingWrites(s: State, e: Event, i: nat)
    requires Enabled(s, e) && !e.Publish? && i < |Next(s, e).writers| && Next(s, e).writers[i].phase.Wrote()
    ensures i < |s.writers| && s.writers[i].phase.Wrote()
  {
    if i < |s.writers| {
      AnyPhase(s, e, i);
      if !e.Call? && !e.Edit? { WroteBefore(e, s.writers[i].phase, Next(s, e).writers[i].phase); }
    } else {
      CalledWaits(s, e, i);
    }
  }

  lemma WroteBefore(e: Event, a: Phase, b: Phase)
    requires (b == a || Steps(e, a, b)) && !e.Publish? && b.Wrote()
    ensures a.Wrote()
  {
  }

  lemma OnlyOwnerOtherwise(s: State, e: Event)
    requires Enabled(s, e) && !e.Publish?
    ensures s.history <= Next(s, e).history
    ensures forall k :: |s.history| <= k < |Next(s, e).history| ==> Next(s, e).history[k].author.Owner?
  {
  }

  lemma EachOnceKept(files: map<Path, Text>, s: State, e: Event)
    requires EachOnce(s) && HistoryIsTrue(files, s) && Enabled(s, e)
    ensures EachOnce(Next(s, e))
  {
    if e.Publish? {
      PublishedOnce(files, s, e);
    } else {
      var s' := Next(s, e);
      OnlyOwnerOtherwise(s, e);
      forall i: nat | i < |s'.writers| && s'.writers[i].phase.Wrote()
        ensures i < |s.writers| && s.writers[i].phase.Wrote()
      {
        OnlyPublishingWrites(s, e, i);
      }
      StillEachOnce(s, s');
    }
  }

  // ----------------------------------------------------------------- whole runs

  ghost predicate Invariant(files: map<Path, Text>, s: State) {
    && Chained(s) && StagesAccounted(s) && ReadsAreTrue(files, s)
    && HistoryIsTrue(files, s) && EachOnce(s)
  }

  lemma FreshInvariant(files: map<Path, Text>)
    ensures Invariant(files, Fresh(files))
  {
    assert Replayed(files, []) == files;
  }

  lemma {:induction false} RunKeepsInvariant(files: map<Path, Text>, s: State, events: seq<Event>, last: State)
    requires Invariant(files, s) && IsRun(s, events, last)
    ensures Invariant(files, last)
    decreases |events|
  {
    if events != [] {
      var e := events[0];
      ChainedKept(s, e);
      StagesKept(s, e);
      ReadsKept(files, s, e);
      HistoryKept(files, s, e);
      EachOnceKept(files, s, e);
      RunKeepsInvariant(files, Next(s, e), events[1..], last);
    }
  }

  // No two critical sections on one path overlap; the map holds the last writer
  // of a path while one is queued or running, and is empty at rest.
  lemma WritersAreSerialized(files: map<Path, Text>, events: seq<Event>, s: State)
    requires IsRun(Fresh(files), events, s)
    ensures forall i: nat, j: nat ::
      Earlier(s, j, i) ==> !(s.writers[i].phase.Running() && s.writers[j].phase.Running())
    ensures forall i :: 0 <= i < |s.writers| && !s.writers[i].phase.Over() ==>
      && s.writers[i].path in s.tails
      && i <= s.tails[s.writers[i].path] < |s.writers|
      && s.writers[s.tails[s.writers[i].path]].path == s.writers[i].path
      && forall j :: s.tails[s.writers[i].path] < j < |s.writers| ==> s.writers[j].path != s.writers[i].path
    ensures (forall i :: 0 <= i < |s.writers| ==> s.writers[i].phase.Gone?) ==> s.tails == map[]
  {
    FreshInvariant(files);
    RunKeepsInvariant(files, Fresh(files), events, s);
  }

  // The files are what the history makes of them; every success had read, twice,
  // what its caller expects, and no other writer came between; the writers that
  // succeeded, and no others, are in the history, each once.
  lemma CompareAndSwap(files: map<Path, Text>, events: seq<Event>, s: State)
    requires IsRun(Fresh(files), events, s)
    ensures s.files == Replayed(files, s.history)
    ensures forall k :: 0 <= k < |s.history| ==> ChangeIsTrue(files, s, k)
    ensures EachOnce(s)
    ensures forall i :: i in s.staging && i !in s.orphans ==> i < |s.writers| && s.writers[i].phase.HasStage()
  {
    FreshInvariant(files);
    RunKeepsInvariant(files, Fresh(files), events, s);
  }

  // ---------------------------------------------------------- what is overwritten

  // The l-th change is the last of the file before the k-th.
  predicate StandsAt(history: seq<Change>, l: nat, k: nat, path: Path) {
    && l < k <= |history| && history[l].path == path
    && forall m :: l < m < k ==> history[m].path != path
  }

  lemma {:induction false} NothingSince(files: map<Path, Text>, history: seq<Change>, n: nat, k: nat, path: Path)
    requires n <= k <= |history| && forall m :: n <= m < k ==> history[m].path != path
    ensures HeldAt(files, history, k, path) == HeldAt(files, history, n, path)
    decreases k
  {
    if n < k {
      NothingSince(files, history, n, k - 1, path);
      assert history[..k] == history[..k - 1] + [history[k - 1]];
      ReplayedAppend(files, history[..k - 1], history[k - 1]);
    }
  }

  lemma StandingHolds(files: map<Path, Text>, history: seq<Change>, l: nat, k: nat, path: Path)
    requires StandsAt(history, l, k, path)
    ensures HeldAt(files, history, k, path) == history[l].new_
  {
    NothingSince(files, history, l + 1, k, path);
    assert history[..l + 1] == history[..l] + [history[l]];
    ReplayedAppend(files, history[..l], history[l]);
  }

  lemma {:induction false} LastOfFile(history: seq<Change>, n: nat, k: nat, path: Path) returns (l: nat)
    requires n <= k <= |history| && exists m :: n <= m < k && history[m].path == path
    ensures n <= l && StandsAt(history, l, k, path)
    decreases k
  {
    if history[k - 1].path == path { l := k - 1; } else { l := LastOfFile(history, n, k - 1, path); }
  }

  // The owner put something the writer never saw where the writer then wrote,
  // between the writer's second read and its rename.
  predicate Raced(s: State, k: nat, l: nat)
    requires k < |s.history| && s.history[k].author.Broker?
  {
    var c := s.history[k];
    && StandsAt(s.history, l, k, c.path) && s.history[l].author.Owner? && s.history[l].new_ != c.author.seen
    && c.author.writer in s.secondReads && s.secondReads[c.author.writer] <= l
  }

  // A writer of any expectation replaces what its first read saw, unless the
  // owner raced it.
  lemma ReplacesUnlessRaced(files: map<Path, Text>, events: seq<Event>, s: State, k: nat)
    requires IsRun(Fresh(files), events, s) && k < |s.history| && s.history[k].author.Broker?
    ensures s.history[k].old_ != s.history[k].author.seen <==> exists l: nat :: Raced(s, k, l)
  {
    CompareAndSwap(files, events, s);
    var c := s.history[k];
    assert ChangeIsTrue(files, s, k);
    var again := s.secondReads[c.author.writer];
    if exists m :: again <= m < k && s.history[m].path == c.path {
      var l := LastOfFile(s.history, again, k, c.path);
      StandingHolds(files, s.history, l, k, c.path);
      assert c.old_ != c.author.seen ==> Raced(s, k, l);
    } else {
      NothingSince(files, s.history, again, k, c.path);
    }
    forall l: nat | Raced(s, k, l) ensures c.old_ != c.author.seen {
      StandingHolds(files, s.history, l, k, c.path);
    }
  }

  // A change after a writer's first read that still stands when the writer
  // publishes is the owner's, and it is overwritten unseen exactly when it falls
  // between the second read and the rename and is not what the writer had read:
  // before the second read the owner can only have put that back.
  lemma EditIsOverwrittenExactly(files: map<Path, Text>, events: seq<Event>, s: State, k: nat, l: nat)
    requires IsRun(Fresh(files), events, s) && k < |s.history| && s.history[k].author.Broker?
    requires StandsAt(s.history, l, k, s.history[k].path)
    requires s.history[k].author.writer in s.firstReads && s.firstReads[s.history[k].author.writer] <= l
    ensures s.history[l].author.Owner?
    ensures s.history[k].old_ == s.history[l].new_
    ensures s.history[l].new_ != s.history[k].author.seen <==> Raced(s, k, l)
  {
    CompareAndSwap(files, events, s);
    var c := s.history[k];
    assert ChangeIsTrue(files, s, k);
    StandingHolds(files, s.history, l, k, c.path);
    var again := s.secondReads[c.author.writer];
    if l < again {
      assert StandsAt(s.history, l, again, c.path);
      StandingHolds(files, s.history, l, again, c.path);
    }
  }

  // ---------------------------------------------------------------- broker only

  ghost predicate BrokerOnly(events: seq<Event>) { forall k :: 0 <= k < |events| ==> !events[k].Edit? }

  lemma {:induction false} NoOwner(s: State, events: seq<Event>, last: State)
    requires BrokerOnly(events) && IsRun(s, events, last)
    requires forall k :: 0 <= k < |s.history| ==> s.history[k].author.Broker?
    ensures forall k :: 0 <= k < |last.history| ==> last.history[k].author.Broker?
    decreases |events|
  {
    if events != [] {
      assert !events[0].Edit?;
      NoOwner(Next(s, events[0]), events[1..], last);
    }
  }

  // With no writers but the broker's, no update is lost: every success replaced
  // exactly the text it named, and the second read never differs from the first.
  lemma NoUpdateIsLost(files: map<Path, Text>, events: seq<Event>, s: State)
    requires BrokerOnly(events) && IsRun(Fresh(files), events, s)
    ensures forall k :: 0 <= k < |s.history| ==> LosesNothing(files, s, k)
    ensures forall i: nat :: Enabled(s, Recheck(i)) ==> Next(s, Recheck(i)).writers[i].phase.Rechecked?
  {
    FreshInvariant(files);
    RunKeepsInvariant(files, Fresh(files), events, s);
    NoOwner(Fresh(files), events, s);
    forall k | 0 <= k < |s.history| ensures LosesNothing(files, s, k) {
      assert ChangeIsTrue(files, s, k);
      ReplacesUnlessRaced(files, events, s, k);
    }
    forall i: nat | Enabled(s, Recheck(i)) ensures Next(s, Recheck(i)).writers[i].phase.Rechecked? {
      assert WriterIsTrue(files, s, i);
      assert s.history[..|s.history|] == s.history;
      NothingSince(files, s.history, s.firstReads[i], |s.history|, s.writers[i].path);
    }
  }

  // The change is a writer's, and replaced what its first read saw and its
  // caller expects.
  ghost predicate LosesNothing(files: map<Path, Text>, s: State, k: nat)
    requires k < |s.history|
  {
    var c := s.history[k];
    && ChangeIsTrue(files, s, k) && c.author.Broker?
    && HeldAt(files, s.history, k, c.path) == c.author.seen
    && Meets(s.writers[c.author.writer].expected, c.author.seen)
  }

  // The owner's edit between the second read and the rename is lost: whatever
  // it put in the file, the rename replaces it.
  lemma RacedEditIsLost(s: State, i: nat, content: Option<Text>)
    requires StagesAccounted(s) && Enabled(s, Publish(i))
    ensures var path, current := s.writers[i].path, s.writers[i].phase.current;
      var edited := Next(s, Edit(path, content));
      && Enabled(edited, Publish(i))
      && var last := Next(edited, Publish(i));
         && last.files == s.files[path := s.writers[i].text]
         && last.history == s.history + [
              Change(Owner, path, Lookup(s.files, path), content),
              Change(Broker(i, current), path, content, Some(s.writers[i].text))]
  {
    var path := s.writers[i].path;
    var edited := Next(s, Edit(path, content));
    assert Lookup(edited.files, path) == content;
  }

  lemma RunStep(s: State, events: seq<Event>, mid: State, e: Event)
    requires IsRun(s, events, mid) && Enabled(mid, e)
    ensures IsRun(s, events + [e], Next(mid, e))
    decreases |events|
  {
    if events == [] {
      assert [e][1..] == [];
      assert events + [e] == [e];
    } else {
      assert (events + [e])[1..] == events[1..] + [e];
      RunStep(Next(s, events[0]), events[1..], mid, e);
    }
  }

  // One more step of a run whose state is known.
  lemma OneWriter(s0: State, events: seq<Event>, s: State, e: Event, w: Writer) returns (more: seq<Event>, s': State)
    requires IsRun(s0, events, s) && Enabled(s, e)
    requires Next(s, e).writers == [w]
    ensures IsRun(s0, more, s') && s' == Next(s, e) && s'.writers == [w]
  {
    RunStep(s0, events, s, e);
    more, s' := events + [e], Next(s, e);
  }

  lemma ReachesStage(path: Path, was: Text, text: Text) returns (events: seq<Event>, s: State)
    ensures IsRun(Fresh(map[path := was]), events, s)
    ensures s.files == map[path := was] && s.history == [] && s.staging == map[]
    ensures s.writers == [Writer(path, text, Exactly(was), Compared(Some(was)))]
  {
    var s0 := Fresh(map[path := was]);
    var w := Writer(path, text, Exactly(was), Waiting(None));
    events, s := OneWriter(s0, [], s0, Call(path, text, Exactly(was)), w);
    events, s := OneWriter(s0, events, s, Begin(0), w.(phase := Started));
    events, s := OneWriter(s0, events, s, Compare(0), w.(phase := Compared(Some(was))));
  }

  // A writer alone reaches the rename.
  lemma ReachesRename(path: Path, was: Text, text: Text) returns (events: seq<Event>, s: State)
    ensures IsRun(Fresh(map[path := was]), events, s)
    ensures s.files == map[path := was] && s.history == []
    ensures s.writers == [Writer(path, text, Exactly(was), Rechecked(Some(was)))]
    ensures s.staging == map[0 := text]
  {
    var s0 := Fresh(map[path := was]);
    events, s := ReachesStage(path, was, text);
    var w := s.writers[0];
    events, s := OneWriter(s0, events, s, Open(0), w.(phase := Opened(Some(was))));
    events, s := OneWriter(s0, events, s, Write(0), w.(phase := Written(Some(was))));
    events, s := OneWriter(s0, events, s, Recheck(0), w.(phase := Rechecked(Some(was))));
  }

  // Such a race can happen: a run reaches the rename with an edit before it.
  lemma RaceHappens(path: Path, was: Text, mine: Text, text: Text)
    ensures exists events, s ::
      && IsRun(Fresh(map[path := was]), events, s)
      && s.files == map[path := text]
      && s.history == [Change(Owner, path, Some(was), Some(mine)),
                       Change(Broker(0, Some(was)), path, Some(mine), Some(text))]
  {
    var s0 := Fresh(map[path := was]);
    var events, s := ReachesRename(path, was, text);
    FreshInvariant(map[path := was]);
    RunKeepsInvariant(map[path := was], s0, events, s);
    RacedEditIsLost(s, 0, Some(mine));
    RunStep(s0, events, s, Edit(path, Some(mine)));
    var edited := Next(s, Edit(path, Some(mine)));
    RunStep(s0, events + [Edit(path, Some(mine))], edited, Publish(0));
    assert Next(edited, Publish(0)).files == map[path := text];
  }
}
