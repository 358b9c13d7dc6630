/**
 Exactly when a tick launches a review and an operator's evidence is taken, told
 by the history of all reviews; and what the marks that decide it stand for.
 */
module ReviewLaunches {
  import opened Wrappers
  import opened ReviewModel
  import opened ReviewCustody

  // ---------------------------------------------------------------- when it launches

  // The reviews of the history that started in the day that ends at `at`.
  function StartedInDay(history: seq<Run>, at: int): set<nat> {
    set i: nat | i < |history| && at - 86_400 < history[i].started <= at
  }

  lemma {:induction false} CountIsSize(history: seq<Run>, at: int)
    ensures CountRecent(history, at) == |StartedInDay(history, at)|
    decreases |history|
  {
    if history != [] {
      var n := |history| - 1;
      CountIsSize(history[..n], at);
      var before := StartedInDay(history[..n], at);
      assert n !in before;
      if at - 86_400 < history[n].started <= at {
        assert StartedInDay(history, at) == before + {n};
      } else {
        assert StartedInDay(history, at) == before;
      }
    }
  }

  // An incident the sample shows, whose mark is a cooldown old; 0 stands for no mark.
  predicate Unmarked(w: World, config: Config, samples: Samples, at: int) {
    exists code :: code in samples.incidents &&
      at - (if code in w.state.incidentLast then w.state.incidentLast[code] else 0) >= config.cooldown
  }

  predicate NoneCompletedWithin(w: World, interval: nat, at: int) {
    w.state.lastCompleted.None? || at - w.state.lastCompleted.value >= interval
  }

  predicate AllResolved(history: seq<Run>) { forall r <- history :: r.outcome != Uncertain }

  predicate MayLaunch(w: World, config: Config, samples: Option<Samples>, at: int) {
    && AllResolved(w.history)
    && config.enabled
    && samples.Some? && samples.value.at <= at <= samples.value.at + 180
    && |StartedInDay(w.history, at)| < config.maxReviewsDay
    && (w.history != [] ==> w.history[|w.history| - 1].started + config.cooldown <= at)
    && (Unmarked(w, config, samples.value, at) || NoneCompletedWithin(w, config.interval, at))
  }

  lemma ResolvedIsNotPending(w: World)
    requires Custody(w)
    ensures AllResolved(w.history) <==> w.state.pending.None?
  {
    var n := |w.history|;
    if w.state.pending.Some? {
      assert w.history[n - 1] in w.history;
    } else {
      forall r | r in w.history ensures r.outcome != Uncertain {
        var i :| 0 <= i < n && w.history[i] == r;
      }
    }
  }

  lemma DueExactly(w: World, config: Config, samples: Option<Samples>, at: int)
    requires Custody(w) && Rated(w.history)
    requires config.Admitted()
    ensures Launches(Due(config, samples, w.state, at)) <==> MayLaunch(w, config, samples, at)
  {
    ResolvedIsNotPending(w);
    LatestInLog(w);
    CountIsSize(w.history, at);
    if w.history == [] || w.history[|w.history| - 1].started + MIN_COOLDOWN_S <= at {
      LogCountsLikeHistory(w.history, at);
    }
  }

  // A tick that does not die before its intent is durable launches a review, which
  // the history then ends with, exactly when all earlier ones are resolved, reviews
  // are enabled, the sample is at most three minutes old, the day and the cooldown
  // allow it, and an incident or the interval asks for it. If not, nothing changes.
  lemma LaunchesExactly(w: World, e: ReviewCustody.Event)
    requires Custody(w) && Rated(w.history) && Enabled(w, e) && e.Tick? && !e.fate.DiedBeforeIntent?
    ensures if MayLaunch(w, e.config, e.samples, e.at)
      then |Next(w, e).history| == |w.history| + 1
      else Next(w, e) == w
  {
    DueExactly(w, e.config, e.samples, e.at);
  }

  // --------------------------------------------------------------- what it leaves

  // The review is in the history, with the session before it and whether it showed
  // that it finished. One that did not is pending; one that did sets the session, the
  // time of completion and the marks of the incidents it was shown.
  lemma LaunchLeaves(w: World, e: ReviewCustody.Event)
    requires Custody(w) && Enabled(w, e) && e.Tick? && Next(w, e) != w
    ensures var v := Next(w, e);
      var finished := e.fate.Read? && e.fate.session.Some?;
      var run := Run(e.id, e.at, if finished then Completed else Uncertain, w.state.session, e.config);
      && v.history == w.history + [run] && v.state.runs == LastRuns(v.history)
      && (if finished then
            && v.state.session == e.fate.session && v.state.lastCompleted == Some(e.fate.at)
            && v.state.pending == None && e.samples.Some?
            && (forall code ::
                  Marked(v, code) == if code in e.samples.value.incidents then Some(e.at) else Marked(w, code))
          else
            && v.state.pending == Some(Pending(run, e.fate.Read?))
            && v.state == w.state.(pending := v.state.pending, runs := v.state.runs))
  {
    LaunchKeepsLog(w, e);
    if e.fate.Read? && e.fate.session.Some? { MarksOf(w.state.incidentLast, e.samples.value.incidents, e.at); }
  }

  function Marked(w: World, code: Code): Option<int> {
    if code in w.state.incidentLast then Some(w.state.incidentLast[code]) else None
  }

  lemma {:induction false} MarksOf(marks: map<Code, int>, codes: seq<Code>, at: int)
    ensures forall code ::
      var after := MarkIncidents(marks, codes, at);
      (code in after <==> code in codes || code in marks)
      && (code in after ==> after[code] == if code in codes then at else marks[code])
    decreases |codes|
  {
    if codes != [] {
      MarksOf(marks[codes[0] := at], codes[1..], at);
      assert codes == [codes[0]] + codes[1..];
    }
  }

  // ------------------------------------------------------------------ reconciliation

  // Evidence that names a review.
  predicate Answers(proof: Evidence, run: Run, at: int) {
    && proof.attested && proof.checkedAt <= at <= proof.checkedAt + 3_600
    && proof.runId == run.id && proof.config == run.config
    && (proof.completed ==> proof.session.Some? && run.previousSession in {None, proof.session})
  }

  predicate Taken(w: World, proof: Evidence, at: int) {
    var n := |w.history|;
    n > 0 && w.history[n - 1].outcome == Uncertain && Answers(proof, w.history[n - 1], at)
  }

  function Resolved(history: seq<Run>, completed: bool): seq<Run>
    requires history != []
  {
    var n := |history| - 1;
    history[..n] + [history[n].(outcome := if completed then ReconciledCompleted else ReconciledAbandoned)]
  }

  // Evidence is taken exactly when it is attested, at most an hour old, and names the
  // last review, still unresolved, by id and configuration; and, if it says that this
  // completed, names a session, the one that was to be resumed if there was one.
  // Then the review is resolved as the evidence says, and nothing else of the history
  // changes; if it is not taken nothing changes at all.
  lemma ReconcilesExactly(w: World, proof: Evidence, at: int)
    requires Custody(w)
    ensures var v := Next(w, Reconcile(proof, at));
      if !Taken(w, proof, at) then v == w
      else
        && v.history == Resolved(w.history, proof.completed)
        && v.state == State(if proof.completed then proof.session else w.state.session,
                            if proof.completed then Some(at) else w.state.lastCompleted,
                            None, LastRuns(v.history), w.state.incidentLast)
  {
    TakenIsReconcilable(w, proof, at);
    if Taken(w, proof, at) {
      MarkedLog(w.history, proof.runId, Reconciled(proof));
      LastIsMarked(w.history, proof);
      assert w.state.runs == LastRuns(w.history);
    }
  }

  lemma TakenIsReconcilable(w: World, proof: Evidence, at: int)
    requires Custody(w)
    ensures Reconcilable(w.state, proof, at) <==> Taken(w, proof, at)
  {
  }

  lemma LastIsMarked(history: seq<Run>, proof: Evidence)
    requires history != [] && DistinctIds(history) && proof.runId == history[|history| - 1].id
    ensures MarkRuns(history, proof.runId, Reconciled(proof)) == Resolved(history, proof.completed)
  {
    var n := |history| - 1;
    var marked, resolved := MarkRuns(history, proof.runId, Reconciled(proof)), Resolved(history, proof.completed);
    assert |marked| == |resolved|;
    forall i | 0 <= i < |marked| ensures marked[i] == resolved[i] {
      if i < n {
        assert history[i].id != history[n].id;
        assert resolved[i] == history[..n][i] == history[i];
      }
    }
  }

  // ------------------------------------------------------------- what the marks mean

  // A tick whose review shows that it finished.
  predicate Finishes(w: World, e: ReviewCustody.Event) {
    && e.Tick? && e.fate.Read? && e.fate.session.Some? && e.samples.Some?
    && |Next(w, e).history| > |w.history|
  }

  // When the last review that was shown an incident and finished was started.
  ghost function LastMark(w: World, events: seq<ReviewCustody.Event>, code: Code): Option<int>
    requires Possible(w, events)
    decreases |events|
  {
    if events == [] then None
    else
      var later := LastMark(Next(w, events[0]), events[1..], code);
      if later.Some? then later
      else if Finishes(w, events[0]) && code in events[0].samples.value.incidents then Some(events[0].at)
      else None
  }

  // When a review was last seen, or said, to have completed.
  ghost function LastCompletion(w: World, events: seq<ReviewCustody.Event>): Option<int>
    requires Possible(w, events)
    decreases |events|
  {
    if events == [] then None
    else
      var later := LastCompletion(Next(w, events[0]), events[1..]);
      if later.Some? then later
      else if Finishes(w, events[0]) then Some(events[0].fate.at)
      else if events[0].Reconcile? && events[0].evidence.completed && Next(w, events[0]) != w then Some(events[0].at)
      else None
  }

  lemma StepMarks(w: World, e: ReviewCustody.Event, code: Code)
    requires Custody(w) && Enabled(w, e)
    ensures Marked(Next(w, e), code)
      == if Finishes(w, e) && code in e.samples.value.incidents then Some(e.at) else Marked(w, code)
    ensures Next(w, e).state.lastCompleted
      == if Finishes(w, e) then Some(e.fate.at)
         else if e.Reconcile? && e.evidence.completed && Next(w, e) != w then Some(e.at)
         else w.state.lastCompleted
  {
    if e.Reconcile? {
      ReconcilesExactly(w, e.evidence, e.at);
    } else if Next(w, e) != w {
      LaunchLeaves(w, e);
    }
  }

  // Over every run from the start the mark of an incident is the start of the last
  // finished review that was shown it, and the time of completion is that of the last
  // completion.
  lemma MarksMean(events: seq<ReviewCustody.Event>, code: Code)
    requires Possible(Start, events)
    ensures Marked(After(Start, events), code) == LastMark(Start, events, code)
    ensures After(Start, events).state.lastCompleted == LastCompletion(Start, events)
  {
    MarksMeanFrom(Start, events, code);
  }

  lemma {:induction false} MarksMeanFrom(w: World, events: seq<ReviewCustody.Event>, code: Code)
    requires Custody(w) && Possible(w, events)
    ensures Marked(After(w, events), code)
      == if LastMark(w, events, code).Some? then LastMark(w, events, code) else Marked(w, code)
    ensures After(w, events).state.lastCompleted
      == if LastCompletion(w, events).Some? then LastCompletion(w, events) else w.state.lastCompleted
    decreases |events|
  {
    if events != [] {
      StepKeepsCustody(w, events[0]);
      StepMarks(w, events[0], code);
      MarksMeanFrom(Next(w, events[0]), events[1..], code);
    }
  }
}
