/**
 What holds over every sequence of ticks, crashes and reconciliations, on any
 clock: one unresolved review at most, one session for ever, and a rate limit
 that the truncated log enforces as well as the full history would.
 */
module ReviewCustody {
  import opened Wrappers
  import opened ReviewModel

  // The durable state, and every review ever launched with its outcome.
  datatype World = World(state: State, history: seq<Run>)

  datatype Event =
    | Tick(config: Config, samples: Option<Samples>, at: int, id: Id, fate: Fate)
    | Reconcile(evidence: Evidence, at: int)

  // Ids are fresh, configurations are admitted, and the clock shows a positive
  // time, though any other. A session is read only from output that shows it.
  ghost predicate Enabled(w: World, e: Event) {
    e.Tick? ==>
      && (forall r :: r in w.history ==> r.id != e.id)
      && e.config.Admitted()
      && e.at > 0
      && (e.fate.Read? && e.fate.session.Some? ==>
            exists output :: Shows(output, w.state.session, e.fate.session.value))
  }

  predicate Launched(w: World, e: Event) {
    e.Tick? && Launches(Due(e.config, e.samples, w.state, e.at)) && !e.fate.DiedBeforeIntent?
  }

  function Next(w: World, e: Event): World {
    match e
    case Tick(config, samples, at, id, fate) =>
      var s := AfterTick(w.state, config, samples, at, id, fate);
      World(s, if !Launched(w, e) then w.history
               else
                 var done := if fate.Read? && fate.session.Some? then Completed else Uncertain;
                 w.history + [Run(id, at, done, w.state.session, config)])
    case Reconcile(evidence, at) =>
      World(AfterReconcile(w.state, evidence, at),
            if Reconcilable(w.state, evidence, at)
            then MarkRuns(w.history, evidence.runId, Reconciled(evidence)) else w.history)
  }

  const Start := World(Default, [])

  ghost predicate Possible(w: World, events: seq<Event>)
    decreases |events|
  {
    events == [] || (Enabled(w, events[0]) && Possible(Next(w, events[0]), events[1..]))
  }

  ghost function After(w: World, events: seq<Event>): World
    requires Possible(w, events)
    decreases |events|
  {
    if events == [] then w else After(Next(w, events[0]), events[1..])
  }

  // -------------------------------------------------------------------- custody

  predicate DistinctIds(history: seq<Run>) {
    forall i, j :: 0 <= i < j < |history| ==> history[i].id != history[j].id
  }

  predicate Custody(w: World) {
    var n := |w.history|;
    && w.state.runs == LastRuns(w.history)
    && DistinctIds(w.history)
    && (forall i :: 0 <= i < n - 1 ==> w.history[i].outcome != Uncertain)
    && (w.state.pending.Some? <==> n > 0 && w.history[n - 1].outcome == Uncertain)
    && (w.state.pending.Some? ==>
          && w.state.pending.value.run == w.history[n - 1]
          && w.state.pending.value.run.previousSession == w.state.session)
  }

  lemma LastRunsOfAppended(history: seq<Run>, run: Run)
    ensures LastRuns(LastRuns(history) + [run]) == LastRuns(history + [run])
  {
  }

  lemma LastRunsOfUpdated(history: seq<Run>, run: Run, done: Run)
    ensures var log := LastRuns(history + [run]);
      log != [] && log[|log| - 1 := done] == LastRuns(history + [done])
  {
  }

  lemma LaunchKeepsLog(w: World, e: Event)
    requires Custody(w) && Enabled(w, e) && Launched(w, e)
    ensures Next(w, e).state.runs == LastRuns(Next(w, e).history)
  {
    var run := Run(e.id, e.at, Uncertain, w.state.session, e.config);
    LastRunsOfAppended(w.history, run);
    LastRunsOfUpdated(w.history, run, run.(outcome := Completed));
  }

  lemma LaunchKeepsPending(w: World, e: Event)
    requires Custody(w) && Enabled(w, e) && Launched(w, e)
    ensures var v := Next(w, e);
      var last := v.history[|w.history|];
      && v.history == w.history + [last] && last.id == e.id
      && (v.state.pending.Some? <==> last.outcome == Uncertain)
      && (v.state.pending.Some? ==>
            v.state.pending.value.run == last && last.previousSession == v.state.session)
  {
  }

  lemma LaunchKeepsCustody(w: World, e: Event)
    requires Custody(w) && Enabled(w, e) && Launched(w, e)
    ensures Custody(Next(w, e))
  {
    LaunchKeepsLog(w, e);
    LaunchKeepsPending(w, e);
    var history := Next(w, e).history;
    var n := |w.history|;
    assert w.state.pending.None?;
    forall i, j | 0 <= i < j < |history| ensures history[i].id != history[j].id {
      assert history[i] == w.history[i];
      if j < n { assert history[j] == w.history[j]; } else { assert w.history[i] in w.history; }
    }
    forall i | 0 <= i < n ensures history[i].outcome != Uncertain {
      assert history[i] == w.history[i];
    }
  }

  // Marking a tail is the tail of the marking.
  lemma {:induction false} MarkedTail(runs: seq<Run>, k: nat, id: Id, outcome: Outcome)
    requires k <= |runs|
    ensures MarkRuns(runs[k..], id, outcome) == MarkRuns(runs, id, outcome)[k..]
    decreases k
  {
    if k > 0 {
      MarkedTail(runs[1..], k - 1, id, outcome);
      assert runs[1..][k - 1..] == runs[k..];
    } else {
      assert runs[0..] == runs;
    }
  }

  lemma MarkedLog(history: seq<Run>, id: Id, outcome: Outcome)
    ensures MarkRuns(LastRuns(history), id, outcome) == LastRuns(MarkRuns(history, id, outcome))
  {
    if |history| > LOG_LIMIT { MarkedTail(history, |history| - LOG_LIMIT, id, outcome); }
  }

  lemma ReconcileKeepsCustody(w: World, e: Event)
    requires Custody(w) && e.Reconcile? && Reconcilable(w.state, e.evidence, e.at)
    ensures Custody(Next(w, e))
  {
    var v := Next(w, e);
    var n := |w.history|;
    MarkedLog(w.history, e.evidence.runId, Reconciled(e.evidence));
    assert v.state.runs == LastRuns(v.history) && v.state.pending.None?;
    MarkedHistory(w.history, e.evidence.runId, Reconciled(e.evidence));
  }

  // Marking the unresolved last run resolves everything.
  lemma MarkedHistory(history: seq<Run>, id: Id, outcome: Outcome)
    requires history != [] && DistinctIds(history) && id == history[|history| - 1].id
    requires forall i :: 0 <= i < |history| - 1 ==> history[i].outcome != Uncertain
    requires outcome != Uncertain
    ensures var marked := MarkRuns(history, id, outcome);
      DistinctIds(marked) && forall i :: 0 <= i < |marked| ==> marked[i].outcome != Uncertain
  {
    var marked := MarkRuns(history, id, outcome);
    forall i, j | 0 <= i < j < |marked| ensures marked[i].id != marked[j].id {
      assert marked[i].id == history[i].id && marked[j].id == history[j].id;
    }
    forall i | 0 <= i < |marked| ensures marked[i].outcome != Uncertain {
      if i < |history| - 1 {
        assert history[i].id != history[|history| - 1].id;
      }
    }
  }

  // Once set, the session never changes; runs never leave the history, and keep
  // all but their outcome.
  predicate Continues(w: World, v: World) {
    && (w.state.session.Some? ==> v.state.session == w.state.session)
    && |w.history| <= |v.history|
    && (forall i :: 0 <= i < |w.history| ==>
          && v.history[i] == w.history[i].(outcome := v.history[i].outcome)
          && (w.history[i].outcome != Uncertain ==> v.history[i] == w.history[i]))
  }

  lemma StepContinues(w: World, e: Event)
    requires Custody(w) && Enabled(w, e)
    ensures Continues(w, Next(w, e))
  {
    var v := Next(w, e);
    if e.Reconcile? && Reconcilable(w.state, e.evidence, e.at) {
      forall i | 0 <= i < |w.history| && w.history[i].outcome != Uncertain ensures v.history[i] == w.history[i] {
        assert w.history[i].id != w.history[|w.history| - 1].id;
      }
    } else if Launched(w, e) {
      assert v.history[..|w.history|] == w.history;
    }
  }

  lemma StepKeepsCustody(w: World, e: Event)
    requires Custody(w) && Enabled(w, e)
    ensures Custody(Next(w, e))
  {
    if Launched(w, e) {
      LaunchKeepsCustody(w, e);
    } else if e.Reconcile? && Reconcilable(w.state, e.evidence, e.at) {
      ReconcileKeepsCustody(w, e);
    }
  }

  // In every history, at most one launched review is unresolved: the last one,
  // and exactly when `pending` names it. Whatever follows, resolved reviews
  // stay as they are and the session never changes once it is set.
  lemma {:induction false} ReviewCustodyHolds(w: World, events: seq<Event>)
    requires Custody(w) && Possible(w, events)
    ensures Custody(After(w, events)) && Continues(w, After(w, events))
    decreases |events|
  {
    if events != [] {
      StepKeepsCustody(w, events[0]);
      StepContinues(w, events[0]);
      ReviewCustodyHolds(Next(w, events[0]), events[1..]);
    }
  }

  // ----------------------------------------------------------------------- rate

  // Each run starts at least its own cooldown after the run before it, and at
  // most its own daily limit of runs start in the day that ends with it.
  predicate RatedAt(history: seq<Run>, i: nat)
    requires i < |history|
  {
    && history[i].started > 0 && history[i].config.Admitted()
    && (i > 0 ==> history[i].started >= history[i - 1].started + history[i].config.cooldown)
    && CountRecent(history[..i + 1], history[i].started) <= history[i].config.maxReviewsDay
  }

  predicate Rated(history: seq<Run>) {
    forall i :: 0 <= i < |history| ==> RatedAt(history, i)
  }

  // Runs are a cooldown apart, place by place.
  lemma {:induction false} SpacedBackwards(history: seq<Run>, i: nat, j: nat)
    requires Rated(history) && i <= j < |history|
    ensures history[i].started > 0
    ensures history[i].started + MIN_COOLDOWN_S * (j - i) <= history[j].started
    decreases j
  {
    assert RatedAt(history, j);
    if i < j { SpacedBackwards(history, i, j - 1); }
  }

  lemma {:induction false} LatestIsLast(runs: seq<Run>)
    requires runs != []
    requires forall i :: 0 <= i < |runs| ==> runs[i].started <= runs[|runs| - 1].started
    ensures LatestStart(runs) == runs[|runs| - 1].started
  {
    if |runs| > 1 {
      LatestAttained(runs[..|runs| - 1]);
    }
  }

  lemma {:induction false} LatestAttained(runs: seq<Run>)
    requires runs != []
    ensures exists i :: 0 <= i < |runs| && LatestStart(runs) == runs[i].started
  {
    if |runs| > 1 {
      var shorter := runs[..|runs| - 1];
      LatestAttained(shorter);
      var i :| 0 <= i < |shorter| && LatestStart(shorter) == shorter[i].started;
      assert runs[i] == shorter[i];
      if LatestStart(runs) != runs[i].started {
        assert LatestStart(runs) == runs[|runs| - 1].started;
      }
    } else {
      assert LatestStart(runs) == runs[0].started;
    }
  }

  // The last 96 runs count like all of them once a cooldown has passed: a run
  // further back started more than a day ago.
  lemma {:induction false} LogCountsLikeHistory(history: seq<Run>, at: int)
    requires Rated(history)
    requires history != [] ==> at >= history[|history| - 1].started + MIN_COOLDOWN_S
    ensures CountRecent(LastRuns(history), at) == CountRecent(history, at)
  {
    if |history| > LOG_LIMIT {
      var k := |history| - LOG_LIMIT;
      forall i | 0 <= i < k ensures !Recent(history[i], at) {
        SpacedBackwards(history, i, |history| - 1);
        assert MIN_COOLDOWN_S * (|history| - 1 - i) >= MIN_COOLDOWN_S * LOG_LIMIT;
      }
      CountSkipsPrefix(history, k, at);
    }
  }

  lemma {:induction false} CountSkipsPrefix(runs: seq<Run>, k: nat, at: int)
    requires k <= |runs|
    requires forall i :: 0 <= i < k ==> !Recent(runs[i], at)
    ensures CountRecent(runs, at) == CountRecent(runs[k..], at)
    decreases |runs|
  {
    if k < |runs| {
      var n := |runs|;
      CountSkipsPrefix(runs[..n - 1], k, at);
      assert runs[..n - 1][k..] == runs[k..][..n - 1 - k];
    } else if k > 0 {
      CountSkipsPrefix(runs[..k - 1], k - 1, at);
      assert runs[..k - 1][k - 1..] == [];
    }
  }

  // Counting ignores outcomes, and later outcomes leave the rate alone.
  predicate SameStarts(a: seq<Run>, b: seq<Run>) {
    && |a| == |b|
    && forall i :: 0 <= i < |a| ==> a[i].started == b[i].started && a[i].config == b[i].config
  }

  lemma {:induction false} SameStartsCountSame(a: seq<Run>, b: seq<Run>, at: int)
    requires SameStarts(a, b)
    ensures CountRecent(a, at) == CountRecent(b, at)
    decreases |a|
  {
    if a != [] {
      assert a[|a| - 1].started == b[|a| - 1].started;
      SameStartsCountSame(a[..|a| - 1], b[..|b| - 1], at);
    }
  }

  lemma SameStartsRateSame(a: seq<Run>, b: seq<Run>)
    requires SameStarts(a, b) && Rated(a)
    ensures Rated(b)
  {
    forall i | 0 <= i < |b| ensures RatedAt(b, i) {
      assert RatedAt(a, i);
      assert b[i].started == a[i].started && b[i].config == a[i].config;
      assert i > 0 ==> b[i - 1].started == a[i - 1].started;
      SameStartsCountSame(a[..i + 1], b[..i + 1], a[i].started);
    }
  }

  lemma LatestInLog(w: World)
    requires Custody(w) && Rated(w.history)
    ensures w.history != [] ==> 0 < LatestStart(w.state.runs) == w.history[|w.history| - 1].started
  {
    var log := w.state.runs;
    var n := |w.history|;
    if n > 0 {
      var k := n - |log|;
      forall i | 0 <= i < |log| ensures 0 < log[i].started <= log[|log| - 1].started {
        assert log[i] == w.history[k + i];
        SpacedBackwards(w.history, k + i, n - 1);
      }
      assert log[|log| - 1] == w.history[n - 1];
      LatestIsLast(log);
    }
  }

  lemma LaunchIsLate(w: World, e: Event)
    requires Custody(w) && Rated(w.history) && Enabled(w, e) && Launched(w, e)
    ensures w.history != [] ==> e.at >= w.history[|w.history| - 1].started + e.config.cooldown
    ensures CountRecent(w.history, e.at) < e.config.maxReviewsDay
  {
    LatestInLog(w);
    LogCountsLikeHistory(w.history, e.at);
  }

  lemma OneMoreRated(history: seq<Run>, run: Run)
    requires Rated(history) && run.started > 0 && run.config.Admitted()
    requires history != [] ==> run.started >= history[|history| - 1].started + run.config.cooldown
    requires CountRecent(history, run.started) < run.config.maxReviewsDay
    ensures Rated(history + [run])
  {
    var longer, n := history + [run], |history|;
    forall i | 0 <= i < |longer| ensures RatedAt(longer, i) {
      if i < n {
        assert RatedAt(history, i);
        assert longer[..i + 1] == history[..i + 1];
      } else {
        assert longer[..n + 1] == longer && longer[..n] == history;
      }
    }
  }

  // A launch appends its run, and nothing else changes a start.
  lemma LaunchAppends(w: World, e: Event)
    requires Launched(w, e)
    ensures |Next(w, e).history| == |w.history| + 1
    ensures var run := Next(w, e).history[|w.history|];
      Next(w, e).history == w.history + [run] && run.started == e.at && run.config == e.config
  {
  }

  lemma OthersKeepStarts(w: World, e: Event)
    requires !Launched(w, e)
    ensures SameStarts(w.history, Next(w, e).history)
  {
  }

  lemma StepKeepsRate(w: World, e: Event)
    requires Custody(w) && Rated(w.history) && Enabled(w, e)
    ensures Rated(Next(w, e).history)
  {
    if Launched(w, e) {
      LaunchIsLate(w, e);
      LaunchAppends(w, e);
      OneMoreRated(w.history, Next(w, e).history[|w.history|]);
    } else {
      OthersKeepStarts(w, e);
      SameStartsRateSame(w.history, Next(w, e).history);
    }
  }

  lemma {:induction false} RunKeepsRate(w: World, events: seq<Event>)
    requires Custody(w) && Rated(w.history) && Possible(w, events)
    ensures Custody(After(w, events)) && Rated(After(w, events).history)
    decreases |events|
  {
    if events != [] {
      StepKeepsCustody(w, events[0]);
      StepKeepsRate(w, events[0]);
      RunKeepsRate(Next(w, events[0]), events[1..]);
    }
  }

  // ------------------------------------------------------------- any day's count

  function CountWindow(history: seq<Run>, from: int): nat {
    if history == [] then 0
    else
      var last := history[|history| - 1].started;
      CountWindow(history[..|history| - 1], from) + (if from <= last < from + DAY_S then 1 else 0)
  }

  lemma {:induction false} WindowWithinRecent(history: seq<Run>, from: int, at: int)
    requires from <= at < from + DAY_S
    requires forall i :: 0 <= i < |history| ==> history[i].started <= at
    ensures CountWindow(history, from) <= CountRecent(history, at)
  {
    if history != [] {
      WindowWithinRecent(history[..|history| - 1], from, at);
    }
  }

  lemma RatedShorter(history: seq<Run>)
    requires Rated(history) && history != []
    ensures Rated(history[..|history| - 1])
  {
    var shorter := history[..|history| - 1];
    forall i | 0 <= i < |shorter| ensures RatedAt(shorter, i) {
      assert RatedAt(history, i);
      assert shorter[..i + 1] == history[..i + 1];
    }
  }

  lemma {:induction false} WindowBounded(history: seq<Run>, from: int, limit: nat)
    requires Rated(history)
    requires forall r :: r in history ==> r.config.maxReviewsDay <= limit
    ensures CountWindow(history, from) <= limit
    decreases |history|
  {
    var n := |history|;
    if n > 0 {
      if from <= history[n - 1].started < from + DAY_S {
        forall i | 0 <= i < n ensures history[i].started <= history[n - 1].started {
          SpacedBackwards(history, i, n - 1);
        }
        WindowWithinRecent(history, from, history[n - 1].started);
        assert RatedAt(history, n - 1) && history[..n] == history;
        assert history[n - 1] in history;
      } else {
        RatedShorter(history);
        WindowBounded(history[..n - 1], from, limit);
      }
    }
  }

  // With no assumption on the clock but that it is positive: launches are at
  // least 900 s apart in launch order.
  lemma LaunchesAreApart(events: seq<Event>, i: nat, j: nat)
    requires Possible(Start, events)
    requires i < j < |After(Start, events).history|
    ensures var history := After(Start, events).history;
      history[j].started >= history[i].started + MIN_COOLDOWN_S * (j - i)
  {
    RunKeepsRate(Start, events);
    var history := After(Start, events).history;
    SpacedBackwards(history, i, j);
  }

  // And if no configuration in the history allows more than `limit` reviews a
  // day, no 86400 s window holds more.
  lemma ReviewRate(events: seq<Event>, limit: nat, from: int)
    requires Possible(Start, events)
    requires forall r :: r in After(Start, events).history ==> r.config.maxReviewsDay <= limit
    ensures CountWindow(After(Start, events).history, from) <= limit
  {
    RunKeepsRate(Start, events);
    WindowBounded(After(Start, events).history, from, limit);
  }
}
