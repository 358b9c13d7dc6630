/**
 The model reviews of unattended maintenance: when one is due, what a tick and
 an operator's reconciliation write to the durable state, and how the output of
 a review is read.
 */
module ReviewModel {
  import opened Wrappers

  type Session = string
  type Id = string
  type Code = string

  const LOG_LIMIT: nat := 96
  const DAY_S: nat := 86_400
  const MIN_COOLDOWN_S: nat := 900
  const SAMPLE_AGE_S: nat := 180
  const EVIDENCE_AGE_S: nat := 3_600

  function Max(a: int, b: int): int { if a >= b then a else b }

  // The settings that matter; the source's hash of the configuration is taken
  // as the configuration itself.
  datatype Config = Config(enabled: bool, interval: nat, cooldown: nat, maxReviewsDay: nat)
  {
    // As the configuration reader admits it.
    predicate Admitted() {
      && 3_600 <= interval <= 86_400
      && MIN_COOLDOWN_S <= cooldown <= 86_400
      && 1 <= maxReviewsDay <= 48
    }
  }

  datatype Samples = Samples(at: int, incidents: seq<Code>)

  datatype Outcome = Uncertain | Completed | ReconciledCompleted | ReconciledAbandoned

  datatype Run = Run(id: Id, started: int, outcome: Outcome, previousSession: Option<Session>, config: Config)

  datatype Pending = Pending(run: Run, failureRecorded: bool)

  datatype State = State(
    session: Option<Session>, lastCompleted: Option<int>, pending: Option<Pending>,
    runs: seq<Run>, incidentLast: map<Code, int>)

  const Default := State(None, None, None, [], map[])

  // ------------------------------------------------------------------------ due

  datatype Verdict =
    | UncertainPreviousRun | ReviewsDisabled | StaleSample | DailyLimit | Cooldown
    | Incident | Periodic | NotDue

  predicate Recent(run: Run, at: int) { 0 <= at - run.started < DAY_S }

  function CountRecent(runs: seq<Run>, at: int): nat {
    if runs == [] then 0
    else CountRecent(runs[..|runs| - 1], at) + (if Recent(runs[|runs| - 1], at) then 1 else 0)
  }

  // The latest start, or 0 when there is none.
  function LatestStart(runs: seq<Run>): int {
    if runs == [] then 0
    else if |runs| == 1 then runs[0].started
    else Max(LatestStart(runs[..|runs| - 1]), runs[|runs| - 1].started)
  }

  function LastIncident(s: State, code: Code): int {
    if code in s.incidentLast then s.incidentLast[code] else 0
  }

  function Due(config: Config, samples: Option<Samples>, s: State, at: int): Verdict {
    if s.pending.Some? then UncertainPreviousRun
    else if !config.enabled then ReviewsDisabled
    else if samples.None? || !(0 <= at - samples.value.at <= SAMPLE_AGE_S) then StaleSample
    else if CountRecent(s.runs, at) >= config.maxReviewsDay then DailyLimit
    else if LatestStart(s.runs) != 0 && at - LatestStart(s.runs) < config.cooldown then Cooldown
    else if exists code :: code in samples.value.incidents && at - LastIncident(s, code) >= config.cooldown
      then Incident
    else if s.lastCompleted.None? || at - s.lastCompleted.value >= config.interval then Periodic
    else NotDue
  }

  predicate Launches(v: Verdict) { v == Incident || v == Periodic }

  // -------------------------------------------------------------- review output

  // One line of output. A thread id is kept only in canonical form.
  datatype Event =
    | ThreadStarted(id: Option<Session>)
    | TurnFailed
    | TurnCompleted(usageIsObject: bool)
    | OtherEvent
    | MalformedLine

  // `finished` says that the process ended by itself with exit code 0.
  datatype Output = Output(finished: bool, events: seq<Event>)

  predicate Acceptable(e: Event) {
    match e
    case ThreadStarted(id) => id.Some?
    case TurnFailed => false
    case TurnCompleted(usageIsObject) => usageIsObject
    case OtherEvent => true
    case MalformedLine => false
  }

  function Completions(events: seq<Event>): nat {
    if events == [] then 0
    else Completions(events[..|events| - 1]) + (if events[|events| - 1].TurnCompleted? then 1 else 0)
  }

  // What a review must show: no bad line, one thread named throughout, one
  // completed turn, and the thread that was to be resumed, if any.
  predicate Shows(output: Output, expected: Option<Session>, session: Session) {
    && output.finished
    && (forall e :: e in output.events ==> Acceptable(e))
    && (forall e :: e in output.events && e.ThreadStarted? ==> e.id == Some(session))
    && (exists e :: e in output.events && e.ThreadStarted?)
    && Completions(output.events) == 1
    && (expected.Some? ==> expected.value == session)
  }

  method ParseReview(output: Output, expected: Option<Session>) returns (session: Option<Session>)
    ensures session.Some? ==> Shows(output, expected, session.value)
    ensures session.None? ==> forall s :: !Shows(output, expected, s)
  {
    if !output.finished {
      return None;
    }
    session := None;
    var completed := false;
    var i := 0;
    while i < |output.events|
      invariant i <= |output.events|
      invariant forall k :: 0 <= k < i ==> Acceptable(output.events[k])
      invariant session.Some? ==> exists k :: 0 <= k < i && output.events[k].ThreadStarted?
      invariant forall k :: 0 <= k < i && output.events[k].ThreadStarted? ==>
        session.Some? && output.events[k].id == session
      invariant Completions(output.events[..i]) == if completed then 1 else 0
    {
      var e := output.events[i];
      CompletionsGrow(output.events, i);
      if e.ThreadStarted? {
        if e.id.None? || (session.Some? && session != e.id) {
          return None;
        }
        session := e.id;
      } else if e.TurnFailed? || e.MalformedLine? {
        assert e in output.events && !Acceptable(e);
        return None;
      } else if e.TurnCompleted? {
        if completed {
          CompletionsMonotone(output.events, i + 1);
          return None;
        }
        if !e.usageIsObject {
          assert e in output.events && !Acceptable(e);
          return None;
        }
        completed := true;
      }
      i := i + 1;
    }
    assert output.events[..i] == output.events;
    if !completed || session.None? || (expected.Some? && expected != session) {
      return None;
    }
  }

  lemma CompletionsGrow(events: seq<Event>, i: nat)
    requires i < |events|
    ensures Completions(events[..i + 1]) == Completions(events[..i]) + (if events[i].TurnCompleted? then 1 else 0)
  {
    assert events[..i + 1][..i] == events[..i];
  }

  lemma {:induction false} CompletionsMonotone(events: seq<Event>, i: nat)
    requires i <= |events|
    ensures Completions(events[..i]) <= Completions(events)
    decreases |events| - i
  {
    if i == |events| {
      assert events[..i] == events;
    } else {
      CompletionsGrow(events, i);
      CompletionsMonotone(events, i + 1);
    }
  }

  // ----------------------------------------------------------------------- tick

  // What becomes of a tick that is due: it dies before the intent is durable,
  // dies after that with the review launched or not, or lives to read the
  // review's output. `session` is what the output shows, if it shows anything.
  datatype Fate = DiedBeforeIntent | DiedAfterIntent | Read(session: Option<Session>, at: int)

  function Intend(s: State, config: Config, at: int, id: Id): State {
    var run := Run(id, at, Uncertain, s.session, config);
    s.(pending := Some(Pending(run, false)), runs := LastRuns(s.runs + [run]))
  }

  function LastRuns(runs: seq<Run>): seq<Run> {
    if |runs| <= LOG_LIMIT then runs else runs[|runs| - LOG_LIMIT..]
  }

  function MarkIncidents(marks: map<Code, int>, codes: seq<Code>, at: int): map<Code, int>
    decreases |codes|
  {
    if codes == [] then marks else MarkIncidents(marks[codes[0] := at], codes[1..], at)
  }

  function Conclude(s: State, codes: seq<Code>, started: int, fate: Fate): State
    requires fate.Read? && s.pending.Some? && s.runs != []
  {
    if fate.session.Some? then
      var n := |s.runs|;
      State(fate.session, Some(fate.at), None,
            s.runs[n - 1 := s.runs[n - 1].(outcome := Completed)],
            MarkIncidents(s.incidentLast, codes, started))
    else s.(pending := Some(s.pending.value.(failureRecorded := true)))
  }

  function AfterTick(s: State, config: Config, samples: Option<Samples>, at: int, id: Id, fate: Fate): State {
    if !Launches(Due(config, samples, s, at)) || fate.DiedBeforeIntent? then s
    else if fate.DiedAfterIntent? then Intend(s, config, at, id)
    else Conclude(Intend(s, config, at, id), samples.value.incidents, at, fate)
  }

  // ------------------------------------------------------------------ reconcile

  // An operator's evidence; `attested` covers its version, the statement that
  // every process has exited, the operator's name and the written proof.
  datatype Evidence = Evidence(attested: bool, completed: bool, checkedAt: int, runId: Id, config: Config,
                               session: Option<Session>)

  predicate Reconcilable(s: State, e: Evidence, at: int) {
    && e.attested
    && 0 <= at - e.checkedAt <= EVIDENCE_AGE_S
    && s.pending.Some?
    && e.runId == s.pending.value.run.id
    && e.config == s.pending.value.run.config
    && (e.completed ==>
          && e.session.Some?
          && (s.pending.value.run.previousSession.Some? ==> s.pending.value.run.previousSession == e.session))
  }

  function Reconciled(e: Evidence): Outcome {
    if e.completed then ReconciledCompleted else ReconciledAbandoned
  }

  function MarkRuns(runs: seq<Run>, id: Id, outcome: Outcome): (marked: seq<Run>)
    ensures |marked| == |runs|
    ensures forall i :: 0 <= i < |runs| ==>
      marked[i] == if runs[i].id == id then runs[i].(outcome := outcome) else runs[i]
  {
    if runs == [] then []
    else [if runs[0].id == id then runs[0].(outcome := outcome) else runs[0]] + MarkRuns(runs[1..], id, outcome)
  }

  function AfterReconcile(s: State, e: Evidence, at: int): State {
    if !Reconcilable(s, e, at) then s
    else
      State(if e.completed then e.session else s.session,
            if e.completed then Some(at) else s.lastCompleted,
            None, MarkRuns(s.runs, e.runId, Reconciled(e)), s.incidentLast)
  }

  // ------------------------------------------------------------------- the file

  class ReviewFile {
    var state: State

    constructor ()
      ensures state == Default
    {
      state := Default;
    }

    method Tick(config: Config, samples: Option<Samples>, at: int, id: Id, fate: Fate) returns (verdict: Verdict)
      modifies this
      ensures verdict == Due(config, samples, old(state), at)
      ensures state == AfterTick(old(state), config, samples, at, id, fate)
    {
      verdict := Due(config, samples, state, at);
      if !Launches(verdict) || fate.DiedBeforeIntent? {
        return;
      }
      var run := Run(id, at, Uncertain, state.session, config);
      state := state.(pending := Some(Pending(run, false)), runs := LastRuns(state.runs + [run]));
      if fate.DiedAfterIntent? {
        return;
      }
      if fate.session.Some? {
        var last := |state.runs| - 1;
        assert state.runs[last] == run;
        state := state.(session := fate.session, lastCompleted := Some(fate.at), pending := None,
                        runs := state.runs[last := run.(outcome := Completed)]);
        var codes := samples.value.incidents;
        ghost var before := state;
        var i := 0;
        while i < |codes|
          invariant i <= |codes|
          invariant state == before.(incidentLast := state.incidentLast)
          invariant MarkIncidents(state.incidentLast, codes[i..], at) == MarkIncidents(before.incidentLast, codes, at)
        {
          assert codes[i..][0] == codes[i] && codes[i..][1..] == codes[i + 1..];
          state := state.(incidentLast := state.incidentLast[codes[i] := at]);
          i := i + 1;
        }
      } else {
        state := state.(pending := Some(state.pending.value.(failureRecorded := true)));
      }
    }

    method Reconcile(evidence: Evidence, at: int) returns (done: bool)
      modifies this
      ensures done == Reconcilable(old(state), evidence, at)
      ensures state == AfterReconcile(old(state), evidence, at)
    {
      if !Reconcilable(state, evidence, at) {
        return false;
      }
      if evidence.completed {
        state := state.(session := evidence.session, lastCompleted := Some(at));
      }
      var runs := state.runs;
      ghost var target := MarkRuns(runs, evidence.runId, Reconciled(evidence));
      var i := 0;
      while i < |runs|
        invariant i <= |runs| == |target|
        invariant forall k :: 0 <= k < i ==> runs[k] == target[k]
        invariant forall k :: i <= k < |runs| ==> runs[k] == old(state).runs[k]
      {
        if runs[i].id == evidence.runId {
          runs := runs[i := runs[i].(outcome := Reconciled(evidence))];
        }
        i := i + 1;
      }
      assert runs == target;
      state := state.(pending := None, runs := runs);
      done := true;
    }
  }
}
