/**
 Publishing one npm version from one workflow run that may be retried: the
 preflight, the OIDC dry run and the writer of every attempt, against a
 registry that accepts a version once and shows it late, and the provenance
 constraints that admission derives from a recorded completion.
 */
module NpmRelease {
  import opened Wrappers

  type Checked<+T> = Result<T, string>

  // Digests are taken as injective, so bytes stand for their integrity.
  type Bytes = seq<nat>

  // What the registry holds for the version: the bytes, and the run and
  // attempt its provenance names.
  datatype Release = Release(bytes: Bytes, run: nat, attempt: nat)

  // ------------------------------------------------------------- pure decisions

  datatype NpmState = AbsentState | ExactSameRun

  datatype Transition = ObserveExisting | Publish

  function ChooseTransition(current: nat, preflightAttempt: nat, state: NpmState, exists_: bool): Checked<Transition>
  {
    if preflightAttempt == 0 || current == 0 || current < preflightAttempt then
      Err("an ordered positive preflight and writer attempt is required")
    else if state == ExactSameRun then
      if exists_ then Ok(ObserveExisting) else Err("the release disappeared after admission")
    else if !exists_ then Ok(Publish)
    else if current == preflightAttempt then Err("the release appeared during the admitted attempt")
    else Ok(ObserveExisting)
  }

  datatype DryRun = Passed | VersionConflict(existing: Option<Bytes>) | OtherFailure

  // Whether the OIDC dry run lets the attempt go on to the writer.
  predicate DryRunPasses(dry: DryRun, current: nat, preflightAttempt: nat, expected: Bytes) {
    || dry.Passed?
    || (dry.VersionConflict? && 0 < preflightAttempt < current && dry.existing == Some(expected))
  }

  datatype Mode = ObservedExisting | Published

  datatype Completion = Completion(mode: Mode, run: nat, attempt: nat)

  datatype Constraints =
    Constraints(requiredRun: Option<nat>, maximumAttempt: Option<nat>, requiredAttempt: Option<nat>)

  predicate ProvenanceAllowed(c: Constraints, release: Release) {
    && (c.requiredRun.Some? ==> release.run == c.requiredRun.value)
    && (c.maximumAttempt.Some? ==> release.attempt <= c.maximumAttempt.value)
    && (c.requiredAttempt.Some? ==> release.attempt == c.requiredAttempt.value)
  }

  // A group of environment variables: all unset, set but not well formed, or set.
  datatype Setting<+T> = Unset | Malformed | Given(value: T)

  datatype AdmissionInput = AdmissionInput(
    run: Setting<nat>, attempt: Setting<nat>,
    preNpmState: Setting<NpmState>,
    expectedRelease: Setting<(nat, nat)>,
    writer: Setting<Completion>,
    writerRequired: Setting<bool>)

  function Count(a: bool, b: bool, c: bool): nat {
    (if a then 1 else 0) + (if b then 1 else 0) + (if c then 1 else 0)
  }

  // None: native-only admission, npm is not looked at.
  function DeriveConstraints(i: AdmissionInput): Checked<Option<Constraints>> {
    var admitNpm := i.writerRequired != Given(false);
    if i.writerRequired.Malformed? then Err("invalid npm-writer requirement")
    else if i.preNpmState.Malformed? then Err("invalid npm retry state")
    else if i.preNpmState.Given? && (!i.run.Given? || !i.attempt.Given?) then Err("run and attempt are required")
    else if
      || i.expectedRelease.Malformed?
      || i.writer.Malformed?
      || (!admitNpm && (i.preNpmState.Given? || i.expectedRelease.Given? || i.writer.Given?))
      || (i.writerRequired == Given(true) && !i.writer.Given?)
      || Count(i.preNpmState.Given?, i.expectedRelease.Given?, i.writer.Given?) > 1
    then Err("conflicting or invalid run constraints")
    else if !admitNpm then Ok(None)
    else if i.preNpmState == Given(ExactSameRun) then
      Ok(Some(Constraints(Some(i.run.value), Some(i.attempt.value), None)))
    else if i.preNpmState == Given(AbsentState) then
      Ok(Some(Constraints(Some(i.run.value), None, Some(i.attempt.value))))
    else if i.expectedRelease.Given? then
      Ok(Some(Constraints(Some(i.expectedRelease.value.0), Some(i.expectedRelease.value.1), None)))
    else if i.writer.Given? && i.writer.value.mode == Published then
      Ok(Some(Constraints(Some(i.writer.value.run), None, Some(i.writer.value.attempt))))
    else if i.writer.Given? then
      Ok(Some(Constraints(Some(i.writer.value.run), Some(i.writer.value.attempt), None)))
    else Ok(Some(Constraints(None, None, None)))
  }

  // ------------------------------------------------------------------- registry

  // A lookup of the version and of `latest`: not served, an error, or both
  // served with these bytes.
  datatype Lookup = NotServed | Failed | Complete(version: Bytes, latest: Bytes)

  datatype Registry = Registry(accepted: Option<Release>, versionVisible: bool, latestVisible: bool)

  // While a flag is up every lookup of that document answers with the version.
  predicate Answers(r: Registry, lookup: Lookup) {
    match lookup
    case NotServed => !r.versionVisible
    case Failed => !r.versionVisible || !r.latestVisible
    case Complete(version, latest) =>
      r.accepted.Some? && version == r.accepted.value.bytes && latest == r.accepted.value.bytes
  }

  predicate Exact(lookup: Lookup, bytes: Bytes) {
    lookup.Complete? && lookup.version == bytes && lookup.latest == bytes
  }

  // ---------------------------------------------------------------- one run

  // What preflight admitted: the state, the attempt that admitted it and the
  // tarball it was admitted for. A rerun of failed jobs reuses all three.
  datatype Preflight = Preflight(state: NpmState, attempt: nat, bytes: Bytes)

  datatype Phase =
    | Idle
    | Preflighting(bytes: Bytes)
    | DryRunning
    | Writing
    | Publishing
    | Waiting(exitedZero: bool)

  datatype Record = Record(completion: Completion, preflight: Preflight)

  datatype State = State(
    run: nat, attempt: nat, registry: Registry,
    preflight: Option<Preflight>, phase: Phase,
    inFlight: set<Release>, records: seq<Record>)

  function Finish(s: State, mode: Mode): State
    requires s.preflight.Some?
  {
    s.(phase := Idle, records := s.records + [Record(Completion(mode, s.run, s.attempt), s.preflight.value)])
  }

  function Fail(s: State): State { s.(phase := Idle) }

  datatype Event =
    // The registry and other publishers.
    | Foreign(release: Release)
    | Land(upload: Release)
    | Show(version: bool, latest: bool)
    // An attempt starts: preflight runs for `bytes`, or is reused.
    | StartWithPreflight(bytes: Bytes)
    | StartReusingPreflight
    // Its jobs.
    | RunPreflight(lookup: Lookup)
    | RunDryRun(dry: DryRun)
    | RunWriter(lookup: Lookup)
    | PublishExits(zero: bool)
    | RunPoll(lookup: Lookup)
    | Abort

  predicate Enabled(s: State, e: Event) {
    match e
    case Foreign(r) => s.registry.accepted.None? && r.run != s.run
    case Land(r) => s.registry.accepted.None? && r in s.inFlight
    case Show(version, latest) => s.registry.accepted.Some?
    case StartWithPreflight(_) => s.phase.Idle?
    case StartReusingPreflight => s.phase.Idle? && s.preflight.Some?
    case RunPreflight(lookup) => s.phase.Preflighting? && Answers(s.registry, lookup)
    case RunDryRun(dry) =>
      && s.phase.DryRunning?
      && (dry.VersionConflict? && dry.existing.Some? ==>
            s.registry.accepted.Some? && dry.existing.value == s.registry.accepted.value.bytes)
    case RunWriter(lookup) => s.phase.Writing? && Answers(s.registry, lookup)
    // Exit 0 means that this very upload was accepted; anything may lie behind
    // another exit.
    case PublishExits(zero) =>
      && s.phase.Publishing?
      && (zero ==>
            && s.preflight.Some?
            && s.registry.accepted == Some(Release(s.preflight.value.bytes, s.run, s.attempt)))
    case RunPoll(lookup) => s.phase.Waiting? && Answers(s.registry, lookup)
    case Abort => true
  }

  // The preflight: absent, or the exact bytes with provenance of this run at
  // an attempt no later than this one; anything else fails.
  function AfterPreflight(s: State, lookup: Lookup): State
    requires s.phase.Preflighting? && Answers(s.registry, lookup)
  {
    var bytes := s.phase.bytes;
    if lookup.NotServed? then
      s.(preflight := Some(Preflight(AbsentState, s.attempt, bytes)), phase := DryRunning)
    else if && Exact(lookup, bytes)
            && s.registry.accepted.value.bytes == bytes
            && ProvenanceAllowed(Constraints(Some(s.run), Some(s.attempt), None), s.registry.accepted.value)
    then s.(preflight := Some(Preflight(ExactSameRun, s.attempt, bytes)), phase := Writing)
    else Fail(s)
  }

  function AfterWriterLookup(s: State, p: Preflight, lookup: Lookup): State
    requires s.preflight == Some(p) && Answers(s.registry, lookup)
  {
    if lookup.Failed? then Fail(s)
    else
      match ChooseTransition(s.attempt, p.attempt, p.state, lookup.Complete?)
      case Err(_) => Fail(s)
      case Ok(ObserveExisting) =>
        // Both documents must be exact, and so must the tarball they name.
        if Exact(lookup, p.bytes) && s.registry.accepted.value.bytes == p.bytes then Finish(s, ObservedExisting)
        else Fail(s)
      case Ok(Publish) =>
        s.(phase := Publishing, inFlight := s.inFlight + {Release(p.bytes, s.run, s.attempt)})
  }

  function Next(s: State, e: Event): State
    requires Enabled(s, e)
  {
    match e
    case Foreign(r) => s.(registry := s.registry.(accepted := Some(r)))
    case Land(r) => s.(registry := s.registry.(accepted := Some(r)))
    case Show(version, latest) =>
      s.(registry := s.registry.(versionVisible := version, latestVisible := latest))
    case StartWithPreflight(bytes) =>
      s.(attempt := s.attempt + 1, preflight := None, phase := Preflighting(bytes))
    case StartReusingPreflight =>
      s.(attempt := s.attempt + 1,
         phase := if s.preflight.value.state == AbsentState then DryRunning else Writing)
    case RunPreflight(lookup) => AfterPreflight(s, lookup)
    case RunDryRun(dry) =>
      if s.preflight.Some? && DryRunPasses(dry, s.attempt, s.preflight.value.attempt, s.preflight.value.bytes)
      then s.(phase := Writing)
      else Fail(s)
    case RunWriter(lookup) =>
      if s.preflight.None? then Fail(s) else AfterWriterLookup(s, s.preflight.value, lookup)
    case PublishExits(zero) =>
      if s.preflight.None? || (!zero && s.attempt == s.preflight.value.attempt) then Fail(s)
      else s.(phase := Waiting(zero))
    case RunPoll(lookup) =>
      if s.preflight.None? || !Exact(lookup, s.preflight.value.bytes) then s
      else if s.phase.exitedZero then Finish(s, Published)
      else if s.registry.accepted.value.bytes == s.preflight.value.bytes then Finish(s, ObservedExisting)
      else Fail(s)
    case Abort => Fail(s)
  }

  function Initial(run: nat): State {
    State(run, 0, Registry(None, false, false), None, Idle, {}, [])
  }

  predicate Possible(s: State, events: seq<Event>)
    decreases |events|
  {
    events == [] || (Enabled(s, events[0]) && Possible(Next(s, events[0]), events[1..]))
  }

  function Run(s: State, events: seq<Event>): State
    requires Possible(s, events)
    decreases |events|
  {
    if events == [] then s else Run(Next(s, events[0]), events[1..])
  }

  // --------------------------------------------------------------------- safety

  // What holds of a recorded completion: the registry holds exactly the bytes
  // that were reviewed; `published` names the attempt in the provenance; and
  // `observed_existing` of this run's version names no earlier attempt. In the
  // attempt whose own preflight said absent, only `published` is possible.
  predicate Sound(s: State, r: Record) {
    && s.registry.accepted.Some?
    && s.registry.accepted.value.bytes == r.preflight.bytes
    && r.completion.run == s.run
    && 1 <= r.completion.attempt <= s.attempt
    && (r.completion.mode == Published ==>
          s.registry.accepted.value == Release(r.preflight.bytes, s.run, r.completion.attempt))
    && (r.completion.mode == ObservedExisting && s.registry.accepted.value.run == s.run ==>
          s.registry.accepted.value.attempt <= r.completion.attempt)
    && (r.preflight.state == AbsentState && r.preflight.attempt == r.completion.attempt ==>
          r.completion.mode == Published)
    && (r.preflight.state == ExactSameRun ==> s.registry.accepted.value.run == s.run)
  }

  predicate PhaseInvariant(s: State) {
    && (s.preflight.Some? ==> 1 <= s.preflight.value.attempt <= s.attempt)
    && (!s.phase.Idle? ==> s.attempt >= 1)
    && (!s.phase.Idle? && !s.phase.Preflighting? ==> s.preflight.Some?)
    && (s.phase == Waiting(true) ==>
          s.registry.accepted == Some(Release(s.preflight.value.bytes, s.run, s.attempt)))
    && (s.phase == Waiting(false) ==> s.preflight.value.attempt < s.attempt)
  }

  predicate RegistryInvariant(s: State) {
    && (s.registry.accepted.None? ==> !s.registry.versionVisible && !s.registry.latestVisible)
    && (forall r :: r in s.inFlight ==> r.run == s.run && r.attempt <= s.attempt)
    && (s.registry.accepted.Some? && s.registry.accepted.value.run == s.run ==>
          s.registry.accepted.value.attempt <= s.attempt)
    && (s.preflight.Some? && s.preflight.value.state == ExactSameRun ==>
          && s.registry.accepted.Some?
          && s.registry.accepted.value.run == s.run
          && s.registry.accepted.value.bytes == s.preflight.value.bytes)
  }

  predicate Invariant(s: State) {
    && PhaseInvariant(s)
    && RegistryInvariant(s)
    && (forall i :: 0 <= i < |s.records| ==> Sound(s, s.records[i]))
  }

  lemma StepKeepsPhases(s: State, e: Event)
    requires PhaseInvariant(s) && RegistryInvariant(s) && Enabled(s, e)
    ensures PhaseInvariant(Next(s, e))
  {
  }

  lemma StepKeepsRegistry(s: State, e: Event)
    requires PhaseInvariant(s) && RegistryInvariant(s) && Enabled(s, e)
    ensures RegistryInvariant(Next(s, e))
    ensures s.registry.accepted.Some? ==> Next(s, e).registry.accepted == s.registry.accepted
    ensures Next(s, e).run == s.run && Next(s, e).attempt >= s.attempt
  {
  }

  // A step adds at most one record, and it is sound.
  lemma NewRecordIsSound(s: State, e: Event)
    requires PhaseInvariant(s) && RegistryInvariant(s) && Enabled(s, e)
    ensures var t := Next(s, e);
      t.records == s.records
      || (|t.records| == |s.records| + 1 && s.records <= t.records && Sound(t, t.records[|s.records|]))
  {
  }

  lemma StepKeepsInvariant(s: State, e: Event)
    requires Invariant(s) && Enabled(s, e)
    ensures Invariant(Next(s, e))
    ensures s.registry.accepted.Some? ==> Next(s, e).registry.accepted == s.registry.accepted
    ensures s.records <= Next(s, e).records && Next(s, e).run == s.run
  {
    var t := Next(s, e);
    StepKeepsPhases(s, e);
    StepKeepsRegistry(s, e);
    NewRecordIsSound(s, e);
    forall i | 0 <= i < |t.records| ensures Sound(t, t.records[i]) {
      if i < |s.records| {
        assert Sound(s, s.records[i]) && t.records[i] == s.records[i];
      }
    }
  }

  lemma {:induction false} RunKeepsInvariant(s: State, events: seq<Event>)
    requires Invariant(s) && Possible(s, events)
    ensures Invariant(Run(s, events))
    ensures s.registry.accepted.Some? ==> Run(s, events).registry.accepted == s.registry.accepted
    ensures s.records <= Run(s, events).records && Run(s, events).run == s.run
    decreases |events|
  {
    if events != [] {
      StepKeepsInvariant(s, events[0]);
      RunKeepsInvariant(Next(s, events[0]), events[1..]);
    }
  }

  // In every history of one run, every recorded completion is sound, and stays
  // sound whatever happens after it.
  lemma RetrySafety(run: nat, events: seq<Event>, i: nat)
    requires Possible(Initial(run), events)
    requires i < |Run(Initial(run), events).records|
    ensures var s := Run(Initial(run), events);
      Sound(s, s.records[i])
  {
    RunKeepsInvariant(Initial(run), events);
  }

  // How admission reads the writer's outputs.
  function WriterInput(completion: Completion): AdmissionInput {
    AdmissionInput(Unset, Unset, Unset, Unset, Given(completion), Given(true))
  }

  // Admission derives constraints from every recorded completion, and the
  // accepted version meets them exactly when this run published it.
  lemma AdmissionMatchesCompletion(run: nat, events: seq<Event>, i: nat)
    requires Possible(Initial(run), events)
    requires i < |Run(Initial(run), events).records|
    ensures var s := Run(Initial(run), events);
      var derived := DeriveConstraints(WriterInput(s.records[i].completion));
      && derived.Ok? && derived.value.Some?
      && s.registry.accepted.Some?
      && ProvenanceAllowed(derived.value.value, s.registry.accepted.value) == (s.registry.accepted.value.run == s.run)
  {
    RetrySafety(run, events, i);
  }

  // The one way to complete on a version of another run: identical bytes appear
  // under a preflight of an earlier attempt. The completion is recorded, and
  // admission refuses it.
  lemma ForeignVersionIsObservedThenRefused(run: nat, bytes: Bytes, other: nat)
    requires other != run
    ensures var events := ForeignAppears(bytes, other) + RetryMeetsIt(bytes);
      && Possible(Initial(run), events)
      && var s := Run(Initial(run), events);
         && |s.records| == 1
         && s.records[0].completion == Completion(ObservedExisting, run, 2)
         && var derived := DeriveConstraints(WriterInput(s.records[0].completion));
            derived.Ok? && derived.value.Some? && !ProvenanceAllowed(derived.value.value, Release(bytes, other, 1))
  {
    var middle := ForeignHeld(run, bytes, other);
    ForeignAppearsRuns(run, bytes, other);
    RetryMeetsItRuns(run, bytes, other);
    RunAppend(Initial(run), ForeignAppears(bytes, other), RetryMeetsIt(bytes));
  }

  function ForeignAppears(bytes: Bytes, other: nat): seq<Event> {
    [StartWithPreflight(bytes), RunPreflight(NotServed), Abort, Foreign(Release(bytes, other, 1)), Show(true, true)]
  }

  function RetryMeetsIt(bytes: Bytes): seq<Event> {
    [StartReusingPreflight, RunDryRun(VersionConflict(Some(bytes))), RunWriter(Complete(bytes, bytes))]
  }

  function ForeignHeld(run: nat, bytes: Bytes, other: nat): State {
    State(run, 1, Registry(Some(Release(bytes, other, 1)), true, true),
          Some(Preflight(AbsentState, 1, bytes)), Idle, {}, [])
  }

  lemma ForeignAppearsRuns(run: nat, bytes: Bytes, other: nat)
    requires other != run
    ensures Possible(Initial(run), ForeignAppears(bytes, other))
    ensures Run(Initial(run), ForeignAppears(bytes, other)) == ForeignHeld(run, bytes, other)
  {
    var events := ForeignAppears(bytes, other);
    var s1 := Next(Initial(run), events[0]);
    var s2 := Next(s1, events[1]);
    var s3 := Next(s2, events[2]);
    var s4 := Next(s3, events[3]);
    RunCons(s4, events[4], []);
    RunCons(s3, events[3], [events[4]] + []);
    RunCons(s2, events[2], [events[3]] + ([events[4]] + []));
    RunCons(s1, events[1], [events[2]] + ([events[3]] + ([events[4]] + [])));
    RunCons(Initial(run), events[0], [events[1]] + ([events[2]] + ([events[3]] + ([events[4]] + []))));
    assert events == [events[0]] + ([events[1]] + ([events[2]] + ([events[3]] + ([events[4]] + []))));
  }

  lemma RetryMeetsItRuns(run: nat, bytes: Bytes, other: nat)
    requires other != run
    ensures var s := ForeignHeld(run, bytes, other);
      && Possible(s, RetryMeetsIt(bytes))
      && Run(s, RetryMeetsIt(bytes)) == s.(attempt := 2, records :=
           [Record(Completion(ObservedExisting, run, 2), s.preflight.value)])
  {
    var events := RetryMeetsIt(bytes);
    var s := ForeignHeld(run, bytes, other);
    var s1 := Next(s, events[0]);
    var s2 := Next(s1, events[1]);
    RunCons(s2, events[2], []);
    RunCons(s1, events[1], [events[2]] + []);
    RunCons(s, events[0], [events[1]] + ([events[2]] + []));
    assert events == [events[0]] + ([events[1]] + ([events[2]] + []));
  }

  lemma {:induction false} RunAppend(s: State, a: seq<Event>, b: seq<Event>)
    requires Possible(s, a) && Possible(Run(s, a), b)
    ensures Possible(s, a + b) && Run(s, a + b) == Run(Run(s, a), b)
    decreases |a|
  {
    if a == [] {
      assert a + b == b;
    } else {
      assert (a + b)[1..] == a[1..] + b;
      RunAppend(Next(s, a[0]), a[1..], b);
    }
  }

  lemma RunCons(s: State, e: Event, rest: seq<Event>)
    requires Enabled(s, e) && Possible(Next(s, e), rest)
    ensures Possible(s, [e] + rest)
    ensures Run(s, [e] + rest) == Run(Next(s, e), rest)
  {
    assert ([e] + rest)[1..] == rest;
  }

  // ------------------------------------------------------------------- progress

  // This run's own release is served everywhere.
  predicate Visible(s: State, bytes: Bytes) {
    && s.registry.versionVisible && s.registry.latestVisible
    && s.registry.accepted.Some?
    && s.registry.accepted.value.bytes == bytes
    && s.registry.accepted.value.run == s.run
  }

  // The jobs of one attempt in order, after its start, with whatever the
  // registry and the dry run answer.
  function Attempt(s: State, preflightLookup: Lookup, dry: DryRun, writerLookup: Lookup): seq<Event> {
    (if s.phase.Preflighting? then [RunPreflight(preflightLookup)] else []) +
    (if s.phase.DryRunning? then [RunDryRun(dry)] else []) +
    [RunWriter(writerLookup)]
  }

  // Once the run's release is visible, the next attempt completes on it in
  // either rerun mode, for every answer it can get; the dry run may only pass,
  // or conflict with the version that is there.
  lemma VisibleReleaseCompletes(s: State, start: Event, preflightLookup: Lookup, dry: DryRun, writerLookup: Lookup)
    requires Invariant(s) && s.phase.Idle?
    requires s.registry.accepted.Some?
    requires Visible(s, s.registry.accepted.value.bytes)
    requires || start == StartWithPreflight(s.registry.accepted.value.bytes)
             || (start == StartReusingPreflight && s.preflight.Some?
                 && s.preflight.value.bytes == s.registry.accepted.value.bytes)
    requires Answers(s.registry, preflightLookup) && Answers(s.registry, writerLookup)
    requires dry.Passed? || dry == VersionConflict(Some(s.registry.accepted.value.bytes))
    ensures Enabled(s, start)
    ensures var s1 := Next(s, start);
      var jobs := Attempt(s1, preflightLookup, dry, writerLookup);
      && Possible(s1, jobs)
      && var t := Run(s1, jobs);
         && |t.records| == |s.records| + 1
         && t.records[|s.records|].completion == Completion(ObservedExisting, s.run, s.attempt + 1)
  {
    var s1 := Next(s, start);
    StepKeepsInvariant(s, start);
    var jobs := Attempt(s1, preflightLookup, dry, writerLookup);
    var s2 := Next(s1, jobs[0]);
    if |jobs| == 2 {
      assert jobs[1..] == [RunWriter(writerLookup)];
      assert Possible(Next(s2, RunWriter(writerLookup)), []);
      RunCons(s2, RunWriter(writerLookup), []);
      assert [RunWriter(writerLookup)] + [] == jobs[1..];
    } else {
      assert jobs[1..] == [];
    }
  }
}
