/**
 What a run of the npm release gets done: exactly when its jobs upload, observe or
 give up, and that the first release is published.
 */
module NpmProgress {
  import opened Wrappers
  import opened NpmRelease

  // ------------------------------------------------------------- one job, exactly

  // Preflight admits a version that is not served, or this run's own exact one.
  lemma PreflightExactly(s: State, lookup: Lookup)
    requires Invariant(s) && Enabled(s, RunPreflight(lookup))
    ensures var v, bytes := Next(s, RunPreflight(lookup)), s.phase.bytes;
      if lookup.NotServed?
      then v == s.(preflight := Some(Preflight(AbsentState, s.attempt, bytes)), phase := DryRunning)
      else if lookup == Complete(bytes, bytes) && s.registry.accepted.value.run == s.run
      then v == s.(preflight := Some(Preflight(ExactSameRun, s.attempt, bytes)), phase := Writing)
      else v == s.(phase := Idle)
  {
  }

  // The dry run lets the attempt go on when it passes, or when a later attempt meets
  // the very bytes that were admitted.
  lemma DryRunExactly(s: State, dry: DryRun)
    requires Invariant(s) && Enabled(s, RunDryRun(dry))
    ensures var v, p := Next(s, RunDryRun(dry)), s.preflight.value;
      v == s.(phase := if dry.Passed? || (dry == VersionConflict(Some(p.bytes)) && p.attempt < s.attempt)
                       then Writing else Idle)
  {
  }

  // A writer uploads exactly when the version is not served under a preflight that
  // said so too. It completes on a version that is served exactly when that is the
  // admitted one, and was either admitted as such or appeared after the attempt of
  // its preflight. Otherwise it gives up.
  lemma WriterExactly(s: State, lookup: Lookup)
    requires Invariant(s) && Enabled(s, RunWriter(lookup))
    ensures var v, p := Next(s, RunWriter(lookup)), s.preflight.value;
      if lookup.NotServed? && p.state.AbsentState? then
        v == s.(phase := Publishing, inFlight := s.inFlight + {Release(p.bytes, s.run, s.attempt)})
      else if lookup == Complete(p.bytes, p.bytes) && (p.state.ExactSameRun? || p.attempt < s.attempt) then
        v == s.(phase := Idle, records := s.records + [Record(Completion(ObservedExisting, s.run, s.attempt), p)])
      else
        v == s.(phase := Idle)
  {
  }

  // An exit that is not 0 is final in the admitted attempt only.
  lemma ExitExactly(s: State, zero: bool)
    requires Invariant(s) && Enabled(s, PublishExits(zero))
    ensures Next(s, PublishExits(zero))
      == s.(phase := if zero || s.preflight.value.attempt < s.attempt then Waiting(zero) else Idle)
  {
  }

  // Polling completes on the admitted bytes: as published after exit 0, else as
  // observed.
  lemma PollExactly(s: State, lookup: Lookup)
    requires Invariant(s) && Enabled(s, RunPoll(lookup))
    ensures var v, p := Next(s, RunPoll(lookup)), s.preflight.value;
      if lookup == Complete(p.bytes, p.bytes) then
        var mode := if s.phase.exitedZero then Published else ObservedExisting;
        v == s.(phase := Idle, records := s.records + [Record(Completion(mode, s.run, s.attempt), p)])
      else v == s
  {
  }

  // Only a writer adds an upload.
  lemma UploadsComeFromWriters(s: State, e: Event)
    requires Invariant(s) && Enabled(s, e) && Next(s, e).inFlight != s.inFlight
    ensures e == RunWriter(NotServed) && s.preflight.value.state.AbsentState?
  {
  }

  // ------------------------------------------------------------------- publishing

  // A writer's upload under way: it lands, both documents are served, the publish
  // exits 0 and the next poll is served.
  function PublishingJobs(p: Preflight, upload: Release): seq<Event> {
    [RunWriter(NotServed), Land(upload), Show(true, true), PublishExits(true), RunPoll(Complete(p.bytes, p.bytes))]
  }

  function Completed(s: State, p: Preflight, upload: Release): State {
    s.(registry := Registry(Some(upload), true, true), phase := Idle, inFlight := s.inFlight + {upload},
       records := s.records + [Record(Completion(Published, s.run, s.attempt), p)])
  }

  // From every state in which a writer is to run under an absent preflight, in the
  // same attempt or a later one, the version can be published, and this run and
  // attempt are recorded for it.
  lemma WriterPublishes(s: State)
    requires Invariant(s) && s.phase.Writing? && s.preflight.value.state.AbsentState?
    requires s.registry.accepted.None?
    ensures var p := s.preflight.value;
      var upload := Release(p.bytes, s.run, s.attempt);
      && Possible(s, PublishingJobs(p, upload))
      && Run(s, PublishingJobs(p, upload)) == Completed(s, p, upload)
  {
    var p := s.preflight.value;
    var upload := Release(p.bytes, s.run, s.attempt);
    var events := PublishingJobs(p, upload);
    WriterExactly(s, NotServed);
    var s1 := Next(s, events[0]);
    var s2 := Next(s1, events[1]);
    var s3 := Next(s2, events[2]);
    var s4 := Next(s3, events[3]);
    var s5 := Next(s4, events[4]);
    assert s5 == Completed(s, p, upload);
    Unfold5(s, events[0], events[1], events[2], events[3], events[4]);
  }

  lemma Unfold5(s: State, a: Event, b: Event, c: Event, d: Event, e: Event)
    requires Enabled(s, a) && Enabled(Next(s, a), b) && Enabled(Next(Next(s, a), b), c)
    requires Enabled(Next(Next(Next(s, a), b), c), d)
    requires Enabled(Next(Next(Next(Next(s, a), b), c), d), e)
    ensures Possible(s, [a, b, c, d, e])
    ensures Run(s, [a, b, c, d, e]) == Next(Next(Next(Next(Next(s, a), b), c), d), e)
  {
    var s1 := Next(s, a);
    var s2 := Next(s1, b);
    var s3 := Next(s2, c);
    var s4 := Next(s3, d);
    RunCons(s4, e, []);
    RunCons(s3, d, [e]);
    RunCons(s2, c, [d, e]);
    RunCons(s1, b, [c, d, e]);
    RunCons(s, a, [b, c, d, e]);
    assert [a] + [b, c, d, e] == [a, b, c, d, e] && [b] + [c, d, e] == [b, c, d, e];
    assert [c] + [d, e] == [c, d, e] && [d] + [e] == [d, e] && [e] + [] == [e];
  }

  // ---- from the start of a run

  // Each attempt but the last ends early, and is rerun with the first preflight.
  function Reruns(n: nat): seq<Event> {
    if n == 0 then [] else [Abort, StartReusingPreflight] + Reruns(n - 1)
  }

  function Admitted(run: nat, attempt: nat, bytes: Bytes): State {
    State(run, attempt, Registry(None, false, false), Some(Preflight(AbsentState, 1, bytes)), DryRunning, {}, [])
  }

  lemma {:induction false} RerunsReach(run: nat, attempt: nat, bytes: Bytes, n: nat)
    requires attempt >= 1
    ensures Possible(Admitted(run, attempt, bytes), Reruns(n))
    ensures Run(Admitted(run, attempt, bytes), Reruns(n)) == Admitted(run, attempt + n, bytes)
    decreases n
  {
    if n > 0 {
      var s := Admitted(run, attempt, bytes);
      var stopped := Next(s, Abort);
      assert Next(stopped, StartReusingPreflight) == Admitted(run, attempt + 1, bytes);
      RerunsReach(run, attempt + 1, bytes, n - 1);
      RunCons(stopped, StartReusingPreflight, Reruns(n - 1));
      RunCons(s, Abort, [StartReusingPreflight] + Reruns(n - 1));
      assert Reruns(n) == [Abort] + ([StartReusingPreflight] + Reruns(n - 1));
    }
  }

  // A first attempt that is admitted, its reruns, and the jobs of the last of them.
  function FirstRelease(run: nat, bytes: Bytes, n: nat): seq<Event> {
    [StartWithPreflight(bytes)] + ([RunPreflight(NotServed)] + (Reruns(n) + LastJobs(run, bytes, n + 1)))
  }

  function LastJobs(run: nat, bytes: Bytes, attempt: nat): seq<Event> {
    [RunDryRun(Passed)] + PublishingJobs(Preflight(AbsentState, 1, bytes), Release(bytes, run, attempt))
  }

  lemma AdmittedPublishes(run: nat, attempt: nat, bytes: Bytes)
    requires attempt >= 1
    ensures var s, jobs := Admitted(run, attempt, bytes), LastJobs(run, bytes, attempt);
      && Possible(s, jobs)
      && Run(s, jobs) == Completed(s, Preflight(AbsentState, 1, bytes), Release(bytes, run, attempt))
  {
    var s, p := Admitted(run, attempt, bytes), Preflight(AbsentState, 1, bytes);
    WriterPublishes(Next(s, RunDryRun(Passed)));
    RunCons(s, RunDryRun(Passed), PublishingJobs(p, Release(bytes, run, attempt)));
  }

  lemma AdmittedFromStart(run: nat, bytes: Bytes, rest: seq<Event>)
    requires Possible(Admitted(run, 1, bytes), rest)
    ensures var events := [StartWithPreflight(bytes)] + ([RunPreflight(NotServed)] + rest);
      Possible(Initial(run), events) && Run(Initial(run), events) == Run(Admitted(run, 1, bytes), rest)
  {
    var started := Next(Initial(run), StartWithPreflight(bytes));
    assert Next(started, RunPreflight(NotServed)) == Admitted(run, 1, bytes);
    RunCons(started, RunPreflight(NotServed), rest);
    RunCons(Initial(run), StartWithPreflight(bytes), [RunPreflight(NotServed)] + rest);
  }

  // The first release of any version, in the first attempt or after any number of
  // failed ones, is published: one completion, naming this run and the attempt that
  // uploaded it, which is what the registry then holds.
  lemma FirstReleaseIsPublished(run: nat, bytes: Bytes, n: nat)
    ensures var events := FirstRelease(run, bytes, n);
      && Possible(Initial(run), events)
      && var last := Run(Initial(run), events);
         && last.registry == Registry(Some(Release(bytes, run, n + 1)), true, true)
         && last.records == [Record(Completion(Published, run, n + 1), Preflight(AbsentState, 1, bytes))]
  {
    AdmittedPublishes(run, n + 1, bytes);
    RerunsReach(run, 1, bytes, n);
    RunAppend(Admitted(run, 1, bytes), Reruns(n), LastJobs(run, bytes, n + 1));
    AdmittedFromStart(run, bytes, Reruns(n) + LastJobs(run, bytes, n + 1));
  }

  // -------------------------------------------------------------------- admission

  // Every group is well formed, at most one of the three that name a release is
  // given, with what it needs, and the writer's is given as required.
  predicate Consistent(i: AdmissionInput) {
    && !i.writerRequired.Malformed? && !i.preNpmState.Malformed?
    && !i.expectedRelease.Malformed? && !i.writer.Malformed?
    && (i.preNpmState.Given? ==> i.run.Given? && i.attempt.Given?)
    && !(i.preNpmState.Given? && i.expectedRelease.Given?)
    && !(i.preNpmState.Given? && i.writer.Given?)
    && !(i.expectedRelease.Given? && i.writer.Given?)
    && (i.writerRequired == Given(true) ==> i.writer.Given?)
    && (i.writerRequired == Given(false) ==>
          !i.preNpmState.Given? && !i.expectedRelease.Given? && !i.writer.Given?)
  }

  predicate Named(release: Release, run: nat, attempt: nat, exactly: bool) {
    release.run == run && (if exactly then release.attempt == attempt else release.attempt <= attempt)
  }

  // The release may be admitted: the very attempt for what was to be published or
  // was, and an attempt no later for what was there.
  predicate Admissible(i: AdmissionInput, release: Release)
    requires Consistent(i)
  {
    && (i.preNpmState.Given? ==>
          Named(release, i.run.value, i.attempt.value, i.preNpmState.value.AbsentState?))
    && (i.expectedRelease.Given? ==>
          Named(release, i.expectedRelease.value.0, i.expectedRelease.value.1, false))
    && (i.writer.Given? ==>
          Named(release, i.writer.value.run, i.writer.value.attempt, i.writer.value.mode.Published?))
  }

  // Constraints are derived exactly from consistent input; none when npm is not
  // looked at, and else they allow exactly the releases that may be admitted.
  lemma AdmitsExactly(i: AdmissionInput, release: Release)
    ensures DeriveConstraints(i).Ok? <==> Consistent(i)
    ensures Consistent(i) ==>
      if i.writerRequired == Given(false) then DeriveConstraints(i).value == None
      else
        && DeriveConstraints(i).value.Some?
        && (ProvenanceAllowed(DeriveConstraints(i).value.value, release) <==> Admissible(i, release))
  {
  }
}
