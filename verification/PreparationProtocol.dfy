/**
 Preparing, querying and recovering, one file operation at a time. The process
 may be killed and power may be lost between any two of them.
 */
module PreparationProtocol {
  import opened Wrappers
  import opened PreparationFiles

  // What the one process that holds the admission lock is about to do.
  datatype Phase =
    | Idle
    | OpenIntent(intent: Intent)
    | FillIntent(intent: Intent)
    | SyncIntent(intent: Intent)
    | Requesting(intent: Intent)
    | Asking(intent: Intent, recover: bool)
    | OpenResult(outcome: Outcome)
    | FillResult(outcome: Outcome)
    | SyncResult(outcome: Outcome)
    | RemoveIntent(outcome: Outcome)
    | SyncRemoval(outcome: Outcome)
    | Acknowledging(outcome: Outcome)
  {
    predicate Finishes() {
      OpenResult? || FillResult? || SyncResult? || RemoveIntent? || SyncRemoval? || Acknowledging?
    }
  }

  // What the guest said of an intent, and how many requests it had received.
  datatype Report = Report(outcome: Outcome, after: nat)

  // Every prepare request the guest received, every report it made and every
  // acknowledgement it was sent, in order.
  datatype World = World(files: Files, phase: Phase, requests: seq<Intent>, reports: seq<Report>,
                         acknowledgements: seq<Outcome>)

  datatype Event =
    | BeginPrepare(intent: Intent)
    | BeginReconcile(key: Key, backend: nat, recover: bool)
    | Proceed                              // the next file operation
    | GuestReceives                        // the prepare request, while it is being sent
    | GuestReceipt(receipt: nat)
    | GuestReports(terminal: Terminal)
    | GuestAcknowledges
    | Killed                               // also any refusal or lost answer
    | PowerLost(after: map<Name, Content>)

  ghost predicate Enabled(w: World, e: Event) {
    match e
    case BeginPrepare(_) => w.phase.Idle?
    case BeginReconcile(_, _, _) => w.phase.Idle?
    case Proceed => !w.phase.Idle? && !w.phase.Requesting? && !w.phase.Asking? && !w.phase.Acknowledging?
    case GuestReceives => w.phase.Requesting?
    case GuestReceipt(_) => w.phase.Requesting?
    case GuestReports(_) => w.phase.Asking?
    case GuestAcknowledges => w.phase.Acknowledging?
    case Killed => true
    case PowerLost(after) => w.files.MayLeave(after)
  }

  function Reported(w: World, intent: Intent, terminal: Terminal): World {
    w.(reports := w.reports + [Report(Outcome(intent, terminal), |w.requests|)])
  }

  // Entry to finishing: refuse unless the terminal is valid and joined and the
  // intent is still the one on disk.
  function Finishing(w: World, intent: Intent, terminal: Terminal): World {
    if && ValidTerminal(terminal, intent.key) && terminal.joined
       && Lookup(w.files.disk, IntentName(intent.key)) == Some(WholeIntent(intent))
    then w.(phase := OpenResult(Outcome(intent, terminal)))
    else w.(phase := Idle)
  }

  function Operate(w: World): World
    requires Enabled(w, Proceed)
  {
    var f := w.files;
    match w.phase
    case OpenIntent(i) =>
      if IntentName(i.key) in f.disk then w.(phase := Idle)
      else w.(files := f.Open(IntentName(i.key)), phase := FillIntent(i))
    case FillIntent(i) => w.(files := f.Fill(IntentName(i.key), WholeIntent(i)), phase := SyncIntent(i))
    case SyncIntent(i) => w.(files := f.Sync(IntentName(i.key)), phase := Requesting(i))
    case OpenResult(o) =>
      if ResultName(o) !in f.disk then w.(files := f.Open(ResultName(o)), phase := FillResult(o))
      else if f.disk[ResultName(o)] == WholeResult(o) then w.(phase := RemoveIntent(o))
      else w.(phase := Idle)
    case FillResult(o) => w.(files := f.Fill(ResultName(o), WholeResult(o)), phase := SyncResult(o))
    case SyncResult(o) => w.(files := f.Sync(ResultName(o)), phase := RemoveIntent(o))
    case RemoveIntent(o) => w.(files := f.Remove(IntentName(o.intent.key)), phase := SyncRemoval(o))
    case SyncRemoval(o) => w.(files := f.SyncDirectory(), phase := Acknowledging(o))
  }

  function Next(w: World, e: Event): World
    requires Enabled(w, e)
  {
    match e
    case BeginPrepare(i) =>
      if NoIntents(w.files.disk) then w.(phase := OpenIntent(i)) else w
    case BeginReconcile(key, backend, recover) =>
      var held := Lookup(w.files.disk, IntentName(key));
      if held.Some? && held.value.WholeIntent? && held.value.intent.backend == backend
      then w.(phase := Asking(held.value.intent, recover)) else w
    case Proceed => Operate(w)
    case GuestReceives => w.(requests := w.requests + [w.phase.intent])
    case GuestReceipt(receipt) =>
      var t := Terminal(w.phase.intent.key, true, true, Some(receipt));
      Finishing(Reported(w, w.phase.intent, t), w.phase.intent, t)
    case GuestReports(t) =>
      if w.phase.recover then Finishing(Reported(w, w.phase.intent, t), w.phase.intent, t)
      else Reported(w, w.phase.intent, t).(phase := Idle)
    case GuestAcknowledges =>
      w.(acknowledgements := w.acknowledgements + [w.phase.outcome], phase := Idle)
    case Killed => w.(phase := Idle)
    case PowerLost(after) => w.(files := Files(after, after), phase := Idle)
  }

  const Start := World(Files(map[], map[]), Idle, [], [], [])

  ghost predicate Possible(w: World, events: seq<Event>)
    decreases |events|
  {
    events == [] || (Enabled(w, events[0]) && Possible(Next(w, events[0]), events[1..]))
  }

  ghost function After(w: World, events: seq<Event>): World
    requires Possible(w, events)
    decreases |events|
  {
    if events == [] then w else After(Next(w, events[0]), events[1..])
  }

  // Where the run stands before its k-th event.
  ghost function At(w: World, events: seq<Event>, k: nat): (v: World)
    requires Possible(w, events) && k <= |events|
    ensures Possible(w, events[..k]) && v == After(w, events[..k])
    ensures k < |events| ==> Enabled(v, events[k])
    decreases k
  {
    if k == 0 then w
    else
      assert events[..k][1..] == events[1..][..k - 1];
      At(Next(w, events[0]), events[1..], k - 1)
  }

  lemma {:induction false} AtNext(w: World, events: seq<Event>, k: nat)
    requires Possible(w, events) && k < |events|
    ensures At(w, events, k + 1) == Next(At(w, events, k), events[k])
    decreases k
  {
    if k > 0 { AtNext(Next(w, events[0]), events[1..], k - 1); }
  }

  // -------------------------------------------------------- requests are alone

  // A name holds only its own kind of record, for its own key or outcome.
  predicate WellNamed(m: map<Name, Content>) {
    forall n :: n in m ==>
      && (n.IntentName? ==> m[n] == Partial || (m[n].WholeIntent? && m[n].intent.key == n.key))
      && (n.ResultName? ==> m[n] == Partial || m[n] == WholeResult(n.outcome))
  }

  predicate Holds(m: map<Name, Content>, i: Intent) {
    Lookup(m, IntentName(i.key)) == Some(WholeIntent(i))
  }

  predicate HoldsResult(m: map<Name, Content>, o: Outcome) {
    Lookup(m, ResultName(o)) == Some(WholeResult(o))
  }

  // The guest reported this last, and no request has reached it since.
  predicate LastReported(w: World, o: Outcome) {
    w.reports != [] && w.reports[|w.reports| - 1] == Report(o, |w.requests|)
  }

  predicate PhaseInvariant(w: World) {
    var disk := w.files.disk;
    match w.phase
    case Idle => true
    case OpenIntent(i) => NoIntents(disk)
    case FillIntent(i) => OnlyIntent(disk, i.key) && disk[IntentName(i.key)] == Partial
    case SyncIntent(i) => OnlyIntent(disk, i.key) && Holds(disk, i)
    case Requesting(i) =>
      && OnlyIntent(disk, i.key) && Holds(disk, i)
      && OnlyIntent(w.files.synced, i.key) && Holds(w.files.synced, i)
    case Asking(i, _) => Holds(disk, i)
    case OpenResult(o) => Holds(disk, o.intent)
    case FillResult(o) => Holds(disk, o.intent) && Lookup(disk, ResultName(o)) == Some(Partial)
    case SyncResult(o) => Holds(disk, o.intent) && HoldsResult(disk, o)
    case RemoveIntent(o) => Holds(disk, o.intent) && HoldsResult(disk, o)
    case SyncRemoval(o) => HoldsResult(disk, o) && IntentName(o.intent.key) !in disk
    case Acknowledging(o) =>
      HoldsResult(disk, o) && IntentName(o.intent.key) !in disk && IntentName(o.intent.key) !in w.files.synced
  }

  // What is being finished is joined, and was reported after every request.
  predicate FinishInvariant(w: World) {
    w.phase.Finishes() ==> w.phase.outcome.terminal.joined && LastReported(w, w.phase.outcome)
  }

  predicate Invariant(w: World) {
    && WellNamed(w.files.disk) && WellNamed(w.files.synced)
    && PhaseInvariant(w) && FinishInvariant(w)
  }

  lemma PowerLossKeepsNames(f: Files, after: map<Name, Content>)
    requires WellNamed(f.disk) && WellNamed(f.synced) && f.MayLeave(after)
    ensures WellNamed(after)
  {
    forall n | n in after
      ensures n.IntentName? ==> after[n] == Partial || (after[n].WholeIntent? && after[n].intent.key == n.key)
      ensures n.ResultName? ==> after[n] == Partial || after[n] == WholeResult(n.outcome)
    {
      assert Lookup(after, n) == Some(after[n]);
    }
  }

  lemma StepKeepsNames(w: World, e: Event)
    requires WellNamed(w.files.disk) && WellNamed(w.files.synced) && Enabled(w, e)
    ensures WellNamed(Next(w, e).files.disk) && WellNamed(Next(w, e).files.synced)
  {
    if e.PowerLost? { PowerLossKeepsNames(w.files, e.after); }
  }

  lemma OperationKeepsPhase(w: World)
    requires Invariant(w) && Enabled(w, Proceed)
    ensures PhaseInvariant(Operate(w))
  {
  }

  lemma EventKeepsPhase(w: World, e: Event)
    requires Invariant(w) && Enabled(w, e) && !e.Proceed?
    ensures PhaseInvariant(Next(w, e))
  {
  }

  lemma StepKeepsFinish(w: World, e: Event)
    requires FinishInvariant(w) && Enabled(w, e)
    ensures FinishInvariant(Next(w, e))
  {
  }

  lemma StepKeepsInvariant(w: World, e: Event)
    requires Invariant(w) && Enabled(w, e)
    ensures Invariant(Next(w, e))
  {
    StepKeepsNames(w, e);
    StepKeepsFinish(w, e);
    if e.Proceed? { OperationKeepsPhase(w); } else { EventKeepsPhase(w, e); }
  }

  lemma {:induction false} RunKeepsInvariant(w: World, events: seq<Event>)
    requires Invariant(w) && Possible(w, events)
    ensures Invariant(After(w, events))
    decreases |events|
  {
    if events != [] {
      StepKeepsInvariant(w, events[0]);
      RunKeepsInvariant(Next(w, events[0]), events[1..]);
    }
  }

  lemma InvariantAt(w: World, events: seq<Event>, k: nat)
    requires Invariant(w) && Possible(w, events) && k <= |events|
    ensures Invariant(At(w, events, k))
  {
    var v := At(w, events, k);
    RunKeepsInvariant(w, events[..k]);
  }

  // In every run, a prepare request reaches the guest only while its own intent
  // is complete, durable, and the only intent on disk.
  lemma RequestOnlyUnderItsIntent(w: World, events: seq<Event>, k: nat)
    requires Invariant(w) && Possible(w, events) && k < |events| && events[k].GuestReceives?
    ensures var v := At(w, events, k);
      var i := v.phase.intent;
      && At(w, events, k + 1).requests == v.requests + [i]
      && OnlyIntent(v.files.disk, i.key) && OnlyIntent(v.files.synced, i.key)
      && Holds(v.files.disk, i) && Holds(v.files.synced, i)
  {
    InvariantAt(w, events, k);
    AtNext(w, events, k);
  }

  // --------------------------------------------------------- records are durable

  // Finishing reuses a record that an earlier attempt had left on disk.
  predicate Reuses(w: World, e: Event) {
    e.Proceed? && w.phase.OpenResult? && HoldsResult(w.files.disk, w.phase.outcome)
  }

  // If this reuses a record, it is durable.
  predicate ReusesDurable(w: World, e: Event) {
    Reuses(w, e) ==> HoldsResult(w.files.synced, w.phase.outcome)
  }

  // Every record reused was durable when it was reused.
  ghost predicate ReusesOnlyDurable(w: World, events: seq<Event>)
    requires Possible(w, events)
    decreases |events|
  {
    events == [] || (ReusesDurable(w, events[0]) && ReusesOnlyDurable(Next(w, events[0]), events[1..]))
  }

  lemma {:induction false} ReusesDurableAt(w: World, events: seq<Event>, k: nat)
    requires Possible(w, events) && ReusesOnlyDurable(w, events) && k < |events|
    ensures ReusesDurable(At(w, events, k), events[k])
    decreases k
  {
    if k > 0 { ReusesDurableAt(Next(w, events[0]), events[1..], k - 1); }
  }

  // Finishing comes to the removal by storing the record, or by reusing it.
  lemma RemovalComes(w: World, e: Event)
    requires Invariant(w) && Enabled(w, e) && Next(w, e).phase.RemoveIntent?
    ensures !w.phase.Idle? && w.phase.Finishes() && w.phase.outcome == Next(w, e).phase.outcome
    ensures HoldsResult(Next(w, e).files.synced, w.phase.outcome) <==> ReusesDurable(w, e)
  {
  }

  // From the removal to the acknowledgement its record stays as durable as it is.
  lemma AcknowledgementComes(w: World, e: Event)
    requires Invariant(w) && Enabled(w, e) && (Next(w, e).phase.SyncRemoval? || Next(w, e).phase.Acknowledging?)
    ensures var v := Next(w, e);
      && (if v.phase.SyncRemoval? then w.phase == RemoveIntent(v.phase.outcome)
          else w.phase == SyncRemoval(v.phase.outcome))
      && (HoldsResult(v.files.synced, v.phase.outcome) <==> HoldsResult(w.files.synced, v.phase.outcome))
  {
  }

  lemma RemovedFor(w: World, e: Event, key: Key)
    requires Invariant(w) && Enabled(w, e) && !e.PowerLost?
    requires IntentName(key) in w.files.disk && IntentName(key) !in Next(w, e).files.disk
    ensures w.phase.RemoveIntent? && e.Proceed?
    ensures var o := w.phase.outcome;
      && o.intent.key == key && Holds(w.files.disk, o.intent)
      && o.terminal.joined && LastReported(w, o)
      && HoldsResult(w.files.disk, o) && HoldsResult(Next(w, e).files.disk, o)
  {
  }

  // Over every run: an intent file leaves the disk, power kept, only for its own
  // joined record, reported after the last request of any intent and stored before.
  // The record is then durable exactly if this attempt wrote it, or it was durable
  // when it was reused.
  lemma IntentLeavesReleased(w: World, events: seq<Event>, k: nat, key: Key)
    requires Invariant(w) && w.phase.Idle? && Possible(w, events) && k < |events| && !events[k].PowerLost?
    requires IntentName(key) in At(w, events, k).files.disk
    requires IntentName(key) !in At(w, events, k + 1).files.disk
    ensures var v := At(w, events, k);
      && v.phase.RemoveIntent? && events[k].Proceed? && k > 0
      && var o := v.phase.outcome;
      && o.intent.key == key && Holds(v.files.disk, o.intent)
      && o.terminal.joined && LastReported(v, o)
      && HoldsResult(v.files.disk, o) && HoldsResult(At(w, events, k + 1).files.disk, o)
      && (HoldsResult(v.files.synced, o) <==> ReusesDurable(At(w, events, k - 1), events[k - 1]))
      && (ReusesOnlyDurable(w, events) ==> HoldsResult(v.files.synced, o))
  {
    var v := At(w, events, k);
    InvariantAt(w, events, k);
    AtNext(w, events, k);
    RemovedFor(v, events[k], key);
    InvariantAt(w, events, k - 1);
    AtNext(w, events, k - 1);
    RemovalComes(At(w, events, k - 1), events[k - 1]);
    if ReusesOnlyDurable(w, events) { ReusesDurableAt(w, events, k - 1); }
  }

  // Over every run: a terminal is acknowledged only once its record is stored and
  // its intent durably gone, and that record is durable under the same condition.
  lemma AcknowledgedAfterRecord(w: World, events: seq<Event>, k: nat)
    requires Invariant(w) && w.phase.Idle? && Possible(w, events) && k < |events| && events[k].GuestAcknowledges?
    ensures var v := At(w, events, k);
      var o := v.phase.outcome;
      && At(w, events, k + 1).acknowledgements == v.acknowledgements + [o]
      && HoldsResult(v.files.disk, o) && o.terminal.joined && LastReported(v, o)
      && IntentName(o.intent.key) !in v.files.disk && IntentName(o.intent.key) !in v.files.synced
      && k >= 3
      && (HoldsResult(v.files.synced, o) <==> ReusesDurable(At(w, events, k - 3), events[k - 3]))
      && (ReusesOnlyDurable(w, events) ==> HoldsResult(v.files.synced, o))
  {
    InvariantAt(w, events, k);
    AtNext(w, events, k);
    CameFrom(w, events, k);
    AcknowledgementComes(At(w, events, k - 1), events[k - 1]);
    CameFrom(w, events, k - 1);
    AcknowledgementComes(At(w, events, k - 2), events[k - 2]);
    CameFrom(w, events, k - 2);
    RemovalComes(At(w, events, k - 3), events[k - 3]);
    if ReusesOnlyDurable(w, events) { ReusesDurableAt(w, events, k - 3); }
  }

  lemma CameFrom(w: World, events: seq<Event>, k: nat)
    requires Invariant(w) && w.phase.Idle? && Possible(w, events) && k <= |events| && !At(w, events, k).phase.Idle?
    ensures k > 0 && Invariant(At(w, events, k - 1))
    ensures At(w, events, k) == Next(At(w, events, k - 1), events[k - 1])
  {
    InvariantAt(w, events, k - 1);
    AtNext(w, events, k - 1);
  }

  // ------------------------------------------------------------------- custody

  // The q-th report settles the n-th request: it is joined, of the request's
  // intent, made after the request, and its record is in this store.
  predicate Settles(w: World, m: map<Name, Content>, q: nat, n: nat)
    requires n < |w.requests|
  {
    && q < |w.reports| && n < w.reports[q].after
    && w.reports[q].outcome.intent == w.requests[n] && w.reports[q].outcome.terminal.joined
    && HoldsResult(m, w.reports[q].outcome)
  }

  ghost predicate Settled(w: World, m: map<Name, Content>, n: nat)
    requires n < |w.requests|
  {
    exists q: nat :: Settles(w, m, q, n)
  }

  // Every request ever received is still under its intent or was settled, and
  // every record acknowledged is there.
  ghost predicate Custody(w: World, m: map<Name, Content>) {
    && (forall n :: 0 <= n < |w.requests| ==> Holds(m, w.requests[n]) || Settled(w, m, n))
    && (forall a :: 0 <= a < |w.acknowledgements| ==>
          HoldsResult(m, w.acknowledgements[a]) && w.acknowledgements[a].terminal.joined)
  }

  // Logs only grow.
  lemma LogsGrow(w: World, e: Event)
    requires Enabled(w, e)
    ensures w.requests <= Next(w, e).requests && w.reports <= Next(w, e).reports
    ensures w.acknowledgements <= Next(w, e).acknowledgements
  {
  }

  lemma StillSettles(w: World, v: World, m: map<Name, Content>, k: map<Name, Content>, q: nat, n: nat)
    requires n < |w.requests| && w.requests <= v.requests && w.reports <= v.reports
    requires Settles(w, m, q, n) && HoldsResult(k, w.reports[q].outcome)
    ensures Settles(v, k, q, n) && Settled(v, k, n)
  {
    assert v.reports[q] == w.reports[q] && v.requests[n] == w.requests[n];
    assert Settles(v, k, q, n);
  }

  // The report being finished settles every request of its intent, once stored.
  lemma LastSettles(w: World, o: Outcome, m: map<Name, Content>, n: nat)
    requires LastReported(w, o) && o.terminal.joined && HoldsResult(m, o)
    requires n < |w.requests| && w.requests[n] == o.intent
    ensures Settled(w, m, n)
  {
    assert Settles(w, m, |w.reports| - 1, n);
  }

  // ---- while power stays on

  predicate NoPowerLoss(events: seq<Event>) {
    forall e :: e in events ==> !e.PowerLost?
  }

  // Without power loss no record leaves the disk.
  lemma RecordsStay(w: World, e: Event, o: Outcome)
    requires Invariant(w) && Enabled(w, e) && !e.PowerLost? && HoldsResult(w.files.disk, o)
    ensures HoldsResult(Next(w, e).files.disk, o)
  {
  }

  // A held intent leaves only by the removal that finishes it.
  lemma HeldStays(w: World, e: Event, i: Intent)
    requires Invariant(w) && Enabled(w, e) && !e.PowerLost? && Holds(w.files.disk, i)
    ensures Holds(Next(w, e).files.disk, i) || (w.phase.RemoveIntent? && e.Proceed? && w.phase.outcome.intent == i)
  {
  }

  lemma RequestKeepsCustody(w: World, e: Event, n: nat)
    requires Invariant(w) && Enabled(w, e) && !e.PowerLost? && n < |w.requests|
    requires Holds(w.files.disk, w.requests[n]) || Settled(w, w.files.disk, n)
    ensures n < |Next(w, e).requests| && w.requests[n] == Next(w, e).requests[n]
    ensures Holds(Next(w, e).files.disk, w.requests[n]) || Settled(Next(w, e), Next(w, e).files.disk, n)
  {
    var v := Next(w, e);
    LogsGrow(w, e);
    if Settled(w, w.files.disk, n) {
      var q: nat :| Settles(w, w.files.disk, q, n);
      RecordsStay(w, e, w.reports[q].outcome);
      StillSettles(w, v, w.files.disk, v.files.disk, q, n);
    } else {
      HeldStays(w, e, w.requests[n]);
      if !Holds(v.files.disk, w.requests[n]) {
        RecordsStay(w, e, w.phase.outcome);
        LastSettles(v, w.phase.outcome, v.files.disk, n);
      }
    }
  }

  // Only the guest receiving one adds a request, and it is held.
  lemma NewRequestHeld(w: World, e: Event)
    requires Invariant(w) && Enabled(w, e)
    ensures Next(w, e).requests == w.requests
      || (Next(w, e).requests == w.requests + [w.phase.intent] && Next(w, e).files == w.files
          && Holds(w.files.disk, w.phase.intent) && Holds(w.files.synced, w.phase.intent))
  {
  }

  lemma NewAcknowledgement(w: World, e: Event)
    requires Invariant(w) && Enabled(w, e)
    ensures Next(w, e).acknowledgements == w.acknowledgements
      || (w.phase.Acknowledging? && Next(w, e).acknowledgements == w.acknowledgements + [w.phase.outcome]
          && Next(w, e).files == w.files)
  {
  }

  lemma StepKeepsVisibleCustody(w: World, e: Event)
    requires Invariant(w) && Enabled(w, e) && !e.PowerLost? && Custody(w, w.files.disk)
    ensures Custody(Next(w, e), Next(w, e).files.disk)
  {
    var v := Next(w, e);
    NewRequestHeld(w, e);
    NewAcknowledgement(w, e);
    forall n | 0 <= n < |v.requests| ensures Holds(v.files.disk, v.requests[n]) || Settled(v, v.files.disk, n) {
      if n < |w.requests| { RequestKeepsCustody(w, e, n); }
    }
    forall a | 0 <= a < |v.acknowledgements|
      ensures HoldsResult(v.files.disk, v.acknowledgements[a]) && v.acknowledgements[a].terminal.joined
    {
      if a < |w.acknowledgements| { RecordsStay(w, e, w.acknowledgements[a]); }
    }
  }

  // Kills between any two file operations, partial files included, leave every
  // request under its intent or settled by a joined record on disk, reported
  // after that very request.
  lemma {:induction false} CustodyThroughKills(w: World, events: seq<Event>)
    requires Invariant(w) && Possible(w, events) && NoPowerLoss(events) && Custody(w, w.files.disk)
    ensures Custody(After(w, events), After(w, events).files.disk)
    decreases |events|
  {
    if events != [] {
      assert events[0] in events;
      StepKeepsInvariant(w, events[0]);
      StepKeepsVisibleCustody(w, events[0]);
      CustodyThroughKills(Next(w, events[0]), events[1..]);
    }
  }

  // ---- when power may be lost

  ghost predicate Recorded(w: World) {
    && (forall o :: HoldsResult(w.files.synced, o) ==> HoldsResult(w.files.disk, o))
    && (w.phase.RemoveIntent? || w.phase.SyncRemoval? || w.phase.Acknowledging? ==>
          HoldsResult(w.files.synced, w.phase.outcome))
  }

  // A request is durably settled, or its intent is held and durable.
  ghost predicate Covered(w: World, n: nat)
    requires n < |w.requests|
  {
    Settled(w, w.files.synced, n) || (Holds(w.files.synced, w.requests[n]) && Holds(w.files.disk, w.requests[n]))
  }

  ghost predicate DurableInvariant(w: World) {
    && Invariant(w) && Recorded(w)
    && (forall n :: 0 <= n < |w.requests| ==> Covered(w, n))
    && (forall a :: 0 <= a < |w.acknowledgements| ==>
          HoldsResult(w.files.synced, w.acknowledgements[a]) && w.acknowledgements[a].terminal.joined)
  }

  lemma DurableStays(w: World, e: Event, o: Outcome)
    requires Invariant(w) && Recorded(w) && Enabled(w, e) && HoldsResult(w.files.synced, o)
    ensures HoldsResult(Next(w, e).files.synced, o)
  {
    if e.PowerLost? {
      assert HoldsResult(w.files.disk, o);
      assert Lookup(e.after, ResultName(o)) == Some(WholeResult(o));
    }
  }

  lemma DurableIsThere(w: World, e: Event)
    requires Invariant(w) && Recorded(w) && Enabled(w, e)
    ensures forall o :: HoldsResult(Next(w, e).files.synced, o) ==> HoldsResult(Next(w, e).files.disk, o)
  {
  }

  lemma StepKeepsRecorded(w: World, e: Event)
    requires Invariant(w) && Recorded(w) && Enabled(w, e)
    requires ReusesDurable(w, e)
    ensures Recorded(Next(w, e))
  {
    DurableIsThere(w, e);
    if w.phase.RemoveIntent? || w.phase.SyncRemoval? { DurableStays(w, e, w.phase.outcome); }
  }

  // A durable held intent stays both but for the removal that finishes it.
  lemma DurableHeldStays(w: World, e: Event, i: Intent)
    requires Invariant(w) && Enabled(w, e) && Holds(w.files.synced, i) && Holds(w.files.disk, i)
    ensures (Holds(Next(w, e).files.synced, i) && Holds(Next(w, e).files.disk, i))
      || (w.phase.RemoveIntent? && e.Proceed? && w.phase.outcome.intent == i)
  {
    if e.PowerLost? { assert Lookup(e.after, IntentName(i.key)) == Some(WholeIntent(i)); }
  }

  lemma RequestStaysCovered(w: World, e: Event, n: nat)
    requires Invariant(w) && Recorded(w) && Enabled(w, e) && n < |w.requests| && Covered(w, n)
    ensures n < |Next(w, e).requests| && Covered(Next(w, e), n)
  {
    var v := Next(w, e);
    LogsGrow(w, e);
    assert v.requests[n] == w.requests[n];
    if Settled(w, w.files.synced, n) {
      var q: nat :| Settles(w, w.files.synced, q, n);
      DurableStays(w, e, w.reports[q].outcome);
      StillSettles(w, v, w.files.synced, v.files.synced, q, n);
    } else {
      DurableHeldStays(w, e, w.requests[n]);
      if w.phase.RemoveIntent? && e.Proceed? && w.phase.outcome.intent == w.requests[n] {
        DurableStays(w, e, w.phase.outcome);
        LastSettles(v, w.phase.outcome, v.files.synced, n);
      }
    }
  }

  lemma StepKeepsDurable(w: World, e: Event)
    requires DurableInvariant(w) && Enabled(w, e)
    requires ReusesDurable(w, e)
    ensures DurableInvariant(Next(w, e))
  {
    var v := Next(w, e);
    StepKeepsInvariant(w, e);
    StepKeepsRecorded(w, e);
    NewRequestHeld(w, e);
    NewAcknowledgement(w, e);
    forall n | 0 <= n < |v.requests| ensures Covered(v, n) {
      if n < |w.requests| { RequestStaysCovered(w, e, n); }
    }
    forall a | 0 <= a < |v.acknowledgements|
      ensures HoldsResult(v.files.synced, v.acknowledgements[a]) && v.acknowledgements[a].terminal.joined
    {
      if a < |w.acknowledgements| { DurableStays(w, e, w.acknowledgements[a]); }
    }
  }

  lemma {:induction false} RunKeepsDurable(w: World, events: seq<Event>)
    requires DurableInvariant(w) && Possible(w, events) && ReusesOnlyDurable(w, events)
    ensures DurableInvariant(After(w, events))
    decreases |events|
  {
    if events != [] {
      StepKeepsDurable(w, events[0]);
      RunKeepsDurable(Next(w, events[0]), events[1..]);
    }
  }

  lemma DurableIsCustody(w: World)
    requires DurableInvariant(w)
    ensures Custody(w, w.files.synced)
  {
    forall n | 0 <= n < |w.requests| ensures Holds(w.files.synced, w.requests[n]) || Settled(w, w.files.synced, n) {
      assert Covered(w, n);
    }
  }

  // Loss of power included: as long as only durable records are reused, every
  // request stays under its durable intent until a joined record of it, reported
  // after it, is durable, and every record acknowledged is durable.
  lemma CustodyThroughPowerLoss(w: World, events: seq<Event>)
    requires DurableInvariant(w) && Possible(w, events) && ReusesOnlyDurable(w, events)
    ensures Custody(After(w, events), After(w, events).files.synced)
  {
    RunKeepsDurable(w, events);
    DurableIsCustody(After(w, events));
  }

  // ---- exactly when reusing a record keeps custody

  // From the reuse of a record to the acknowledgement of its terminal.
  const ReuseToEnd := [Proceed, Proceed, Proceed, GuestAcknowledges]

  // Reusing a record that is not durable loses custody, whatever was requested:
  // its terminal is acknowledged, and the record acknowledged is not durable.
  lemma ReusingUnsyncedLoses(w: World)
    requires Invariant(w) && w.phase.OpenResult? && Reuses(w, Proceed)
    requires !HoldsResult(w.files.synced, w.phase.outcome)
    ensures Possible(w, ReuseToEnd) && After(w, ReuseToEnd).requests == w.requests
    ensures !Custody(After(w, ReuseToEnd), After(w, ReuseToEnd).files.synced)
  {
    var o := w.phase.outcome;
    var w1 := Next(w, Proceed);
    var w2 := Next(w1, Proceed);
    var w3 := Next(w2, Proceed);
    var w4 := Next(w3, GuestAcknowledges);
    Unfold4(w, Proceed, Proceed, Proceed, GuestAcknowledges);
    assert w4.files.synced[ResultName(o)] == Partial;
    assert w4.acknowledgements[|w.acknowledgements|] == o;
  }

  // So finishing by reuse keeps durable custody exactly if the record is durable.
  lemma ReuseKeepsCustodyExactly(w: World)
    requires DurableInvariant(w) && w.phase.OpenResult? && Reuses(w, Proceed)
    ensures Possible(w, ReuseToEnd)
    ensures Custody(After(w, ReuseToEnd), After(w, ReuseToEnd).files.synced)
      <==> HoldsResult(w.files.synced, w.phase.outcome)
  {
    if HoldsResult(w.files.synced, w.phase.outcome) {
      var w1 := Next(w, Proceed);
      var w2 := Next(w1, Proceed);
      var w3 := Next(w2, Proceed);
      Unfold4(w, Proceed, Proceed, Proceed, GuestAcknowledges);
      StepKeepsDurable(w, Proceed);
      StepKeepsDurable(w1, Proceed);
      StepKeepsDurable(w2, Proceed);
      StepKeepsDurable(w3, GuestAcknowledges);
      DurableIsCustody(After(w, ReuseToEnd));
    } else {
      ReusingUnsyncedLoses(w);
    }
  }

  // From an empty command root, in every run: with power the files on disk, and
  // through loss of power the durable ones, keep custody of every request; the
  // first reuse of a record that is not durable, followed to its end, loses it.
  lemma PreparationCustody(events: seq<Event>)
    requires Possible(Start, events)
    ensures var v := After(Start, events);
      && (NoPowerLoss(events) ==> Custody(v, v.files.disk))
      && (ReusesOnlyDurable(Start, events) ==> Custody(v, v.files.synced))
      && (ReusesOnlyDurable(Start, events) && Reuses(v, Proceed) ==>
            && Possible(v, ReuseToEnd)
            && (Custody(After(v, ReuseToEnd), After(v, ReuseToEnd).files.synced)
                <==> HoldsResult(v.files.synced, v.phase.outcome)))
  {
    if NoPowerLoss(events) { CustodyThroughKills(Start, events); }
    if ReusesOnlyDurable(Start, events) {
      RunKeepsDurable(Start, events);
      CustodyThroughPowerLoss(Start, events);
      if Reuses(After(Start, events), Proceed) { ReuseKeepsCustodyExactly(After(Start, events)); }
    }
  }

  // Before the acknowledgement, too, loss of power takes the record after its
  // intent is gone, for every request that no other durable record settles.
  lemma ReusedRecordIsTaken(w: World, n: nat) returns (after: map<Name, Content>)
    requires Invariant(w) && w.phase.OpenResult? && Reuses(w, Proceed)
    requires !HoldsResult(w.files.synced, w.phase.outcome)
    requires n < |w.requests| && w.requests[n] == w.phase.outcome.intent && !Settled(w, w.files.synced, n)
    ensures var events := [Proceed, Proceed, Proceed, PowerLost(after)];
      && Possible(w, events)
      && After(w, events).requests == w.requests && After(w, events).acknowledgements == w.acknowledgements
      && !Holds(after, w.requests[n]) && !Settled(After(w, events), after, n)
      && After(w, events).files == Files(after, after)
  {
    var o := w.phase.outcome;
    var w1 := Next(w, Proceed);
    var w2 := Next(w1, Proceed);
    var w3 := Next(w2, Proceed);
    after := w3.files.synced;
    assert w3.files.synced[ResultName(o)] == Partial;
    assert w3.files.MayLeave(after);
    var w4 := Next(w3, PowerLost(after));
    assert !Holds(after, o.intent);
    forall q: nat ensures !Settles(w4, after, q, n) {
      if Settles(w4, after, q, n) {
        assert Settles(w, w.files.synced, q, n);
      }
    }
    Unfold4(w, Proceed, Proceed, Proceed, PowerLost(after));
  }

  lemma Unfold4(w: World, a: Event, b: Event, c: Event, d: Event)
    requires Enabled(w, a) && Enabled(Next(w, a), b) && Enabled(Next(Next(w, a), b), c)
    requires Enabled(Next(Next(Next(w, a), b), c), d)
    ensures Possible(w, [a, b, c, d])
    ensures After(w, [a, b, c, d]) == Next(Next(Next(Next(w, a), b), c), d)
  {
    var w1 := Next(w, a);
    var w2 := Next(w1, b);
    var w3 := Next(w2, c);
    var w4 := Next(w3, d);
    assert [d][1..] == [] && Possible(w4, []) && After(w4, []) == w4;
    assert After(w3, [d]) == After(w4, [d][1..]);
    assert Possible(w3, [d]) && After(w3, [d]) == Next(w3, d);
    assert [c, d][1..] == [d];
    assert Possible(w2, [c, d]) && After(w2, [c, d]) == Next(w3, d);
    assert [b, c, d][1..] == [c, d];
    assert Possible(w1, [b, c, d]) && After(w1, [b, c, d]) == Next(w3, d);
    assert [a, b, c, d][1..] == [b, c, d];
  }

  // ---- such a run

  ghost predicate Reachable(w: World) {
    exists events :: Possible(Start, events) && After(Start, events) == w
  }

  lemma {:induction false} Appended(w: World, a: seq<Event>, b: seq<Event>)
    requires Possible(w, a) && Possible(After(w, a), b)
    ensures Possible(w, a + b) && After(w, a + b) == After(After(w, a), b)
    decreases |a|
  {
    if a == [] {
      assert a + b == b;
    } else {
      assert (a + b)[1..] == a[1..] + b;
      Appended(Next(w, a[0]), a[1..], b);
    }
  }

  lemma ReachesNext(w: World, e: Event)
    requires Reachable(w) && Enabled(w, e)
    ensures Reachable(Next(w, e))
  {
    var events :| Possible(Start, events) && After(Start, events) == w;
    assert [e][1..] == [];
    Appended(Start, events, [e]);
  }

  // A request received under its durable intent.
  lemma ReachesRequest(i: Intent) returns (w: World)
    ensures Reachable(w) && w.phase == Requesting(i) && w.requests == [i] && w.reports == []
    ensures w.acknowledgements == []
    ensures w.files == Files(map[IntentName(i.key) := WholeIntent(i)], map[IntentName(i.key) := WholeIntent(i)])
  {
    assert Possible(Start, []) && After(Start, []) == Start;
    w := Start;
    ReachesNext(w, BeginPrepare(i));
    w := Next(w, BeginPrepare(i));
    ReachesNext(w, Proceed);
    w := Next(w, Proceed);
    ReachesNext(w, Proceed);
    w := Next(w, Proceed);
    ReachesNext(w, Proceed);
    w := Next(w, Proceed);
    ReachesNext(w, GuestReceives);
    w := Next(w, GuestReceives);
  }

  // Its result written, the process killed before the sync, and the recovery
  // about to reuse that result.
  lemma ReachesReuse(i: Intent, receipt: nat) returns (w: World)
    ensures var o := Outcome(i, Terminal(i.key, true, true, Some(receipt)));
      && Reachable(w) && w.phase == OpenResult(o) && w.requests == [i] && w.acknowledgements == []
      && HoldsResult(w.files.disk, o)
      && w.files.synced == map[IntentName(i.key) := WholeIntent(i)]
  {
    w := ReachesRequest(i);
    ReachesNext(w, GuestReceipt(receipt));
    w := Next(w, GuestReceipt(receipt));
    ReachesNext(w, Proceed);
    w := Next(w, Proceed);
    ReachesNext(w, Proceed);
    w := Next(w, Proceed);
    ReachesNext(w, Killed);
    w := Next(w, Killed);
    ReachesNext(w, BeginReconcile(i.key, i.backend, true));
    w := Next(w, BeginReconcile(i.key, i.backend, true));
    ReachesNext(w, GuestReports(Terminal(i.key, true, true, Some(receipt))));
    w := Next(w, GuestReports(Terminal(i.key, true, true, Some(receipt))));
  }

  lemma ReachableInvariant(w: World)
    requires Reachable(w)
    ensures Invariant(w)
  {
    var events :| Possible(Start, events) && After(Start, events) == w;
    RunKeepsInvariant(Start, events);
  }

  // So for every intent and receipt some run from an empty root loses custody of
  // the request, with nothing acknowledged.
  lemma CustodyCanBeLost(i: Intent, receipt: nat) returns (events: seq<Event>)
    ensures Possible(Start, events)
    ensures var v := After(Start, events); 
      && v.requests == [i] && v.acknowledgements == [] && !Custody(v, v.files.synced)
  {
    var w := ReachesReuse(i, receipt);
    ReachableInvariant(w);
    var after := ReusedRecordIsTaken(w, 0);
    var before :| Possible(Start, before) && After(Start, before) == w;
    var rest := [Proceed, Proceed, Proceed, PowerLost(after)];
    Appended(Start, before, rest);
    events := before + rest;
  }

  // --------------------------------------------------------- repeating recovery

  // File operations one after the other, at most n of them.
  ghost function Work(w: World, n: nat): World
    decreases n
  {
    if n == 0 || !Enabled(w, Proceed) then w else Work(Next(w, Proceed), n - 1)
  }

  // A recovery that is told this terminal, up to n file operations in.
  ghost function Recovering(w: World, o: Outcome, n: nat): World
    requires w.phase.Idle?
  {
    var asked := Next(w, BeginReconcile(o.intent.key, o.intent.backend, true));
    if asked.phase.Asking? then Work(Next(asked, GuestReports(o.terminal)), n) else asked
  }

  // What finishing leaves on disk: one record, and no intent.
  function FinishedDisk(disk: map<Name, Content>, o: Outcome): map<Name, Content> {
    disk[ResultName(o) := WholeResult(o)] - {IntentName(o.intent.key)}
  }

  // Once told, a recovery that finds no record writes one, and one that finds it
  // reuses it.
  lemma WritingFinishes(s0: World, o: Outcome)
    requires s0.phase == OpenResult(o) && ResultName(o) !in s0.files.disk
    ensures Work(s0, 5).files.disk == FinishedDisk(s0.files.disk, o) && Work(s0, 5).phase == Acknowledging(o)
  {
    var s1 := Next(s0, Proceed);
    var s2 := Next(s1, Proceed);
    var s3 := Next(s2, Proceed);
    var s4 := Next(s3, Proceed);
    var s5 := Next(s4, Proceed);
    assert Work(s0, 5) == Work(s1, 4) == Work(s2, 3) == Work(s3, 2) == Work(s4, 1) == Work(s5, 0);
    assert s4.files.disk == FinishedDisk(s0.files.disk, o);
  }

  lemma ReusingFinishes(s0: World, o: Outcome)
    requires s0.phase == OpenResult(o) && HoldsResult(s0.files.disk, o)
    ensures Work(s0, 5).files.disk == FinishedDisk(s0.files.disk, o) && Work(s0, 5).phase == Acknowledging(o)
  {
    var s1 := Next(s0, Proceed);
    var s2 := Next(s1, Proceed);
    var s3 := Next(s2, Proceed);
    assert Work(s0, 5) == Work(s1, 4) == Work(s2, 3) == Work(s3, 2) == s3;
    assert s0.files.disk[ResultName(o) := WholeResult(o)] == s0.files.disk;
  }

  lemma RecoveryFinishes(w: World, o: Outcome)
    requires w.phase.Idle? && Holds(w.files.disk, o.intent)
    requires ValidTerminal(o.terminal, o.intent.key) && o.terminal.joined
    requires ResultName(o) in w.files.disk ==> HoldsResult(w.files.disk, o)
    ensures var v := Recovering(w, o, 5);
      v.files.disk == FinishedDisk(w.files.disk, o) && v.phase == Acknowledging(o)
  {
    var s0 := Next(Next(w, BeginReconcile(o.intent.key, o.intent.backend, true)), GuestReports(o.terminal));
    if HoldsResult(w.files.disk, o) { ReusingFinishes(s0, o); } else { WritingFinishes(s0, o); }
  }

  // What is on disk of its record and intent, n file operations into writing them.
  lemma WritingSoFar(s0: World, o: Outcome, n: nat)
    requires s0.phase == OpenResult(o) && ResultName(o) !in s0.files.disk && n <= 5
    ensures Work(s0, n).files.disk ==
      if n == 0 then s0.files.disk
      else if n == 1 then s0.files.disk[ResultName(o) := Partial]
      else if n <= 3 then s0.files.disk[ResultName(o) := WholeResult(o)]
      else FinishedDisk(s0.files.disk, o)
  {
    if n > 0 {
      var s1 := Next(s0, Proceed);
      if n > 1 { WrittenSoFar(s1, o, n - 1); }
      assert n > 1 ==> s1.files.disk[ResultName(o) := WholeResult(o)] == s0.files.disk[ResultName(o) := WholeResult(o)];
    }
  }

  lemma WrittenSoFar(s1: World, o: Outcome, n: nat)
    requires s1.phase == FillResult(o) && 1 <= n <= 4
    ensures Work(s1, n).files.disk
      == if n <= 2 then s1.files.disk[ResultName(o) := WholeResult(o)] else FinishedDisk(s1.files.disk, o)
  {
    var s2 := Next(s1, Proceed);
    assert Work(s1, n) == Work(s2, n - 1);
    if n >= 2 {
      var s3 := Next(s2, Proceed);
      assert Work(s2, n - 1) == Work(s3, n - 2);
      if n >= 3 {
        var s4 := Next(s3, Proceed);
        assert Work(s3, n - 2) == Work(s4, n - 3);
      }
    }
  }

  // Where a recovery is interrupted.
  lemma Interrupted(w: World, o: Outcome, k: nat)
    requires w.phase.Idle? && Holds(w.files.disk, o.intent) && ResultName(o) !in w.files.disk
    requires ValidTerminal(o.terminal, o.intent.key) && o.terminal.joined && k <= 5
    ensures Recovering(w, o, k).files.disk ==
      if k == 0 then w.files.disk
      else if k == 1 then w.files.disk[ResultName(o) := Partial]
      else if k <= 3 then w.files.disk[ResultName(o) := WholeResult(o)]
      else FinishedDisk(w.files.disk, o)
  {
    var s0 := Next(Next(w, BeginReconcile(o.intent.key, o.intent.backend, true)), GuestReports(o.terminal));
    WritingSoFar(s0, o, k);
  }

  // A recovery killed after any number of its file operations, and repeated with
  // the same report, leaves the files an uninterrupted one leaves, unless it was
  // killed with its record half written.
  lemma RepeatedRecovery(w: World, o: Outcome, k: nat)
    requires w.phase.Idle? && Holds(w.files.disk, o.intent) && ResultName(o) !in w.files.disk
    requires ValidTerminal(o.terminal, o.intent.key) && o.terminal.joined && k <= 5
    ensures var killed := Next(Recovering(w, o, k), Killed);
      Recovering(killed, o, 5).files.disk == Recovering(w, o, 5).files.disk <==> k != 1
  {
    var killed := Next(Recovering(w, o, k), Killed);
    Interrupted(w, o, k);
    RecoveryFinishes(w, o);
    var written := w.files.disk[ResultName(o) := WholeResult(o)];
    assert FinishedDisk(written, o) == FinishedDisk(w.files.disk, o);
    if k == 1 {
      var blocked := Next(Next(killed, BeginReconcile(o.intent.key, o.intent.backend, true)), GuestReports(o.terminal));
      assert Work(blocked, 5) == Work(Next(blocked, Proceed), 4) == Next(blocked, Proceed);
      assert Lookup(Recovering(killed, o, 5).files.disk, ResultName(o)) == Some(Partial);
    } else if k <= 3 {
      RecoveryFinishes(killed, o);
    }
  }

  // ---- a record half written

  // Its intent is held, nothing but its own recovery is finishing the intent, and
  // no new preparation is under way.
  predicate Blocked(w: World, o: Outcome) {
    && Holds(w.files.disk, o.intent) && Lookup(w.files.disk, ResultName(o)) == Some(Partial)
    && !w.phase.OpenIntent? && !w.phase.FillIntent? && !w.phase.SyncIntent? && !w.phase.Requesting?
    && (w.phase.Finishes() && w.phase.outcome.intent == o.intent ==> w.phase == OpenResult(o))
  }

  // Whenever the guest is asked of the intent it says the same.
  ghost predicate SaysTheSame(w: World, events: seq<Event>, o: Outcome)
    requires Possible(w, events)
    decreases |events|
  {
    events == []
    || (&& (events[0].GuestReports? && w.phase.intent == o.intent ==> events[0].terminal == o.terminal)
        && SaysTheSame(Next(w, events[0]), events[1..], o))
  }

  lemma StaysBlocked(w: World, e: Event, o: Outcome)
    requires Invariant(w) && Enabled(w, e) && !e.PowerLost? && Blocked(w, o)
    requires e.GuestReports? && w.phase.intent == o.intent ==> e.terminal == o.terminal
    ensures Blocked(Next(w, e), o) && Next(w, e).requests == w.requests
    ensures Next(w, e).acknowledgements == w.acknowledgements
      || (Next(w, e).acknowledgements == w.acknowledgements + [w.phase.outcome] && w.phase.outcome != o)
  {
  }

  // A record half written is kept and blocks: while the guest says the same, over
  // every run that keeps power the record stays half written and the intent held,
  // no request is made, and the terminal is never acknowledged.
  lemma {:induction false} PartialRecordBlocks(w: World, events: seq<Event>, o: Outcome)
    requires Invariant(w) && Blocked(w, o) && Possible(w, events) && NoPowerLoss(events) && SaysTheSame(w, events, o)
    ensures var v := After(w, events);
      && Blocked(v, o) && v.requests == w.requests
      && w.acknowledgements <= v.acknowledgements
      && forall a :: |w.acknowledgements| <= a < |v.acknowledgements| ==> v.acknowledgements[a] != o
    decreases |events|
  {
    if events != [] {
      assert events[0] in events;
      StepKeepsInvariant(w, events[0]);
      StaysBlocked(w, events[0], o);
      PartialRecordBlocks(Next(w, events[0]), events[1..], o);
    }
  }
}
