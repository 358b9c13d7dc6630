/**
 What one attempt at a preparation, a query or a recovery does, from its beginning
 to its end: which attempts remove an intent, and that a query changes nothing.
 */
module PreparationAttempts {
  import opened Wrappers
  import opened PreparationFiles
  import opened PreparationProtocol

  predicate Begins(e: Event) { e.BeginPrepare? || e.BeginReconcile? }

  predicate NoBegin(events: seq<Event>) { forall e <- events :: !Begins(e) }

  // ------------------------------------------------------------------------ queries

  // A query of an intent, and all that follows until something else begins, leaves
  // the files, the requests and the acknowledgements as they are, whatever the guest
  // says, as long as power is kept.
  lemma QueryChangesNothing(w: World, key: Key, backend: nat, events: seq<Event>)
    requires w.phase.Idle? && NoBegin(events) && NoPowerLoss(events)
    requires Possible(w, [BeginReconcile(key, backend, false)] + events)
    ensures var v := After(w, [BeginReconcile(key, backend, false)] + events);
      v.files == w.files && v.requests == w.requests && v.acknowledgements == w.acknowledgements
  {
    assert ([BeginReconcile(key, backend, false)] + events)[1..] == events;
    OnlyAsks(Next(w, BeginReconcile(key, backend, false)), events);
  }

  lemma {:induction false} OnlyAsks(w: World, events: seq<Event>)
    requires w.phase.Idle? || (w.phase.Asking? && !w.phase.recover)
    requires NoBegin(events) && NoPowerLoss(events) && Possible(w, events)
    ensures var v := After(w, events);
      v.files == w.files && v.requests == w.requests && v.acknowledgements == w.acknowledgements
    decreases |events|
  {
    if events != [] {
      assert events[0] in events;
      OnlyAsks(Next(w, events[0]), events[1..]);
    }
  }

  // ----------------------------------------------------------------- whose attempt

  // What is being done was begun by this event.
  predicate BegunBy(phase: Phase, e: Event) {
    match e
    case BeginPrepare(i) =>
      || phase == OpenIntent(i) || phase == FillIntent(i) || phase == SyncIntent(i) || phase == Requesting(i)
      || (phase.Finishes() && phase.outcome.intent == i)
    case BeginReconcile(key, backend, recover) =>
      || (phase.Asking? && phase.recover == recover && phase.intent.key == key && phase.intent.backend == backend)
      || (recover && phase.Finishes() && phase.outcome.intent.key == key && phase.outcome.intent.backend == backend)
    case _ => false
  }

  lemma StillBegunBy(w: World, e: Event, begin: Event)
    requires Enabled(w, e) && !Begins(e) && BegunBy(w.phase, begin)
    ensures Next(w, e).phase.Idle? || BegunBy(Next(w, e).phase, begin)
  {
  }

  lemma BeginsIt(w: World, e: Event)
    requires Invariant(w) && Enabled(w, e) && Begins(e)
    ensures Next(w, e).phase.Idle? || BegunBy(Next(w, e).phase, e)
  {
  }

  // The last event before the k-th that begins an attempt.
  predicate LastBegin(events: seq<Event>, b: nat, k: nat) {
    b < k <= |events| && Begins(events[b]) && forall j :: b < j < k ==> !Begins(events[j])
  }

  lemma {:induction false} AttemptAt(w: World, events: seq<Event>, k: nat) returns (b: nat)
    requires Invariant(w) && w.phase.Idle? && Possible(w, events) && k <= |events|
    requires !At(w, events, k).phase.Idle?
    ensures LastBegin(events, b, k) && BegunBy(At(w, events, k).phase, events[b])
    decreases k
  {
    CameFrom(w, events, k);
    var u := At(w, events, k - 1);
    if Begins(events[k - 1]) {
      b := k - 1;
      BeginsIt(u, events[b]);
    } else {
      b := AttemptAt(w, events, k - 1);
      StillBegunBy(u, events[k - 1], events[b]);
    }
  }

  // Over every run an intent leaves the disk, power kept, only in an attempt begun
  // by the preparation of that key, or by a recovery of it: never in a query.
  lemma RemovedInItsAttempt(w: World, events: seq<Event>, k: nat, key: Key) returns (b: nat)
    requires Invariant(w) && w.phase.Idle? && Possible(w, events) && k < |events| && !events[k].PowerLost?
    requires IntentName(key) in At(w, events, k).files.disk
    requires IntentName(key) !in At(w, events, k + 1).files.disk
    ensures LastBegin(events, b, k)
    ensures match events[b]
      case BeginPrepare(i) => i.key == key && Holds(At(w, events, k).files.disk, i)
      case BeginReconcile(key', _, recover) => key' == key && recover
      case _ => false
  {
    IntentLeavesReleased(w, events, k, key);
    b := AttemptAt(w, events, k);
  }

  // And a request is received only in the attempt begun by its own preparation.
  lemma RequestedInItsAttempt(w: World, events: seq<Event>, k: nat) returns (b: nat)
    requires Invariant(w) && w.phase.Idle? && Possible(w, events) && k < |events| && events[k].GuestReceives?
    ensures LastBegin(events, b, k) && events[b] == BeginPrepare(At(w, events, k).phase.intent)
  {
    b := AttemptAt(w, events, k);
  }

  // ---------------------------------------------------------- attempts to the end

  // A reconciliation told this terminal, with all its file operations.
  ghost function Told(w: World, key: Key, backend: nat, recover: bool, t: Terminal): World
    requires w.phase.Idle?
  {
    var asked := Next(w, BeginReconcile(key, backend, recover));
    if asked.phase.Asking? then Work(Next(asked, GuestReports(t)), 5) else asked
  }

  // There is no record of the outcome yet, or this very one.
  predicate RecordFits(disk: map<Name, Content>, o: Outcome) {
    ResultName(o) in disk ==> disk[ResultName(o)] == WholeResult(o)
  }

  // A recovery, not a query, of an intent that is whole and of this backend, told a
  // valid joined terminal, with no other record in the way.
  predicate Releases(disk: map<Name, Content>, i: Intent, key: Key, backend: nat, recover: bool, t: Terminal) {
    && recover && Holds(disk, i) && i.key == key && i.backend == backend
    && t.key == key && t.joined && (t.prepared <==> t.receipt.Some?) && RecordFits(disk, Outcome(i, t))
  }

  // What is held under the key is this intent, if it is anything.
  lemma HeldIntent(w: World, key: Key) returns (i: Intent)
    requires WellNamed(w.files.disk)
    ensures forall j :: Holds(w.files.disk, j) && j.key == key ==> j == i
    ensures i.key == key
    ensures Lookup(w.files.disk, IntentName(key)) in {None, Some(Partial), Some(WholeIntent(i))}
  {
    var held := Lookup(w.files.disk, IntentName(key));
    i := if held.Some? && held.value.WholeIntent? then held.value.intent else Intent(key, 0, 0);
  }

  // A recovery that is told such a terminal stores its record, removes the intent,
  // and comes to the acknowledgement; every other reconciliation, and every query,
  // ends with the files as they were.
  lemma ReleasesExactly(w: World, i: Intent, key: Key, backend: nat, recover: bool, t: Terminal)
    requires Invariant(w) && w.phase.Idle?
    requires forall j :: Holds(w.files.disk, j) && j.key == key ==> j == i
    ensures var v := Told(w, key, backend, recover, t);
      if Releases(w.files.disk, i, key, backend, recover, t) then
        v.phase == Acknowledging(Outcome(i, t)) && v.files.disk == FinishedDisk(w.files.disk, Outcome(i, t))
      else
        v.phase.Idle? && v.files == w.files
  {
    var o := Outcome(i, t);
    var asked := Next(w, BeginReconcile(key, backend, recover));
    if asked.phase.Asking? {
      assert Holds(w.files.disk, asked.phase.intent) && asked.phase.intent == i;
      var told := Next(asked, GuestReports(t));
      if Releases(w.files.disk, i, key, backend, recover, t) {
        RecoveryFinishes(w, o);
      } else if told.phase.OpenResult? {
        assert Work(told, 5) == Work(Next(told, Proceed), 4) == Next(told, Proceed);
      } else {
        assert Work(told, 5) == told;
      }
    }
  }

  // A preparation of which the guest receives the request and answers with a receipt.
  ghost function Prepared(w: World, i: Intent, receipt: nat): World
    requires w.phase.Idle?
  {
    var requesting := Work(Next(w, BeginPrepare(i)), 3);
    if !requesting.phase.Requesting? then requesting
    else Work(Next(Next(requesting, GuestReceives), GuestReceipt(receipt)), 5)
  }

  lemma IntentIsStored(w: World, i: Intent)
    requires w.phase.Idle? && NoIntents(w.files.disk)
    ensures var v := Work(Next(w, BeginPrepare(i)), 3);
      && v.phase == Requesting(i) && v.files.disk == w.files.disk[IntentName(i.key) := WholeIntent(i)]
      && v.requests == w.requests && v.reports == w.reports
  {
    var s0 := Next(w, BeginPrepare(i));
    var s1 := Next(s0, Proceed);
    var s2 := Next(s1, Proceed);
    var s3 := Next(s2, Proceed);
    assert Work(s0, 3) == Work(s1, 2) == Work(s2, 1) == Work(s3, 0) == s3;
    assert s3.files.disk == w.files.disk[IntentName(i.key) := WholeIntent(i)];
  }

  // A preparation is begun exactly when no intent is on disk, whatever its key; else
  // nothing changes. Begun, its request is received, and with a receipt its record is
  // stored and its intent gone, unless another record has its name: then the intent
  // is kept.
  lemma PreparesExactly(w: World, i: Intent, receipt: nat)
    requires Invariant(w) && w.phase.Idle?
    ensures var v, o := Prepared(w, i, receipt), Outcome(i, Terminal(i.key, true, true, Some(receipt)));
      if !NoIntents(w.files.disk) then v == w
      else
        && v.requests == w.requests + [i]
        && (if RecordFits(w.files.disk, o) then
              v.phase == Acknowledging(o) && v.files.disk == w.files.disk[ResultName(o) := WholeResult(o)]
            else
              v.phase.Idle? && v.files.disk == w.files.disk[IntentName(i.key) := WholeIntent(i)])
  {
    if !NoIntents(w.files.disk) {
      assert Work(w, 3) == w;
    } else {
      IntentIsStored(w, i);
      var o := Outcome(i, Terminal(i.key, true, true, Some(receipt)));
      var requesting := Work(Next(w, BeginPrepare(i)), 3);
      ReceiptFinishes(Next(requesting, GuestReceives), o);
      assert IntentName(i.key) !in w.files.disk;
      assert FinishedDisk(requesting.files.disk, o) == w.files.disk[ResultName(o) := WholeResult(o)];
    }
  }

  lemma ReceiptFinishes(w: World, o: Outcome)
    requires w.phase == Requesting(o.intent) && Holds(w.files.disk, o.intent)
    requires o.terminal == Terminal(o.intent.key, true, true, o.terminal.receipt) && o.terminal.receipt.Some?
    ensures var v := Work(Next(w, GuestReceipt(o.terminal.receipt.value)), 5);
      && v.requests == w.requests
      && (if RecordFits(w.files.disk, o)
          then v.phase == Acknowledging(o) && v.files.disk == FinishedDisk(w.files.disk, o)
          else v.phase.Idle? && v.files == w.files)
  {
    var told := Next(w, GuestReceipt(o.terminal.receipt.value));
    WorkKeepsRequests(told, 5);
    if ResultName(o) !in w.files.disk {
      WritingFinishes(told, o);
    } else if RecordFits(w.files.disk, o) {
      ReusingFinishes(told, o);
    } else {
      assert Work(told, 5) == Work(Next(told, Proceed), 4) == Next(told, Proceed);
    }
  }

  lemma {:induction false} WorkKeepsRequests(w: World, n: nat)
    ensures Work(w, n).requests == w.requests
    decreases n
  {
    if n > 0 && Enabled(w, Proceed) { WorkKeepsRequests(Next(w, Proceed), n - 1); }
  }

  // The file operations of an attempt, with the rest of it, are a run.
  lemma {:induction false} WorkIsRun(w: World, n: nat) returns (events: seq<Event>)
    ensures Possible(w, events) && After(w, events) == Work(w, n) && forall e <- events :: e == Proceed
    decreases n
  {
    if n == 0 || !Enabled(w, Proceed) {
      events := [];
    } else {
      var rest := WorkIsRun(Next(w, Proceed), n - 1);
      events := [Proceed] + rest;
      assert events[1..] == rest;
    }
  }

  // So such a recovery has a run: it ends with the intent gone, the record stored
  // and the terminal acknowledged.
  lemma RecoveryReleases(w: World, i: Intent, t: Terminal) returns (events: seq<Event>)
    requires Invariant(w) && w.phase.Idle? && Releases(w.files.disk, i, i.key, i.backend, true, t)
    ensures Possible(w, events) && LastBegin(events, 0, |events|)
    ensures var v, o := After(w, events), Outcome(i, t);
      && events[0] == BeginReconcile(i.key, i.backend, true)
      && v.phase.Idle? && v.acknowledgements == w.acknowledgements + [o]
      && v.files.disk == FinishedDisk(w.files.disk, o)
  {
    var begin, reports := BeginReconcile(i.key, i.backend, true), GuestReports(t);
    ReleasesExactly(w, i, i.key, i.backend, true, t);
    var told := Next(Next(w, begin), reports);
    var rest := WorkAndAcknowledgement(told, Outcome(i, t));
    events := [begin, reports] + rest;
    TwoMore(w, begin, reports, rest);
    OnlyFirstBegins(begin, [reports] + rest);
    assert events == [begin] + ([reports] + rest);
  }

  lemma WorkAndAcknowledgement(w: World, o: Outcome) returns (events: seq<Event>)
    requires Work(w, 5).phase == Acknowledging(o)
    ensures Possible(w, events) && NoBegin(events)
    ensures var v := After(w, events);
      && v.phase.Idle? && v.files == Work(w, 5).files && v.acknowledgements == w.acknowledgements + [o]
  {
    var work := WorkIsRun(w, 5);
    WorkKeepsAcknowledgements(w, 5);
    assert [GuestAcknowledges][1..] == [];
    Appended(w, work, [GuestAcknowledges]);
    events := work + [GuestAcknowledges];
  }

  lemma TwoMore(w: World, a: Event, b: Event, rest: seq<Event>)
    requires Enabled(w, a) && Enabled(Next(w, a), b) && Possible(Next(Next(w, a), b), rest)
    ensures Possible(w, [a, b] + rest) && After(w, [a, b] + rest) == After(Next(Next(w, a), b), rest)
  {
    var events := [a, b] + rest;
    assert events[1..] == [b] + rest && events[1..][1..] == rest;
    assert Possible(Next(w, a), events[1..]) && After(Next(w, a), events[1..]) == After(Next(Next(w, a), b), rest);
  }

  lemma OnlyFirstBegins(begin: Event, rest: seq<Event>)
    requires Begins(begin) && NoBegin(rest)
    ensures LastBegin([begin] + rest, 0, |rest| + 1)
  {
    var events := [begin] + rest;
    forall j | 0 < j < |events| ensures !Begins(events[j]) { assert events[j] == rest[j - 1]; }
  }

  lemma {:induction false} WorkKeepsAcknowledgements(w: World, n: nat)
    ensures Work(w, n).acknowledgements == w.acknowledgements
    decreases n
  {
    if n > 0 && Enabled(w, Proceed) { WorkKeepsAcknowledgements(Next(w, Proceed), n - 1); }
  }
}
