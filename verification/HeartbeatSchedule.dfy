/**
 The heartbeat sender's schedule told by its attempts, and the server's answer by
 what it accepted before.
 */
module HeartbeatSchedule {
  import opened Wrappers
  import opened HeartbeatModel
  import opened HeartbeatProtocol

  // ---------------------------------------------------------------------- the sender

  datatype Moment = Moment(at: int, sampleAt: Option<int>, fate: Fate)

  // The state after all these ticks.
  function SenderAfter(ticks: seq<Moment>): Sender {
    if ticks == [] then BeforeFirst
    else
      var last := ticks[|ticks| - 1];
      AfterTick(SenderAfter(ticks[..|ticks| - 1]), last.at, last.sampleAt, last.fate)
  }

  // How many attempts were seen to fail since one was seen accepted. An attempt whose
  // end was not seen counts for neither.
  function Failures(attempts: seq<Moment>): nat {
    if attempts == [] then 0
    else
      var before, last := attempts[..|attempts| - 1], attempts[|attempts| - 1].fate;
      if !last.Saw? then Failures(before) else if last.accepted then 0 else Failures(before) + 1
  }

  function Doubled(n: nat): nat { if n == 0 then 300 else 2 * Doubled(n - 1) }

  // How long the sender waits after the last of these attempts: five minutes, and
  // after every failure in a row twice as long, up to half an hour.
  function Wait(attempts: seq<Moment>): (seconds: nat)
    requires attempts != []
  {
    var last := attempts[|attempts| - 1].fate;
    if last.Saw? && !last.accepted then Min(Doubled(Failures(attempts) - 1), 1800) else 300
  }

  predicate DueAfter(attempts: seq<Moment>, tick: Moment) {
    && |attempts| < MAX_SEQUENCE
    && (if attempts == [] then tick.at >= 0
        else tick.at >= attempts[|attempts| - 1].at + Wait(attempts))
    && tick.sampleAt.Some? && tick.sampleAt.value <= tick.at <= tick.sampleAt.value + 180
  }

  // The ticks at which an attempt is due, each judged by the attempts before it.
  function Attempts(ticks: seq<Moment>): seq<Moment> {
    if ticks == [] then []
    else
      var before, last := Attempts(ticks[..|ticks| - 1]), ticks[|ticks| - 1];
      if DueAfter(before, last) then before + [last] else before
  }

  // The state says of the attempts how many there were, how many failed in a row, up
  // to a thousand, and when the next is due.
  predicate Says(s: Sender, attempts: seq<Moment>) {
    && s.sequence == |attempts| <= MAX_SEQUENCE
    && s.failures == Min(Failures(attempts), 1000)
    && (if attempts == [] then s.nextAttempt == 0
        else
          && attempts[|attempts| - 1].at >= 0
          && s.nextAttempt == attempts[|attempts| - 1].at + Wait(attempts))
  }

  lemma {:induction false} DoubledGrows(n: nat)
    ensures Doubled(n) == if n == 0 then 300 else if n == 1 then 600 else if n == 2 then 1200 else Doubled(n)
    ensures n >= 3 ==> Doubled(n) >= 2400
    decreases n
  {
    if n >= 3 { DoubledGrows(n - 1); }
    if n == 2 { assert Doubled(2) == 2 * Doubled(1) && Doubled(1) == 2 * Doubled(0); }
  }

  lemma BackoffDoubles(failures: nat)
    requires failures >= 1
    ensures Backoff(failures) == Min(Doubled(failures - 1), 1800)
    ensures Backoff(Min(failures, 1000)) == Backoff(failures)
  {
    DoubledGrows(failures - 1);
  }

  lemma OneMoreAttempt(s: Sender, attempts: seq<Moment>, tick: Moment)
    requires Says(s, attempts)
    ensures TickKind(s, tick.at, tick.sampleAt) == Attempted <==> DueAfter(attempts, tick)
    ensures Says(AfterTick(s, tick.at, tick.sampleAt, tick.fate),
                 if DueAfter(attempts, tick) then attempts + [tick] else attempts)
  {
    if DueAfter(attempts, tick) {
      var more := attempts + [tick];
      assert more[..|attempts|] == attempts;
      if tick.fate.Saw? && !tick.fate.accepted { BackoffDoubles(Failures(attempts) + 1); }
    }
  }

  // Over every sequence of ticks the sender attempts exactly what is due by its
  // earlier attempts, under the next sequence number.
  lemma {:induction false} FollowsSchedule(ticks: seq<Moment>)
    ensures Says(SenderAfter(ticks), Attempts(ticks))
    decreases |ticks|
  {
    if ticks != [] {
      var n := |ticks| - 1;
      FollowsSchedule(ticks[..n]);
      OneMoreAttempt(SenderAfter(ticks[..n]), Attempts(ticks[..n]), ticks[n]);
    }
  }

  // A tick sends a request exactly if it is due and did not die first, and its result
  // says that it was sent.
  lemma SendsExactly(ticks: seq<Moment>, tick: Moment)
    ensures Sends(SenderAfter(ticks), tick.at, tick.sampleAt, tick.fate)
      <==> && DueAfter(Attempts(ticks), tick)
           && (tick.fate.DiedAfterSending? || (tick.fate.Saw? && tick.fate.sent))
    ensures SenderAfter(ticks).sequence == |Attempts(ticks)|
  {
    FollowsSchedule(ticks);
    OneMoreAttempt(SenderAfter(ticks), Attempts(ticks), tick);
  }

  // ---------------------------------------------------------------------- the server

  // Over every run the history holds the times of the receipts, one each.
  predicate HistoryOfReceipts(w: World) {
    && |w.store.history| == |w.receipts|
    && forall i :: 0 <= i < |w.receipts| ==> w.store.history[i] == w.receipts[i].at
  }

  lemma {:induction false} HistoryIsReceipts(w: World, events: seq<Event>)
    requires HistoryOfReceipts(w) && Possible(w, events)
    ensures HistoryOfReceipts(Run(w, events))
    decreases |events|
  {
    if events != [] { HistoryIsReceipts(Next(w, events[0]), events[1..]); }
  }

  // The last accepted request was under this request's key, and this one is not newer.
  predicate Replays(w: World, m: Message) {
    && w.receipts != []
    && var last := w.receipts[|w.receipts| - 1].message;
       last.key == m.key && m.sequence <= last.sequence
  }

  predicate WithinMinute(w: World, now: int) {
    w.receipts != [] && now < w.receipts[|w.receipts| - 1].at + 60_000
  }

  // A delivery is answered by what is configured and what was accepted last; it is
  // accepted exactly under its own key, well formed, newer than a last one of that
  // key, and a minute after the last one of any. If it is not, nothing changes.
  lemma AnswersExactly(w: World, m: Message, now: int)
    requires Invariant(w) && m in w.soup
    ensures var v, status := Next(w, Deliver(m, now)), Answer(w.store, w.Configured(), m, now);
      var own := w.Configured() == Fleet(Some(m.key));
      var newer := own && m.wellFormed && !Replays(w, m);
      && (status == Unavailable503 <==> w.Configured() == Disabled)
      && (status == Unauthorized401 <==> w.Configured() != Disabled && !own)
      && (status == Conflict409 <==> own && !newer)
      && (status == TooMany429 <==> newer && WithinMinute(w, now))
      && (status == Accepted204 <==> newer && !WithinMinute(w, now))
      && v == if newer && !WithinMinute(w, now)
              then w.(receipts := w.receipts + [Receipt(m, now, |w.configurations|)],
                      store := Store([Row(m.key, m.sequence, now)], w.store.history + [now]))
              else w
  {
  }
}
