/**
 One sender, one server and a network that loses, duplicates and delays
 requests without limit. Clocks are arbitrary, except in the last section.
 */
module HeartbeatProtocol {
  import opened Wrappers
  import opened HeartbeatModel

  // Everything ever sent stays in the soup: any of it may be delivered at any
  // time, any number of times, or never. Configurations are all there ever were.
  datatype World = World(
    sender: Sender, soup: set<Message>, store: Store,
    configurations: seq<Configuration>, receipts: seq<Receipt>)
  {
    function Configured(): Configuration {
      if configurations == [] then Disabled else configurations[|configurations| - 1]
    }
  }

  // An accepted request, the server's clock when it was accepted, and the number
  // of configurations there had been by then.
  datatype Receipt = Receipt(message: Message, at: int, configured: nat)

  datatype Event =
    | SenderTick(at: int, sampleAt: Option<int>, fate: Fate, key: Key, wellFormed: bool)
    | Deliver(message: Message, now: int)
    | Configure(configured: Configuration)

  predicate Enabled(w: World, e: Event) {
    e.Deliver? ==> e.message in w.soup
  }

  function Next(w: World, e: Event): World
    requires Enabled(w, e)
  {
    match e
    case SenderTick(at, sampleAt, fate, key, wellFormed) =>
      w.(sender := AfterTick(w.sender, at, sampleAt, fate),
         soup := if Sends(w.sender, at, sampleAt, fate)
                 then w.soup + {Message(w.sender.sequence + 1, key, at, wellFormed)}
                 else w.soup)
    case Deliver(m, now) =>
      w.(store := AfterReceipt(w.store, w.Configured(), m, now),
         receipts := if Answer(w.store, w.Configured(), m, now) == Accepted204
                     then w.receipts + [Receipt(m, now, |w.configurations|)] else w.receipts)
    case Configure(c) => w.(configurations := w.configurations + [c])
  }

  const Start := World(BeforeFirst, {}, Store([], []), [], [])

  predicate Possible(w: World, events: seq<Event>)
    decreases |events|
  {
    events == [] || (Enabled(w, events[0]) && Possible(Next(w, events[0]), events[1..]))
  }

  function Run(w: World, events: seq<Event>): World
    requires Possible(w, events)
    decreases |events|
  {
    if events == [] then w else Run(Next(w, events[0]), events[1..])
  }

  // --------------------------------------------------------------------- safety

  // Sequences identify messages, and none exceeds the sender's durable counter.
  predicate Numbered(w: World) {
    && (forall m :: m in w.soup ==> 1 <= m.sequence <= w.sender.sequence)
    && (forall m, n :: m in w.soup && n in w.soup && m.sequence == n.sequence ==> m == n)
  }

  // The one stored row is the last receipt.
  predicate Stored(w: World) {
    && |w.store.rows| <= 1
    && (w.store.rows == [] <==> w.receipts == [])
    && (w.receipts != [] ==>
          var last := w.receipts[|w.receipts| - 1];
          w.store.rows == [Row(last.message.key, last.message.sequence, last.at)])
    && (forall r :: r in w.receipts ==> r.message in w.soup)
  }

  // Receipts are a minute apart, and neighbours under one key increase.
  predicate Follows(previous: Receipt, next: Receipt) {
    && next.at >= previous.at + MIN_WRITE_MS
    && (next.message.key == previous.message.key ==> next.message.sequence > previous.message.sequence)
  }

  predicate Spaced(receipts: seq<Receipt>)
    decreases |receipts|
  {
    var n := |receipts|;
    n >= 2 ==> Spaced(receipts[..n - 1]) && Follows(receipts[n - 2], receipts[n - 1])
  }

  // A request is accepted under its own key, configured last at the time.
  predicate AcceptedUnder(configurations: seq<Configuration>, r: Receipt) {
    1 <= r.configured <= |configurations| && configurations[r.configured - 1] == Fleet(Some(r.message.key))
  }

  predicate Authorized(w: World) {
    && (forall i :: 0 <= i < |w.receipts| ==> AcceptedUnder(w.configurations, w.receipts[i]))
    && (forall i, j :: 0 <= i < j < |w.receipts| ==> w.receipts[i].configured <= w.receipts[j].configured)
  }

  predicate Invariant(w: World) {
    Numbered(w) && Stored(w) && Spaced(w.receipts) && Authorized(w)
  }

  lemma TickKeepsInvariant(w: World, e: Event)
    requires Invariant(w) && e.SenderTick?
    ensures Invariant(Next(w, e))
  {
    var v := Next(w, e);
    assert w.sender.sequence <= v.sender.sequence;
    assert Numbered(v);
    assert v.receipts == w.receipts && v.store == w.store;
  }

  lemma ReceiptKeepsStored(w: World, m: Message, now: int)
    requires Numbered(w) && Stored(w) && m in w.soup
    ensures Numbered(Next(w, Deliver(m, now))) && Stored(Next(w, Deliver(m, now)))
  {
  }

  lemma ReceiptKeepsSpaced(w: World, m: Message, now: int)
    requires Stored(w) && Spaced(w.receipts) && m in w.soup
    ensures Spaced(Next(w, Deliver(m, now)).receipts)
  {
    if Answer(w.store, w.Configured(), m, now) == Accepted204 {
      var n, r := |w.receipts|, Receipt(m, now, |w.configurations|);
      assert (w.receipts + [r])[..n] == w.receipts;
      if n > 0 { assert Follows(w.receipts[n - 1], r); }
    }
  }

  lemma ReceiptKeepsAuthorized(w: World, m: Message, now: int)
    requires Authorized(w) && m in w.soup
    ensures Authorized(Next(w, Deliver(m, now)))
  {
    var v := Next(w, Deliver(m, now));
    if v.receipts != w.receipts {
      var n, r := |w.receipts|, Receipt(m, now, |w.configurations|);
      assert AcceptedUnder(w.configurations, r);
      forall i | 0 <= i < n ensures v.receipts[i] == w.receipts[i] && w.receipts[i].configured <= r.configured {
        assert AcceptedUnder(w.configurations, w.receipts[i]);
      }
    }
  }

  lemma ConfigureKeepsAuthorized(w: World, c: Configuration)
    requires Authorized(w)
    ensures Authorized(Next(w, Configure(c)))
  {
    forall i | 0 <= i < |w.receipts| ensures AcceptedUnder(w.configurations + [c], w.receipts[i]) {
      assert AcceptedUnder(w.configurations, w.receipts[i]);
    }
  }

  lemma DeliveryKeepsInvariant(w: World, m: Message, now: int)
    requires Invariant(w) && m in w.soup
    ensures Invariant(Next(w, Deliver(m, now)))
  {
    ReceiptKeepsStored(w, m, now);
    ReceiptKeepsSpaced(w, m, now);
    ReceiptKeepsAuthorized(w, m, now);
  }

  lemma StepKeepsInvariant(w: World, e: Event)
    requires Invariant(w) && Enabled(w, e)
    ensures Invariant(Next(w, e))
  {
    match e
    case SenderTick(_, _, _, _, _) => TickKeepsInvariant(w, e);
    case Deliver(m, now) => DeliveryKeepsInvariant(w, m, now);
    case Configure(c) => ConfigureKeepsAuthorized(w, c);
  }

  lemma {:induction false} RunKeepsInvariant(w: World, events: seq<Event>)
    requires Invariant(w) && Possible(w, events)
    ensures Invariant(Run(w, events))
    decreases |events|
  {
    if events != [] {
      StepKeepsInvariant(w, events[0]);
      RunKeepsInvariant(Next(w, events[0]), events[1..]);
    }
  }

  // Between two receipts no other key is accepted.
  predicate OneKey(receipts: seq<Receipt>, i: nat, j: nat) {
    i <= j < |receipts| && forall k :: i <= k <= j ==> receipts[k].message.key == receipts[i].message.key
  }

  lemma {:induction false} SpacedFarApart(receipts: seq<Receipt>, i: nat, j: nat)
    requires Spaced(receipts) && i < j < |receipts|
    ensures receipts[j].at >= receipts[i].at + MIN_WRITE_MS
    ensures OneKey(receipts, i, j) ==> receipts[j].message.sequence > receipts[i].message.sequence
    decreases |receipts|
  {
    var n := |receipts|;
    var shorter := receipts[..n - 1];
    if j < n - 1 {
      assert OneKey(receipts, i, j) ==> OneKey(shorter, i, j);
      SpacedFarApart(shorter, i, j);
    } else if i < n - 2 {
      assert OneKey(receipts, i, j) ==>
        OneKey(shorter, i, j - 1) && receipts[j].message.key == receipts[j - 1].message.key;
      SpacedFarApart(shorter, i, j - 1);
    }
  }

  // In every run, whatever the clocks and the network do: the stored sequence
  // never exceeds the sender's, receipts are at least a minute apart on the
  // server's clock, and while the accepting key stays the same the accepted
  // sequences strictly increase.
  lemma HeartbeatSafety(events: seq<Event>)
    requires Possible(Start, events)
    ensures var w := Run(Start, events);
      && |w.store.rows| <= 1
      && (forall r :: r in w.store.rows ==> r.sequence <= w.sender.sequence)
      && (forall i, j :: 0 <= i < j < |w.receipts| ==>
            && w.receipts[j].at >= w.receipts[i].at + MIN_WRITE_MS
            && (OneKey(w.receipts, i, j) ==> w.receipts[j].message.sequence > w.receipts[i].message.sequence))
  {
    RunKeepsInvariant(Start, events);
    var w := Run(Start, events);
    forall i: nat, j: nat | i < j < |w.receipts|
      ensures w.receipts[j].at >= w.receipts[i].at + MIN_WRITE_MS
      ensures OneKey(w.receipts, i, j) ==> w.receipts[j].message.sequence > w.receipts[i].message.sequence
    {
      SpacedFarApart(w.receipts, i, j);
    }
  }

  // ---------------------------------------------------------- accepted only once

  // Some request is accepted twice.
  ghost predicate AcceptsTwice(receipts: seq<Receipt>) {
    exists i: nat, j: nat :: i < j < |receipts| && receipts[i].message == receipts[j].message
  }

  // A key is configured again after another key was.
  ghost predicate Returns(configurations: seq<Configuration>) {
    exists i: nat, j: nat, k: nat :: ReturnsAt(configurations, i, j, k)
  }

  predicate ReturnsAt(configurations: seq<Configuration>, i: nat, j: nat, k: nat) {
    && i < j < k < |configurations|
    && configurations[i] == configurations[k]
    && configurations[i].Fleet? && configurations[i].key.Some?
    && configurations[j].Fleet? && configurations[j].key.Some? && configurations[j] != configurations[i]
  }

  // An accepted request is accepted again exactly under its own key, a minute
  // after the last receipt, if that was under another key or of a lower sequence.
  lemma AcceptedAgainExactly(w: World, m: Message, now: int)
    requires Invariant(w) && m.wellFormed
    requires exists r :: r in w.receipts && r.message == m
    ensures var last := w.receipts[|w.receipts| - 1];
      Answer(w.store, w.Configured(), m, now) == Accepted204 <==>
        && w.Configured() == Fleet(Some(m.key))
        && now >= last.at + MIN_WRITE_MS
        && (last.message.key != m.key || last.message.sequence < m.sequence)
  {
    var r :| r in w.receipts && r.message == m;
  }

  // Another key accepted between two receipts of one key was configured between.
  lemma KeyBetween(w: World, i: nat, k: nat, j: nat)
    requires Authorized(w) && i < k < j < |w.receipts|
    requires w.receipts[i].message.key == w.receipts[j].message.key != w.receipts[k].message.key
    ensures Returns(w.configurations)
  {
    assert AcceptedUnder(w.configurations, w.receipts[i]) && AcceptedUnder(w.configurations, w.receipts[k])
      && AcceptedUnder(w.configurations, w.receipts[j]);
    var a, b, c := w.receipts[i].configured - 1, w.receipts[k].configured - 1, w.receipts[j].configured - 1;
    assert w.configurations[a] == w.configurations[c] != w.configurations[b];
    assert ReturnsAt(w.configurations, a, b, c);
  }

  // A request accepted twice was accepted under a key that returned.
  lemma TwiceReturns(w: World)
    requires Spaced(w.receipts) && Authorized(w) && AcceptsTwice(w.receipts)
    ensures Returns(w.configurations)
  {
    var i: nat, j: nat :| i < j < |w.receipts| && w.receipts[i].message == w.receipts[j].message;
    if OneKey(w.receipts, i, j) { SpacedFarApart(w.receipts, i, j); }
    var k :| i <= k <= j && w.receipts[k].message.key != w.receipts[i].message.key;
    KeyBetween(w, i, k, j);
  }

  ghost predicate Reachable(w: World) {
    exists events :: Possible(Start, events) && Run(Start, events) == w
  }

  lemma {:induction false} OneMore(w: World, events: seq<Event>, e: Event)
    requires Possible(w, events) && Enabled(Run(w, events), e)
    ensures Possible(w, events + [e]) && Run(w, events + [e]) == Next(Run(w, events), e)
    decreases |events|
  {
    if events == [] {
      assert [] + [e] == [e] && [e][1..] == [];
    } else {
      assert (events + [e])[1..] == events[1..] + [e];
      OneMore(Next(w, events[0]), events[1..], e);
    }
  }

  lemma ReachesNext(w: World, e: Event)
    requires Reachable(w) && Enabled(w, e)
    ensures Reachable(Next(w, e))
  {
    var events :| Possible(Start, events) && Run(Start, events) == w;
    OneMore(Start, events, e);
  }

  lemma {:induction false} ReachesConfigurations(w: World, more: seq<Configuration>)
    requires Reachable(w)
    ensures Reachable(w.(configurations := w.configurations + more))
    decreases |more|
  {
    if more == [] {
      assert w.configurations + more == w.configurations;
      assert w.(configurations := w.configurations) == w;
    } else {
      ReachesNext(w, Configure(more[0]));
      var v := Next(w, Configure(more[0]));
      ReachesConfigurations(v, more[1..]);
      assert w.configurations + [more[0]] + more[1..] == w.configurations + more;
    }
  }

  // One request sent and accepted, five minutes after the one before.
  lemma ReachesReceipt(w: World, key: Key, at: nat) returns (v: World)
    requires Reachable(w) && w.Configured() == Fleet(Some(key))
    requires w.sender == Sender(w.sender.sequence, 0, at) && w.sender.sequence < 9
    requires w.store.rows == []
      || (|w.store.rows| == 1 && w.store.rows[0].key != key && w.store.rows[0].receivedAt + 60_000 <= 1000 * at)
    ensures var m := Message(w.sender.sequence + 1, key, at, true);
      && Reachable(v) && v.configurations == w.configurations
      && v.sender == Sender(m.sequence, 0, at + INTERVAL_S) && v.soup == w.soup + {m}
      && v.store.rows == [Row(key, m.sequence, 1000 * at)]
      && v.receipts == w.receipts + [Receipt(m, 1000 * at, |w.configurations|)]
  {
    var tick := SenderTick(at, Some(at), DiedAfterSending, key, true);
    ReachesNext(w, tick);
    var sent := Next(w, tick);
    var m := Message(w.sender.sequence + 1, key, at, true);
    ReachesNext(sent, Deliver(m, 1000 * at));
    v := Next(sent, Deliver(m, 1000 * at));
  }

  // The configurations grow to a longer part of a history.
  lemma ReachesPart(w: World, configurations: seq<Configuration>, n: nat) returns (v: World)
    requires Reachable(w) && |w.configurations| <= n <= |configurations|
    requires w.configurations == configurations[..|w.configurations|]
    ensures v == w.(configurations := configurations[..n]) && Reachable(v)
  {
    var more := configurations[|w.configurations|..n];
    ReachesConfigurations(w, more);
    assert w.configurations + more == configurations[..n];
    v := w.(configurations := w.configurations + more);
  }

  // Two keys in turn, and a request accepted under each.
  lemma ReachesBoth(configurations: seq<Configuration>, i: nat, j: nat) returns (w: World)
    requires i < j < |configurations|
    requires configurations[i].Fleet? && configurations[i].key.Some?
    requires configurations[j].Fleet? && configurations[j].key.Some? && configurations[j] != configurations[i]
    ensures Reachable(w) && w.configurations == configurations[..j + 1]
    ensures var a, b := configurations[i].key.value, configurations[j].key.value;
      && Message(1, a, 0, true) in w.soup
      && w.store.rows == [Row(b, 2, 300_000)]
      && w.receipts == [Receipt(Message(1, a, 0, true), 0, i + 1), Receipt(Message(2, b, 300, true), 300_000, j + 1)]
  {
    assert Possible(Start, []) && Run(Start, []) == Start;
    w := ReachesPart(Start, configurations, i + 1);
    w := ReachesReceipt(w, configurations[i].key.value, 0);
    w := ReachesPart(w, configurations, j + 1);
    w := ReachesReceipt(w, configurations[j].key.value, 300);
  }

  // Whenever a key returns, some run under those configurations accepts a
  // request twice: a duplicate delivered late.
  lemma ReturningKeyAcceptsTwice(configurations: seq<Configuration>) returns (w: World)
    requires Returns(configurations)
    ensures Reachable(w) && w.configurations == configurations && AcceptsTwice(w.receipts)
  {
    var i: nat, j: nat, k: nat :| ReturnsAt(configurations, i, j, k);
    w := ReachesBoth(configurations, i, j);
    w := ReachesPart(w, configurations, k + 1);
    var first := w.receipts[0].message;
    ReachesNext(w, Deliver(first, 360_000));
    w := Next(w, Deliver(first, 360_000));
    assert w.receipts[0].message == w.receipts[2].message;
    w := ReachesPart(w, configurations, |configurations|);
    assert configurations[..|configurations|] == configurations;
  }

  // Under a history of configurations a request can be accepted twice exactly
  // when a key returns after another key was configured.
  lemma NoSequenceTwice(configurations: seq<Configuration>)
    ensures (exists w :: Reachable(w) && w.configurations == configurations && AcceptsTwice(w.receipts))
      <==> Returns(configurations)
  {
    forall w | Reachable(w) && w.configurations == configurations && AcceptsTwice(w.receipts)
      ensures Returns(configurations)
    {
      var events :| Possible(Start, events) && Run(Start, events) == w;
      RunKeepsInvariant(Start, events);
      TwiceReturns(w);
    }
    if Returns(configurations) {
      var w := ReturningKeyAcceptsTwice(configurations);
    }
  }

  // And a sequence names one request.
  lemma SequenceNamesRequest(events: seq<Event>, i: nat, j: nat)
    requires Possible(Start, events) && i < j < |Run(Start, events).receipts|
    ensures var receipts := Run(Start, events).receipts;
      receipts[i].message.sequence == receipts[j].message.sequence <==> receipts[i].message == receipts[j].message
  {
    RunKeepsInvariant(Start, events);
    var w := Run(Start, events);
    assert w.receipts[i] in w.receipts && w.receipts[j] in w.receipts;
  }

  // -------------------------------------------------------------- timely delivery

  // Both clocks show the same time in milliseconds, which never runs back; the
  // sender reads whole seconds. A request is sent at the time of its tick, and
  // arrives within `delay` of it.
  predicate TimedStep(clock: int, sent: map<nat, int>, e: Event, time: int, delay: nat) {
    && clock <= time
    && match e
       case SenderTick(at, _, _, _, _) => at == time / 1000
       case Deliver(m, now) => now == time && m.sequence in sent && now <= sent[m.sequence] + delay
       case Configure(_) => true
  }

  // When each request was sent.
  function SentAfter(w: World, sent: map<nat, int>, e: Event, time: int): map<nat, int> {
    if e.SenderTick? && Sends(w.sender, e.at, e.sampleAt, e.fate) then sent[w.sender.sequence + 1 := time] else sent
  }

  predicate Timed(w: World, clock: int, sent: map<nat, int>, events: seq<Event>, times: seq<int>, delay: nat)
    decreases |events|
  {
    && |events| == |times|
    && (events != [] ==>
          && Enabled(w, events[0])
          && TimedStep(clock, sent, events[0], times[0], delay)
          && Timed(Next(w, events[0]), times[0], SentAfter(w, sent, events[0], times[0]), events[1..], times[1..],
                   delay))
  }

  // A request that was not accepted before, delivered under its key.
  predicate FreshDelivery(w: World, e: Event) {
    && e.Deliver?
    && e.message in w.soup && e.message.wellFormed
    && w.Configured() == Fleet(Some(e.message.key))
    && (forall r :: r in w.receipts ==> r.message != e.message)
  }

  predicate AllFreshAccepted(w: World, events: seq<Event>)
    decreases |events|
  {
    events == [] ||
    (&& Enabled(w, events[0])
     && (FreshDelivery(w, events[0]) ==>
           Answer(w.store, w.Configured(), events[0].message, events[0].now) == Accepted204)
     && AllFreshAccepted(Next(w, events[0]), events[1..]))
  }

  const DELIVERY_MS: nat := 239_001

  // Sends are five minutes apart in sequence order and none is from the future;
  // every receipt arrived in time.
  predicate OnTime(w: World, clock: int, sent: map<nat, int>) {
    && Invariant(w)
    && (forall m :: m in w.soup ==>
          && m.sequence in sent && sent[m.sequence] <= clock && m.sentAt == sent[m.sequence] / 1000
          && m.sentAt + INTERVAL_S <= w.sender.nextAttempt)
    && (forall m, n :: m in w.soup && n in w.soup && m.sequence < n.sequence ==> m.sentAt + INTERVAL_S <= n.sentAt)
    && (forall r :: r in w.receipts ==>
          var m := r.message;
          m in w.soup && sent[m.sequence] <= r.at <= clock && r.at <= sent[m.sequence] + DELIVERY_MS)
  }

  // Sends are five minutes apart, the new one last.
  lemma SendKeepsApart(w: World, clock: int, sent: map<nat, int>, e: Event, time: int)
    requires OnTime(w, clock, sent) && e.SenderTick? && TimedStep(clock, sent, e, time, DELIVERY_MS)
    requires Sends(w.sender, e.at, e.sampleAt, e.fate)
    ensures var v, now := Next(w, e), SentAfter(w, sent, e, time);
      && (forall m :: m in v.soup ==>
            && m.sequence in now && now[m.sequence] <= time && m.sentAt == now[m.sequence] / 1000
            && m.sentAt + INTERVAL_S <= v.sender.nextAttempt)
      && (forall m, n :: m in v.soup && n in v.soup && m.sequence < n.sequence ==> m.sentAt + INTERVAL_S <= n.sentAt)
  {
    var m := Message(w.sender.sequence + 1, e.key, e.at, e.wellFormed);
    assert forall n :: n in Next(w, e).soup ==> n in w.soup || n == m;
    assert forall n :: n in w.soup ==> n.sequence < m.sequence && n.sentAt + INTERVAL_S <= e.at;
  }

  lemma TimedTickKeepsOnTime(w: World, clock: int, sent: map<nat, int>, e: Event, time: int)
    requires OnTime(w, clock, sent) && e.SenderTick? && TimedStep(clock, sent, e, time, DELIVERY_MS)
    ensures OnTime(Next(w, e), time, SentAfter(w, sent, e, time))
  {
    TickKeepsInvariant(w, e);
    var v := Next(w, e);
    assert v.receipts == w.receipts && v.sender.nextAttempt >= w.sender.nextAttempt;
    if Sends(w.sender, e.at, e.sampleAt, e.fate) {
      SendKeepsApart(w, clock, sent, e, time);
      assert forall n :: n in w.soup ==> n.sequence < w.sender.sequence + 1;
    } else {
      assert v.soup == w.soup;
    }
  }

  lemma TimedDeliveryKeepsOnTime(w: World, clock: int, sent: map<nat, int>, m: Message, now: int)
    requires OnTime(w, clock, sent) && m in w.soup && TimedStep(clock, sent, Deliver(m, now), now, DELIVERY_MS)
    ensures OnTime(Next(w, Deliver(m, now)), now, sent)
  {
    DeliveryKeepsInvariant(w, m, now);
    var v := Next(w, Deliver(m, now));
    assert v.soup == w.soup && v.sender == w.sender;
    assert forall r :: r in v.receipts ==> r in w.receipts || r == Receipt(m, now, |w.configurations|);
  }

  lemma TimedStepKeepsOnTime(w: World, clock: int, sent: map<nat, int>, e: Event, time: int)
    requires OnTime(w, clock, sent) && Enabled(w, e) && TimedStep(clock, sent, e, time, DELIVERY_MS)
    ensures OnTime(Next(w, e), time, SentAfter(w, sent, e, time))
  {
    match e
    case SenderTick(_, _, _, _, _) => TimedTickKeepsOnTime(w, clock, sent, e, time);
    case Deliver(m, now) => TimedDeliveryKeepsOnTime(w, clock, sent, m, now);
    case Configure(c) => ConfigureKeepsAuthorized(w, c);
  }

  lemma FreshDeliveryAccepted(w: World, clock: int, sent: map<nat, int>, e: Event, time: int)
    requires OnTime(w, clock, sent) && TimedStep(clock, sent, e, time, DELIVERY_MS) && FreshDelivery(w, e)
    ensures Answer(w.store, w.Configured(), e.message, e.now) == Accepted204
  {
    if w.receipts != [] {
      var last := w.receipts[|w.receipts| - 1];
      assert last in w.receipts;
      assert last.message.sequence != e.message.sequence;
    }
  }

  lemma {:induction false} FreshHeartbeatsAccepted(w: World, clock: int, sent: map<nat, int>, events: seq<Event>,
                                                   times: seq<int>, delay: nat)
    requires OnTime(w, clock, sent) && Timed(w, clock, sent, events, times, delay) && delay <= DELIVERY_MS
    ensures AllFreshAccepted(w, events)
    decreases |events|
  {
    if events != [] {
      if FreshDelivery(w, events[0]) { FreshDeliveryAccepted(w, clock, sent, events[0], times[0]); }
      TimedStepKeepsOnTime(w, clock, sent, events[0], times[0]);
      FreshHeartbeatsAccepted(Next(w, events[0]), times[0], SentAfter(w, sent, events[0], times[0]),
                              events[1..], times[1..], delay);
    }
  }

  // One millisecond more: sent at the end of a second, received as late as may
  // be; the next, sent at the start of its second and received at once, comes
  // within a minute.
  lemma LateDeliveryIsRefused(delay: nat) returns (events: seq<Event>, times: seq<int>)
    requires delay > DELIVERY_MS
    ensures Timed(Start, 0, map[], events, times, delay) && !AllFreshAccepted(Start, events)
  {
    var m, n := Message(1, "a", 999, true), Message(2, "a", 1299, true);
    var e1 := Configure(Fleet(Some("a")));
    var e2 := SenderTick(999, Some(999), DiedAfterSending, "a", true);
    var e3 := Deliver(m, 1_239_001);
    var e4 := SenderTick(1299, Some(1299), DiedAfterSending, "a", true);
    var e5 := Deliver(n, 1_299_000);
    var w1 := Next(Start, e1);
    var w2 := Next(w1, e2);
    var w3 := Next(w2, e3);
    var w4 := Next(w3, e4);
    assert w3.receipts == [Receipt(m, 1_239_001, 1)];
    assert FreshDelivery(w4, e5) && Answer(w4.store, w4.Configured(), n, e5.now) == TooMany429;
    var sent := map[1 := 999_999];
    Refused(w4, 1_299_000, sent[2 := 1_299_000], e5, 1_299_000, [], [], delay);
    Refused(w3, 1_239_001, sent, e4, 1_299_000, [e5], [1_299_000], delay);
    Refused(w2, 999_999, sent, e3, 1_239_001, [e4, e5], [1_299_000, 1_299_000], delay);
    Refused(w1, 0, map[], e2, 999_999, [e3, e4, e5], [1_239_001, 1_299_000, 1_299_000], delay);
    Refused(Start, 0, map[], e1, 0, [e2, e3, e4, e5], [999_999, 1_239_001, 1_299_000, 1_299_000], delay);
    events := [e1] + [e2, e3, e4, e5];
    times := [0] + [999_999, 1_239_001, 1_299_000, 1_299_000];
  }

  // One step before a run in which a fresh delivery is refused, or that refusal.
  lemma Refused(w: World, clock: int, sent: map<nat, int>, e: Event, time: int,
                events: seq<Event>, times: seq<int>, delay: nat)
    requires Enabled(w, e) && TimedStep(clock, sent, e, time, delay)
    requires Timed(Next(w, e), time, SentAfter(w, sent, e, time), events, times, delay)
    requires (FreshDelivery(w, e) && Answer(w.store, w.Configured(), e.message, e.now) != Accepted204)
      || !AllFreshAccepted(Next(w, e), events)
    ensures Timed(w, clock, sent, [e] + events, [time] + times, delay) && !AllFreshAccepted(w, [e] + events)
  {
    assert ([e] + events)[1..] == events && ([time] + times)[1..] == times;
  }

  // A run in time refuses no fresh delivery.
  ghost predicate Timely(clock: int, events: seq<Event>, times: seq<int>, delay: nat) {
    Timed(Start, clock, map[], events, times, delay) ==> AllFreshAccepted(Start, events)
  }

  // No fresh heartbeat is ever refused exactly when delivery takes at most
  // 239.001 s: four minutes are a second too many, for the sender records whole
  // seconds.
  lemma TimelyHeartbeats(delay: nat)
    ensures (forall clock, events, times :: Timely(clock, events, times, delay)) <==> delay <= DELIVERY_MS
  {
    if delay <= DELIVERY_MS {
      forall clock, events, times ensures Timely(clock, events, times, delay) {
        if Timed(Start, clock, map[], events, times, delay) {
          FreshHeartbeatsAccepted(Start, clock, map[], events, times, delay);
        }
      }
    } else {
      var events, times := LateDeliveryIsRefused(delay);
      assert !Timely(0, events, times, delay);
    }
  }
}
