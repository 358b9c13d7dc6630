/**
 The heartbeat sender and the server that records heartbeats, as functions on
 their durable state, and as the objects that update that state.
 */
module HeartbeatModel {
  import opened Wrappers

  type Key = string

  const MAX_SEQUENCE: nat := 9_007_199_254_740_991
  const INTERVAL_S: nat := 300
  const MIN_WRITE_MS: nat := 60_000
  const MAX_SAMPLE_AGE_S: nat := 180

  function Min(a: int, b: int): int { if a <= b then a else b }

  // ---------------------------------------------------------------- the sender

  datatype Sender = Sender(sequence: nat, failures: nat, nextAttempt: int)

  // A request on the wire. `sentAt` is the second the attempt was recorded for;
  // `wellFormed` says whether the server can parse the body.
  datatype Message = Message(sequence: nat, key: Key, sentAt: int, wellFormed: bool)

  // What became of an attempt: the process died before the request left, after
  // it left, or lived to see a result.
  datatype Fate = DiedBeforeSending | DiedAfterSending | Saw(accepted: bool, sent: bool)

  datatype Tick = Invalid | NotDue | SampleStale | Attempted

  const BeforeFirst := Sender(0, 0, 0)

  // The body is built only from a sample at most 180 s old and not from the future.
  predicate Usable(sampleAt: Option<int>, at: int) {
    sampleAt.Some? && 0 <= at - sampleAt.value <= MAX_SAMPLE_AGE_S
  }

  function TickKind(s: Sender, at: int, sampleAt: Option<int>): Tick {
    if s.sequence >= MAX_SEQUENCE || s.nextAttempt < 0 then Invalid
    else if at < s.nextAttempt then NotDue
    else if !Usable(sampleAt, at) then SampleStale
    else Attempted
  }

  // The first write: the sequence is spent before anything is sent.
  function Reserve(s: Sender, at: int): Sender {
    s.(sequence := s.sequence + 1, nextAttempt := at + INTERVAL_S)
  }

  function Backoff(failures: nat): nat
    requires failures >= 1
  {
    [300, 600, 1200, 1800][Min(failures - 1, 3)]
  }

  // The second write.
  function Settle(s: Sender, at: int, accepted: bool): Sender {
    if accepted then s.(failures := 0, nextAttempt := at + INTERVAL_S)
    else
      var failures := Min(s.failures + 1, 1000);
      s.(failures := failures, nextAttempt := at + Backoff(failures))
  }

  function AfterTick(s: Sender, at: int, sampleAt: Option<int>, fate: Fate): Sender {
    if TickKind(s, at, sampleAt) != Attempted then s
    else if fate.Saw? then Settle(Reserve(s, at), at, fate.accepted)
    else Reserve(s, at)
  }

  predicate Sends(s: Sender, at: int, sampleAt: Option<int>, fate: Fate) {
    TickKind(s, at, sampleAt) == Attempted && (fate.DiedAfterSending? || (fate.Saw? && fate.sent))
  }

  class SenderFile {
    var state: Sender

    constructor ()
      ensures state == BeforeFirst
    {
      state := BeforeFirst;
    }

    method Tick(at: int, sampleAt: Option<int>, fate: Fate) returns (tick: Tick, sent: Option<nat>)
      modifies this
      ensures tick == TickKind(old(state), at, sampleAt)
      ensures state == AfterTick(old(state), at, sampleAt, fate)
      ensures sent == if Sends(old(state), at, sampleAt, fate) then Some(old(state).sequence + 1) else None
    {
      sent := None;
      if state.sequence >= MAX_SEQUENCE || state.nextAttempt < 0 {
        return Invalid, sent;
      }
      if at < state.nextAttempt {
        return NotDue, sent;
      }
      if !Usable(sampleAt, at) {
        return SampleStale, sent;
      }
      var sequence := state.sequence + 1;
      state := state.(sequence := sequence, nextAttempt := at + INTERVAL_S);
      tick := Attempted;
      if fate.DiedBeforeSending? {
        return;
      }
      if fate.DiedAfterSending? || fate.sent {
        sent := Some(sequence);
      }
      if fate.DiedAfterSending? {
        return;
      }
      if fate.accepted {
        state := state.(failures := 0, nextAttempt := at + INTERVAL_S);
      } else {
        state := state.(failures := Min(state.failures + 1, 1000));
        state := state.(nextAttempt := at + Backoff(state.failures));
      }
    }
  }

  // ---------------------------------------------------------------- the server

  datatype Row = Row(key: Key, sequence: nat, receivedAt: int)

  // The rows stored for one machine, and the receipt times in its history.
  datatype Store = Store(rows: seq<Row>, history: seq<int>)

  datatype Status = Accepted204 | Unauthorized401 | Conflict409 | TooMany429 | Unavailable503

  // The configured keys as one machine sees them: unusable or empty, or a fleet
  // that names a key for this machine or does not.
  datatype Configuration = Disabled | Fleet(key: Option<Key>)

  // What the mutation answers to a request for this machine.  The action in front
  // of it answers 400 to a body it cannot parse; no such request reaches the store
  // either way.
  function Answer(store: Store, configured: Configuration, m: Message, now: int): Status {
    if configured.Disabled? then Unavailable503
    else if configured.key != Some(m.key) then Unauthorized401
    else if !m.wellFormed || m.sequence == 0 then Conflict409
    else if |store.rows| > 1 then Unavailable503
    else if |store.rows| == 1 && store.rows[0].key == m.key && m.sequence <= store.rows[0].sequence then
      Conflict409
    else if |store.rows| == 1 && now - store.rows[0].receivedAt < MIN_WRITE_MS then TooMany429
    else Accepted204
  }

  function AfterReceipt(store: Store, configured: Configuration, m: Message, now: int): Store {
    if Answer(store, configured, m, now) != Accepted204 then store
    else Store([Row(m.key, m.sequence, now)], store.history + [now])
  }

  class StatusTable {
    var rows: seq<Row>
    var history: seq<int>

    constructor ()
      ensures rows == [] && history == []
    {
      rows, history := [], [];
    }

    function Contents(): Store
      reads this
    {
      Store(rows, history)
    }

    // One atomic mutation.
    method Record(configured: Configuration, m: Message, now: int) returns (status: Status)
      modifies this
      ensures status == Answer(old(Contents()), configured, m, now)
      ensures Contents() == AfterReceipt(old(Contents()), configured, m, now)
    {
      if configured.Disabled? {
        return Unavailable503;
      }
      if configured.key != Some(m.key) {
        return Unauthorized401;
      }
      if !m.wellFormed || m.sequence == 0 {
        return Conflict409;
      }
      if |rows| > 1 {
        return Unavailable503;
      }
      if |rows| == 1 {
        if rows[0].key == m.key && m.sequence <= rows[0].sequence {
          return Conflict409;
        }
        if now - rows[0].receivedAt < MIN_WRITE_MS {
          return TooMany429;
        }
      }
      var next := Row(m.key, m.sequence, now);
      if |rows| == 0 {
        rows := rows + [next];
      } else {
        rows := rows[0 := next];
      }
      history := history + [now];
      status := Accepted204;
    }
  }
}
