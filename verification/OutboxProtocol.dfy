/**
 * The outbox as a protocol: any number of replicas claim rows, publish and mark, over one table,
 * one broker log with a duplicate window, and one clock. A run is a sequence of actions.
 */
module OutboxProtocol {
  import opened Common
  import opened Outbox

  /** The two drivers. A poller's JetStream adapter may hold a nil connection. */
  datatype Replica = Publisher(n: nat, maxAttempts: int) | Poller(n: nat, connected: bool)

  predicate Connected(r: Replica) {
    r.Publisher? || r.connected
  }

  /** What has come back for a claimed record so far. */
  datatype Phase = Unsent | Acked | Errored

  datatype Slot = Slot(replica: Replica, id: EventId)

  datatype Held = Held(record: Record, phase: Phase)

  datatype Stored = Stored(id: EventId, at: int)

  datatype Config = Config(staleAfter: nat, window: nat)

  /** `held` is what every replica has claimed and not yet finished, stalled replicas included. */
  datatype State = State(
    now: int, table: Table, held: map<Slot, Held>, log: seq<Stored>, committed: set<EventId>)

  datatype Action =
    | Tick(elapsed: nat)
    | Insert(id: EventId, createdAt: int, payload: Payload)
    | Claim(replica: Replica, at: int, limit: int, locked: set<EventId>, picked: set<EventId>)
    | Reject(replica: Replica, id: EventId)
    | Send(replica: Replica, id: EventId, accepted: bool, ok: bool)
    | MarkPublished(replica: Replica, id: EventId, applied: bool)
    | MarkFailed(replica: Replica, id: EventId, applied: bool)
    | Crash(replica: Replica)

  const START := State(0, map[], map[], [], {})

  /** The record never reaches the broker: it cannot be decoded, or the publisher's limit is reached. */
  predicate Rejected(r: Replica, record: Record) {
    record.payload.Undecodable? || (r.Publisher? && record.attempts >= r.maxAttempts)
  }

  predicate Idle(s: State, r: Replica) {
    forall k | k in s.held :: k.replica != r
  }

  predicate InPhase(s: State, r: Replica, id: EventId, phase: Phase) {
    Slot(r, id) in s.held && s.held[Slot(r, id)].phase == phase
  }

  ghost predicate Enabled(cfg: Config, s: State, a: Action) {
    match a
    case Tick(_) => true
    case Insert(id, _, payload) => id !in s.committed && (payload.Encoded? ==> payload.eventId == id)
    case Claim(r, at, limit, locked, picked) =>
      // One batch at a time; the claim time is read before the statement runs.
      at <= s.now && Idle(s, r) && Picks(s.table, OpenRows(s.table, at - cfg.staleAfter, locked), limit, picked)
    case Reject(r, id) => InPhase(s, r, id, Unsent) && Rejected(r, s.held[Slot(r, id)].record)
    case Send(r, id, accepted, ok) =>
      && InPhase(s, r, id, Unsent) && !Rejected(r, s.held[Slot(r, id)].record)
      // A broker may accept and still report an error; a nil connection reports success unsent.
      && (if Connected(r) then ok ==> accepted else !accepted && ok)
    case MarkPublished(r, id, _) => InPhase(s, r, id, Acked)
    case MarkFailed(r, id, _) => InPhase(s, r, id, Errored)
    case Crash(_) => true
  }

  function Slots(r: Replica, ids: set<EventId>): set<Slot> {
    set id | id in ids :: Slot(r, id)
  }

  function Batch(t: Table, r: Replica, picked: set<EventId>, at: int): map<Slot, Held> {
    map k | k in Slots(r, picked) && k.id in t :: Held(RecordOf(t, k.id, at), Unsent)
  }

  function Advance(held: map<Slot, Held>, k: Slot, phase: Phase): map<Slot, Held> {
    if k in held then held[k := held[k].(phase := phase)] else held
  }

  /** Nats-Msg-Id: a copy of a stored message younger than the window is dropped. */
  predicate Duplicate(log: seq<Stored>, window: nat, id: EventId, now: int) {
    exists i | 0 <= i < |log| :: log[i].id == id && now - log[i].at < window
  }

  function Accept(log: seq<Stored>, window: nat, id: EventId, now: int): seq<Stored> {
    if Duplicate(log, window, id, now) then log else log + [Stored(id, now)]
  }

  /** The message id is the id inside the payload (EventHeaders). */
  function MessageId(s: State, k: Slot): EventId {
    if k in s.held && s.held[k].record.payload.Encoded? then s.held[k].record.payload.eventId else k.id
  }

  function Apply(cfg: Config, s: State, a: Action): State {
    match a
    case Tick(elapsed) => s.(now := s.now + elapsed)
    case Insert(id, createdAt, payload) =>
      s.(table := s.table[id := NewRow(createdAt, payload)], committed := s.committed + {id})
    case Claim(r, at, _, _, picked) =>
      s.(table := ClaimRows(s.table, picked, at), held := s.held + Batch(s.table, r, picked, at))
    case Reject(r, id) => s.(held := Advance(s.held, Slot(r, id), Errored))
    case Send(r, id, accepted, ok) =>
      s.(held := Advance(s.held, Slot(r, id), if ok then Acked else Errored),
      log := if accepted then Accept(s.log, cfg.window, MessageId(s, Slot(r, id)), s.now) else s.log)
    case MarkPublished(r, id, applied) =>
      s.(held := s.held - {Slot(r, id)}, table := if applied then s.table - {id} else s.table)
    case MarkFailed(r, id, applied) =>
      s.(held := s.held - {Slot(r, id)}, table := if applied then FailRows(s.table, id, s.now) else s.table)
    case Crash(r) => s.(held := map k | k in s.held && k.replica != r :: s.held[k])
  }

  function ExecFrom(cfg: Config, s: State, acts: seq<Action>): State {
    if acts == [] then s
    else Apply(cfg, ExecFrom(cfg, s, acts[..|acts| - 1]), acts[|acts| - 1])
  }

  ghost predicate LegalFrom(cfg: Config, s: State, acts: seq<Action>) {
    acts == [] ||
    (LegalFrom(cfg, s, acts[..|acts| - 1])
    && Enabled(cfg, ExecFrom(cfg, s, acts[..|acts| - 1]), acts[|acts| - 1]))
  }

  /** A run of the whole system from the empty table. */
  ghost predicate Legal(cfg: Config, acts: seq<Action>) {
    LegalFrom(cfg, START, acts)
  }

  function Exec(cfg: Config, acts: seq<Action>): State {
    ExecFrom(cfg, START, acts)
  }

  function Front<T>(s: seq<T>): seq<T>
    requires s != []
  {
    s[..|s| - 1]
  }

  function Last<T>(s: seq<T>): T
    requires s != []
  {
    s[|s| - 1]
  }

  predicate InLog(log: seq<Stored>, id: EventId) {
    exists i | 0 <= i < |log| :: log[i].id == id
  }

  lemma AcceptGrows(log: seq<Stored>, window: nat, id: EventId, now: int)
    ensures log <= Accept(log, window, id, now)
    ensures InLog(Accept(log, window, id, now), id)
    ensures forall x | InLog(log, x) :: InLog(Accept(log, window, id, now), x)
  {
    var after := Accept(log, window, id, now);
    if !Duplicate(log, window, id, now) {
      assert after[|log|].id == id;
    }
    forall x | InLog(log, x) ensures InLog(after, x) {
      var i :| 0 <= i < |log| && log[i].id == x;
      assert after[i].id == x;
    }
  }

  /** One more action at the end of a run. */
  lemma ExecStep(cfg: Config, s: State, acts: seq<Action>, a: Action)
    ensures ExecFrom(cfg, s, acts + [a]) == Apply(cfg, ExecFrom(cfg, s, acts), a)
    ensures LegalFrom(cfg, s, acts + [a]) <==> LegalFrom(cfg, s, acts) && Enabled(cfg, ExecFrom(cfg, s, acts), a)
  {
    assert (acts + [a])[..|acts|] == acts;
  }
}
