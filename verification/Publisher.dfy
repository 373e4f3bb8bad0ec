/**
 * The two drivers of the outbox (publisher.go, poller.go) as imperative code over the repository
 * and the broker. Each batch they process is shown to be a run of the protocol, whatever the other
 * replicas do meanwhile.
 */
module Publishing {
  import opened Common
  import opened Outbox
  import opened OutboxProtocol

  /** What the broker does with one PublishMsg: an error reply does not mean it was not accepted. */
  datatype SendAnswer = Acknowledged | AcceptedButErrored | Refused

  /** The environment's answers while one record is handled. */
  datatype Answer = Answer(elapsed: nat, send: SendAnswer, mark: DbAnswer)

  class Broker {
    var log: seq<Stored>
    const window: nat

    constructor (window: nat)
      ensures log == [] && this.window == window
    {
      log := [];
      this.window := window;
    }

    method PublishMsg(id: EventId, now: int, answer: SendAnswer) returns (res: Result<()>)
      modifies this
      ensures log == if answer == Refused then old(log) else Accept(old(log), window, id, now)
      ensures res.Success? <==> answer == Acknowledged
    {
      if answer != Refused && !Duplicate(log, window, id, now) {
        log := log + [Stored(id, now)];
      }
      res := if answer == Acknowledged then Success(()) else Failure("publish to NATS");
    }
  }

  /** The protocol steps that handle one claimed record. */
  function RecordActions(r: Replica, record: Record, answer: Answer): (acts: seq<Action>)
    ensures |acts| == 3
  {
    var applied := answer.mark != Down;
    [Tick(answer.elapsed)] + (
      if Rejected(r, record) then [Reject(r, record.id), MarkFailed(r, record.id, applied)]
      else if !Connected(r) then [Send(r, record.id, false, true), MarkPublished(r, record.id, applied)]
      else if answer.send == Acknowledged then
        [Send(r, record.id, true, true), MarkPublished(r, record.id, applied)]
      else [Send(r, record.id, answer.send == AcceptedButErrored, false), MarkFailed(r, record.id, applied)])
  }

  function BatchActions(r: Replica, records: seq<Record>, answers: nat -> Answer): seq<Action> {
    if records == [] then []
    else BatchActions(r, Front(records), answers) + RecordActions(r, Last(records), answers(|records| - 1))
  }

  /** The protocol steps of one poll: the claim, then each record in turn. A claim whose answer is
      lost leaves the rows claimed by nobody, as if the replica had died. */
  function PollActions(r: Replica, at: int, limit: int, locked: set<EventId>, picked: set<EventId>,
    db: DbAnswer, records: seq<Record>, answers: nat -> Answer): seq<Action>
  {
    var rest := if db == Lost then [Crash(r)] else BatchActions(r, records, answers);
    if db == Down || limit < 0 then [] else [Claim(r, at, limit, locked, picked)] + rest
  }

  lemma {:induction false} ExecConcat(cfg: Config, s: State, a: seq<Action>, b: seq<Action>)
    ensures ExecFrom(cfg, s, a + b) == ExecFrom(cfg, ExecFrom(cfg, s, a), b)
    ensures LegalFrom(cfg, s, a + b) <==> LegalFrom(cfg, s, a) && LegalFrom(cfg, ExecFrom(cfg, s, a), b)
    decreases |b|
  {
    if b == [] {
      assert a + b == a;
    } else {
      assert Front(a + b) == a + Front(b);
      ExecConcat(cfg, s, a, Front(b));
    }
  }

  /** `after` is where a legal run of `acts` from `s` ends. */
  ghost predicate Runs(cfg: Config, s: State, acts: seq<Action>, after: State) {
    LegalFrom(cfg, s, acts) && after == ExecFrom(cfg, s, acts)
  }

  lemma RunsConcat(cfg: Config, s: State, a: seq<Action>, mid: State, b: seq<Action>, after: State)
    requires Runs(cfg, s, a, mid) && Runs(cfg, mid, b, after)
    ensures Runs(cfg, s, a + b, after)
  {
    ExecConcat(cfg, s, a, b);
  }

  // ---------------------------------------------------------------- the other replicas meanwhile

  /** What happens elsewhere at the n-th pause of a poll, in the state found then. */
  type Others = (nat, State) -> seq<Action>

  /** Time, inserts, and legal steps of other replicas. */
  ghost predicate Elsewhere(cfg: Config, s: State, r: Replica, acts: seq<Action>) {
    LegalFrom(cfg, s, acts) && forall a | a in acts :: a.Tick? || a.Insert? || a.replica != r
  }

  ghost predicate Alongside(cfg: Config, r: Replica, others: Others) {
    forall n: nat, s: State :: Elsewhere(cfg, s, r, others(n, s))
  }

  const ALONE: Others := (n, s) => []

  lemma AloneIsAlongside(cfg: Config, r: Replica)
    ensures Alongside(cfg, r, ALONE)
  {
  }

  /** What replica r has claimed and not finished. */
  function Own(s: State, r: Replica): map<Slot, Held> {
    map k | k in s.held && k.replica == r :: s.held[k]
  }

  lemma StepKeepsOwn(cfg: Config, s: State, r: Replica, a: Action)
    requires a.Tick? || a.Insert? || a.replica != r
    ensures Own(Apply(cfg, s, a), r) == Own(s, r)
  {
    var after := Apply(cfg, s, a);
    forall k: Slot | k.replica == r
      ensures k in after.held <==> k in s.held
      ensures k in s.held ==> after.held[k] == s.held[k]
    {
    }
  }

  lemma {:induction false} ElsewhereKeepsOwn(cfg: Config, s: State, r: Replica, acts: seq<Action>)
    requires Elsewhere(cfg, s, r, acts)
    ensures Own(ExecFrom(cfg, s, acts), r) == Own(s, r)
  {
    if acts != [] {
      assert acts == Front(acts) + [Last(acts)];
      ElsewhereKeepsOwn(cfg, s, r, Front(acts));
      StepKeepsOwn(cfg, ExecFrom(cfg, s, Front(acts)), r, Last(acts));
    }
  }

  /** Whatever legal steps are taken, a deleted row does not come back and the log keeps what it holds. */
  lemma {:induction false} LegalKeeps(cfg: Config, s: State, acts: seq<Action>, id: EventId)
    requires LegalFrom(cfg, s, acts)
    ensures InLog(s.log, id) ==> InLog(ExecFrom(cfg, s, acts).log, id)
    ensures id in s.committed ==> id in ExecFrom(cfg, s, acts).committed
    ensures id in s.committed && id !in s.table ==> id !in ExecFrom(cfg, s, acts).table
  {
    if acts != [] {
      var before, a := ExecFrom(cfg, s, Front(acts)), Last(acts);
      LegalKeeps(cfg, s, Front(acts), id);
      if a.Send? {
        AcceptGrows(before.log, cfg.window, MessageId(before, Slot(a.replica, a.id)), before.now);
      }
    }
  }

  /** The row, if it is there, counts one more failure; no row is deleted and no other row changes. */
  ghost predicate CountsFailure(t: Table, after: Table, id: EventId) {
    && after.Keys == t.Keys
    && (forall k | k in t && k != id :: after[k] == t[k])
    && (id in t ==> after[id].attempts == t[id].attempts + 1)
  }

  /** Over a live connection every record is sent and acknowledged, and every mark reaches the table. */
  ghost predicate AllAcknowledged(r: Replica, records: seq<Record>, answers: nat -> Answer) {
    && (r.Publisher? || r.connected)
    && forall i | 0 <= i < |records| ::
      !Rejected(r, records[i]) && answers(i).send == Acknowledged && answers(i).mark != Down
  }

  /** The records' rows are gone for good and their events are stored. */
  ghost predicate Delivered(s: State, records: seq<Record>) {
    forall i | 0 <= i < |records| ::
      && records[i].id in s.committed && records[i].id !in s.table
      && (records[i].payload.Encoded? ==> InLog(s.log, records[i].payload.eventId))
  }

  lemma LegalKeepsDelivered(cfg: Config, s: State, acts: seq<Action>, records: seq<Record>)
    requires LegalFrom(cfg, s, acts) && Delivered(s, records)
    ensures Delivered(ExecFrom(cfg, s, acts), records)
  {
    forall i | 0 <= i < |records| ensures
      && records[i].id in ExecFrom(cfg, s, acts).committed && records[i].id !in ExecFrom(cfg, s, acts).table
      && (records[i].payload.Encoded? ==> InLog(ExecFrom(cfg, s, acts).log, records[i].payload.eventId))
    {
      LegalKeeps(cfg, s, acts, records[i].id);
      if records[i].payload.Encoded? {
        LegalKeeps(cfg, s, acts, records[i].payload.eventId);
      }
    }
  }

  /** The picked rows are gone, and the events in their payloads are stored. */
  ghost predicate AreGone(t: Table, picked: set<EventId>, after: Table, log: seq<Stored>) {
    forall id | id in picked && id in t ::
      id !in after && (t[id].payload.Encoded? ==> InLog(log, t[id].payload.eventId))
  }

  lemma AllPickedAreGone(t: Table, picked: set<EventId>, records: seq<Record>, at: int, after: State)
    requires picked <= t.Keys && Scanned(records, t, picked, at) && Delivered(after, records)
    ensures AreGone(t, picked, after.table, after.log)
  {
    forall id | id in picked
      ensures id !in after.table && (t[id].payload.Encoded? ==> InLog(after.log, t[id].payload.eventId))
    {
      var i :| 0 <= i < |records| && records[i].id == id;
    }
  }

  /** The steps that handle one record, with pauses before it is sent and before it is marked. */
  function RecordRun(cfg: Config, s: State, r: Replica, record: Record, answer: Answer, others: Others, n: nat)
    : seq<Action>
  {
    var own := RecordActions(r, record, answer);
    var sent := others(n, s) + [own[0]] + [own[1]];
    sent + others(n + 1, ExecFrom(cfg, s, sent)) + [own[2]]
  }

  function BatchRun(cfg: Config, s: State, r: Replica, records: seq<Record>, answers: nat -> Answer, others: Others)
    : seq<Action>
  {
    if records == [] then []
    else
      var n, front := |records| - 1, BatchRun(cfg, s, r, Front(records), answers, others);
      front + RecordRun(cfg, ExecFrom(cfg, s, front), r, Last(records), answers(n), others, 2 * n)
  }

  /** One poll among other replicas: the claim, then each record in turn. */
  function PollRun(cfg: Config, s: State, r: Replica, limit: int, locked: set<EventId>, picked: set<EventId>,
    db: DbAnswer, records: seq<Record>, answers: nat -> Answer, others: Others): seq<Action>
  {
    var claim := Claim(r, s.now, limit, locked, picked);
    var rest := if db == Lost then [Crash(r)] else BatchRun(cfg, Apply(cfg, s, claim), r, records, answers, others);
    if db == Down || limit < 0 then [] else [claim] + rest
  }

  lemma {:induction false} AloneBatch(cfg: Config, s: State, r: Replica, records: seq<Record>, answers: nat -> Answer)
    ensures BatchRun(cfg, s, r, records, answers, ALONE) == BatchActions(r, records, answers)
  {
    if records != [] {
      var own := RecordActions(r, Last(records), answers(|records| - 1));
      assert [] + [own[0]] + [own[1]] + [] + [own[2]] == own;
      AloneBatch(cfg, s, r, Front(records), answers);
    }
  }

  /** A poll that runs alone. */
  lemma AlonePoll(cfg: Config, s: State, r: Replica, limit: int, locked: set<EventId>, picked: set<EventId>,
    db: DbAnswer, records: seq<Record>, answers: nat -> Answer)
    ensures PollRun(cfg, s, r, limit, locked, picked, db, records, answers, ALONE)
      == PollActions(r, s.now, limit, locked, picked, db, records, answers)
  {
    AloneBatch(cfg, Apply(cfg, s, Claim(r, s.now, limit, locked, picked)), r, records, answers);
  }

  lemma OneStep(cfg: Config, s: State, a: Action)
    requires Enabled(cfg, s, a)
    ensures Runs(cfg, s, [a], Apply(cfg, s, a))
  {
    ExecStep(cfg, s, [], a);
    assert [] + [a] == [a];
  }

  /** Waiting and sending are enabled while the record is held unsent, and then marking is. */
  lemma SendIsEnabled(cfg: Config, s: State, r: Replica, record: Record, answer: Answer)
    requires InPhase(s, r, record.id, Unsent) && s.held[Slot(r, record.id)].record == record
    ensures var own := RecordActions(r, record, answer);
      var waited := Apply(cfg, s, own[0]);
      var sent := Apply(cfg, waited, own[1]);
      && Enabled(cfg, s, own[0]) && Enabled(cfg, waited, own[1]) && Enabled(cfg, sent, own[2])
      && (own[2].MarkPublished? || own[2].MarkFailed?) && own[2].replica == r && own[2].id == record.id
      && sent.held.Keys == s.held.Keys
      && (forall k | k in s.held && k != Slot(r, record.id) :: sent.held[k] == s.held[k])
  {
  }

  /** So between sending and marking this replica holds what it held, but for the phase of this record. */
  lemma SendKeepsOthersOwn(cfg: Config, s: State, r: Replica, record: Record, answer: Answer)
    requires InPhase(s, r, record.id, Unsent) && s.held[Slot(r, record.id)].record == record
    ensures var own := RecordActions(r, record, answer);
      Own(Apply(cfg, Apply(cfg, s, own[0]), own[1]), r) - {Slot(r, record.id)} == Own(s, r) - {Slot(r, record.id)}
  {
    SendIsEnabled(cfg, s, r, record, answer);
  }

  /** After a pause the record is still held as it was. */
  lemma StillHeld(cfg: Config, s: State, r: Replica, id: EventId, before: seq<Action>)
    requires Elsewhere(cfg, s, r, before) && Slot(r, id) in s.held
    ensures var found := ExecFrom(cfg, s, before);
      Own(found, r) == Own(s, r) && Slot(r, id) in found.held && found.held[Slot(r, id)] == s.held[Slot(r, id)]
  {
    ElsewhereKeepsOwn(cfg, s, r, before);
    assert Slot(r, id) in Own(s, r) && Own(s, r)[Slot(r, id)] == s.held[Slot(r, id)];
    assert Slot(r, id) in Own(ExecFrom(cfg, s, before), r);
  }

  lemma TwoSteps(cfg: Config, s: State, before: seq<Action>, a: Action, b: Action)
    requires LegalFrom(cfg, s, before) && Enabled(cfg, ExecFrom(cfg, s, before), a)
    requires Enabled(cfg, Apply(cfg, ExecFrom(cfg, s, before), a), b)
    ensures Runs(cfg, s, before + [a] + [b], Apply(cfg, Apply(cfg, ExecFrom(cfg, s, before), a), b))
  {
    ExecStep(cfg, s, before, a);
    ExecStep(cfg, s, before + [a], b);
  }

  lemma MarkEndsHold(cfg: Config, s: State, r: Replica, id: EventId, mark: Action)
    requires (mark.MarkPublished? || mark.MarkFailed?) && mark.replica == r && mark.id == id
    ensures Own(Apply(cfg, s, mark), r) == Own(s, r) - {Slot(r, id)}
  {
  }

  /** Handling one record among others: `found` is the state after the first pause, `late` after the second. */
  lemma RecordRuns(cfg: Config, s: State, r: Replica, record: Record, answer: Answer, others: Others, n: nat,
    found: State, sent: State, late: State, after: State)
    requires InPhase(s, r, record.id, Unsent) && s.held[Slot(r, record.id)].record == record
    requires Elsewhere(cfg, s, r, others(n, s)) && found == ExecFrom(cfg, s, others(n, s))
    requires var own := RecordActions(r, record, answer);
      sent == Apply(cfg, Apply(cfg, found, own[0]), own[1]) && after == Apply(cfg, late, own[2])
    requires Elsewhere(cfg, sent, r, others(n + 1, sent)) && late == ExecFrom(cfg, sent, others(n + 1, sent))
    ensures Runs(cfg, s, RecordRun(cfg, s, r, record, answer, others, n), after)
    ensures Own(after, r) == Own(s, r) - {Slot(r, record.id)}
  {
    var own := RecordActions(r, record, answer);
    StillHeld(cfg, s, r, record.id, others(n, s));
    SendIsEnabled(cfg, found, r, record, answer);
    TwoSteps(cfg, s, others(n, s), own[0], own[1]);
    StillHeld(cfg, sent, r, record.id, others(n + 1, sent));
    ExecStep(cfg, sent, others(n + 1, sent), own[2]);
    JoinRecordRun(cfg, s, others(n, s) + [own[0]] + [own[1]], sent, others(n + 1, sent), own[2], after);
    MarkEndsHold(cfg, late, r, record.id, own[2]);
    SendKeepsOthersOwn(cfg, found, r, record, answer);
  }

  lemma JoinRecordRun(cfg: Config, s: State, first: seq<Action>, mid: State, pause: seq<Action>, mark: Action,
    after: State)
    requires Runs(cfg, s, first, mid) && Runs(cfg, mid, pause + [mark], after)
    ensures Runs(cfg, s, first + pause + [mark], after)
  {
    assert first + pause + [mark] == first + (pause + [mark]);
    RunsConcat(cfg, s, first, mid, pause + [mark], after);
  }

  lemma OwnStays(s: State, after: State, r: Replica, gone: Slot, k: Slot)
    requires Own(after, r) == Own(s, r) - {gone} && k in s.held && k.replica == r && k != gone
    ensures k in after.held && after.held[k] == s.held[k]
  {
    assert k in Own(s, r) && k in Own(after, r) && Own(after, r)[k] == Own(s, r)[k];
  }

  /** A batch comes back empty only when there is nothing to claim or the limit is zero. */
  lemma EmptyBatch(t: Table, open: set<EventId>, limit: nat, picked: set<EventId>, records: seq<Record>, at: int)
    requires open <= t.Keys && Picks(t, open, limit, picked) && Scanned(records, t, picked, at)
    ensures records == [] <==> limit == 0 || open == {}
  {
    if records != [] {
      assert records[0].id in picked;
    } else {
      assert picked == {};
    }
  }

  class Driver {
    const repo: SqlOutboxRepository
    const broker: Broker
    const replica: Replica
    const batchSize: int

    /** NewPublisher takes the batch size as it is. */
    constructor NewPublisher(repo: SqlOutboxRepository, broker: Broker, n: nat, batchSize: int, maxAttempts: int)
      ensures this.repo == repo && this.broker == broker && this.batchSize == batchSize
      ensures replica == Publisher(n, maxAttempts)
    {
      this.repo, this.broker, this.batchSize := repo, broker, batchSize;
      replica := Publisher(n, maxAttempts);
    }

    /** NewOutboxPoller replaces a batch size that is not positive, so a poller always claims something when it
        can; a publisher given zero never does. */
    constructor NewPoller(repo: SqlOutboxRepository, broker: Broker, n: nat, batchSize: int, connected: bool)
      ensures this.repo == repo && this.broker == broker
      ensures this.batchSize == if batchSize <= 0 then 100 else batchSize
      ensures replica == Poller(n, connected)
    {
      this.repo, this.broker := repo, broker;
      this.batchSize := if batchSize <= 0 then 100 else batchSize;
      replica := Poller(n, connected);
    }

    function Cfg(): Config {
      Config(repo.staleAfter, broker.window)
    }

    /** The protocol state whose table and log are this heap's. */
    ghost predicate Views(s: State)
      reads repo, broker
    {
      s.table == repo.rows && s.log == broker.log
    }

    /** A pause: time passes and the other replicas act on the table and the broker. */
    method Pause(others: Others, n: nat, s: State) returns (after: State)
      requires Views(s) && Alongside(Cfg(), replica, others)
      modifies repo, broker
      ensures after == ExecFrom(Cfg(), s, others(n, s)) && Views(after) && Elsewhere(Cfg(), s, replica, others(n, s))
    {
      after := ExecFrom(Cfg(), s, others(n, s));
      repo.rows, broker.log := after.table, after.log;
    }

    /** Decode, check the limit, send: whether the record is now to be marked as published. */
    method SendRecord(record: Record, answer: Answer, s: State) returns (published: bool, after: State)
      requires Views(s) && InPhase(s, replica, record.id, Unsent) && s.held[Slot(replica, record.id)].record == record
      modifies broker
      ensures var own := RecordActions(replica, record, answer);
        && after == Apply(Cfg(), Apply(Cfg(), s, own[0]), own[1]) && Views(after)
        && published == own[2].MarkPublished?
      ensures after.table == s.table && after.now == s.now + answer.elapsed
      ensures Rejected(replica, record) ==> !published && broker.log == old(broker.log)
      ensures !Rejected(replica, record) && replica.Poller? && !replica.connected ==>
        published && broker.log == old(broker.log)
      ensures !Rejected(replica, record) && (replica.Publisher? || replica.connected) ==>
        && published == (answer.send == Acknowledged)
        && (answer.send == Refused ==> broker.log == old(broker.log))
        && (answer.send != Refused ==> InLog(broker.log, record.payload.eventId))
    {
      var own := RecordActions(replica, record, answer);
      after := Apply(Cfg(), Apply(Cfg(), s, own[0]), own[1]);
      if record.payload.Undecodable? {
        return false, after;
      }
      if replica.Publisher? && record.attempts >= replica.maxAttempts {
        return false, after;
      }
      var sent := Success(()); // a nil connection skips the send and reports success
      if Connected(replica) {
        AcceptGrows(broker.log, broker.window, record.payload.eventId, s.now + answer.elapsed);
        sent := broker.PublishMsg(record.payload.eventId, s.now + answer.elapsed, answer.send);
      }
      published := sent.Success?;
    }

    /** publishRecord, and the body of poll's loop: send and mark, with other replicas acting before each.
        `found` is what the first pause left, `sent` follows the send, `late` is what the second pause left. */
    method PublishRecord(record: Record, answer: Answer, others: Others, n: nat, s: State)
      returns (after: State, ghost found: State, ghost sent: State, ghost late: State)
      requires Views(s) && Alongside(Cfg(), replica, others)
      requires InPhase(s, replica, record.id, Unsent) && s.held[Slot(replica, record.id)].record == record
      modifies repo, broker
      ensures Runs(Cfg(), s, RecordRun(Cfg(), s, replica, record, answer, others, n), after)
      ensures Views(after) && Own(after, replica) == Own(s, replica) - {Slot(replica, record.id)}
      ensures found == ExecFrom(Cfg(), s, others(n, s)) && late == ExecFrom(Cfg(), sent, others(n + 1, sent))
      ensures sent.table == found.table && sent.now == found.now + answer.elapsed && broker.log == late.log
      ensures var live := replica.Publisher? || replica.connected;
        var rejected := record.payload.Undecodable? || (replica.Publisher? && record.attempts >= replica.maxAttempts);
        // what the broker gets
        && (rejected || !live || answer.send == Refused ==> sent.log == found.log)
        && (!rejected && live && answer.send != Refused ==> InLog(broker.log, record.payload.eventId))
        // what the row becomes
        && (answer.mark == Down ==> repo.rows == late.table)
        && (answer.mark != Down && !rejected && (!live || answer.send == Acknowledged) ==>
          repo.rows == late.table - {record.id})
        && (answer.mark != Down && (rejected || (live && answer.send != Acknowledged)) ==>
          CountsFailure(late.table, repo.rows, record.id))
    {
      var before := Pause(others, n, s);
      StillHeld(Cfg(), s, replica, record.id, others(n, s));
      var published, mid := SendRecord(record, answer, before);
      var pending := Pause(others, n + 1, mid);
      found, sent, late := before, mid, pending;
      after := MarkRecord(record.id, published, answer.mark, pending);
      RecordRuns(Cfg(), s, replica, record, answer, others, n, found, sent, late, after);
      if record.payload.Encoded? {
        LegalKeeps(Cfg(), sent, others(n + 1, sent), record.payload.eventId);
      }
    }

    method MarkRecord(id: EventId, published: bool, db: DbAnswer, s: State) returns (after: State)
      requires Views(s)
      modifies repo
      ensures Views(after) && after == Apply(Cfg(), s,
        if published then MarkPublished(replica, id, db != Down) else MarkFailed(replica, id, db != Down))
      ensures db == Down ==> repo.rows == s.table
      ensures db != Down && published ==> repo.rows == s.table - {id}
      ensures db != Down && !published ==> CountsFailure(s.table, repo.rows, id)
    {
      if published {
        var _ := repo.MarkAsPublished(id, db);
        after := Apply(Cfg(), s, MarkPublished(replica, id, db != Down));
      } else {
        var _ := repo.MarkAsFailed(id, s.now, db);
        after := Apply(Cfg(), s, MarkFailed(replica, id, db != Down));
      }
    }

    /** This replica holds exactly the records still to be handled. */
    ghost predicate Holds(s: State, records: seq<Record>) {
      && Own(s, replica).Keys == Slots(replica, IdsOf(records))
      && (forall j | 0 <= j < |records| ::
        Slot(replica, records[j].id) in s.held && s.held[Slot(replica, records[j].id)] == Held(records[j], Unsent))
      && (forall i, j | 0 <= i < j < |records| :: records[i].id != records[j].id)
    }

    lemma OneLess(s: State, after: State, records: seq<Record>)
      requires records != [] && Holds(s, records)
      requires Own(after, replica) == Own(s, replica) - {Slot(replica, records[0].id)}
      ensures Holds(after, records[1..])
    {
      assert IdsOf(records) == {records[0].id} + IdsOf(records[1..]) by {
        assert records == [records[0]] + records[1..];
      }
      assert Slots(replica, IdsOf(records)) == {Slot(replica, records[0].id)} + Slots(replica, IdsOf(records[1..]));
      forall j | 1 <= j < |records|
        ensures Slot(replica, records[j].id) in after.held
        ensures after.held[Slot(replica, records[j].id)] == s.held[Slot(replica, records[j].id)]
      {
        assert records[j].id != records[0].id;
        OwnStays(s, after, replica, Slot(replica, records[0].id), Slot(replica, records[j].id));
      }
    }

    lemma ExtendBatch(s: State, records: seq<Record>, answers: nat -> Answer, others: Others, i: nat,
      mid: State, after: State)
      requires i < |records| && Runs(Cfg(), s, BatchRun(Cfg(), s, replica, records[..i], answers, others), mid)
      requires Runs(Cfg(), mid, RecordRun(Cfg(), mid, replica, records[i], answers(i), others, 2 * i), after)
      ensures Runs(Cfg(), s, BatchRun(Cfg(), s, replica, records[..i + 1], answers, others), after)
    {
      assert Front(records[..i + 1]) == records[..i];
      RunsConcat(Cfg(), s, BatchRun(Cfg(), s, replica, records[..i], answers, others), mid,
        RecordRun(Cfg(), mid, replica, records[i], answers(i), others, 2 * i), after);
    }

    /** One turn of the loop over the claimed records; `start` is the state the loop began in. */
    method PublishNext(records: seq<Record>, i: nat, answers: nat -> Answer, others: Others, s: State,
      ghost start: State) returns (after: State)
      requires Views(s) && Alongside(Cfg(), replica, others) && i < |records| && Holds(s, records[i..])
      requires Runs(Cfg(), start, BatchRun(Cfg(), start, replica, records[..i], answers, others), s)
      modifies repo, broker
      ensures Views(after) && Holds(after, records[i + 1..])
      ensures Runs(Cfg(), start, BatchRun(Cfg(), start, replica, records[..i + 1], answers, others), after)
      ensures AllAcknowledged(replica, records, answers) && Delivered(s, records[..i]) && records[i].id in s.committed
        ==> Delivered(after, records[..i + 1])
      ensures forall id | id in s.committed :: id in after.committed
    {
      assert records[i..][0] == records[i];
      ghost var found, sent, late;
      after, found, sent, late := PublishRecord(records[i], answers(i), others, 2 * i, s);
      assert AllAcknowledged(replica, records, answers) && records[i].id in after.committed ==>
        Delivered(after, [records[i]]);
      OneMoreDelivered(s, records, i, RecordRun(Cfg(), s, replica, records[i], answers(i), others, 2 * i), after);
      ExtendBatch(start, records, answers, others, i, s, after);
      OneLess(s, after, records[i..]);
      assert records[i..][1..] == records[i + 1..];
    }

    lemma OneMoreDelivered(s: State, records: seq<Record>, i: nat, run: seq<Action>, after: State)
      requires i < |records| && Runs(Cfg(), s, run, after)
      ensures forall id | id in s.committed :: id in after.committed
      ensures Delivered(s, records[..i]) && records[i].id in s.committed && Delivered(after, [records[i]]) ==>
        Delivered(after, records[..i + 1])
    {
      forall id | id in s.committed ensures id in after.committed {
        LegalKeeps(Cfg(), s, run, id);
      }
      if Delivered(s, records[..i]) {
        LegalKeepsDelivered(Cfg(), s, run, records[..i]);
      }
      assert [records[i]][0] == records[i];
    }

    lemma NothingHeld(s: State)
      requires Holds(s, [])
      ensures Idle(s, replica)
    {
      assert Own(s, replica).Keys == {};
      forall k | k in s.held ensures k.replica != replica {
        assert k.replica == replica ==> k in Own(s, replica).Keys;
      }
    }

    /** The loop over the claimed records. */
    method PublishRecords(records: seq<Record>, answers: nat -> Answer, others: Others, s: State)
      returns (after: State)
      requires Views(s) && Alongside(Cfg(), replica, others) && Holds(s, records)
      modifies repo, broker
      ensures Runs(Cfg(), s, BatchRun(Cfg(), s, replica, records, answers, others), after)
      ensures Views(after) && Idle(after, replica)
      ensures AllAcknowledged(replica, records, answers) && IdsOf(records) <= s.committed ==> Delivered(after, records)
    {
      after := s;
      assert records[0..] == records;
      for i := 0 to |records|
        invariant forall id | id in s.committed :: id in after.committed
        invariant AllAcknowledged(replica, records, answers) && IdsOf(records) <= s.committed ==>
          Delivered(after, records[..i])
        invariant Runs(Cfg(), s, BatchRun(Cfg(), s, replica, records[..i], answers, others), after)
        invariant Views(after) && Holds(after, records[i..])
      {
        after := PublishNext(records, i, answers, others, after, s);
      }
      assert records[..|records|] == records && records[|records|..] == [];
      NothingHeld(after);
    }

    /** processBatch and poll: claim a batch, then handle every record, whatever the results and whatever the
        other replicas do between the steps. */
    method ProcessBatch(locked: set<EventId>, db: DbAnswer, answers: nat -> Answer, others: Others, s: State)
      returns (after: State, ghost picked: set<EventId>, ghost records: seq<Record>)
      requires Views(s) && Idle(s, replica) && Alongside(Cfg(), replica, others)
      modifies repo, broker
      ensures Runs(
        Cfg(), s, PollRun(Cfg(), s, replica, batchSize, locked, picked, db, records, answers, others), after)
      ensures Views(after) && Idle(after, replica)
      ensures picked <= s.table.Keys
      ensures db == Done && 0 <= batchSize ==> Scanned(records, s.table, picked, s.now)
      ensures db == Done && 0 <= batchSize ==>
        (records == [] <==> batchSize == 0 || OpenRows(s.table, s.now - repo.staleAfter, locked) == {})
      ensures db == Done && 0 <= batchSize && s.table.Keys <= s.committed ==>
        (AllAcknowledged(replica, records, answers) ==> AreGone(s.table, picked, repo.rows, broker.log))
    {
      after, records := s, [];
      var claimed;
      claimed, picked := repo.GetPendingRecords(batchSize, s.now, locked, db);
      if db == Down || batchSize < 0 {
        return;
      }
      var rows := repo.rows;
      ghost var claim := Claim(replica, s.now, batchSize, locked, picked);
      ghost var held := ClaimRuns(s, locked, picked);
      if claimed.Failure? {
        after := s.(table := rows);
        CrashRuns(held, after);
        RunsConcat(Cfg(), s, [claim], held, [Crash(replica)], after);
        return;
      }
      records := claimed.value;
      EmptyBatch(s.table, OpenRows(s.table, s.now - repo.staleAfter, locked), batchSize, picked, records, s.now);
      RecordsAreHeld(s, held, picked, records);
      after := Apply(Cfg(), s, Claim(replica, s.now, batchSize, locked, IdsOf(claimed.value)));
      after := PublishRecords(claimed.value, answers, others, after);
      if Delivered(after, records) {
        AllPickedAreGone(s.table, picked, records, s.now, after);
      }
      RunsConcat(Cfg(), s, [claim], held, BatchRun(Cfg(), held, replica, records, answers, others), after);
    }

    lemma ClaimRuns(s: State, locked: set<EventId>, picked: set<EventId>) returns (held: State)
      requires Idle(s, replica) && Picks(s.table, OpenRows(s.table, s.now - repo.staleAfter, locked), batchSize, picked)
      ensures Runs(Cfg(), s, [Claim(replica, s.now, batchSize, locked, picked)], held)
      ensures held == Apply(Cfg(), s, Claim(replica, s.now, batchSize, locked, picked))
      ensures held == s.(
        table := ClaimRows(s.table, picked, s.now), held := s.held + Batch(s.table, replica, picked, s.now))
      ensures picked <= s.table.Keys
    {
      OneStep(Cfg(), s, Claim(replica, s.now, batchSize, locked, picked));
      held := Apply(Cfg(), s, Claim(replica, s.now, batchSize, locked, picked));
    }

    lemma CrashRuns(held: State, after: State)
      requires after == held.(held := after.held) && Idle(after, replica)
      requires forall k | k in held.held && k.replica != replica :: k in after.held && after.held[k] == held.held[k]
      requires forall k | k in after.held :: k in held.held
      ensures Runs(Cfg(), held, [Crash(replica)], after)
    {
      OneStep(Cfg(), held, Crash(replica));
      assert Apply(Cfg(), held, Crash(replica)).held == after.held;
    }

    lemma RecordsAreHeld(s: State, held: State, picked: set<EventId>, records: seq<Record>)
      requires Idle(s, replica) && picked <= s.table.Keys && Scanned(records, s.table, picked, s.now)
      requires held.held == s.held + Batch(s.table, replica, picked, s.now)
      ensures Holds(held, records)
    {
      forall j | 0 <= j < |records|
        ensures Slot(replica, records[j].id) in Batch(s.table, replica, picked, s.now)
        ensures Batch(s.table, replica, picked, s.now)[Slot(replica, records[j].id)] == Held(records[j], Unsent)
      {
        assert Slot(replica, records[j].id) in Slots(replica, picked);
      }
      assert Own(held, replica) == Batch(s.table, replica, picked, s.now);
    }
  }
}
