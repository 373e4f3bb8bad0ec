/** From the outbox row to the consumer's effect: the outbox, the broker's log and the ledger together. */
module EndToEnd {
  import opened Common
  import opened Ledger
  import Outbox
  import P = OutboxProtocol
  import S = OutboxSafety
  import L = LedgerSafety

  type EventId = Outbox.EventId

  /** What the payload of each id decodes to. */
  type Events = EventId -> Event

  ghost predicate Catalogue(events: Events) {
    forall id: EventId :: events(id).id == id
  }

  /** The message carries the headers of the k-th entry of the log; entries may be redelivered at will. */
  ghost predicate Redelivers(a: L.Action, log: seq<P.Stored>, k: nat, events: Events, c: Codec) {
    a.Deliver? && k < |log| && CopyOf(a.msg, events(log[k].id), c)
  }

  /** Consumers receive nothing but entries of the log. */
  ghost predicate FedBy(acts: seq<L.Action>, log: seq<P.Stored>, events: Events, c: Codec) {
    forall a | a in acts && a.Deliver? :: exists k: nat :: Redelivers(a, log, k, events, c)
  }

  lemma {:induction false} LoggedIsInserted(cfg: P.Config, run: seq<P.Action>, id: EventId)
    requires P.Legal(cfg, run) && P.InLog(P.Exec(cfg, run).log, id)
    ensures id in P.Exec(cfg, run).committed
  {
    if run != [] {
      var s, a := P.Exec(cfg, P.Front(run)), P.Last(run);
      S.RunKeepsInv(cfg, P.Front(run));
      if P.InLog(s.log, id) {
        LoggedIsInserted(cfg, P.Front(run), id);
      } else {
        assert S.HeldOk(s, P.Slot(a.replica, a.id), S.SkippedSends(P.Front(run)));
        assert P.MessageId(s, P.Slot(a.replica, a.id)) == a.id;
        var log := P.Exec(cfg, run).log;
        var i :| 0 <= i < |log| && log[i].id == id;
        assert i == |s.log|;
      }
    }
  }

  /** A redelivered entry is claimed under the id of its row. */
  lemma RedeliveredKey(a: L.Action, log: seq<P.Stored>, k: nat, events: Events, c: Codec)
    requires Faithful(c) && Catalogue(events) && Redelivers(a, log, k, events, c)
    ensures L.KeyOf(a.msg, a.consumer, c) == Some(Key(log[k].id, a.consumer))
  {
    L.CopiesShareAKey(c, events(log[k].id), a.msg, a.msg, a.consumer);
  }

  /** No effect without a commit: what a consumer applies was inserted into the outbox and accepted by the
      broker. */
  lemma EffectsWereCommitted(cfg: P.Config, run: seq<P.Action>, s: L.State, acts: seq<L.Action>, events: Events,
    c: Codec, i: nat, key: Key)
    requires P.Legal(cfg, run) && Faithful(c) && Catalogue(events)
    requires FedBy(acts, P.Exec(cfg, run).log, events, c)
    requires i < |acts| && L.Wins(s, acts, i, key, c)
    ensures S.Inserted(run, key.event) && S.AcceptedByBroker(run, key.event)
  {
    var log := P.Exec(cfg, run).log;
    assert acts[i] in acts;
    var k: nat :| Redelivers(acts[i], log, k, events, c);
    RedeliveredKey(acts[i], log, k, events, c);
    assert log[k].id == key.event;
    LoggedIsInserted(cfg, run, key.event);
    S.CommittedMeansInserted(cfg, run, key.event);
    S.LogHoldsAcceptedSends(cfg, run, key.event);
  }

  /** No effect twice: however often the broker stored the row's event and redelivers its entries, two of them
      within the retention span do not both take effect on one consumer. */
  lemma CopiesTakeEffectOncePerSpan(cfg: P.Config, run: seq<P.Action>, s: L.State, acts: seq<L.Action>, span: int,
    events: Events, c: Codec, i: nat, x: nat, j: nat, y: nat)
    requires P.Legal(cfg, run) && Faithful(c) && Catalogue(events) && L.Legal(s, acts, span, c) && i < j < |acts|
    requires Redelivers(acts[i], P.Exec(cfg, run).log, x, events, c)
    requires Redelivers(acts[j], P.Exec(cfg, run).log, y, events, c)
    requires P.Exec(cfg, run).log[x].id == P.Exec(cfg, run).log[y].id && acts[i].consumer == acts[j].consumer
    requires L.Exec(s, acts[..j], c).now - L.Exec(s, acts[..i], c).now <= span
    ensures var key := Key(P.Exec(cfg, run).log[x].id, acts[i].consumer);
      !(L.Wins(s, acts, i, key, c) && L.Wins(s, acts, j, key, c))
  {
    var log := P.Exec(cfg, run).log;
    L.EventTakesEffectOncePerSpan(s, acts, span, c, events(log[x].id), acts[i].consumer, i, j);
  }

  /** The action delivers some stored copy of this event to this consumer, and its claim reaches the database. */
  ghost predicate ClaimsEvent(a: L.Action, log: seq<P.Stored>, id: EventId, consumer: string, events: Events, c: Codec)
  {
    && a.Deliver? && a.consumer == consumer && a.answer != Outbox.Down
    && exists k: nat :: Redelivers(a, log, k, events, c) && log[k].id == id
  }

  /** Consumers fed by the log claim an event's key exactly when they are handed one of its copies. */
  lemma ClaimsEventMeansReaches(acts: seq<L.Action>, log: seq<P.Stored>, i: nat, id: EventId, consumer: string,
    events: Events, c: Codec)
    requires Faithful(c) && Catalogue(events) && FedBy(acts, log, events, c) && i < |acts|
    ensures ClaimsEvent(acts[i], log, id, consumer, events, c) <==> L.Reaches(acts, i, Key(id, consumer), c)
  {
    if acts[i].Deliver? {
      assert acts[i] in acts;
      forall k: nat | Redelivers(acts[i], log, k, events, c)
        ensures L.KeyOf(acts[i].msg, acts[i].consumer, c) == Some(Key(log[k].id, acts[i].consumer))
      {
        RedeliveredKey(acts[i], log, k, events, c);
      }
    }
  }

  ghost predicate ClaimsEventFirst(acts: seq<L.Action>, i: nat, log: seq<P.Stored>, id: EventId, consumer: string,
    events: Events, c: Codec)
    requires i < |acts|
  {
    && ClaimsEvent(acts[i], log, id, consumer, events, c)
    && forall j | 0 <= j < i :: !ClaimsEvent(acts[j], log, id, consumer, events, c)
  }

  /** An effect may be missed: while nobody marks or prunes it, a consumer is ever allowed an event's effect
      exactly when the first of its claims to reach the database is answered. */
  lemma EffectAllowedExactlyWhen(cfg: P.Config, run: seq<P.Action>, s: L.State, acts: seq<L.Action>,
    events: Events, c: Codec, id: EventId, consumer: string)
    requires P.Legal(cfg, run) && Faithful(c) && Catalogue(events)
    requires FedBy(acts, P.Exec(cfg, run).log, events, c) && forall a | a in acts :: !a.Mark?
    requires Key(id, consumer) !in s.rows && L.Kept(acts, 0, Key(id, consumer))
    ensures var log := P.Exec(cfg, run).log;
      (exists i: nat :: i < |acts| && L.Wins(s, acts, i, Key(id, consumer), c)) <==>
      (exists i: nat ::
        i < |acts| && ClaimsEventFirst(acts, i, log, id, consumer, events, c) && acts[i].answer == Outbox.Done)
  {
    var log, key := P.Exec(cfg, run).log, Key(id, consumer);
    forall i: nat | i < |acts|
      ensures ClaimsEvent(acts[i], log, id, consumer, events, c) <==> L.Reaches(acts, i, key, c)
    {
      ClaimsEventMeansReaches(acts, log, i, id, consumer, events, c);
    }
    FirstClaimsAgree(acts, log, id, consumer, events, c);
    forall i: nat | i < |acts| ensures L.Puts(acts, i, key, c) ==> L.Reaches(acts, i, key, c) {
      assert acts[i] in acts;
    }
    L.SomeDeliveryWinsExactlyWhen(s, acts, c, key);
  }

  lemma FirstClaimsAgree(acts: seq<L.Action>, log: seq<P.Stored>, id: EventId, consumer: string,
    events: Events, c: Codec)
    requires forall i: nat | i < |acts| ::
      ClaimsEvent(acts[i], log, id, consumer, events, c) <==> L.Reaches(acts, i, Key(id, consumer), c)
    ensures forall i: nat | i < |acts| ::
      ClaimsEventFirst(acts, i, log, id, consumer, events, c) <==> L.ReachesFirst(acts, i, Key(id, consumer), c)
  {
  }

  /** A run that publishes one event. */
  lemma PublishedOnce(cfg: P.Config, id: EventId) returns (run: seq<P.Action>)
    ensures P.Legal(cfg, run) && S.Inserted(run, id) && P.Exec(cfg, run).log == [P.Stored(id, 0)]
  {
    run := S.InsertThenClaim(cfg, S.A, id);
    var s := S.Append(cfg, run, P.Send(S.A, id, true, true));
    run := run + [P.Send(S.A, id, true, true)];
    assert run[0] in run && !P.Duplicate([], cfg.window, id, 0);
  }

  lemma MessageOf(e: Event, c: Codec) returns (m: Msg)
    ensures CopyOf(m, e, c)
  {
    var h: Header := map["Nats-Msg-Id" := c.text(e.id), "event-id" := c.text(e.id), "event-type" := e.eventType,
      "aggregate-type" := e.aggregateType, "aggregate-id" := c.text(e.aggregateId), "tenant-id" := c.text(e.tenantId),
      "event-version" := e.version];
    m := Msg(Some(h), false, "", "");
  }

  /** A committed and stored event whose first claim inserts its row and reports an error: the broker delivers
      it again, that claim is answered, and no delivery ever wins. */
  lemma LostAnswerMissesTheEffect(cfg: P.Config, events: Events, c: Codec, id: EventId, consumer: string, span: int)
    returns (run: seq<P.Action>, acts: seq<L.Action>)
    requires Faithful(c) && Catalogue(events)
    ensures P.Legal(cfg, run) && S.Inserted(run, id) && P.Exec(cfg, run).log == [P.Stored(id, 0)]
    ensures L.Legal(L.State(0, map[]), acts, span, c) && FedBy(acts, P.Exec(cfg, run).log, events, c)
    ensures |acts| == 2 && acts[1].Deliver? && acts[1].answer == Outbox.Done
    ensures forall a | a in acts :: ClaimsEvent(a, P.Exec(cfg, run).log, id, consumer, events, c)
    ensures forall i: nat | i < 2 :: !L.Wins(L.State(0, map[]), acts, i, Key(id, consumer), c)
  {
    run := PublishedOnce(cfg, id);
    var m := MessageOf(events(id), c);
    acts := [L.Deliver(m, consumer, Outbox.Lost), L.Deliver(m, consumer, Outbox.Done)];
    var log := P.Exec(cfg, run).log;
    assert Redelivers(acts[0], log, 0, events, c) && Redelivers(acts[1], log, 0, events, c);
    assert acts[..1] == [acts[0]];
    ClaimsEventMeansReaches(acts, log, 0, id, consumer, events, c);
    L.LostClaimBlocks(L.State(0, map[]), acts, c, 0, 1, Key(id, consumer));
  }
}
