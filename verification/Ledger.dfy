/** The consumer's ledger of processed events (idempotency.go) and the headers it reads (headers.go). */
module Ledger {
  import opened Common
  import opened Outbox

  // ---------------------------------------------------------------- the event id of a message

  /** How ids are written and read: every written id reads back as itself. */
  datatype Codec = Codec(text: EventId -> string, parse: string -> Option<EventId>)

  ghost predicate Faithful(c: Codec) {
    forall id: EventId :: c.text(id) != "" && c.parse(c.text(id)) == Some(id)
  }

  datatype Event = Event(
    id: EventId, eventType: string, aggregateType: string, aggregateId: EventId, tenantId: EventId, version: string)

  type Header = map<string, string>

  /** A delivered message: its headers, and the id fields of a body that decodes as JSON. */
  datatype Msg = Msg(header: Option<Header>, bodyDecodes: bool, bodyId: string, bodyEventId: string)

  /** The seven headers of an event; the broker's message id and the consumer's event id are the same. */
  ghost predicate HeadersOf(h: Header, e: Event, c: Codec) {
    && h.Keys == {"Nats-Msg-Id", "event-id", "event-type", "aggregate-type", "aggregate-id", "tenant-id",
      "event-version"}
    && h["Nats-Msg-Id"] == h["event-id"] == c.text(e.id)
    && h["event-type"] == e.eventType && h["aggregate-type"] == e.aggregateType
    && h["aggregate-id"] == c.text(e.aggregateId) && h["tenant-id"] == c.text(e.tenantId)
    && h["event-version"] == e.version
  }

  method EventHeaders(e: Event, c: Codec) returns (h: Header)
    ensures HeadersOf(h, e, c)
  {
    h := map[];
    h := h["Nats-Msg-Id" := c.text(e.id)];
    h := h["event-id" := c.text(e.id)];
    h := h["event-type" := e.eventType];
    h := h["aggregate-type" := e.aggregateType];
    h := h["aggregate-id" := c.text(e.aggregateId)];
    h := h["tenant-id" := c.text(e.tenantId)];
    h := h["event-version" := e.version];
  }

  function Get(h: Header, name: string): string {
    if name in h then h[name] else ""
  }

  /** None stands for an unreadable id or no id at all. */
  function EventIdFromMsg(m: Msg, c: Codec): Option<EventId> {
    if m.header.Some? && Get(m.header.value, "event-id") != "" then c.parse(Get(m.header.value, "event-id"))
    else if m.bodyDecodes && m.bodyId != "" then c.parse(m.bodyId)
    else if m.bodyDecodes && m.bodyEventId != "" then c.parse(m.bodyEventId)
    else None
  }

  /** Without the header the body is read: its id, and only without that its event_id; a message that names no
      event, or names it unreadably, has none. */
  lemma BodyIsTheFallback(m: Msg, c: Codec, id: EventId)
    requires Faithful(c) && (m.header.None? || "event-id" !in m.header.value || m.header.value["event-id"] == "")
    ensures m.bodyDecodes && m.bodyId == c.text(id) ==> EventIdFromMsg(m, c) == Some(id)
    ensures m.bodyDecodes && m.bodyId == "" && m.bodyEventId == c.text(id) ==> EventIdFromMsg(m, c) == Some(id)
    ensures !m.bodyDecodes || (m.bodyId == "" && m.bodyEventId == "") ==> EventIdFromMsg(m, c) == None
    ensures m.bodyDecodes && m.bodyId != "" ==> EventIdFromMsg(m, c) == c.parse(m.bodyId)
  {
    assert c.text(id) != "";
  }

  /** A message published with the headers EventHeaders makes, whatever its body says. */
  ghost predicate CopyOf(m: Msg, e: Event, c: Codec) {
    m.header.Some? && HeadersOf(m.header.value, e, c)
  }

  // ---------------------------------------------------------------- the store

  datatype Key = Key(event: EventId, consumer: string)

  type Rows = map<Key, int> // processed_at by primary key

  const DEFAULT_RETENTION := 30 * 24 * 3600
  const DEFAULT_BATCH := 5000

  function Retention(olderThan: int): (r: int)
    ensures r > 0
  {
    if olderThan <= 0 then DEFAULT_RETENTION else olderThan
  }

  /** INSERT ... ON CONFLICT DO NOTHING */
  function Insert(rows: Rows, key: Key, now: int): Rows {
    if key in rows then rows else rows[key := now]
  }

  function Stale(rows: Rows, cutoff: int): set<Key> {
    set k | k in rows && rows[k] < cutoff
  }

  /** What other consumers add between two batches. */
  function Arrive(rows: Rows, more: Rows): Rows {
    more + rows
  }

  /** Nothing but the old rows and the arrivals is in the table. An arrival is only missing when a
      stale row of its key was still there, so that the insert did nothing. */
  ghost predicate Accounted(rows: Rows, before: Rows, cutoff: int, arrivals: nat -> Rows, batches: nat) {
    && (forall k | k in rows ::
      (k in before && rows[k] == before[k]) ||
      (exists i: nat :: i < batches && k in arrivals(i) && rows[k] == arrivals(i)[k]))
    && (forall i: nat, k | i < batches && k in arrivals(i) :: k in rows || k in Stale(before, cutoff))
  }

  /** Where a prune stands after removing `removed` rows: only stale rows have gone. */
  ghost predicate Pruned(
    rows: Rows, before: Rows, cutoff: int, arrivals: nat -> Rows, removed: nat, batches: nat)
  {
    && Stale(rows, cutoff) <= Stale(before, cutoff)
    && |Stale(rows, cutoff)| + removed == |Stale(before, cutoff)|
    && (forall k | k in before && before[k] >= cutoff :: k in rows && rows[k] == before[k])
    && Accounted(rows, before, cutoff, arrivals, batches)
  }

  lemma DeleteKeepsPruned(rows: Rows, gone: set<Key>, before: Rows, cutoff: int, arrivals: nat -> Rows,
    removed: nat, batches: nat)
    requires Pruned(rows, before, cutoff, arrivals, removed, batches)
    requires forall i: nat, k | k in arrivals(i) :: arrivals(i)[k] >= cutoff
    requires gone <= Stale(rows, cutoff)
    ensures Pruned(rows - gone, before, cutoff, arrivals, removed + |gone|, batches)
  {
    assert Stale(rows - gone, cutoff) == Stale(rows, cutoff) - gone;
  }

  lemma ArrivalKeepsPruned(rows: Rows, before: Rows, cutoff: int, arrivals: nat -> Rows, removed: nat, batches: nat)
    requires Pruned(rows, before, cutoff, arrivals, removed, batches)
    requires forall i: nat, k | k in arrivals(i) :: arrivals(i)[k] >= cutoff
    ensures Pruned(Arrive(rows, arrivals(batches)), before, cutoff, arrivals, removed, batches + 1)
    ensures Stale(Arrive(rows, arrivals(batches)), cutoff) == Stale(rows, cutoff)
  {
    assert Stale(Arrive(rows, arrivals(batches)), cutoff) == Stale(rows, cutoff);
    ArrivalIsAccounted(rows, before, cutoff, arrivals, batches);
  }

  lemma ArrivalIsAccounted(rows: Rows, before: Rows, cutoff: int, arrivals: nat -> Rows, batches: nat)
    requires Accounted(rows, before, cutoff, arrivals, batches)
    ensures Accounted(Arrive(rows, arrivals(batches)), before, cutoff, arrivals, batches + 1)
  {
    var more := Arrive(rows, arrivals(batches));
    forall k | k in more && !(k in before && more[k] == before[k])
      ensures exists i: nat :: i < batches + 1 && k in arrivals(i) && more[k] == arrivals(i)[k]
    {
      if k in rows {
        var i: nat :| i < batches && k in arrivals(i) && rows[k] == arrivals(i)[k];
      }
    }
  }

  datatype PruneEnd = Complete | DbFailed | Cancelled

  class IdempotencyStore {
    var rows: Rows

    constructor ()
      ensures rows == map[]
    {
      rows := map[];
    }

    /** The caller that inserts the row wins. */
    method Claim(key: Key, now: int, db: DbAnswer) returns (won: Result<bool>)
      modifies this
      ensures rows == if db == Down then old(rows) else Insert(old(rows), key, now)
      ensures rows == if db == Down || key in old(rows) then old(rows) else old(rows)[key := now]
      ensures won.Success? <==> db == Done
      ensures won.Success? ==> won.value == (key !in old(rows))
    {
      var affected := 0;
      if db != Down && key !in rows {
        rows := rows[key := now];
        affected := 1;
      }
      won := if db == Done then Success(affected == 1) else Failure("claim processed event");
    }

    /** A read: a yes says that a claim at this moment would lose. */
    method AlreadyProcessed(key: Key, db: DbAnswer) returns (yes: Result<bool>)
      ensures yes.Success? <==> db == Done
      ensures yes.Success? ==> (yes.value <==> forall now: int :: Insert(rows, key, now) == rows)
    {
      assert key !in rows ==> Insert(rows, key, 0) != rows;
      yes := if db == Done then Success(key in rows) else Failure("check processed event");
    }

    method MarkProcessed(key: Key, now: int, db: DbAnswer) returns (res: Result<()>)
      modifies this
      ensures rows == if db == Down || key in old(rows) then old(rows) else old(rows)[key := now]
      ensures res.Success? <==> db == Done
    {
      var won := Claim(key, now, db);
      res := if won.Success? then Success(()) else Failure("mark processed event");
    }

    /** Some n of the given keys, or all of them when there are fewer: DELETE ... LIMIT n. */
    method Limit(keys: set<Key>, n: nat) returns (some: set<Key>)
      ensures some <= keys && |some| == Min(n, |keys|)
    {
      some := {};
      while |some| < n && some != keys
        invariant some <= keys && |some| <= n
        decreases |keys - some|
      {
        var k :| k in keys - some;
        some := some + {k};
      }
      SubsetSize(some, keys);
    }

    /** One DELETE of at most `size` stale rows. */
    method DeleteBatch(cutoff: int, size: nat,
      ghost before: Rows, ghost arrivals: nat -> Rows, ghost removed: nat, ghost batches: nat)
      returns (n: nat)
      requires Pruned(rows, before, cutoff, arrivals, removed, batches)
      requires forall i: nat, k | k in arrivals(i) :: arrivals(i)[k] >= cutoff
      modifies this
      ensures Pruned(rows, before, cutoff, arrivals, removed + n, batches)
      ensures n == Min(size, |Stale(old(rows), cutoff)|)
      ensures |Stale(rows, cutoff)| + n == |Stale(old(rows), cutoff)|
    {
      var stale := Stale(rows, cutoff);
      var gone := Limit(stale, size);
      DeleteKeepsPruned(rows, gone, before, cutoff, arrivals, removed, batches);
      rows := rows - gone;
      n := |gone|;
      assert Stale(rows, cutoff) == stale - gone;
    }

    /** Other consumers claim meanwhile. */
    method Interleave(cutoff: int, arrivals: nat -> Rows, i: nat, ghost before: Rows, ghost removed: nat)
      requires Pruned(rows, before, cutoff, arrivals, removed, i)
      requires forall i: nat, k | k in arrivals(i) :: arrivals(i)[k] >= cutoff
      modifies this
      ensures rows == Arrive(old(rows), arrivals(i)) && Pruned(rows, before, cutoff, arrivals, removed, i + 1)
      ensures Stale(rows, cutoff) == Stale(old(rows), cutoff)
    {
      ArrivalKeepsPruned(rows, before, cutoff, arrivals, removed, i);
      rows := Arrive(rows, arrivals(i));
    }

    /** One turn of the prune loop: the delete, then the reasons to stop. */
    method OneBatch(cutoff: int, size: nat, answer: DbAnswer, cancelled: bool,
      ghost before: Rows, ghost arrivals: nat -> Rows, ghost removed: nat, ghost batches: nat)
      returns (counted: nat, stop: Option<PruneEnd>, ghost gone: nat)
      requires Pruned(rows, before, cutoff, arrivals, removed, batches)
      requires forall i: nat, k | k in arrivals(i) :: arrivals(i)[k] >= cutoff
      modifies this
      ensures Pruned(rows, before, cutoff, arrivals, removed + gone, batches)
      ensures |Stale(rows, cutoff)| + gone == |Stale(old(rows), cutoff)|
      ensures gone == if answer == Down then 0 else Min(size, |Stale(old(rows), cutoff)|)
      ensures counted == if answer == Done then gone else 0
      ensures stop ==
        if answer != Done then Some(DbFailed) else if gone < size then Some(Complete)
        else if cancelled then Some(Cancelled) else None
    {
      counted, gone := 0, 0;
      if answer == Down {
        return 0, Some(DbFailed), 0;
      }
      var n := DeleteBatch(cutoff, size, before, arrivals, removed, batches);
      gone := n;
      if answer == Lost {
        return 0, Some(DbFailed), n;
      }
      counted := n;
      stop := if n < size then Some(Complete) else if cancelled then Some(Cancelled) else None;
    }

    /** Deletes stale claims batch by batch. Claims may arrive after every batch; `total` is what was
        deleted by the batches whose answer came back. */
    method Prune(olderThan: int, batchSize: int, now: int,
      answers: nat -> DbAnswer, cancelled: nat -> bool, arrivals: nat -> Rows)
      returns (total: nat, end: PruneEnd, batches: nat, ghost removed: nat)
      requires forall i: nat, k | k in arrivals(i) :: arrivals(i)[k] >= now
      modifies this
      ensures batches > 0
      ensures Pruned(rows, old(rows), now - Retention(olderThan), arrivals, removed, batches - 1)
      ensures total <= removed && (end != DbFailed || answers(batches - 1) == Down ==> total == removed)
      ensures var cutoff := now - if olderThan <= 0 then 30 * 24 * 3600 else olderThan;
        // finished or not, only rows older than the retention are removed
        && (forall k | k in old(rows) && old(rows)[k] >= cutoff :: k in rows && rows[k] == old(rows)[k])
        // finished, none of them is left, and their number is returned
        && (end == Complete ==>
          && (forall k | k in rows :: rows[k] >= cutoff)
          && total == |set k | k in old(rows) && old(rows)[k] < cutoff|
          && batches == total / (if batchSize <= 0 then 5000 else batchSize) + 1)
      ensures end == DbFailed <==> answers(batches - 1) != Done
      ensures end == Cancelled ==> cancelled(batches - 1)
      ensures forall i: nat | i < batches - 1 :: answers(i) == Done && !cancelled(i)
    {
      var size := if batchSize <= 0 then DEFAULT_BATCH else batchSize;
      var cutoff := now - Retention(olderThan);
      ghost var before := rows;
      total, end, batches, removed := PruneBatches(cutoff, size, answers, cancelled, arrivals);
      assert Stale(before, cutoff) == set k | k in before && before[k] < cutoff;
      if end == Complete {
        forall k | k in rows ensures rows[k] >= cutoff {
          assert k !in Stale(rows, cutoff);
        }
      }
    }

    method PruneBatches(cutoff: int, size: nat, answers: nat -> DbAnswer, cancelled: nat -> bool,
      arrivals: nat -> Rows) returns (total: nat, end: PruneEnd, batches: nat, ghost removed: nat)
      requires size > 0 && forall i: nat, k | k in arrivals(i) :: arrivals(i)[k] >= cutoff
      modifies this
      ensures batches > 0 && Pruned(rows, old(rows), cutoff, arrivals, removed, batches - 1)
      ensures total <= removed && (end != DbFailed || answers(batches - 1) == Down ==> total == removed)
      ensures end == Complete ==>
        Stale(rows, cutoff) == {} && total == |Stale(old(rows), cutoff)| && batches == total / size + 1
      ensures end == DbFailed <==> answers(batches - 1) != Done
      ensures end == Cancelled ==> cancelled(batches - 1)
      ensures forall i: nat | i < batches - 1 :: answers(i) == Done && !cancelled(i)
    {
      ghost var before := rows;
      total, batches, removed := 0, 0, 0;
      while true
        invariant Pruned(rows, before, cutoff, arrivals, total, batches)
        invariant total == removed == Times(batches, size)
        invariant forall i: nat | i < batches :: answers(i) == Done && !cancelled(i)
        decreases |Stale(rows, cutoff)|
      {
        var counted, stop;
        ghost var gone;
        counted, stop, gone :=
          NextBatch(cutoff, size, answers(batches), cancelled(batches), arrivals, batches, before, removed);
        total, removed, batches := total + counted, removed + gone, batches + 1;
        if stop.Some? {
          if stop.value == Complete {
            LastBatch(rows, before, cutoff, arrivals, total, batches - 1, gone, size);
          }
          return total, stop.value, batches, removed;
        }
        TimesNext(batches, size);
      }
    }

    /** A batch and, unless it ends the loop, what other consumers add after it. */
    method NextBatch(cutoff: int, size: nat, answer: DbAnswer, cancelled: bool, arrivals: nat -> Rows, i: nat,
      ghost before: Rows, ghost removed: nat)
      returns (counted: nat, stop: Option<PruneEnd>, ghost gone: nat)
      requires size > 0 && Pruned(rows, before, cutoff, arrivals, removed, i)
      requires forall i: nat, k | k in arrivals(i) :: arrivals(i)[k] >= cutoff
      modifies this
      ensures Pruned(rows, before, cutoff, arrivals, removed + gone, if stop.Some? then i else i + 1)
      ensures stop.None? ==> !cancelled && counted == gone == size && |Stale(rows, cutoff)| < |Stale(old(rows), cutoff)|
      ensures counted == if answer == Done then gone else 0
      ensures stop == Some(DbFailed) <==> answer != Done
      ensures stop == Some(Cancelled) ==> cancelled
      ensures stop == Some(Complete) ==> gone < size && |Stale(rows, cutoff)| == 0
      ensures answer == Down ==> gone == 0
    {
      counted, stop, gone := OneBatch(cutoff, size, answer, cancelled, before, arrivals, removed, i);
      if stop.None? {
        Interleave(cutoff, arrivals, i, before, removed + gone);
      }
    }
  }

  /** A batch that was not full was the last one. */
  lemma LastBatch(rows: Rows, before: Rows, cutoff: int, arrivals: nat -> Rows, total: nat, full: nat, rest: nat,
    size: nat)
    requires Pruned(rows, before, cutoff, arrivals, total, full) && |Stale(rows, cutoff)| == 0
    requires total == Times(full, size) + rest && rest < size
    ensures Stale(rows, cutoff) == {} && total == |Stale(before, cutoff)| && full == total / size
  {
    CountBatches(total, full, rest, size);
  }

  lemma CountBatches(total: nat, full: nat, rest: nat, size: nat)
    requires total == Times(full, size) + rest && rest < size
    ensures total / size == full
  {
    TimesIsProduct(full, size);
    var q := total / size;
    assert q * size <= total < q * size + size;
    if q < full {
      NextMultiple(q, full, size);
    } else if q > full {
      NextMultiple(full, q, size);
    }
  }

  lemma NextMultiple(a: nat, b: nat, size: nat)
    requires a < b
    ensures a * size + size <= b * size
  {
    assert b * size == a * size + (b - a) * size;
    AtLeastOnce(b - a, size);
  }

  lemma AtLeastOnce(n: nat, size: nat)
    requires n > 0
    ensures n * size >= size
  {
  }
}
