/** The outbox table and the SQL repository over it (repository_sql.go, outbox.go). */
module Outbox {
  import opened Common

  /** Event ids are opaque; PostgreSQL's primary key makes them unique in the table. */
  type EventId = nat

  datatype Status = PENDING | PUBLISHED | PROCESSING | FAILED

  /** A stored payload: either it cannot be decoded and encoded again, or it carries an event id. */
  datatype Payload = Undecodable | Encoded(eventId: EventId)

  datatype Row = Row(
    status: Status, attempts: nat, lastAttemptAt: Option<int>, createdAt: int, payload: Payload)

  type Table = map<EventId, Row>

  /** What a claim returns for one row; the claim time is the row's last_attempt_at. */
  datatype Record = Record(id: EventId, payload: Payload, attempts: nat, claimedAt: int)

  const MAX_OUTBOX_ATTEMPTS := 3

  function NewRow(createdAt: int, payload: Payload): Row {
    Row(PENDING, 0, None, createdAt, payload)
  }

  /** A claim from before the cutoff that is still not finished. */
  predicate Outlived(row: Row, cutoff: int) {
    row.status == PROCESSING && row.lastAttemptAt.Some? && row.lastAttemptAt.value < cutoff
  }

  predicate Eligible(row: Row, cutoff: int) {
    row.status == PENDING || Outlived(row, cutoff)
  }

  /** The rows a claim may take: eligible, and not locked by a concurrent claim. */
  function OpenRows(t: Table, cutoff: int, locked: set<EventId>): set<EventId> {
    set id | id in t && Eligible(t[id], cutoff) && id !in locked
  }

  /** None of the open rows left behind is older than a picked one. */
  ghost predicate Oldest(t: Table, open: set<EventId>, picked: set<EventId>)
    requires open <= t.Keys
  {
    picked <= open && forall p, q | p in picked && q in open - picked :: t[p].createdAt <= t[q].createdAt
  }

  /** `picked` is one possible answer to ORDER BY created_at LIMIT limit over the open rows. */
  ghost predicate Picks(t: Table, open: set<EventId>, limit: int, picked: set<EventId>)
    requires open <= t.Keys
  {
    |picked| == Min(limit, |open|) && Oldest(t, open, picked)
  }

  lemma PassedOverWhenFull(t: Table, cutoff: int, locked: set<EventId>, limit: nat, picked: set<EventId>)
    requires Picks(t, OpenRows(t, cutoff, locked), limit, picked)
    ensures forall q | q in t && q !in picked && q !in locked && Eligible(t[q], cutoff) ::
      |picked| == limit && forall p | p in picked :: t[p].createdAt <= t[q].createdAt
  {
    SubsetSize(picked, OpenRows(t, cutoff, locked));
  }

  lemma OneMoreOldest(t: Table, open: set<EventId>, picked: set<EventId>, id: EventId)
    requires open <= t.Keys && Oldest(t, open, picked) && id in open - picked
    requires forall q | q in open - picked :: t[id].createdAt <= t[q].createdAt
    ensures Oldest(t, open, picked + {id})
  {
  }

  function ClaimRow(row: Row, at: int): Row {
    row.(status := PROCESSING, lastAttemptAt := Some(at))
  }

  function ClaimRows(t: Table, picked: set<EventId>, at: int): Table {
    map id | id in t :: if id in picked then ClaimRow(t[id], at) else t[id]
  }

  function FailRow(row: Row, at: int): Row {
    row.(attempts := row.attempts + 1, lastAttemptAt := Some(at),
    status := if row.attempts + 1 >= MAX_OUTBOX_ATTEMPTS then FAILED else PENDING)
  }

  function FailRows(t: Table, id: EventId, at: int): Table {
    if id in t then t[id := FailRow(t[id], at)] else t
  }

  function RecordOf(t: Table, id: EventId, at: int): Record
    requires id in t
  {
    Record(id, t[id].payload, t[id].attempts, at)
  }

  function IdsOf(records: seq<Record>): set<EventId> {
    set r | r in records :: r.id
  }

  /** `records` lists exactly the claimed rows, each once, with their values before the claim. */
  ghost predicate Scanned(records: seq<Record>, before: Table, claimed: set<EventId>, at: int)
    requires claimed <= before.Keys
  {
    && IdsOf(records) == claimed
    && (forall i | 0 <= i < |records| ::
      records[i].id in claimed && records[i] == RecordOf(before, records[i].id, at))
    && (forall i, j | 0 <= i < j < |records| :: records[i].id != records[j].id)
  }

  /** How the database answers a statement. `Lost` executes the statement but reports an error. */
  datatype DbAnswer = Done | Lost | Down

  class SqlOutboxRepository {
    var rows: Table
    const staleAfter: nat // processingClaimStaleAfter

    constructor (staleAfter: nat)
      ensures rows == map[] && this.staleAfter == staleAfter
    {
      rows := map[];
      this.staleAfter := staleAfter;
    }

    /** Inserting an id that is already present violates the primary key. */
    method CreateOutboxRecord(id: EventId, row: Row) returns (res: Result<()>)
      modifies this
      ensures res.Success? <==> id !in old(rows)
      ensures rows == if id in old(rows) then old(rows) else old(rows)[id := row]
    {
      if id in rows {
        return Failure("insert outbox record");
      }
      rows := rows[id := row];
      res := Success(());
    }

    /** CreateOutboxRecordInTx: the record and its payload carry the same event id; an event that cannot be
        encoded is not stored. */
    method CreateOutboxRecordInTx(eventId: EventId, now: int, encodes: bool) returns (res: Result<()>)
      modifies this
      ensures res.Success? <==> encodes && eventId !in old(rows)
      ensures res.Success? ==>
        && eventId in rows && rows[eventId] == Row(PENDING, 0, None, now, Encoded(eventId))
        && rows - {eventId} == old(rows)
      ensures res.Failure? ==> rows == old(rows)
    {
      if !encodes {
        return Failure("marshal event payload");
      }
      res := CreateOutboxRecord(eventId, NewRow(now, Encoded(eventId)));
    }

    /** The documented use: one transaction changes the domain's own rows and stores the event. Both are
        committed or neither is; `change` is None when the domain operation fails, and COMMIT may take effect
        although its answer is lost. */
    method CommitWithOutbox<T>(domain: T, change: Option<T>, eventId: EventId, now: int, encodes: bool,
      commit: DbAnswer) returns (res: Result<()>, after: T)
      modifies this
      ensures var committed := change.Some? && encodes && eventId !in old(rows) && commit != Down;
        && after == (if committed then change.value else domain)
        && rows == (if committed then old(rows)[eventId := Row(PENDING, 0, None, now, Encoded(eventId))] else old(rows))
        && (res.Success? <==> committed && commit == Done)
    {
      if change.None? {
        return Failure("domain operation"), domain;
      }
      var before := rows;
      res := CreateOutboxRecordInTx(eventId, now, encodes);
      if res.Failure? {
        return res, domain;
      }
      assert rows == before[eventId := NewRow(now, Encoded(eventId))] by {
        assert forall id | id in before :: id in rows - {eventId};
        assert forall id | id in rows && id != eventId :: id in rows - {eventId};
      }
      if commit == Down {
        rows := before; // the caller's deferred rollback
        return Failure("commit"), domain;
      }
      after := change.value;
      res := if commit == Lost then Failure("commit") else Success(());
    }

    method PickOldest(open: set<EventId>, limit: int) returns (picked: set<EventId>)
      requires open <= rows.Keys && 0 <= limit
      ensures Picks(rows, open, limit, picked)
    {
      picked := {};
      while |picked| < limit && picked != open
        invariant |picked| <= limit && Oldest(rows, open, picked)
        decreases open - picked
      {
        var rest := open - picked;
        LeastExists(map id | id in rows :: rows[id].createdAt, rest);
        var id :| id in rest && forall q | q in rest :: rows[id].createdAt <= rows[q].createdAt;
        OneMoreOldest(rows, open, picked, id);
        picked := picked + {id};
      }
      SubsetSize(picked, open);
    }

    /** The rows loop: RETURNING yields the claimed rows in no particular order. */
    static method ScanRows(before: Table, claimed: set<EventId>, at: int) returns (records: seq<Record>)
      requires claimed <= before.Keys
      ensures Scanned(records, before, claimed, at)
    {
      records := [];
      var left := claimed;
      while left != {}
        invariant left <= claimed
        invariant Scanned(records, before, claimed - left, at)
        decreases left
      {
        var id :| id in left;
        ghost var earlier := records;
        records := records + [RecordOf(before, id, at)];
        assert IdsOf(records) == IdsOf(earlier) + {id} by {
          assert forall r :: r in records <==> r in earlier || r == RecordOf(before, id, at);
        }
        left := left - {id};
        assert IdsOf(records) == claimed - left;
      }
      assert claimed - left == claimed;
    }

    /** The claim: one atomic UPDATE over the oldest open rows, then a loop over the returned rows. */
    method GetPendingRecords(limit: int, now: int, locked: set<EventId>, db: DbAnswer)
      returns (res: Result<seq<Record>>, ghost picked: set<EventId>)
      modifies this
      ensures res.Success? <==> db == Done && 0 <= limit
      ensures db == Down || limit < 0 ==> picked == {} && rows == old(rows)
      ensures db != Down && 0 <= limit ==>
        Picks(old(rows), OpenRows(old(rows), now - staleAfter, locked), limit, picked)
      ensures rows == ClaimRows(old(rows), picked, now)
      ensures res.Success? ==> Scanned(res.value, old(rows), picked, now)
      // what may be claimed
      ensures forall id | id in picked ::
        && id in old(rows) && id !in locked
        && (old(rows)[id].status == PENDING || Outlived(old(rows)[id], now - staleAfter))
      // what is passed over: only when the batch is full, and nothing older than what is taken
      ensures db != Down && 0 <= limit ==>
        forall q | q in old(rows) && q !in picked && q !in locked
          && (old(rows)[q].status == PENDING || Outlived(old(rows)[q], now - staleAfter)) ::
          |picked| == limit && forall p | p in picked :: old(rows)[p].createdAt <= old(rows)[q].createdAt
      // what a claim changes, and what it answers
      ensures rows.Keys == old(rows).Keys
      ensures forall id | id in old(rows) && id !in picked :: rows[id] == old(rows)[id]
      ensures forall id | id in picked ::
        rows[id] == old(rows)[id].(status := PROCESSING, lastAttemptAt := Some(now))
      ensures res.Success? ==>
        forall r | r in res.value ::
          r.id in picked && r == Record(r.id, old(rows)[r.id].payload, old(rows)[r.id].attempts, now)
    {
      picked := {};
      if db == Down || limit < 0 {
        assert rows == ClaimRows(rows, {}, now);
        return Failure("query pending records"), picked;
      }
      var chosen := PickOldest(OpenRows(rows, now - staleAfter, locked), limit);
      PassedOverWhenFull(rows, now - staleAfter, locked, limit, chosen);
      picked := chosen;
      var before := rows;
      rows := ClaimRows(rows, chosen, now);
      if db == Lost {
        return Failure("rows error"), picked;
      }
      var records := ScanRows(before, chosen, now);
      res := Success(records);
    }

    /** Deletes the row by id alone, whatever its status and whoever claimed it. */
    method MarkAsPublished(id: EventId, db: DbAnswer) returns (res: Result<()>)
      modifies this
      ensures rows == if db == Down then old(rows) else old(rows) - {id}
      ensures db == Done ==> (res.Success? <==> id in old(rows)) && (res.Failure? ==> res.error == "event not found")
      ensures db != Done ==> res.Failure?
    {
      if db == Down {
        return Failure("delete published outbox record");
      }
      var affected := if id in rows then 1 else 0;
      rows := rows - {id};
      if db == Lost {
        return Failure("rows affected");
      }
      res := if affected == 0 then Failure("event not found") else Success(());
    }

    /** Counts one failure by id alone; an id that is gone is not an error. */
    method MarkAsFailed(id: EventId, at: int, db: DbAnswer) returns (res: Result<()>)
      modifies this
      ensures rows == if db == Down then old(rows) else FailRows(old(rows), id, at)
      ensures db != Down && id in old(rows) ==>
        var row := old(rows)[id];
        rows == old(rows)[id := Row(if row.attempts + 1 >= 3 then FAILED else PENDING, row.attempts + 1, Some(at),
          row.createdAt, row.payload)]
      ensures db == Down || id !in old(rows) ==> rows == old(rows)
      ensures res.Success? <==> db == Done
    {
      if db != Down && id in rows {
        var row := rows[id];
        var failed := row.(attempts := row.attempts + 1, lastAttemptAt := Some(at));
        rows := rows[id := failed.(status := if row.attempts + 1 >= MAX_OUTBOX_ATTEMPTS then FAILED else PENDING)];
      }
      res := if db == Done then Success(()) else Failure("update outbox record");
    }
  }
}
