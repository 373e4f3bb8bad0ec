/**
 * Progress of the outbox with one live replica: how soon a pending row is claimed, and how much
 * work a backlog can cause, whatever the broker answers.
 */
module OutboxProgress {
  import opened Common
  import opened Outbox
  import opened OutboxProtocol
  import opened OutboxSafety
  import opened Publishing

  /** Every row of `ids` has been deleted or has counted one more failure; no other row changed. */
  ghost predicate Settles(t: Table, after: Table, ids: set<EventId>) {
    && after.Keys <= t.Keys
    && (forall id | id in t && id !in ids :: id in after && after[id] == t[id])
    && (forall id | id in after && id in ids :: FailedOnce(t[id], after[id]))
  }

  ghost predicate FailedOnce(row: Row, after: Row) {
    && after.attempts == row.attempts + 1 && after.createdAt == row.createdAt
    && after.status == (if row.attempts + 1 >= MAX_OUTBOX_ATTEMPTS then FAILED else PENDING)
  }

  /** The record is to be retried: turned away, refused, or reported as an error. */
  predicate Retries(r: Replica, record: Record, answer: Answer) {
    Rejected(r, record) || ((r.Publisher? || r.connected) && answer.send != Acknowledged)
  }

  lemma RecordSettles(cfg: Config, s: State, r: Replica, record: Record, answer: Answer)
    requires answer.mark != Down
    ensures var t := ExecFrom(cfg, s, RecordActions(r, record, answer)).table;
      if Retries(r, record, answer) then t == FailRows(s.table, record.id, s.now + answer.elapsed)
      else t == s.table - {record.id}
  {
    var acts := RecordActions(r, record, answer);
    assert acts == [] + [acts[0]] + [acts[1]] + [acts[2]];
    ExecStep(cfg, s, [] + [acts[0]] + [acts[1]], acts[2]);
    ExecStep(cfg, s, [] + [acts[0]], acts[1]);
    ExecStep(cfg, s, [], acts[0]);
  }

  lemma SettleOneMore(t: Table, mid: Table, after: Table, ids: set<EventId>, id: EventId, at: int)
    requires Settles(t, mid, ids) && id !in ids
    requires after == mid - {id} || after == FailRows(mid, id, at)
    ensures Settles(t, after, ids + {id})
  {
  }

  lemma OneMoreSettles(cfg: Config, s: State, r: Replica, batch: seq<Action>, record: Record, answer: Answer,
    ids: set<EventId>)
    requires Settles(s.table, ExecFrom(cfg, s, batch).table, ids) && record.id !in ids && answer.mark != Down
    ensures Settles(s.table, ExecFrom(cfg, s, batch + RecordActions(r, record, answer)).table, ids + {record.id})
  {
    var mid := ExecFrom(cfg, s, batch);
    ExecConcat(cfg, s, batch, RecordActions(r, record, answer));
    RecordSettles(cfg, mid, r, record, answer);
    SettleOneMore(s.table, mid.table, ExecFrom(cfg, mid, RecordActions(r, record, answer)).table, ids,
      record.id, mid.now + answer.elapsed);
  }

  lemma {:induction false} BatchSettles(
    cfg: Config, s: State, r: Replica, records: seq<Record>, answers: nat -> Answer)
    requires forall i, j | 0 <= i < j < |records| :: records[i].id != records[j].id
    requires forall i | 0 <= i < |records| :: answers(i).mark != Down
    ensures Settles(s.table, ExecFrom(cfg, s, BatchActions(r, records, answers)).table, IdsOf(records))
  {
    if records != [] {
      var front, last := Front(records), Last(records);
      assert last.id !in IdsOf(front);
      BatchSettles(cfg, s, r, front, answers);
      OneMoreSettles(cfg, s, r, BatchActions(r, front, answers), last, answers(|front|), IdsOf(front));
      assert IdsOf(records) == IdsOf(front) + {last.id} by {
        assert records == front + [last];
      }
    }
  }

  /** A row outlives the batch exactly when every record of it is to be retried. */
  lemma {:induction false} BatchKeepsExactly(
    cfg: Config, s: State, r: Replica, records: seq<Record>, answers: nat -> Answer, id: EventId)
    requires forall i | 0 <= i < |records| :: answers(i).mark != Down
    ensures id in ExecFrom(cfg, s, BatchActions(r, records, answers)).table <==>
      id in s.table && forall i | 0 <= i < |records| :: records[i].id == id ==> Retries(r, records[i], answers(i))
  {
    if records != [] {
      var front, n := Front(records), |records| - 1;
      assert forall i | 0 <= i < n :: records[i] == front[i];
      BatchKeepsExactly(cfg, s, r, front, answers, id);
      OneMoreKeeps(cfg, s, r, BatchActions(r, front, answers), records[n], answers(n), id);
    }
  }

  lemma OneMoreKeeps(cfg: Config, s: State, r: Replica, batch: seq<Action>, record: Record, answer: Answer, id: EventId)
    requires answer.mark != Down
    ensures id in ExecFrom(cfg, s, batch + RecordActions(r, record, answer)).table <==>
      id in ExecFrom(cfg, s, batch).table && (record.id == id ==> Retries(r, record, answer))
  {
    ExecConcat(cfg, s, batch, RecordActions(r, record, answer));
    RecordSettles(cfg, ExecFrom(cfg, s, batch), r, record, answer);
  }

  /** One batch of the only live replica, seen from the table. */
  datatype Round = Round(before: Table, cutoff: int, picked: set<EventId>, after: Table)

  ghost predicate RowsOk(t: Table) {
    forall id | id in t :: RowOk(id, t[id])
  }

  ghost predicate IsRound(b: Round, limit: int) {
    && RowsOk(b.before)
    && Picks(b.before, OpenRows(b.before, b.cutoff, {}), limit, b.picked)
    && Settles(b.before, b.after, b.picked)
  }

  lemma ClaimThenSettles(t: Table, picked: set<EventId>, at: int, after: Table)
    requires picked <= t.Keys && Settles(ClaimRows(t, picked, at), after, picked)
    ensures Settles(t, after, picked)
  {
    var claimed := ClaimRows(t, picked, at);
    assert claimed.Keys == t.Keys;
    forall id | id in after && id in picked ensures FailedOnce(t[id], after[id]) {
      assert FailedOnce(claimed[id], after[id]);
    }
  }

  lemma BatchAfterClaim(cfg: Config, s: State, claim: Action, batch: seq<Action>, held: State, after: State)
    requires after == ExecFrom(cfg, s, [claim] + batch) && held == Apply(cfg, s, claim)
    ensures after == ExecFrom(cfg, held, batch)
  {
    ExecConcat(cfg, s, [claim], batch);
    ExecStep(cfg, s, [], claim);
    assert [] + [claim] == [claim];
  }

  lemma EachIsKeptExactly(cfg: Config, s: State, r: Replica, records: seq<Record>, answers: nat -> Answer)
    requires forall i, j | 0 <= i < j < |records| :: records[i].id != records[j].id
    requires forall i | 0 <= i < |records| :: answers(i).mark != Down && records[i].id in s.table
    ensures var after := ExecFrom(cfg, s, BatchActions(r, records, answers)).table;
      forall i | 0 <= i < |records| :: records[i].id in after <==> Retries(r, records[i], answers(i))
  {
    var after := ExecFrom(cfg, s, BatchActions(r, records, answers)).table;
    forall i | 0 <= i < |records| ensures records[i].id in after <==> Retries(r, records[i], answers(i)) {
      BatchKeepsExactly(cfg, s, r, records, answers, records[i].id);
    }
  }

  /** A poll without repository errors settles what it claimed, whatever the broker answered: a row is deleted
      exactly when its record was neither turned away nor, over a live connection, left unacknowledged. */
  lemma PollSettles(cfg: Config, s: State, r: Replica, limit: int, picked: set<EventId>, records: seq<Record>,
    answers: nat -> Answer, after: State)
    requires 0 <= limit && picked <= s.table.Keys && Scanned(records, s.table, picked, s.now)
    requires after == ExecFrom(cfg, s, PollActions(r, s.now, limit, {}, picked, Done, records, answers))
    requires forall i | 0 <= i < |records| :: answers(i).mark != Down
    ensures Settles(s.table, after.table, picked)
    ensures forall i | 0 <= i < |records| ::
      records[i].id in after.table <==> Retries(r, records[i], answers(i))
  {
    var claim, batch := Claim(r, s.now, limit, {}, picked), BatchActions(r, records, answers);
    var held := Apply(cfg, s, claim);
    BatchAfterClaim(cfg, s, claim, batch, held, after);
    BatchSettles(cfg, held, r, records, answers);
    EachIsKeptExactly(cfg, held, r, records, answers);
    ClaimThenSettles(s.table, picked, s.now, after.table);
  }

  // ---------------------------------------------------------------- remaining attempts

  /** One token for every failure a row can still count before it is parked. */
  ghost function Tokens(t: Table, ids: set<EventId>): set<(EventId, int)> {
    set id, n | id in ids && id in t && t[id].attempts <= n < MAX_OUTBOX_ATTEMPTS :: (id, n)
  }

  lemma {:induction false} TokensBound(t: Table, ids: set<EventId>)
    ensures |Tokens(t, ids)| <= 3 * |ids|
    decreases |ids|
  {
    if ids == {} {
      assert Tokens(t, ids) == {};
    } else {
      var id :| id in ids;
      TokensBound(t, ids - {id});
      assert Tokens(t, ids) <= Tokens(t, ids - {id}) + {(id, 0), (id, 1), (id, 2)};
      SubsetSize(Tokens(t, ids), Tokens(t, ids - {id}) + {(id, 0), (id, 1), (id, 2)});
    }
  }

  /** The token each processed row spends. */
  ghost function Spent(t: Table, picked: set<EventId>): set<(EventId, int)>
    requires picked <= t.Keys
  {
    set id | id in picked :: (id, t[id].attempts as int)
  }

  lemma {:induction false} SpentSize(t: Table, picked: set<EventId>)
    requires picked <= t.Keys
    ensures |Spent(t, picked)| == |picked|
    decreases |picked|
  {
    if picked == {} {
      assert Spent(t, picked) == {};
    } else {
      var id :| id in picked;
      SpentSize(t, picked - {id});
      assert Spent(t, picked) == Spent(t, picked - {id}) + {(id, t[id].attempts as int)};
    }
  }

  /** A round spends a token of every row it processes. */
  lemma RoundSpends(b: Round, limit: int, ids: set<EventId>)
    requires IsRound(b, limit) && b.picked <= ids
    ensures |Tokens(b.after, ids)| + |b.picked| <= |Tokens(b.before, ids)|
  {
    var spent := Spent(b.before, b.picked);
    SpentSize(b.before, b.picked);
    forall id | id in b.picked ensures b.before[id].attempts < MAX_OUTBOX_ATTEMPTS {
      assert RowOk(id, b.before[id]);
    }
    assert spent <= Tokens(b.before, ids);
    forall k | k in Tokens(b.after, ids) ensures k in Tokens(b.before, ids) - spent {
      assert k.0 in b.picked ==> FailedOnce(b.before[k.0], b.after[k.0]);
    }
    SubsetSize(Tokens(b.after, ids), Tokens(b.before, ids) - spent);
  }

  // ---------------------------------------------------------------- a pending row is claimed soon

  /** The rows not parked that are older than time `c`. */
  ghost function Ahead(t: Table, c: int): set<EventId> {
    set id | id in t && t[id].status != FAILED && t[id].createdAt < c
  }

  /** Rows only appear between rounds, and none is as old as `c`. */
  ghost predicate Arrivals(t: Table, grown: Table, c: int) {
    && (forall id | id in t :: id in grown && grown[id] == t[id])
    && (forall id | id in grown && id !in t :: grown[id].createdAt > c)
  }

  ghost predicate Waits(t: Table, x: EventId, c: int) {
    && x in t && t[x].status == PENDING && t[x].createdAt == c
    && forall id | id in t && id != x :: t[id].createdAt != c
  }

  /** A full batch of older rows went first. */
  lemma PassedOver(b: Round, limit: int, x: EventId, c: int)
    requires IsRound(b, limit) && limit > 0 && Waits(b.before, x, c) && x !in b.picked
    ensures |b.picked| == limit && b.picked <= Ahead(b.before, c) && Waits(b.after, x, c)
  {
    var open := OpenRows(b.before, b.cutoff, {});
    assert x in open;
    SubsetSize(b.picked, open);
    forall id | id in b.after && id != x ensures b.after[id].createdAt != c {
      assert id in b.picked ==> FailedOnce(b.before[id], b.after[id]);
    }
  }

  /** What the rows ahead of time `c` can still cost. */
  ghost function Cost(t: Table, c: int): nat {
    |Tokens(t, Ahead(t, c))|
  }

  lemma ArrivalsCostNothing(t: Table, grown: Table, c: int)
    requires Arrivals(t, grown, c)
    ensures Cost(grown, c) == Cost(t, c)
  {
    assert Ahead(grown, c) == Ahead(t, c);
    assert Tokens(grown, Ahead(t, c)) == Tokens(t, Ahead(t, c));
  }

  lemma PassingOverCosts(b: Round, limit: int, x: EventId, c: int)
    requires IsRound(b, limit) && limit > 0 && Waits(b.before, x, c) && x !in b.picked
    ensures Waits(b.after, x, c) && Cost(b.after, c) + limit <= Cost(b.before, c)
  {
    var ids := Ahead(b.before, c);
    PassedOver(b, limit, x, c);
    RoundSpends(b, limit, ids);
    forall id | id in Ahead(b.after, c) ensures id in ids {
      assert id in b.picked ==> FailedOnce(b.before[id], b.after[id]);
    }
    SubsetSize(Tokens(b.after, Ahead(b.after, c)), Tokens(b.after, ids));
  }

  lemma ArrivalsKeepWaits(t: Table, grown: Table, x: EventId, c: int)
    requires Arrivals(t, grown, c) && Waits(t, x, c)
    ensures Waits(grown, x, c)
  {
    forall id | id in grown && id != x ensures grown[id].createdAt != c {
      assert id in t ==> grown[id] == t[id];
    }
  }

  // ---------------------------------------------------------------- runs of one live replica

  /** A poll without repository errors: what happens before it, the rows it claims, the order they come
      back in, and the answers while they are handled. */
  datatype Poll = Poll(between: seq<Action>, picked: set<EventId>, records: seq<Record>, answers: nat -> Answer)

  /** The state in which a poll claims, and the run up to the end of the poll. */
  function AtPoll(cfg: Config, history: seq<Action>, p: Poll): State {
    Exec(cfg, history + p.between)
  }

  function ActsOf(s: State, r: Replica, limit: int, p: Poll): seq<Action> {
    PollActions(r, s.now, limit, {}, p.picked, Done, p.records, p.answers)
  }

  function AfterPoll(cfg: Config, history: seq<Action>, r: Replica, limit: int, p: Poll): seq<Action> {
    history + p.between + ActsOf(AtPoll(cfg, history, p), r, limit, p)
  }

  function RunAfter(cfg: Config, prior: seq<Action>, r: Replica, limit: int, polls: seq<Poll>): seq<Action> {
    if polls == [] then prior
    else AfterPoll(cfg, RunAfter(cfg, prior, r, limit, Front(polls)), r, limit, Last(polls))
  }

  /** The claim is allowed, and so is every step that handles the claimed records. */
  ghost predicate PollIsLegal(cfg: Config, s: State, r: Replica, limit: int, p: Poll) {
    var claim := Claim(r, s.now, limit, {}, p.picked);
    Enabled(cfg, s, claim) && LegalFrom(cfg, Apply(cfg, s, claim), BatchActions(r, p.records, p.answers))
  }

  lemma PollIsLegalMeans(cfg: Config, s: State, r: Replica, limit: nat, p: Poll)
    ensures PollIsLegal(cfg, s, r, limit, p) <==> LegalFrom(cfg, s, ActsOf(s, r, limit, p))
  {
    var claim := Claim(r, s.now, limit, {}, p.picked);
    ClaimThenBatch(cfg, s, claim, BatchActions(r, p.records, p.answers));
  }

  lemma ClaimThenBatch(cfg: Config, s: State, claim: Action, batch: seq<Action>)
    ensures LegalFrom(cfg, s, [claim] + batch) <==>
      Enabled(cfg, s, claim) && LegalFrom(cfg, Apply(cfg, s, claim), batch)
  {
    ExecConcat(cfg, s, [claim], batch);
    ExecStep(cfg, s, [], claim);
    assert [] + [claim] == [claim];
  }

  /** Before the poll time passes and rows younger than `c` are inserted; then only replica r acts. */
  ghost predicate SoloPoll(cfg: Config, history: seq<Action>, r: Replica, limit: int, c: int, p: Poll) {
    && (forall a | a in p.between :: a.Tick? || (a.Insert? && a.createdAt > c))
    && Legal(cfg, history + p.between)
    && PollIsLegal(cfg, AtPoll(cfg, history, p), r, limit, p)
    && p.picked <= AtPoll(cfg, history, p).table.Keys
    && Scanned(p.records, AtPoll(cfg, history, p).table, p.picked, AtPoll(cfg, history, p).now)
    && (forall i | 0 <= i < |p.records| :: p.answers(i).mark != Down)
  }

  /** Any history, followed by such polls only. */
  ghost predicate SoloRun(cfg: Config, prior: seq<Action>, r: Replica, limit: int, c: int, polls: seq<Poll>) {
    if polls == [] then Legal(cfg, prior)
    else
      && SoloRun(cfg, prior, r, limit, c, Front(polls))
      && SoloPoll(cfg, RunAfter(cfg, prior, r, limit, Front(polls)), r, limit, c, Last(polls))
  }

  lemma {:induction false} BetweenArrives(cfg: Config, before: seq<Action>, between: seq<Action>, c: int)
    requires Legal(cfg, before + between)
    requires forall a | a in between :: a.Tick? || (a.Insert? && a.createdAt > c)
    ensures Legal(cfg, before) && Arrivals(Exec(cfg, before).table, Exec(cfg, before + between).table, c)
  {
    if between == [] {
      assert before + between == before;
    } else {
      var a := Last(between);
      assert before + between == (before + Front(between)) + [a];
      ExecStep(cfg, START, before + Front(between), a);
      BetweenArrives(cfg, before, Front(between), c);
      RunKeepsInv(cfg, before + Front(between));
    }
  }

  /** The table before the poll and after it. */
  ghost function RoundOf(cfg: Config, history: seq<Action>, r: Replica, limit: int, p: Poll): Round {
    var s := AtPoll(cfg, history, p);
    Round(s.table, s.now - cfg.staleAfter, p.picked, Exec(cfg, AfterPoll(cfg, history, r, limit, p)).table)
  }

  lemma SoloPollSettles(cfg: Config, history: seq<Action>, r: Replica, limit: nat, c: int, p: Poll)
    requires SoloPoll(cfg, history, r, limit, c, p)
    ensures Settles(AtPoll(cfg, history, p).table, Exec(cfg, AfterPoll(cfg, history, r, limit, p)).table, p.picked)
  {
    var s := AtPoll(cfg, history, p);
    ExecConcat(cfg, START, history + p.between, ActsOf(s, r, limit, p));
    PollSettles(cfg, s, r, limit, p.picked, p.records, p.answers, ExecFrom(cfg, s, ActsOf(s, r, limit, p)));
  }

  /** Such a poll is a round. */
  lemma PollIsRound(cfg: Config, history: seq<Action>, r: Replica, limit: nat, c: int, p: Poll)
    requires SoloPoll(cfg, history, r, limit, c, p)
    ensures IsRound(RoundOf(cfg, history, r, limit, p), limit)
  {
    SoloPollSettles(cfg, history, r, limit, c, p);
    HistoryRowsOk(cfg, history + p.between);
    SettledClaimIsRound(cfg, AtPoll(cfg, history, p), r, limit, p, RoundOf(cfg, history, r, limit, p));
  }

  lemma SettledClaimIsRound(cfg: Config, s: State, r: Replica, limit: nat, p: Poll, b: Round)
    requires PollIsLegal(cfg, s, r, limit, p) && RowsOk(s.table) && Settles(s.table, b.after, p.picked)
    requires b.before == s.table && b.cutoff == s.now - cfg.staleAfter && b.picked == p.picked
    ensures IsRound(b, limit)
  {
  }

  lemma HistoryRowsOk(cfg: Config, acts: seq<Action>)
    requires Legal(cfg, acts)
    ensures RowsOk(Exec(cfg, acts).table)
  {
    RunKeepsInv(cfg, acts);
  }

  /** Only arrivals separate it from what came before. */
  lemma PollFollowsArrivals(cfg: Config, history: seq<Action>, r: Replica, limit: nat, c: int, p: Poll)
    requires SoloPoll(cfg, history, r, limit, c, p)
    ensures Arrivals(Exec(cfg, history).table, RoundOf(cfg, history, r, limit, p).before, c)
  {
    BetweenArrives(cfg, history, p.between, c);
  }

  /** While row x is passed over, every poll uses up `limit` of what the rows ahead can cost. */
  lemma {:induction false} PassedOverSpends(
    cfg: Config, prior: seq<Action>, r: Replica, limit: nat, c: int, polls: seq<Poll>, x: EventId)
    requires SoloRun(cfg, prior, r, limit, c, polls) && Waits(Exec(cfg, prior).table, x, c)
    requires limit > 0 && forall p | p in polls :: x !in p.picked
    ensures var t := Exec(cfg, RunAfter(cfg, prior, r, limit, polls)).table;
      Waits(t, x, c) && Cost(t, c) + Times(|polls|, limit) <= Cost(Exec(cfg, prior).table, c)
  {
    if polls != [] {
      var h := RunAfter(cfg, prior, r, limit, Front(polls));
      var b, t := RoundOf(cfg, h, r, limit, Last(polls)), Exec(cfg, h).table;
      PassedOverSpends(cfg, prior, r, limit, c, Front(polls), x);
      PollIsRound(cfg, h, r, limit, c, Last(polls));
      PollFollowsArrivals(cfg, h, r, limit, c, Last(polls));
      ArrivalsCostNothing(t, b.before, c);
      ArrivalsKeepWaits(t, b.before, x, c);
      assert Last(polls) in polls;
      PassingOverCosts(b, limit, x, c);
    }
  }

  /** With k unparked rows older than x, x is claimed as soon as the polls could have taken more than 3k rows:
      within floor(3k/limit) + 1 polls. */
  lemma {:induction false} PendingRowIsClaimedSoon(
    cfg: Config, prior: seq<Action>, r: Replica, limit: nat, c: int, polls: seq<Poll>, x: EventId)
    requires SoloRun(cfg, prior, r, limit, c, polls) && Waits(Exec(cfg, prior).table, x, c)
    requires |polls| * limit > 3 * |Ahead(Exec(cfg, prior).table, c)|
    ensures exists i :: 0 <= i < |polls| && x in polls[i].picked
  {
    var t := Exec(cfg, prior).table;
    if forall i | 0 <= i < |polls| :: x !in polls[i].picked {
      TimesIsProduct(|polls|, limit);
      assert limit > 0;
      PassedOverSpends(cfg, prior, r, limit, c, polls, x);
      TokensBound(t, Ahead(t, c));
    }
  }

  // ---------------------------------------------------------------- a backlog causes bounded work

  /** The records handled, one publish attempt each. */
  function Processed(polls: seq<Poll>): nat {
    if polls == [] then 0 else Processed(Front(polls)) + |Last(polls).records|
  }

  ghost predicate NoInserts(polls: seq<Poll>) {
    forall p | p in polls :: forall a | a in p.between :: a.Tick?
  }

  ghost function PendingIds(t: Table): set<EventId> {
    set id | id in t && t[id].status == PENDING
  }

  /** Nothing is in flight. */
  ghost predicate Settled(t: Table) {
    forall id | id in t :: t[id].status in {PENDING, FAILED}
  }

  lemma {:induction false} IdsOfSize(records: seq<Record>)
    requires forall i, j | 0 <= i < j < |records| :: records[i].id != records[j].id
    ensures |IdsOf(records)| == |records|
  {
    if records != [] {
      var front, last := Front(records), Last(records);
      IdsOfSize(front);
      assert last.id !in IdsOf(front);
      assert IdsOf(records) == IdsOf(front) + {last.id} by {
        assert records == front + [last];
      }
    }
  }

  lemma {:induction false} TicksKeepTable(cfg: Config, before: seq<Action>, between: seq<Action>)
    requires forall a | a in between :: a.Tick?
    ensures Exec(cfg, before + between).table == Exec(cfg, before).table
  {
    if between == [] {
      assert before + between == before;
    } else {
      assert before + between == (before + Front(between)) + [Last(between)];
      ExecStep(cfg, START, before + Front(between), Last(between));
      TicksKeepTable(cfg, before, Front(between));
    }
  }

  /** A round over a settled table spends tokens of the rows of the backlog only. */
  lemma RoundDrains(b: Round, limit: int, all: set<EventId>)
    requires IsRound(b, limit) && limit > 0 && Settled(b.before) && PendingIds(b.before) <= all
    ensures |Tokens(b.after, all)| + |b.picked| <= |Tokens(b.before, all)|
    ensures Settled(b.after) && PendingIds(b.after) <= PendingIds(b.before)
    ensures b.picked == {} ==> PendingIds(b.after) == {}
  {
    var open := OpenRows(b.before, b.cutoff, {});
    assert open == PendingIds(b.before);
    RoundSpends(b, limit, all);
    forall id | id in b.after ensures b.after[id].status in {PENDING, FAILED} {
      assert id in b.picked ==> FailedOnce(b.before[id], b.after[id]);
    }
  }

  lemma {:induction false} DrainSpends(
    cfg: Config, prior: seq<Action>, r: Replica, limit: int, c: int, polls: seq<Poll>, all: set<EventId>)
    requires SoloRun(cfg, prior, r, limit, c, polls) && NoInserts(polls) && limit > 0
    requires Settled(Exec(cfg, prior).table) && all == PendingIds(Exec(cfg, prior).table)
    ensures var t := Exec(cfg, RunAfter(cfg, prior, r, limit, polls)).table;
      && Processed(polls) + |Tokens(t, all)| <= |Tokens(Exec(cfg, prior).table, all)|
      && Settled(t) && PendingIds(t) <= all
      && (polls != [] && Last(polls).picked == {} ==> PendingIds(t) == {})
      && (Processed(polls) >= |polls| || PendingIds(t) == {})
  {
    if polls != [] {
      var h, p := RunAfter(cfg, prior, r, limit, Front(polls)), Last(polls);
      DrainSpends(cfg, prior, r, limit, c, Front(polls), all);
      PollIsRound(cfg, h, r, limit, c, p);
      assert p in polls;
      TicksKeepTable(cfg, h, p.between);
      RoundDrains(RoundOf(cfg, h, r, limit, p), limit, all);
      IdsOfSize(p.records);
    }
  }

  /** After `full` polls that took a whole batch, each further poll takes every pending row. */
  ghost predicate Draining(t: Table, limit: nat, all: set<EventId>, tokens: nat, polls: nat, full: nat) {
    && full <= polls && Times(full, limit) + |Tokens(t, all)| <= tokens
    && (full < polls ==> |PendingIds(t)| < limit)
    && (forall id | id in PendingIds(t) :: t[id].attempts >= polls - full)
  }

  lemma RoundKeepsDraining(b: Round, limit: nat, all: set<EventId>, tokens: nat, polls: nat, full: nat)
    returns (more: nat)
    requires IsRound(b, limit) && limit > 0 && Settled(b.before) && PendingIds(b.before) <= all
    requires Draining(b.before, limit, all, tokens, polls, full)
    ensures Draining(b.after, limit, all, tokens, polls + 1, more)
  {
    var open := OpenRows(b.before, b.cutoff, {});
    assert open == PendingIds(b.before);
    RoundDrains(b, limit, all);
    SubsetSize(PendingIds(b.after), PendingIds(b.before));
    if |b.picked| == limit && full == polls {
      more := full + 1;
      TimesNext(more, limit);
    } else {
      more := full;
      SubsetSize(b.picked, open);
      forall id | id in PendingIds(b.after) ensures b.after[id].attempts >= polls + 1 - full {
        assert id in b.picked && FailedOnce(b.before[id], b.after[id]);
      }
    }
  }

  lemma {:induction false} PollsDrain(
    cfg: Config, prior: seq<Action>, r: Replica, limit: nat, c: int, polls: seq<Poll>, all: set<EventId>)
    returns (full: nat)
    requires SoloRun(cfg, prior, r, limit, c, polls) && NoInserts(polls) && limit > 0
    requires Settled(Exec(cfg, prior).table) && all == PendingIds(Exec(cfg, prior).table)
    ensures Draining(Exec(cfg, RunAfter(cfg, prior, r, limit, polls)).table, limit, all,
      |Tokens(Exec(cfg, prior).table, all)|, |polls|, full)
  {
    if polls == [] {
      full := 0;
    } else {
      var h, p := RunAfter(cfg, prior, r, limit, Front(polls)), Last(polls);
      full := PollsDrain(cfg, prior, r, limit, c, Front(polls), all);
      DrainSpends(cfg, prior, r, limit, c, Front(polls), all);
      PollIsRound(cfg, h, r, limit, c, p);
      assert p in polls;
      TicksKeepTable(cfg, h, p.between);
      full := RoundKeepsDraining(
        RoundOf(cfg, h, r, limit, p), limit, all, |Tokens(Exec(cfg, prior).table, all)|, |Front(polls)|, full);
    }
  }

  /** Enough polls for N pending rows: more than 3N of them, or three after as many as could be full. */
  predicate Enough(polls: nat, n: nat, limit: nat)
    requires limit > 0
  {
    polls > 3 * n || polls >= 3 * n / limit + 3
  }

  lemma ThreeAfterTheFull(t: Table, limit: nat, all: set<EventId>, n: nat, tokens: nat, polls: nat, full: nat)
    requires Draining(t, limit, all, tokens, polls, full) && tokens <= 3 * n && RowsOk(t)
    requires limit > 0 && polls >= 3 * n / limit + 3
    ensures PendingIds(t) == {}
  {
    TimesIsProduct(full, limit);
    QuotientBound(full, limit, 3 * n);
    forall id | id in t ensures t[id].status == PENDING ==> t[id].attempts < polls - full {
      assert RowOk(id, t[id]);
    }
  }

  lemma QuotientBound(q: nat, d: nat, n: nat)
    requires d > 0 && q * d <= n
    ensures q <= n / d
  {
    assert n < (n / d + 1) * d;
    assert q * d < (n / d + 1) * d;
  }

  /** N pending rows cause at most 3N publish attempts, and after enough polls, or a poll that has found
      nothing, every row is deleted or parked. */
  lemma BacklogIsSettledIn3N(cfg: Config, prior: seq<Action>, r: Replica, limit: nat, c: int, polls: seq<Poll>)
    requires SoloRun(cfg, prior, r, limit, c, polls) && NoInserts(polls) && limit > 0
    requires Settled(Exec(cfg, prior).table)
    ensures Processed(polls) <= 3 * |PendingIds(Exec(cfg, prior).table)|
    ensures (Enough(|polls|, |PendingIds(Exec(cfg, prior).table)|, limit) || (polls != [] && Last(polls).picked == {}))
      ==> NothingPending(Exec(cfg, RunAfter(cfg, prior, r, limit, polls)).table)
  {
    var all, h := PendingIds(Exec(cfg, prior).table), RunAfter(cfg, prior, r, limit, polls);
    var t := Exec(cfg, h).table;
    DrainSpends(cfg, prior, r, limit, c, polls, all);
    TokensBound(Exec(cfg, prior).table, all);
    var full := PollsDrain(cfg, prior, r, limit, c, polls, all);
    SoloRunIsLegal(cfg, prior, r, limit, c, polls);
    HistoryRowsOk(cfg, h);
    if |polls| >= 3 * |all| / limit + 3 {
      ThreeAfterTheFull(t, limit, all, |all|, |Tokens(Exec(cfg, prior).table, all)|, |polls|, full);
    }
    forall id | id in t && PendingIds(t) == {} ensures t[id].status == FAILED {
      assert id !in PendingIds(t);
    }
  }

  ghost predicate NothingPending(t: Table) {
    forall id | id in t :: t[id].status == FAILED
  }

  // ---------------------------------------------------------------- the ticker loop

  lemma {:induction false} SoloRunIsLegal(
    cfg: Config, prior: seq<Action>, r: Replica, limit: nat, c: int, polls: seq<Poll>)
    requires SoloRun(cfg, prior, r, limit, c, polls)
    ensures Legal(cfg, RunAfter(cfg, prior, r, limit, polls))
  {
    if polls != [] {
      var h, p := RunAfter(cfg, prior, r, limit, Front(polls)), Last(polls);
      SoloRunIsLegal(cfg, prior, r, limit, c, Front(polls));
      PollIsLegalMeans(cfg, AtPoll(cfg, h, p), r, limit, p);
      ExecConcat(cfg, START, h + p.between, ActsOf(AtPoll(cfg, h, p), r, limit, p));
    }
  }

  /** The history so far has led to this heap, and the driver is between two polls. */
  ghost predicate Ready(d: Driver, history: seq<Action>, world: State)
    reads d.repo, d.broker
  {
    && Legal(d.Cfg(), history) && world == Exec(d.Cfg(), history)
    && d.Views(world) && Idle(world, d.replica)
  }

  /** One tick: wait, then processBatch, with nobody else at work. */
  method OneTick(d: Driver, wait: nat, answers: nat -> Answer, world: State, ghost history: seq<Action>, ghost c: int)
    returns (after: State, ghost p: Poll)
    requires d.batchSize > 0 && Ready(d, history, world) && forall j: nat :: answers(j).mark != Down
    modifies d.repo, d.broker
    ensures p.between == [Tick(wait)] && SoloPoll(d.Cfg(), history, d.replica, d.batchSize, c, p)
    ensures Ready(d, AfterPoll(d.Cfg(), history, d.replica, d.batchSize, p), after)
  {
    var s := world.(now := world.now + wait);
    ghost var picked, records;
    AloneIsAlongside(d.Cfg(), d.replica);
    after, picked, records := d.ProcessBatch({}, Done, answers, ALONE, s);
    AlonePoll(d.Cfg(), s, d.replica, d.batchSize, {}, picked, Done, records, answers);
    p := Poll([Tick(wait)], picked, records, answers);
    TickThenPoll(d.Cfg(), history, wait, d.replica, d.batchSize, c, p, s, after);
  }

  lemma TickThenPoll(cfg: Config, history: seq<Action>, wait: nat, r: Replica, limit: nat, c: int, p: Poll,
    s: State, after: State)
    requires Legal(cfg, history) && s == Apply(cfg, Exec(cfg, history), Tick(wait)) && p.between == [Tick(wait)]
    requires Runs(cfg, s, ActsOf(s, r, limit, p), after)
    requires p.picked <= s.table.Keys && Scanned(p.records, s.table, p.picked, s.now)
    requires forall j: nat :: p.answers(j).mark != Down
    ensures SoloPoll(cfg, history, r, limit, c, p)
    ensures Legal(cfg, AfterPoll(cfg, history, r, limit, p)) && after == Exec(cfg, AfterPoll(cfg, history, r, limit, p))
  {
    ExecStep(cfg, START, history, Tick(wait));
    PollIsLegalMeans(cfg, s, r, limit, p);
    ExecConcat(cfg, START, history + p.between, ActsOf(s, r, limit, p));
  }

  lemma OneMorePoll(cfg: Config, prior: seq<Action>, r: Replica, limit: nat, c: int, polls: seq<Poll>, p: Poll)
    requires SoloRun(cfg, prior, r, limit, c, polls) && NoInserts(polls)
    requires SoloPoll(cfg, RunAfter(cfg, prior, r, limit, polls), r, limit, c, p)
    requires forall a | a in p.between :: a.Tick?
    ensures SoloRun(cfg, prior, r, limit, c, polls + [p]) && NoInserts(polls + [p])
    ensures RunAfter(cfg, prior, r, limit, polls + [p])
      == AfterPoll(cfg, RunAfter(cfg, prior, r, limit, polls), r, limit, p)
  {
    assert Front(polls + [p]) == polls && Last(polls + [p]) == p;
  }

  lemma {:induction false} TicksSettle(
    cfg: Config, prior: seq<Action>, r: Replica, limit: nat, c: int, polls: seq<Poll>)
    requires SoloRun(cfg, prior, r, limit, c, polls) && NoInserts(polls) && limit > 0
    ensures var before, after := Exec(cfg, prior).table, Exec(cfg, RunAfter(cfg, prior, r, limit, polls)).table;
      Settled(before) && Enough(|polls|, |PendingIds(before)|, limit) ==> NothingPending(after)
  {
    if Settled(Exec(cfg, prior).table) {
      BacklogIsSettledIn3N(cfg, prior, r, limit, c, polls);
    }
  }

  /** The ticker loop of Start, polling n times while nobody else acts, is such a run; so once it has polled
      often enough for the backlog, every row has been deleted or parked. */
  method PollOnTicks(d: Driver, n: nat, waits: nat -> nat, answers: nat -> nat -> Answer, world: State,
    ghost prior: seq<Action>, ghost c: int) returns (after: State, ghost polls: seq<Poll>)
    requires d.batchSize > 0 && Ready(d, prior, world) && forall i: nat, j: nat :: answers(i)(j).mark != Down
    modifies d.repo, d.broker
    ensures |polls| == n && NoInserts(polls) && SoloRun(d.Cfg(), prior, d.replica, d.batchSize, c, polls)
    ensures Ready(d, RunAfter(d.Cfg(), prior, d.replica, d.batchSize, polls), after)
    ensures Settled(old(d.repo.rows)) && Enough(n, |PendingIds(old(d.repo.rows))|, d.batchSize) ==>
      NothingPending(d.repo.rows)
  {
    after, polls := world, [];
    for i := 0 to n
      invariant |polls| == i && NoInserts(polls) && SoloRun(d.Cfg(), prior, d.replica, d.batchSize, c, polls)
      invariant Ready(d, RunAfter(d.Cfg(), prior, d.replica, d.batchSize, polls), after)
    {
      ghost var history := RunAfter(d.Cfg(), prior, d.replica, d.batchSize, polls);
      ghost var p;
      after, p := OneTick(d, waits(i), answers(i), after, history, c);
      OneMorePoll(d.Cfg(), prior, d.replica, d.batchSize, c, polls, p);
      polls := polls + [p];
    }
    TicksSettle(d.Cfg(), prior, d.replica, d.batchSize, c, polls);
  }
}
