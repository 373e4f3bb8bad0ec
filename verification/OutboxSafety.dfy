/** What every run of the outbox protocol keeps: no loss, bounded attempts, exclusive claims. */
module OutboxSafety {
  import opened Common
  import opened Outbox
  import opened OutboxProtocol

  /** Events a replica with a nil connection reported as sent without sending them. */
  ghost function SkippedSends(acts: seq<Action>): set<EventId> {
    set a | a in acts && a.Send? && a.ok && !a.accepted :: a.id
  }

  ghost predicate RowOk(id: EventId, row: Row) {
    && row.status != PUBLISHED
    && (row.status == FAILED <==> row.attempts >= MAX_OUTBOX_ATTEMPTS)
    && (row.status == PROCESSING ==> row.lastAttemptAt.Some?)
    && (row.payload.Encoded? ==> row.payload.eventId == id)
  }

  ghost predicate HeldOk(s: State, k: Slot, skipped: set<EventId>) {
    && k in s.held && k.id in s.committed
    && s.held[k].record.id == k.id
    && s.held[k].record.attempts < MAX_OUTBOX_ATTEMPTS
    && s.held[k].record.claimedAt <= s.now
    && (s.held[k].record.payload.Encoded? ==> s.held[k].record.payload.eventId == k.id)
    && (s.held[k].phase == Acked ==> InLog(s.log, k.id) || k.id in skipped)
  }

  ghost predicate Inv(s: State, skipped: set<EventId>) {
    && s.table.Keys <= s.committed
    && (forall id | id in s.table :: RowOk(id, s.table[id]))
    && (forall k | k in s.held :: HeldOk(s, k, skipped))
    && (forall id | id in s.committed :: id in s.table || InLog(s.log, id) || id in skipped)
  }

  lemma StepKeepsInv(cfg: Config, s: State, a: Action, skipped: set<EventId>, more: set<EventId>)
    requires Inv(s, skipped) && Enabled(cfg, s, a) && skipped <= more
    requires a.Send? && a.ok && !a.accepted ==> a.id in more
    ensures Inv(Apply(cfg, s, a), more)
  {
    if a.Send? {
      AcceptGrows(s.log, cfg.window, MessageId(s, Slot(a.replica, a.id)), s.now);
    } else if a.Claim? {
      ClaimKeepsInv(cfg, s, a, skipped, more);
    }
  }

  lemma ClaimKeepsInv(cfg: Config, s: State, a: Action, skipped: set<EventId>, more: set<EventId>)
    requires Inv(s, skipped) && Enabled(cfg, s, a) && skipped <= more && a.Claim?
    ensures Inv(Apply(cfg, s, a), more)
  {
  }

  lemma {:induction false} RunKeepsInv(cfg: Config, acts: seq<Action>)
    requires Legal(cfg, acts)
    ensures Inv(Exec(cfg, acts), SkippedSends(acts))
  {
    if acts != [] {
      RunKeepsInv(cfg, Front(acts));
      assert acts == Front(acts) + [Last(acts)];
      StepKeepsInv(cfg, Exec(cfg, Front(acts)), Last(acts), SkippedSends(Front(acts)), SkippedSends(acts));
    }
  }

  // ---------------------------------------------------------------- no loss

  ghost predicate Inserted(acts: seq<Action>, id: EventId) {
    exists a | a in acts :: a.Insert? && a.id == id
  }

  ghost predicate AcceptedByBroker(acts: seq<Action>, id: EventId) {
    exists a | a in acts :: a.Send? && a.accepted && a.id == id
  }

  lemma {:induction false} CommittedMeansInserted(cfg: Config, acts: seq<Action>, id: EventId)
    requires Legal(cfg, acts)
    ensures id in Exec(cfg, acts).committed <==> Inserted(acts, id)
  {
    if acts != [] {
      CommittedMeansInserted(cfg, Front(acts), id);
      assert acts == Front(acts) + [Last(acts)];
    }
  }

  lemma StepLogs(cfg: Config, s: State, a: Action, skipped: set<EventId>, id: EventId)
    requires Inv(s, skipped) && Enabled(cfg, s, a)
    ensures InLog(Apply(cfg, s, a).log, id) <==> InLog(s.log, id) || (a.Send? && a.accepted && a.id == id)
  {
    if a.Send? && a.accepted {
      assert HeldOk(s, Slot(a.replica, a.id), skipped);
      assert MessageId(s, Slot(a.replica, a.id)) == a.id;
      AcceptGrows(s.log, cfg.window, a.id, s.now);
    }
  }

  /** The broker's log holds exactly the events of accepted sends, error replies included. */
  lemma {:induction false} LogHoldsAcceptedSends(cfg: Config, acts: seq<Action>, id: EventId)
    requires Legal(cfg, acts)
    ensures InLog(Exec(cfg, acts).log, id) <==> AcceptedByBroker(acts, id)
  {
    if acts != [] {
      LogHoldsAcceptedSends(cfg, Front(acts), id);
      RunKeepsInv(cfg, Front(acts));
      assert acts == Front(acts) + [Last(acts)];
      StepLogs(cfg, Exec(cfg, Front(acts)), Last(acts), SkippedSends(Front(acts)), id);
    }
  }

  /** At-least-once: an inserted event is still in the table, or the broker has accepted it, or a
      replica without a connection reported it as sent. */
  lemma NoEventIsLost(cfg: Config, acts: seq<Action>, id: EventId)
    requires Legal(cfg, acts) && Inserted(acts, id)
    ensures var t := Exec(cfg, acts).table;
      || (id in t && t[id].status in {PENDING, PROCESSING, FAILED})
      || AcceptedByBroker(acts, id)
      || id in SkippedSends(acts)
  {
    RunKeepsInv(cfg, acts);
    CommittedMeansInserted(cfg, acts, id);
    LogHoldsAcceptedSends(cfg, acts, id);
    var t := Exec(cfg, acts).table;
    assert id in t ==> RowOk(id, t[id]);
  }

  /** When every sending replica is connected, nothing is skipped, so nothing is lost. */
  lemma NoEventIsLostWhenConnected(cfg: Config, acts: seq<Action>, id: EventId)
    requires Legal(cfg, acts) && Inserted(acts, id)
    requires forall a | a in acts && a.Send? :: Connected(a.replica)
    ensures var t := Exec(cfg, acts).table;
      (id in t && t[id].status in {PENDING, PROCESSING, FAILED}) || AcceptedByBroker(acts, id)
  {
    NoEventIsLost(cfg, acts, id);
    if id in SkippedSends(acts) {
      var i :| 0 <= i < |acts| && acts[i].Send? && acts[i].ok && !acts[i].accepted;
      SendsAreEnabled(cfg, acts, i);
    }
  }

  lemma {:induction false} SendsAreEnabled(cfg: Config, acts: seq<Action>, i: nat)
    requires Legal(cfg, acts) && i < |acts|
    ensures Legal(cfg, acts[..i]) && Enabled(cfg, Exec(cfg, acts[..i]), acts[i])
  {
    if i < |acts| - 1 {
      SendsAreEnabled(cfg, Front(acts), i);
      assert Front(acts)[..i] == acts[..i];
    }
  }

  /** Without a connection any poller deletes the row of an event nobody received. */
  lemma NilConnectionLosesAnEvent(cfg: Config, p: Replica, id: EventId) returns (acts: seq<Action>)
    requires !Connected(p)
    ensures Legal(cfg, acts) && OnlyBy(acts, {p}) && Inserted(acts, id) && Lost(cfg, acts, id)
  {
    acts := InsertThenClaim(cfg, p, id);
    var s1 := Append(cfg, acts, Send(p, id, false, true));
    acts := acts + [Send(p, id, false, true)];
    var s2 := Append(cfg, acts, MarkPublished(p, id, true));
    acts := acts + [MarkPublished(p, id, true)];
    assert acts[0] in acts;
  }

  /** Only these replicas act. */
  ghost predicate OnlyBy(acts: seq<Action>, replicas: set<Replica>) {
    forall a | a in acts && !a.Tick? && !a.Insert? :: a.replica in replicas
  }

  /** Neither in the table nor accepted by the broker. */
  ghost predicate Lost(cfg: Config, acts: seq<Action>, id: EventId) {
    id !in Exec(cfg, acts).table && !AcceptedByBroker(acts, id)
  }

  /** A fleet never loses an event, in any run, exactly when every one of its replicas is connected. */
  lemma NeverLosesExactlyWhenConnected(cfg: Config, replicas: set<Replica>)
    ensures (forall r | r in replicas :: Connected(r)) <==>
      forall acts, id | Legal(cfg, acts) && OnlyBy(acts, replicas) && Inserted(acts, id) :: !Lost(cfg, acts, id)
  {
    if forall r | r in replicas :: Connected(r) {
      forall acts, id | Legal(cfg, acts) && OnlyBy(acts, replicas) && Inserted(acts, id)
        ensures !Lost(cfg, acts, id)
      {
        NoEventIsLostWhenConnected(cfg, acts, id);
      }
    } else {
      var p :| p in replicas && !Connected(p);
      var acts := NilConnectionLosesAnEvent(cfg, p, 0);
    }
  }

  /** A run of two steps: the event is inserted and the replica claims it. */
  lemma InsertThenClaim(cfg: Config, r: Replica, id: EventId) returns (acts: seq<Action>)
    ensures acts == [Insert(id, 0, Encoded(id)), Claim(r, 0, 1, {}, {id})] && Legal(cfg, acts)
    ensures var s := Exec(cfg, acts);
      && s.now == 0 && s.log == [] && s.table.Keys == {id}
      && s.table[id] == Row(PROCESSING, 0, Some(0), 0, Encoded(id))
      && s.held == map[Slot(r, id) := Held(Record(id, Encoded(id), 0, 0), Unsent)]
  {
    var s1 := Append(cfg, [], Insert(id, 0, Encoded(id)));
    var claim := ClaimTheRow(cfg, s1, r, id);
    var s2 := Append(cfg, [] + [Insert(id, 0, Encoded(id))], claim);
    acts := [] + [Insert(id, 0, Encoded(id))] + [claim];
  }

  /** Extend a run by one enabled action. */
  lemma Append(cfg: Config, acts: seq<Action>, a: Action) returns (s: State)
    requires Legal(cfg, acts) && Enabled(cfg, Exec(cfg, acts), a)
    ensures Legal(cfg, acts + [a]) && Exec(cfg, acts + [a]) == s
    ensures s == Apply(cfg, Exec(cfg, acts), a)
  {
    ExecStep(cfg, START, acts, a);
    s := Exec(cfg, acts + [a]);
  }

  // ---------------------------------------------------------------- attempts and claims

  function FailMarks(acts: seq<Action>, id: EventId): nat {
    if acts == [] then 0
    else FailMarks(Front(acts), id) + Count(Last(acts).MarkFailed? && Last(acts).applied && Last(acts).id == id)
  }

  function Claims(acts: seq<Action>, id: EventId): nat {
    if acts == [] then 0
    else Claims(Front(acts), id) + Count(Last(acts).Claim? && id in Last(acts).picked)
  }

  /** The last action takes the row over from a replica that has held it too long. */
  predicate Reclaims(cfg: Config, acts: seq<Action>, id: EventId)
    requires acts != []
  {
    var t := Exec(cfg, Front(acts)).table;
    Last(acts).Claim? && id in Last(acts).picked && id in t && t[id].status == PROCESSING
  }

  /** Claims that took the row over from a replica that had held it too long. */
  function StaleReclaims(cfg: Config, acts: seq<Action>, id: EventId): nat {
    if acts == [] then 0
    else StaleReclaims(cfg, Front(acts), id) + Count(Reclaims(cfg, acts, id))
  }

  /** The attempts column counts the failures applied to the row, whoever reported them and however
      late, and the row is parked as FAILED exactly when it has reached the limit. */
  lemma {:induction false} AttemptsCountFailures(cfg: Config, acts: seq<Action>, id: EventId)
    requires Legal(cfg, acts)
    ensures id !in Exec(cfg, acts).committed ==> FailMarks(acts, id) == 0
    ensures var t := Exec(cfg, acts).table;
      id in t ==>
        && t[id].attempts == FailMarks(acts, id)
        && (t[id].status == FAILED <==> FailMarks(acts, id) >= 3)
  {
    RunKeepsInv(cfg, acts);
    var t := Exec(cfg, acts).table;
    assert id in t ==> RowOk(id, t[id]);
    if acts != [] {
      AttemptsCountFailures(cfg, Front(acts), id);
      RunKeepsInv(cfg, Front(acts));
      var s, a := Exec(cfg, Front(acts)), Last(acts);
      if a.MarkFailed? {
        assert HeldOk(s, Slot(a.replica, a.id), SkippedSends(Front(acts)));
      }
    }
  }

  /** What a row has been claimed for without going stale. */
  function Credit(row: Row): int {
    Min(row.attempts, 2) + if row.status == PENDING then 0 else 1
  }

  lemma CreditGrows(cfg: Config, s: State, a: Action, id: EventId)
    requires Enabled(cfg, s, a) && id in s.table && RowOk(id, s.table[id]) && s.table.Keys <= s.committed
    ensures var t := Apply(cfg, s, a).table;
      var claims := a.Claim? && id in a.picked;
      Credit(s.table[id]) <= 3 - Count(s.table[id].status == PENDING) &&
      (id in t ==> Credit(t[id]) >= Credit(s.table[id]) + Count(claims && s.table[id].status == PENDING))
  {
  }

  /** A row leaves PENDING at most three times; every further claim is a stale reclaim. */
  lemma {:induction false} ClaimsAreBounded(cfg: Config, acts: seq<Action>, id: EventId)
    requires Legal(cfg, acts)
    ensures Claims(acts, id) <= 3 + StaleReclaims(cfg, acts, id)
    ensures id !in Exec(cfg, acts).committed ==> Claims(acts, id) == 0
    ensures var t := Exec(cfg, acts).table;
      id in t ==>
        Claims(acts, id) - StaleReclaims(cfg, acts, id) <= Credit(t[id])
  {
    if acts != [] {
      ClaimsAreBounded(cfg, Front(acts), id);
      RunKeepsInv(cfg, Front(acts));
      var s := Exec(cfg, Front(acts));
      if id in s.table {
        assert RowOk(id, s.table[id]);
        CreditGrows(cfg, s, Last(acts), id);
      }
    }
  }

  ghost predicate ParkedOrGone(s: State, id: EventId) {
    id in s.committed && (id in s.table ==> s.table[id].status == FAILED && s.table[id].attempts >= MAX_OUTBOX_ATTEMPTS)
  }

  lemma ParkedStays(cfg: Config, s: State, a: Action, id: EventId)
    requires ParkedOrGone(s, id) && Enabled(cfg, s, a)
    ensures ParkedOrGone(Apply(cfg, s, a), id)
    ensures a.Claim? ==> id !in a.picked
  {
  }

  /** Once FAILED, a row stays FAILED or is deleted, and no later claim takes it. */
  lemma {:induction false} FailedIsTerminal(cfg: Config, acts: seq<Action>, i: nat, id: EventId)
    requires Legal(cfg, acts) && i <= |acts|
    requires id in Exec(cfg, acts[..i]).table && Exec(cfg, acts[..i]).table[id].status == FAILED
    ensures ParkedOrGone(Exec(cfg, acts), id)
    ensures forall j | i <= j < |acts| && acts[j].Claim? :: id !in acts[j].picked
    decreases |acts|
  {
    if i == |acts| {
      assert acts[..i] == acts;
      RunKeepsInv(cfg, acts);
    } else {
      assert Front(acts)[..i] == acts[..i];
      FailedIsTerminal(cfg, Front(acts), i, id);
      ParkedStays(cfg, Exec(cfg, Front(acts)), Last(acts), id);
      forall j | i <= j < |acts| && acts[j].Claim? ensures id !in acts[j].picked {
        assert j < |acts| - 1 ==> acts[j] == Front(acts)[j];
      }
    }
  }

  /** Over this repository a decodable record is only turned away by a publisher whose own limit is
      below three. */
  lemma PublisherLimitNeedsLessThanThree(cfg: Config, acts: seq<Action>, r: Replica, id: EventId)
    requires Legal(cfg, acts + [Reject(r, id)])
    requires Slot(r, id) in Exec(cfg, acts).held && Exec(cfg, acts).held[Slot(r, id)].record.payload.Encoded?
    ensures r.Publisher? && r.maxAttempts < 3
  {
    ExecStep(cfg, START, acts, Reject(r, id));
    RunKeepsInv(cfg, acts);
    assert HeldOk(Exec(cfg, acts), Slot(r, id), SkippedSends(acts));
  }

  /** The only row can be claimed by any idle replica once it is eligible. */
  lemma ClaimTheRow(cfg: Config, s: State, r: Replica, id: EventId) returns (a: Action)
    requires s.table.Keys == {id} && Eligible(s.table[id], s.now - cfg.staleAfter) && Idle(s, r)
    ensures a == Claim(r, s.now, 1, {}, {id}) && Enabled(cfg, s, a)
    ensures Apply(cfg, s, a) == s.(
      table := map[id := ClaimRow(s.table[id], s.now)],
      held := s.held[Slot(r, id) := Held(RecordOf(s.table, id, s.now), Unsent)])
  {
    assert OpenRows(s.table, s.now - cfg.staleAfter, {}) == {id};
    assert Slots(r, {id}) == {Slot(r, id)};
    a := Claim(r, s.now, 1, {}, {id});
  }

  /** A run in which the only event has been refused by the broker n times. */
  lemma {:induction false} RefusedTimes(cfg: Config, r: Replica, id: EventId, n: nat) returns (acts: seq<Action>)
    requires n == 0 || (n < MAX_OUTBOX_ATTEMPTS && r.Publisher? && n <= r.maxAttempts)
    ensures Legal(cfg, acts)
    ensures var s := Exec(cfg, acts);
      && s.held == map[] && s.table.Keys == {id} && s.table[id].status == PENDING
      && s.table[id].attempts == n && s.table[id].payload == Encoded(id)
  {
    if n == 0 {
      var s := Append(cfg, [], Insert(id, 0, Encoded(id)));
      acts := [] + [Insert(id, 0, Encoded(id))];
    } else {
      var prior := RefusedTimes(cfg, r, id, n - 1);
      var claim := ClaimTheRow(cfg, Exec(cfg, prior), r, id);
      var s1 := Append(cfg, prior, claim);
      acts := prior + [claim];
      var s2 := Append(cfg, acts, Send(r, id, false, false));
      acts := acts + [Send(r, id, false, false)];
      var s3 := Append(cfg, acts, MarkFailed(r, id, true));
      acts := acts + [MarkFailed(r, id, true)];
    }
  }

  /** Conversely every limit below three does turn away a decodable record in some run. */
  lemma LimitBelowThreeActs(cfg: Config, m: int, id: EventId) returns (acts: seq<Action>)
    requires m < 3
    ensures Legal(cfg, acts + [Reject(Publisher(0, m), id)])
    ensures Slot(Publisher(0, m), id) in Exec(cfg, acts).held
    ensures Exec(cfg, acts).held[Slot(Publisher(0, m), id)].record.payload.Encoded?
  {
    var r := Publisher(0, m);
    var prior := RefusedTimes(cfg, r, id, if m < 0 then 0 else m);
    var claim := ClaimTheRow(cfg, Exec(cfg, prior), r, id);
    var s := Append(cfg, prior, claim);
    acts := prior + [claim];
    ExecStep(cfg, START, acts, Reject(r, id));
  }

  // ---------------------------------------------------------------- exclusive claims

  /** Every claimed record that is held is at most d old. */
  ghost predicate HeldFor(s: State, d: nat) {
    forall k | k in s.held :: s.now <= s.held[k].record.claimedAt + d
  }

  /** No replica ever keeps a claimed record unfinished for longer than d. */
  ghost predicate Prompt(cfg: Config, d: nat, acts: seq<Action>) {
    HeldFor(Exec(cfg, acts), d) && (acts != [] ==> Prompt(cfg, d, Front(acts)))
  }

  ghost predicate Exclusive(s: State) {
    && (forall k | k in s.held ::
      && k.id in s.table && s.table[k.id].status == PROCESSING
      && s.table[k.id].lastAttemptAt == Some(s.held[k].record.claimedAt))
    && (forall k, m | k in s.held && m in s.held && k.id == m.id :: k == m)
  }

  lemma StepKeepsExclusive(cfg: Config, s: State, a: Action)
    requires Exclusive(s) && Enabled(cfg, s, a) && s.table.Keys <= s.committed
    requires HeldFor(s, cfg.staleAfter)
    ensures Exclusive(Apply(cfg, s, a))
  {
    if a.Claim? {
      ClaimKeepsExclusive(cfg, s, a);
    } else if a.MarkPublished? || a.MarkFailed? {
      MarkKeepsExclusive(cfg, s, a);
    }
  }

  /** A prompt holder's row is not yet stale, so no claim picks it. */
  lemma ClaimKeepsExclusive(cfg: Config, s: State, a: Action)
    requires Exclusive(s) && Enabled(cfg, s, a) && a.Claim?
    requires HeldFor(s, cfg.staleAfter)
    ensures Exclusive(Apply(cfg, s, a))
  {
    forall k | k in s.held ensures k.id !in a.picked {
      assert s.table[k.id].lastAttemptAt == Some(s.held[k].record.claimedAt);
    }
    var after := Apply(cfg, s, a);
    forall k | k in after.held && k !in s.held ensures k == Slot(a.replica, k.id) && k.id in a.picked {
    }
  }

  lemma MarkKeepsExclusive(cfg: Config, s: State, a: Action)
    requires Exclusive(s) && Enabled(cfg, s, a) && (a.MarkPublished? || a.MarkFailed?)
    ensures Exclusive(Apply(cfg, s, a))
  {
    var after := Apply(cfg, s, a);
    forall k | k in after.held ensures k.id != a.id && k in s.held && after.held[k] == s.held[k] {
      assert Slot(a.replica, a.id) in s.held && k in s.held;
    }
  }

  /** Among replicas that finish within the stale limit at most one holds any row, and the row shows that
      holder's claim. */
  lemma {:induction false} PromptReplicasAreExclusive(cfg: Config, d: nat, acts: seq<Action>)
    requires Legal(cfg, acts) && Prompt(cfg, d, acts) && d <= cfg.staleAfter
    ensures Exclusive(Exec(cfg, acts))
  {
    if acts != [] {
      PromptReplicasAreExclusive(cfg, d, Front(acts));
      RunKeepsInv(cfg, Front(acts));
      StepKeepsExclusive(cfg, Exec(cfg, Front(acts)), Last(acts));
    }
  }

  /** So marking a record as published never meets a row that is already gone. */
  lemma MarkPublishedFindsItsRow(cfg: Config, d: nat, acts: seq<Action>, r: Replica, id: EventId, applied: bool)
    requires Legal(cfg, acts + [MarkPublished(r, id, applied)]) && Prompt(cfg, d, acts) && d <= cfg.staleAfter
    ensures id in Exec(cfg, acts).table
  {
    ExecStep(cfg, START, acts, MarkPublished(r, id, applied));
    PromptReplicasAreExclusive(cfg, d, acts);
  }

  const A := Poller(0, true)
  const B := Poller(1, true)

  lemma AppendPrompt(cfg: Config, d: nat, acts: seq<Action>, a: Action) returns (s: State)
    requires Legal(cfg, acts) && Prompt(cfg, d, acts) && Enabled(cfg, Exec(cfg, acts), a)
    requires HeldFor(Apply(cfg, Exec(cfg, acts), a), d)
    ensures Legal(cfg, acts + [a]) && Prompt(cfg, d, acts + [a])
    ensures s == Exec(cfg, acts + [a]) == Apply(cfg, Exec(cfg, acts), a)
  {
    s := Append(cfg, acts, a);
    assert Front(acts + [a]) == acts;
  }

  /** A stalls, its claim goes stale, B claims the same row. */
  lemma StallThenReclaim(cfg: Config, d: nat, id: EventId) returns (acts: seq<Action>)
    requires d > cfg.staleAfter
    ensures Legal(cfg, acts) && Prompt(cfg, d, acts)
    ensures Exec(cfg, acts).table.Keys == {id} && Exec(cfg, acts).now == cfg.staleAfter + 1
    ensures var held := Exec(cfg, acts).held;
      && held.Keys == {Slot(A, id), Slot(B, id)}
      && held[Slot(A, id)] == Held(Record(id, Encoded(id), 0, 0), Unsent)
      && held[Slot(B, id)] == Held(Record(id, Encoded(id), 0, cfg.staleAfter + 1), Unsent)
  {
    acts := Stall(cfg, d, id);
    var second := ClaimTheRow(cfg, Exec(cfg, acts), B, id);
    var s := AppendPrompt(cfg, d, acts, second);
    acts := acts + [second];
  }

  lemma Stall(cfg: Config, d: nat, id: EventId) returns (acts: seq<Action>)
    requires d > cfg.staleAfter
    ensures Legal(cfg, acts) && Prompt(cfg, d, acts)
    ensures var s := Exec(cfg, acts);
      && s.now == cfg.staleAfter + 1 && s.table.Keys == {id} && Eligible(s.table[id], 1)
      && s.table[id].attempts == 0 && s.table[id].payload == Encoded(id)
      && s.held == map[Slot(A, id) := Held(Record(id, Encoded(id), 0, 0), Unsent)]
  {
    acts := InsertThenClaim(cfg, A, id);
    PromptAtStart(cfg, d, acts);
    var s := AppendPrompt(cfg, d, acts, Tick(cfg.staleAfter + 1));
    acts := acts + [Tick(cfg.staleAfter + 1)];
  }

  lemma PromptAtStart(cfg: Config, d: nat, acts: seq<Action>)
    requires |acts| == 2 && acts[0].Insert? && HeldFor(Exec(cfg, acts), d)
    ensures Prompt(cfg, d, acts)
  {
    assert Front(acts) == [] + [acts[0]];
    ExecStep(cfg, START, [], acts[0]);
    assert Front(Front(acts)) == [];
  }

  /** B finishes the row, and A, still holding it, sends the event: its mark meets "event not found". */
  lemma LateReplicaMissesItsRow(cfg: Config, d: nat, id: EventId) returns (acts: seq<Action>)
    requires d > cfg.staleAfter
    ensures Legal(cfg, acts + [MarkPublished(A, id, true)]) && Prompt(cfg, d, acts) && id !in Exec(cfg, acts).table
  {
    acts := StallThenReclaim(cfg, d, id);
    var s1 := AppendPrompt(cfg, d, acts, Send(B, id, true, true));
    acts := acts + [Send(B, id, true, true)];
    var s2 := AppendPrompt(cfg, d, acts, MarkPublished(B, id, true));
    acts := acts + [MarkPublished(B, id, true)];
    var s3 := AppendPrompt(cfg, d, acts, Send(A, id, true, true));
    acts := acts + [Send(A, id, true, true)];
    ExecStep(cfg, START, acts, MarkPublished(A, id, true));
  }

  /** How prompt is enough: finishing every claimed record within d keeps claims exclusive in every run exactly
      when d is within the stale limit. */
  lemma ExclusiveExactlyWhenPrompt(cfg: Config, d: nat)
    ensures (forall acts | Legal(cfg, acts) && Prompt(cfg, d, acts) :: Exclusive(Exec(cfg, acts))) <==>
      d <= cfg.staleAfter
  {
    if d <= cfg.staleAfter {
      forall acts | Legal(cfg, acts) && Prompt(cfg, d, acts) ensures Exclusive(Exec(cfg, acts)) {
        PromptReplicasAreExclusive(cfg, d, acts);
      }
    } else {
      var acts := StallThenReclaim(cfg, d, 0);
      assert Slot(A, 0) in Exec(cfg, acts).held && Slot(B, 0) in Exec(cfg, acts).held;
      assert !Exclusive(Exec(cfg, acts));
    }
  }

  /** A replica about to mark this record as published. */
  ghost predicate Marking(cfg: Config, acts: seq<Action>, r: Replica, id: EventId) {
    Legal(cfg, acts) && Enabled(cfg, Exec(cfg, acts), MarkPublished(r, id, true))
  }

  /** And exactly then no mark ever meets a missing row. */
  lemma RowsAreFoundExactlyWhenPrompt(cfg: Config, d: nat)
    ensures (forall acts, r, id | Marking(cfg, acts, r, id) && Prompt(cfg, d, acts) :: id in Exec(cfg, acts).table) <==>
      d <= cfg.staleAfter
  {
    if d <= cfg.staleAfter {
      forall acts, r, id | Marking(cfg, acts, r, id) && Prompt(cfg, d, acts) ensures id in Exec(cfg, acts).table {
        ExecStep(cfg, START, acts, MarkPublished(r, id, true));
        MarkPublishedFindsItsRow(cfg, d, acts, r, id, true);
      }
    } else {
      var acts := LateReplicaMissesItsRow(cfg, d, 0);
      ExecStep(cfg, START, acts, MarkPublished(A, 0, true));
      assert Marking(cfg, acts, A, 0);
    }
  }
}
