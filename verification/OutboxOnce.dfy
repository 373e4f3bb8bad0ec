/** When the broker stores an event exactly once: claims and publishes spaced against its duplicate window. */
module OutboxOnce {
  import opened Common
  import opened Outbox
  import opened OutboxProtocol
  import opened OutboxSafety

  function Copies(log: seq<Stored>, id: EventId): nat {
    if log == [] then 0
    else Copies(Front(log), id) + Count(Last(log).id == id)
  }

  function LastClaimAt(acts: seq<Action>, id: EventId): Option<int> {
    if acts == [] then None
    else if Last(acts).Claim? && id in Last(acts).picked then Some(Last(acts).at)
    else LastClaimAt(Front(acts), id)
  }

  predicate Accepts(a: Action, id: EventId) {
    a.Send? && a.accepted && a.id == id
  }

  /** The time of the first send of the event that the broker accepted. */
  function FirstAcceptAt(cfg: Config, acts: seq<Action>, id: EventId): Option<int> {
    if acts == [] then None
    else if FirstAcceptAt(cfg, Front(acts), id).Some? then FirstAcceptAt(cfg, Front(acts), id)
    else if Accepts(Last(acts), id) then Some(Exec(cfg, Front(acts)).now)
    else None
  }

  predicate ClaimsAgain(cfg: Config, acts: seq<Action>, id: EventId)
    requires acts != []
  {
    Last(acts).Claim? && id in Last(acts).picked && FirstAcceptAt(cfg, Front(acts), id).Some?
  }

  function ClaimsAfterAccept(cfg: Config, acts: seq<Action>, id: EventId): nat {
    if acts == [] then 0
    else ClaimsAfterAccept(cfg, Front(acts), id) + Count(ClaimsAgain(cfg, acts, id))
  }

  /** Every claim comes within staleAfter + slack of the previous one, every accepted send within
      `delay` of its claim, and the row is claimed at most `again` times after the first accept. */
  ghost predicate Spaced(cfg: Config, slack: nat, delay: nat, again: nat, acts: seq<Action>, id: EventId) {
    acts == [] ||
    (var s, a, before := Exec(cfg, Front(acts)), Last(acts), LastClaimAt(Front(acts), id);
    && Spaced(cfg, slack, delay, again, Front(acts), id)
    && (a.Claim? && id in a.picked && before.Some? ==> a.at <= before.value + cfg.staleAfter + slack)
    && (Accepts(a, id) && Slot(a.replica, id) in s.held ==>
      s.now <= s.held[Slot(a.replica, id)].record.claimedAt + delay)
    && ClaimsAfterAccept(cfg, acts, id) <= again)
  }

  /** The log holds one copy, stored at the first accept, or none before it. */
  ghost predicate StoredOnce(log: seq<Stored>, id: EventId, first: Option<int>) {
    if first.None? then Copies(log, id) == 0 && !InLog(log, id)
    else Copies(log, id) == 1 && Stored(id, first.value) in log
  }

  /** What a spaced run keeps about one event; `reach` bounds the time of its latest claim. */
  ghost predicate OnceInv(s: State, id: EventId, first: Option<int>, last: Option<int>, reach: nat) {
    && StoredOnce(s.log, id, first)
    && (last.Some? ==> last.value <= s.now)
    && (first.Some? ==>
      && first.value <= s.now && last.Some?
      && last.value <= first.value + reach
      && (forall k | k in s.held && k.id == id :: s.held[k].record.claimedAt <= first.value + reach))
  }

  /** Accepting a copy inside the window, or another event, adds no copy. */
  lemma AcceptKeepsCopies(log: seq<Stored>, window: nat, msg: EventId, now: int, id: EventId, first: Option<int>)
    requires StoredOnce(log, id, first)
    requires msg == id && first.Some? ==> now - first.value < window
    ensures StoredOnce(Accept(log, window, msg, now), id, if first.None? && msg == id then Some(now) else first)
  {
    var after := Accept(log, window, msg, now);
    if after != log {
      assert after[..|log|] == log && after[|log|] == Stored(msg, now);
      assert first.Some? ==> Stored(id, first.value) in after;
    } else if msg == id && first.None? {
      assert InLog(log, id);
    }
  }

  lemma SendKeepsOnce(cfg: Config, s: State, a: Action, id: EventId, delay: nat,
    first: Option<int>, last: Option<int>, reach: nat, skipped: set<EventId>)
    requires Inv(s, skipped) && Enabled(cfg, s, a) && a.Send? && a.accepted
    requires OnceInv(s, id, first, last, reach) && cfg.window > reach + delay
    requires a.id == id ==> last.Some?
    requires a.id == id ==> s.now <= s.held[Slot(a.replica, id)].record.claimedAt + delay
    ensures OnceInv(Apply(cfg, s, a), id, if first.None? && a.id == id then Some(s.now) else first, last, reach)
  {
    var k := Slot(a.replica, a.id);
    assert HeldOk(s, k, skipped);
    assert MessageId(s, k) == a.id;
    AcceptKeepsCopies(s.log, cfg.window, a.id, s.now, id, first);
    assert forall m | m in s.held :: HeldOk(s, m, skipped);
  }

  lemma ClaimKeepsOnce(cfg: Config, s: State, a: Action, id: EventId, gap: nat,
    first: Option<int>, last: Option<int>, reach: nat)
    requires OnceInv(s, id, first, last, reach) && Enabled(cfg, s, a) && a.Claim? && id in a.picked
    requires last.Some? ==> a.at <= last.value + gap
    ensures OnceInv(Apply(cfg, s, a), id, first, Some(a.at), if first.Some? then reach + gap else reach)
  {
  }

  lemma OtherKeepsOnce(cfg: Config, s: State, a: Action, id: EventId,
    first: Option<int>, last: Option<int>, reach: nat)
    requires OnceInv(s, id, first, last, reach) && Enabled(cfg, s, a)
    requires !(a.Send? && a.accepted) && !(a.Claim? && id in a.picked)
    ensures OnceInv(Apply(cfg, s, a), id, first, last, reach)
  {
  }

  /** A record is only sent after it was claimed. */
  lemma {:induction false} HeldWasClaimed(cfg: Config, acts: seq<Action>, id: EventId)
    requires Legal(cfg, acts)
    ensures (exists k :: k in Exec(cfg, acts).held && k.id == id) ==> LastClaimAt(acts, id).Some?
  {
    if acts != [] {
      HeldWasClaimed(cfg, Front(acts), id);
    }
  }

  lemma SpacedStep(cfg: Config, slack: nat, delay: nat, again: nat, acts: seq<Action>, id: EventId, reach: nat)
    requires acts != [] && Legal(cfg, acts) && Spaced(cfg, slack, delay, again, acts, id)
    requires cfg.window > reach + delay
    requires OnceInv(
      Exec(cfg, Front(acts)), id, FirstAcceptAt(cfg, Front(acts), id), LastClaimAt(Front(acts), id), reach)
    ensures OnceInv(Exec(cfg, acts), id, FirstAcceptAt(cfg, acts, id), LastClaimAt(acts, id),
      if ClaimsAgain(cfg, acts, id) then reach + cfg.staleAfter + slack else reach)
  {
    var s, a, gap := Exec(cfg, Front(acts)), Last(acts), cfg.staleAfter + slack;
    var first, last := FirstAcceptAt(cfg, Front(acts), id), LastClaimAt(Front(acts), id);
    if a.Send? && a.accepted {
      RunKeepsInv(cfg, Front(acts));
      HeldWasClaimed(cfg, Front(acts), id);
      SendKeepsOnce(cfg, s, a, id, delay, first, last, reach, SkippedSends(Front(acts)));
    } else if a.Claim? && id in a.picked {
      ClaimKeepsOnce(cfg, s, a, id, gap, first, last, reach);
    } else {
      OtherKeepsOnce(cfg, s, a, id, first, last, reach);
    }
  }

  lemma {:induction false} SpacedKeepsOnceInv(
    cfg: Config, slack: nat, delay: nat, again: nat, acts: seq<Action>, id: EventId)
    requires Legal(cfg, acts) && Spaced(cfg, slack, delay, again, acts, id)
    requires cfg.window > Times(again, cfg.staleAfter + slack) + delay
    ensures OnceInv(Exec(cfg, acts), id, FirstAcceptAt(cfg, acts, id), LastClaimAt(acts, id),
      Times(ClaimsAfterAccept(cfg, acts, id), cfg.staleAfter + slack))
  {
    if acts != [] {
      var n := ClaimsAfterAccept(cfg, Front(acts), id);
      SpacedKeepsOnceInv(cfg, slack, delay, again, Front(acts), id);
      TimesMonotone(n, again, cfg.staleAfter + slack);
      SpacedStep(cfg, slack, delay, again, acts, id, Times(n, cfg.staleAfter + slack));
    }
  }

  /** Exactly once, including sends the broker accepted but reported as errors. */
  lemma AcceptedEventIsStoredOnce(
    cfg: Config, slack: nat, delay: nat, again: nat, acts: seq<Action>, id: EventId)
    requires Legal(cfg, acts) && Spaced(cfg, slack, delay, again, acts, id)
    requires cfg.window > again * (cfg.staleAfter + slack) + delay
    ensures Copies(Exec(cfg, acts).log, id) == if AcceptedByBroker(acts, id) then 1 else 0
  {
    TimesIsProduct(again, cfg.staleAfter + slack);
    SpacedKeepsOnceInv(cfg, slack, delay, again, acts, id);
    LogHoldsAcceptedSends(cfg, acts, id);
    var first := FirstAcceptAt(cfg, acts, id);
    assert first.Some? ==> InLog(Exec(cfg, acts).log, id) by {
      if first.Some? {
        var log := Exec(cfg, acts).log;
        var i :| 0 <= i < |log| && log[i] == Stored(id, first.value);
      }
    }
  }
}
