/**
 * The duplicate window an outbox needs, exactly: for every slack, delay and number of reclaims, either the
 * window exceeds the bound, or a run with the very same spacing stores an event twice.
 */
module OutboxWindow {
  import opened Common
  import opened Outbox
  import opened OutboxProtocol
  import opened OutboxSafety
  import opened OutboxOnce

  // ---------------------------------------------------------------- a run read in one pass

  /** A run read in one pass: its state, the event's last claim and first accept, how often it was
      claimed again, and whether the run so far is legal and spaced. */
  datatype Track = Track(s: State, last: Option<int>, first: Option<int>, again: nat, ok: bool)

  datatype Spacing = Spacing(slack: nat, delay: nat, again: nat)

  ghost function Follow(cfg: Config, sp: Spacing, id: EventId, t: Track, a: Action): Track {
    var claims := a.Claim? && id in a.picked;
    var again := t.again + Count(claims && t.first.Some?);
    Track(
      Apply(cfg, t.s, a),
      if claims then Some(a.at) else t.last,
      if t.first.None? && Accepts(a, id) then Some(t.s.now) else t.first,
      again,
      && t.ok && Enabled(cfg, t.s, a) && again <= sp.again
      && (claims && t.last.Some? ==> a.at <= t.last.value + cfg.staleAfter + sp.slack)
      && (Accepts(a, id) && Slot(a.replica, id) in t.s.held ==>
        t.s.now <= t.s.held[Slot(a.replica, id)].record.claimedAt + sp.delay))
  }

  ghost function Tracked(cfg: Config, sp: Spacing, id: EventId, acts: seq<Action>): Track {
    if acts == [] then Track(START, None, None, 0, true)
    else Follow(cfg, sp, id, Tracked(cfg, sp, id, Front(acts)), Last(acts))
  }

  lemma {:induction false} TrackedIsSpaced(cfg: Config, sp: Spacing, id: EventId, acts: seq<Action>)
    ensures var t := Tracked(cfg, sp, id, acts);
      && t.s == Exec(cfg, acts) && t.last == LastClaimAt(acts, id)
      && t.first == FirstAcceptAt(cfg, acts, id) && t.again == ClaimsAfterAccept(cfg, acts, id)
      && (t.ok ==> Legal(cfg, acts) && Spaced(cfg, sp.slack, sp.delay, sp.again, acts, id))
  {
    if acts != [] {
      TrackedIsSpaced(cfg, sp, id, Front(acts));
    }
  }

  lemma TrackOneMore(cfg: Config, sp: Spacing, id: EventId, acts: seq<Action>, a: Action)
    ensures Tracked(cfg, sp, id, acts + [a]) == Follow(cfg, sp, id, Tracked(cfg, sp, id, acts), a)
  {
    assert Front(acts + [a]) == acts && Last(acts + [a]) == a;
  }

  lemma TrackThreeMore(cfg: Config, sp: Spacing, id: EventId, acts: seq<Action>, a: Action, b: Action, c: Action)
    returns (more: seq<Action>)
    ensures Tracked(cfg, sp, id, more) ==
      Follow(cfg, sp, id, Follow(cfg, sp, id, Follow(cfg, sp, id, Tracked(cfg, sp, id, acts), a), b), c)
  {
    TrackOneMore(cfg, sp, id, acts, a);
    TrackOneMore(cfg, sp, id, acts + [a], b);
    TrackOneMore(cfg, sp, id, acts + [a] + [b], c);
    more := acts + [a] + [b] + [c];
  }

  /** Some run with this spacing stores the event twice. */
  ghost predicate CanStoreTwice(cfg: Config, sp: Spacing, id: EventId) {
    exists acts :: Legal(cfg, acts) && Spaced(cfg, sp.slack, sp.delay, sp.again, acts, id)
      && Copies(Exec(cfg, acts).log, id) > 1
  }

  lemma TwoCopies(cfg: Config, sp: Spacing, id: EventId, acts: seq<Action>, at: int, later: int)
    requires Tracked(cfg, sp, id, acts).ok && Exec(cfg, acts).log == [Stored(id, at), Stored(id, later)]
    ensures CanStoreTwice(cfg, sp, id)
  {
    TrackedIsSpaced(cfg, sp, id, acts);
    var log := Exec(cfg, acts).log;
    assert Front(log) == [Stored(id, at)];
    assert Copies([Stored(id, at)], id) == 1;
  }

  const P := Publisher(0, MAX_OUTBOX_ATTEMPTS)

  /** The first copy was stored at time 0, and the row has just been claimed for the n-th time since. */
  ghost predicate Standing(t: Track, id: EventId, n: nat, at: int, attempts: nat, phase: Phase) {
    && t.ok && t.s.now == at && attempts < MAX_OUTBOX_ATTEMPTS
    && t.s.table == map[id := Row(PROCESSING, attempts, Some(at), 0, Encoded(id))]
    && t.s.held == map[Slot(P, id) := Held(Record(id, Encoded(id), attempts, at), phase)]
    && t.s.log == [Stored(id, 0)]
    && t.first == Some(0) && t.last == Some(at) && t.again == n
  }

  /** The broker accepts the event and reports an error. */
  lemma FirstCopy(cfg: Config, sp: Spacing, id: EventId) returns (acts: seq<Action>)
    ensures Standing(Tracked(cfg, sp, id, acts), id, 0, 0, 0, Errored)
  {
    var start := Track(START, None, None, 0, true);
    var insert := Insert(id, 0, Encoded(id));
    var t := Follow(cfg, sp, id, start, insert);
    var claim := ClaimTheRow(cfg, t.s, P, id);
    acts := TrackThreeMore(cfg, sp, id, [], insert, claim, Send(P, id, true, false));
    var claimed := Follow(cfg, sp, id, t, claim);
    assert claimed.s.held == map[Slot(P, id) := Held(Record(id, Encoded(id), 0, 0), Unsent)];
    assert !Duplicate([], cfg.window, id, 0);
  }

  /** After the last claim the publish is late by the full delay, and the broker has forgotten the first copy. */
  lemma SecondCopy(cfg: Config, sp: Spacing, id: EventId, prior: seq<Action>, n: nat, at: nat, attempts: nat)
    requires Standing(Tracked(cfg, sp, id, prior), id, n, at, attempts, Unsent) && cfg.window <= at + sp.delay
    ensures CanStoreTwice(cfg, sp, id)
  {
    var t := Tracked(cfg, sp, id, prior);
    assert !Duplicate(t.s.log, cfg.window, id, at + sp.delay);
    TrackOneMore(cfg, sp, id, prior, Tick(sp.delay));
    TrackOneMore(cfg, sp, id, prior + [Tick(sp.delay)], Send(P, id, true, true));
    var acts := prior + [Tick(sp.delay)] + [Send(P, id, true, true)];
    TrackedIsSpaced(cfg, sp, id, acts);
    TwoCopies(cfg, sp, id, acts, 0, at + sp.delay);
  }

  // ---------------------------------------------------------------- with slack, claims go stale

  /** The replica dies, its claim goes stale, and the row is claimed again. */
  lemma ReclaimTurn(cfg: Config, sp: Spacing, id: EventId, t: Track, n: nat, at: int) returns (claim: Action)
    requires t.s.held.Keys == {Slot(P, id)} && Standing(t, id, n, at, 0, t.s.held[Slot(P, id)].phase)
    requires sp.slack > 0 && n < sp.again
    ensures var dead := Follow(cfg, sp, id, t, Crash(P));
      var stale := Follow(cfg, sp, id, dead, Tick(cfg.staleAfter + sp.slack));
      Standing(Follow(cfg, sp, id, stale, claim), id, n + 1, at + cfg.staleAfter + sp.slack, 0, Unsent)
  {
    var dead := Follow(cfg, sp, id, t, Crash(P));
    assert dead.s.held == map[];
    var stale := Follow(cfg, sp, id, dead, Tick(cfg.staleAfter + sp.slack));
    claim := ClaimTheRow(cfg, stale.s, P, id);
  }

  /** A legal, spaced run that stores the event and then lets its claim go stale n times. */
  lemma {:induction false} ReclaimChain(cfg: Config, sp: Spacing, id: EventId, n: nat) returns (acts: seq<Action>)
    requires sp.slack > 0 && n <= sp.again
    ensures Standing(Tracked(cfg, sp, id, acts), id, n, Times(n, cfg.staleAfter + sp.slack), 0,
      if n == 0 then Errored else Unsent)
  {
    if n == 0 {
      acts := FirstCopy(cfg, sp, id);
    } else {
      var prior := ReclaimChain(cfg, sp, id, n - 1);
      var t, at := Tracked(cfg, sp, id, prior), Times(n - 1, cfg.staleAfter + sp.slack);
      var claim := ReclaimTurn(cfg, sp, id, t, n - 1, at);
      acts := TrackThreeMore(cfg, sp, id, prior, Crash(P), Tick(cfg.staleAfter + sp.slack), claim);
      TimesNext(n, cfg.staleAfter + sp.slack);
    }
  }

  lemma ReclaimsStoreTwice(cfg: Config, sp: Spacing, id: EventId)
    requires sp.slack > 0 && sp.again > 0
    requires cfg.window <= sp.again * (cfg.staleAfter + sp.slack) + sp.delay
    ensures CanStoreTwice(cfg, sp, id)
  {
    TimesIsProduct(sp.again, cfg.staleAfter + sp.slack);
    var prior := ReclaimChain(cfg, sp, id, sp.again);
    SecondCopy(cfg, sp, id, prior, sp.again, Times(sp.again, cfg.staleAfter + sp.slack), 0);
  }

  // ---------------------------------------------------------------- without slack, refusals are left

  /** The replica reports its failure at once. */
  lemma FailTurn(cfg: Config, sp: Spacing, id: EventId, t: Track, n: nat, at: int)
    requires Standing(t, id, n, at, n, Errored) && n < 2
    ensures var failed := Follow(cfg, sp, id, t, MarkFailed(P, id, true));
      && failed.ok == (n <= sp.again) && failed.last == t.last && failed.first == t.first && failed.again == n
      && failed.s == t.s.(table := map[id := Row(PENDING, n + 1, Some(at), 0, Encoded(id))], held := map[])
  {
    assert t.s.held - {Slot(P, id)} == map[];
  }

  /** The row is claimed again as late as allowed. */
  lemma RefusalTurn(cfg: Config, sp: Spacing, id: EventId, t: Track, n: nat, at: int) returns (claim: Action)
    requires Standing(t, id, n, at, n, Errored) && n < 2 && n < sp.again
    ensures var failed := Follow(cfg, sp, id, t, MarkFailed(P, id, true));
      var later := Follow(cfg, sp, id, failed, Tick(cfg.staleAfter));
      Standing(Follow(cfg, sp, id, later, claim), id, n + 1, at + cfg.staleAfter, n + 1, Unsent)
  {
    FailTurn(cfg, sp, id, t, n, at);
    var later := Follow(cfg, sp, id, Follow(cfg, sp, id, t, MarkFailed(P, id, true)), Tick(cfg.staleAfter));
    claim := ClaimTheRow(cfg, later.s, P, id);
  }

  lemma OneRefusal(cfg: Config, sp: Spacing, id: EventId) returns (acts: seq<Action>)
    requires sp.again > 0
    ensures Standing(Tracked(cfg, sp, id, acts), id, 1, cfg.staleAfter, 1, Unsent)
  {
    var prior := FirstCopy(cfg, sp, id);
    var claim := RefusalTurn(cfg, sp, id, Tracked(cfg, sp, id, prior), 0, 0);
    acts := TrackThreeMore(cfg, sp, id, prior, MarkFailed(P, id, true), Tick(cfg.staleAfter), claim);
  }

  lemma TwoRefusals(cfg: Config, sp: Spacing, id: EventId) returns (acts: seq<Action>)
    requires sp.again > 1
    ensures Standing(Tracked(cfg, sp, id, acts), id, 2, 2 * cfg.staleAfter, 2, Unsent)
  {
    var prior := OneRefusal(cfg, sp, id);
    var refuse := Send(P, id, false, false);
    TrackOneMore(cfg, sp, id, prior, refuse);
    var t := Tracked(cfg, sp, id, prior + [refuse]);
    var claim := RefusalTurn(cfg, sp, id, t, 1, cfg.staleAfter);
    acts := TrackThreeMore(cfg, sp, id, prior + [refuse], MarkFailed(P, id, true), Tick(cfg.staleAfter), claim);
  }

  lemma RefusalsStoreTwice(cfg: Config, sp: Spacing, id: EventId)
    requires sp.again > 0 && cfg.window <= Min(sp.again, 2) * cfg.staleAfter + sp.delay
    ensures CanStoreTwice(cfg, sp, id)
  {
    if sp.again == 1 {
      var prior := OneRefusal(cfg, sp, id);
      SecondCopy(cfg, sp, id, prior, 1, cfg.staleAfter, 1);
    } else {
      var prior := TwoRefusals(cfg, sp, id);
      SecondCopy(cfg, sp, id, prior, 2, 2 * cfg.staleAfter, 2);
    }
  }

  // ---------------------------------------------------------------- with slack, two replicas hold the row at once

  const E := Publisher(1, MAX_OUTBOX_ATTEMPTS)
  const G := Publisher(2, MAX_OUTBOX_ATTEMPTS)

  /** E stalls, G claims its stale row, then E reports a failure: the row is open again while G holds it. */
  ghost predicate Reopened(t: Track, id: EventId, at: int) {
    && t.ok && t.s.now == at && t.s.log == [] && t.first == None && t.last == Some(at) && t.again == 0
    && t.s.table == map[id := Row(PENDING, 1, Some(at), 0, Encoded(id))]
    && t.s.held == map[Slot(G, id) := Held(Record(id, Encoded(id), 0, at), Unsent)]
  }

  /** E's claim has just gone stale. */
  ghost predicate Stalled(t: Track, id: EventId, at: int) {
    && t.ok && t.s.now == at && t.s.log == [] && t.first == None && t.last == Some(0) && t.again == 0
    && t.s.table == map[id := Row(PROCESSING, 0, Some(0), 0, Encoded(id))]
    && t.s.held == map[Slot(E, id) := Held(Record(id, Encoded(id), 0, 0), Unsent)]
  }

  /** G has claimed it too, and E has not been told. */
  ghost predicate Shared(t: Track, id: EventId, at: int, phase: Phase) {
    && t.ok && t.s.now == at && t.s.log == [] && t.first == None && t.last == Some(at) && t.again == 0
    && t.s.table == map[id := Row(PROCESSING, 0, Some(at), 0, Encoded(id))]
    && t.s.held == map[
      Slot(E, id) := Held(Record(id, Encoded(id), 0, 0), phase),
      Slot(G, id) := Held(Record(id, Encoded(id), 0, at), Unsent)]
  }

  lemma StalledHolder(cfg: Config, sp: Spacing, id: EventId) returns (acts: seq<Action>)
    ensures Stalled(Tracked(cfg, sp, id, acts), id, cfg.staleAfter + 1)
  {
    var start, insert := Track(START, None, None, 0, true), Insert(id, 0, Encoded(id));
    var t := Follow(cfg, sp, id, start, insert);
    var claim := ClaimTheRow(cfg, t.s, E, id);
    acts := TrackThreeMore(cfg, sp, id, [], insert, claim, Tick(cfg.staleAfter + 1));
  }

  lemma ShareTurn(cfg: Config, sp: Spacing, id: EventId, t: Track) returns (claim: Action)
    requires Stalled(t, id, cfg.staleAfter + 1) && sp.slack > 0
    ensures Shared(Follow(cfg, sp, id, t, claim), id, cfg.staleAfter + 1, Unsent)
  {
    claim := ClaimTheRow(cfg, t.s, G, id);
  }

  lemma RefuseTurn(cfg: Config, sp: Spacing, id: EventId, t: Track, at: int)
    requires Shared(t, id, at, Unsent)
    ensures Shared(Follow(cfg, sp, id, t, Send(E, id, false, false)), id, at, Errored)
  {
  }

  lemma ReopenTurn(cfg: Config, sp: Spacing, id: EventId, t: Track, at: int)
    requires Shared(t, id, at, Errored)
    ensures Reopened(Follow(cfg, sp, id, t, MarkFailed(E, id, true)), id, at)
  {
    assert t.s.held - {Slot(E, id)} == map[Slot(G, id) := Held(Record(id, Encoded(id), 0, at), Unsent)];
  }

  lemma RowIsReopened(cfg: Config, sp: Spacing, id: EventId) returns (acts: seq<Action>)
    requires sp.slack > 0
    ensures Reopened(Tracked(cfg, sp, id, acts), id, cfg.staleAfter + 1)
  {
    var at := cfg.staleAfter + 1;
    var prior := StalledHolder(cfg, sp, id);
    var t := Tracked(cfg, sp, id, prior);
    var claim := ShareTurn(cfg, sp, id, t);
    RefuseTurn(cfg, sp, id, Follow(cfg, sp, id, t, claim), at);
    ReopenTurn(cfg, sp, id, Follow(cfg, sp, id, Follow(cfg, sp, id, t, claim), Send(E, id, false, false)), at);
    acts := TrackThreeMore(cfg, sp, id, prior, claim, Send(E, id, false, false), MarkFailed(E, id, true));
  }

  /** P claims the open row and publishes at once; G still holds its own claim. */
  lemma OvertakenTurn(cfg: Config, sp: Spacing, id: EventId, t: Track, at: int) returns (claim: Action)
    requires Reopened(t, id, at)
    ensures var sent := Follow(cfg, sp, id, Follow(cfg, sp, id, t, claim), Send(P, id, true, true));
      && sent.ok && sent.s.now == at && sent.s.log == [Stored(id, at)] && sent.first == Some(at) && sent.again == 0
      && Slot(G, id) in sent.s.held
      && sent.s.held[Slot(G, id)] == Held(Record(id, Encoded(id), 0, at), Unsent)
  {
    claim := ClaimTheRow(cfg, t.s, P, id);
    assert !Duplicate([], cfg.window, id, at);
  }

  /** G publishes at the last moment the delay allows. */
  lemma LateTurn(cfg: Config, sp: Spacing, id: EventId, t: Track, at: int)
    requires cfg.window <= sp.delay && t.ok && t.s.now == at + sp.delay && t.s.log == [Stored(id, at)]
    requires t.first == Some(at) && t.again <= sp.again
    requires Slot(G, id) in t.s.held && t.s.held[Slot(G, id)] == Held(Record(id, Encoded(id), 0, at), Unsent)
    ensures var sent := Follow(cfg, sp, id, t, Send(G, id, true, true));
      sent.ok && sent.s.log == [Stored(id, at), Stored(id, at + sp.delay)]
  {
    assert !Duplicate([Stored(id, at)], cfg.window, id, at + sp.delay);
  }

  lemma LateHolderSends(cfg: Config, sp: Spacing, id: EventId, prior: seq<Action>, at: int)
    requires cfg.window <= sp.delay
    requires var t := Tracked(cfg, sp, id, prior);
      && t.ok && t.s.now == at + sp.delay && t.s.log == [Stored(id, at)] && t.first == Some(at)
      && Slot(G, id) in t.s.held && t.s.held[Slot(G, id)] == Held(Record(id, Encoded(id), 0, at), Unsent)
      && t.again <= sp.again
    ensures CanStoreTwice(cfg, sp, id)
  {
    LateTurn(cfg, sp, id, Tracked(cfg, sp, id, prior), at);
    TrackOneMore(cfg, sp, id, prior, Send(G, id, true, true));
    var acts := prior + [Send(G, id, true, true)];
    TrackedIsSpaced(cfg, sp, id, acts);
    TwoCopies(cfg, sp, id, acts, at, at + sp.delay);
  }

  /** Even if the row is never claimed again after its first accepted publish, an earlier holder may still
      publish it, late by the full delay. */
  lemma LateHolderStoresTwice(cfg: Config, sp: Spacing, id: EventId)
    requires sp.slack > 0 && cfg.window <= sp.delay
    ensures CanStoreTwice(cfg, sp, id)
  {
    var at := cfg.staleAfter + 1;
    var prior := RowIsReopened(cfg, sp, id);
    var claim := OvertakenTurn(cfg, sp, id, Tracked(cfg, sp, id, prior), at);
    var acts := TrackThreeMore(cfg, sp, id, prior, claim, Send(P, id, true, true), Tick(sp.delay));
    LateHolderSends(cfg, sp, id, acts, at);
  }

  // ---------------------------------------------------------------- without slack, one holder at a time

  /** Without slack no claim goes stale in time, so at most one replica holds the row, it stands as that
      replica claimed it, and only failures can open it again. */
  ghost predicate Sole(s: State, id: EventId, last: Option<int>, first: Option<int>, again: nat) {
    && (forall k, m | k in s.held && m in s.held && k.id == id && m.id == id :: k == m)
    && (forall k | k in s.held && k.id == id :: id in s.table && s.table[id].status == PROCESSING)
    && (id in s.table && s.table[id].status == PROCESSING ==> last.Some? && s.table[id].lastAttemptAt == last)
    && (first.Some? ==> again <= 2 && id in s.committed)
    && (first.Some? && id in s.table ==> again + Count(s.table[id].status == PENDING) <= s.table[id].attempts)
    && (first.Some? && again == 0 ==> forall k | k in s.held && k.id == id :: s.held[k].phase != Unsent)
    && (first.None? ==> again == 0)
  }

  lemma ClaimKeepsSole(cfg: Config, s: State, a: Action, id: EventId, last: Option<int>, first: Option<int>,
    again: nat, skipped: set<EventId>)
    requires Inv(s, skipped) && Sole(s, id, last, first, again) && Enabled(cfg, s, a) && a.Claim? && id in a.picked
    requires last.Some? ==> a.at <= last.value + cfg.staleAfter
    ensures Sole(Apply(cfg, s, a), id, Some(a.at), first, again + Count(first.Some?))
  {
    assert RowOk(id, s.table[id]);
    assert s.table[id].status == PENDING;
    var after := Apply(cfg, s, a);
    forall k | k in after.held && k.id == id ensures k == Slot(a.replica, id) && after.held[k].phase == Unsent {
      assert k !in s.held;
    }
  }

  lemma SendKeepsSole(cfg: Config, s: State, a: Action, id: EventId, last: Option<int>, first: Option<int>,
    again: nat, skipped: set<EventId>)
    requires Inv(s, skipped) && Sole(s, id, last, first, again) && Enabled(cfg, s, a) && a.Send?
    ensures Sole(Apply(cfg, s, a), id, last, if first.None? && Accepts(a, id) then Some(s.now) else first, again)
    ensures Accepts(a, id) && again == 0 ==> first.None?
  {
    assert HeldOk(s, Slot(a.replica, a.id), skipped);
    var after := Apply(cfg, s, a);
    forall k | k in after.held && k.id == id
      ensures k in s.held && (a.id == id ==> k == Slot(a.replica, id) && after.held[k].phase != Unsent)
    {
    }
  }

  lemma OtherKeepsSole(cfg: Config, s: State, a: Action, id: EventId, last: Option<int>, first: Option<int>,
    again: nat, skipped: set<EventId>)
    requires Inv(s, skipped) && Sole(s, id, last, first, again) && Enabled(cfg, s, a)
    requires !a.Send? && !(a.Claim? && id in a.picked)
    ensures Sole(Apply(cfg, s, a), id, last, first, again)
  {
    assert id in s.table ==> RowOk(id, s.table[id]);
    var after := Apply(cfg, s, a);
    forall k | k in after.held && k.id == id ensures k in s.held && after.held[k].record == s.held[k].record {
    }
  }

  /** What every run without slack keeps: one holder, and one copy while the row is not claimed again. */
  lemma {:induction false} NoSlackKeepsSole(cfg: Config, delay: nat, again: nat, acts: seq<Action>, id: EventId)
    requires Legal(cfg, acts) && Spaced(cfg, 0, delay, again, acts, id)
    ensures Sole(
      Exec(cfg, acts), id, LastClaimAt(acts, id), FirstAcceptAt(cfg, acts, id), ClaimsAfterAccept(cfg, acts, id))
    ensures ClaimsAfterAccept(cfg, acts, id) == 0 ==> StoredOnce(Exec(cfg, acts).log, id, FirstAcceptAt(cfg, acts, id))
  {
    if acts != [] {
      var s, a, h := Exec(cfg, Front(acts)), Last(acts), Front(acts);
      var last, first, n := LastClaimAt(h, id), FirstAcceptAt(cfg, h, id), ClaimsAfterAccept(cfg, h, id);
      var skipped := SkippedSends(h);
      NoSlackKeepsSole(cfg, delay, again, h, id);
      RunKeepsInv(cfg, h);
      if a.Send? {
        SendKeepsSole(cfg, s, a, id, last, first, n, skipped);
        SendKeepsCopy(cfg, s, a, id, first, n, skipped);
      } else if a.Claim? && id in a.picked {
        ClaimKeepsSole(cfg, s, a, id, last, first, n, skipped);
      } else {
        OtherKeepsSole(cfg, s, a, id, last, first, n, skipped);
      }
    }
  }

  lemma SendKeepsCopy(cfg: Config, s: State, a: Action, id: EventId, first: Option<int>, n: nat, skipped: set<EventId>)
    requires Inv(s, skipped) && Enabled(cfg, s, a) && a.Send? && (n == 0 ==> StoredOnce(s.log, id, first))
    requires Accepts(a, id) && n == 0 ==> first.None?
    ensures n == 0 ==>
      StoredOnce(Apply(cfg, s, a).log, id, if first.None? && Accepts(a, id) then Some(s.now) else first)
  {
    if a.accepted && n == 0 {
      assert HeldOk(s, Slot(a.replica, a.id), skipped);
      AcceptKeepsCopies(s.log, cfg.window, a.id, s.now, id, first);
    }
  }

  /** Without slack a row is claimed at most twice after its first accepted publish. */
  lemma {:induction false} NoSlackClaimsTwice(cfg: Config, delay: nat, again: nat, acts: seq<Action>, id: EventId)
    requires Legal(cfg, acts) && Spaced(cfg, 0, delay, again, acts, id)
    ensures Spaced(cfg, 0, delay, Min(again, 2), acts, id)
  {
    if acts != [] {
      NoSlackClaimsTwice(cfg, delay, again, Front(acts), id);
      NoSlackKeepsSole(cfg, delay, again, acts, id);
    }
  }

  // ---------------------------------------------------------------- the exact window

  /** How many of the allowed reclaims can follow the first accepted publish: without slack only the two
      refusals a row can count before it is parked. */
  function LateClaims(sp: Spacing): nat {
    if sp.slack == 0 then Min(sp.again, 2) else sp.again
  }

  lemma EnoughWindow(cfg: Config, sp: Spacing, id: EventId, acts: seq<Action>)
    requires Legal(cfg, acts) && Spaced(cfg, sp.slack, sp.delay, sp.again, acts, id)
    requires (sp.slack == 0 && sp.again == 0) || cfg.window > LateClaims(sp) * (cfg.staleAfter + sp.slack) + sp.delay
    ensures Copies(Exec(cfg, acts).log, id) <= 1
  {
    if sp.slack == 0 && sp.again == 0 {
      NoSlackKeepsSole(cfg, sp.delay, 0, acts, id);
    } else {
      if sp.slack == 0 {
        NoSlackClaimsTwice(cfg, sp.delay, sp.again, acts, id);
      }
      AcceptedEventIsStoredOnce(cfg, sp.slack, sp.delay, LateClaims(sp), acts, id);
    }
  }

  /** The exact window, for every slack, delay and number of reclaims: an event is stored at most once in every
      run with this spacing if and only if the window exceeds the time from the first accepted publish to the
      last publish that may follow it, or none may follow. */
  lemma WindowBoundIsExact(cfg: Config, sp: Spacing, id: EventId)
    ensures (forall acts | Legal(cfg, acts) && Spaced(cfg, sp.slack, sp.delay, sp.again, acts, id) ::
        Copies(Exec(cfg, acts).log, id) <= 1)
      <==>
      (sp.slack == 0 && sp.again == 0) || cfg.window > LateClaims(sp) * (cfg.staleAfter + sp.slack) + sp.delay
  {
    if (sp.slack == 0 && sp.again == 0) || cfg.window > LateClaims(sp) * (cfg.staleAfter + sp.slack) + sp.delay {
      forall acts | Legal(cfg, acts) && Spaced(cfg, sp.slack, sp.delay, sp.again, acts, id)
        ensures Copies(Exec(cfg, acts).log, id) <= 1
      {
        EnoughWindow(cfg, sp, id, acts);
      }
    } else if sp.again == 0 {
      LateHolderStoresTwice(cfg, sp, id);
    } else if sp.slack == 0 {
      RefusalsStoreTwice(cfg, sp, id);
    } else {
      ReclaimsStoreTwice(cfg, sp, id);
    }
  }

  /** With both limits at their two minutes (120 seconds), one stale claim is enough to store an event twice. */
  lemma DefaultWindowCanStoreTwice(id: EventId)
    ensures CanStoreTwice(Config(120, 120), Spacing(1, 0, 1), id)
  {
    ReclaimsStoreTwice(Config(120, 120), Spacing(1, 0, 1), id);
  }
}
