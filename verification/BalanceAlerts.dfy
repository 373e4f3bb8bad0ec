/** The alerts of low balances (balancealert/balancealert.go): their dedupe keys, claims and publishes. */
module BalanceAlerts {
  import opened Common
  import opened Balance

  // ---------------------------------------------------------------- claiming the alert

  datatype Alert = Alert(
    scope: string, tenantId: string, tenantParses: bool, resource: string, level: string,
    period: string, epoch: string)

  function Owner(a: Alert): string {
    if a.scope == "tenant" then a.tenantId else "platform"
  }

  /** strings.Join(..., ":") and the optional epoch */
  function DedupeKey(a: Alert): string {
    "balance-low:" + a.scope + ":" + Owner(a) + ":" + a.resource + ":" + a.level + ":" + a.period
    + if a.epoch == "" then "" else ":" + a.epoch
  }

  predicate Valid(a: Alert) {
    && a.scope in {"tenant", "platform"}
    && (a.scope == "tenant" ==> a.tenantId != "" && a.tenantParses)
    && a.resource != "" && a.level in {"low", "empty"} && a.period != ""
  }

  lemma Cancel(p: string, x: string, y: string, s: string)
    requires p + x + s == p + y + s
    ensures x == y
  {
    assert |x| == |y|;
    assert (p + x + s)[|p|..|p| + |x|] == x && (p + y + s)[|p|..|p| + |y|] == y;
  }

  /** The alerts differ in one thing only: the tenant they are for, the resource, the level, the period or
      the epoch. */
  ghost predicate OneFieldApart(a: Alert, b: Alert) {
    a != b &&
    ((b == a.(tenantId := b.tenantId) && a.scope == "tenant") || b == a.(resource := b.resource)
    || b == a.(level := b.level) || b == a.(period := b.period) || b == a.(epoch := b.epoch))
  }

  function Head(a: Alert): string {
    "balance-low:" + a.scope + ":"
  }

  function EpochTail(a: Alert): string {
    if a.epoch == "" then "" else ":" + a.epoch
  }

  lemma TenantsTellApart(a: Alert, tenantId: string)
    requires a.scope == "tenant" && tenantId != a.tenantId
    ensures DedupeKey(a) != DedupeKey(a.(tenantId := tenantId))
  {
    var tail := ":" + a.resource + ":" + a.level + ":" + a.period + EpochTail(a);
    assert DedupeKey(a) == Head(a) + a.tenantId + tail;
    assert DedupeKey(a.(tenantId := tenantId)) == Head(a) + tenantId + tail;
    if DedupeKey(a) == DedupeKey(a.(tenantId := tenantId)) {
      Cancel(Head(a), a.tenantId, tenantId, tail);
    }
  }

  lemma ResourcesTellApart(a: Alert, resource: string)
    requires resource != a.resource
    ensures DedupeKey(a) != DedupeKey(a.(resource := resource))
  {
    var front, tail := Head(a) + Owner(a) + ":", ":" + a.level + ":" + a.period + EpochTail(a);
    assert DedupeKey(a) == front + a.resource + tail;
    assert DedupeKey(a.(resource := resource)) == front + resource + tail;
    if DedupeKey(a) == DedupeKey(a.(resource := resource)) {
      Cancel(front, a.resource, resource, tail);
    }
  }

  lemma LevelsTellApart(a: Alert, level: string)
    requires level != a.level
    ensures DedupeKey(a) != DedupeKey(a.(level := level))
  {
    var front, tail := Head(a) + Owner(a) + ":" + a.resource + ":", ":" + a.period + EpochTail(a);
    assert DedupeKey(a) == front + a.level + tail;
    assert DedupeKey(a.(level := level)) == front + level + tail;
    if DedupeKey(a) == DedupeKey(a.(level := level)) {
      Cancel(front, a.level, level, tail);
    }
  }

  lemma PeriodsTellApart(a: Alert, period: string)
    requires period != a.period
    ensures DedupeKey(a) != DedupeKey(a.(period := period))
  {
    var front := Head(a) + Owner(a) + ":" + a.resource + ":" + a.level + ":";
    assert DedupeKey(a) == front + a.period + EpochTail(a);
    assert DedupeKey(a.(period := period)) == front + period + EpochTail(a);
    if DedupeKey(a) == DedupeKey(a.(period := period)) {
      Cancel(front, a.period, period, EpochTail(a));
    }
  }

  lemma EpochsTellApart(a: Alert, epoch: string)
    requires epoch != a.epoch
    ensures DedupeKey(a) != DedupeKey(a.(epoch := epoch))
  {
    var front, b := Head(a) + Owner(a) + ":" + a.resource + ":" + a.level + ":" + a.period, a.(epoch := epoch);
    assert DedupeKey(a) == front + EpochTail(a) + "" && DedupeKey(b) == front + EpochTail(b) + "";
    if DedupeKey(a) == DedupeKey(b) {
      Cancel(front, EpochTail(a), EpochTail(b), "");
      Cancel(":", a.epoch, epoch, "");
    }
  }

  /** So neither silences the other: a tenant's alert claims no key of another tenant, resource, level, period
      or epoch. */
  lemma KeysTellApart(a: Alert, b: Alert)
    requires OneFieldApart(a, b)
    ensures DedupeKey(a) != DedupeKey(b)
  {
    if b == a.(tenantId := b.tenantId) {
      TenantsTellApart(a, b.tenantId);
    } else if b == a.(resource := b.resource) {
      ResourcesTellApart(a, b.resource);
    } else if b == a.(level := b.level) {
      LevelsTellApart(a, b.level);
    } else if b == a.(period := b.period) {
      PeriodsTellApart(a, b.period);
    } else {
      EpochsTellApart(a, b.epoch);
    }
  }

  /** And an alert for the platform never has the key of a tenant's. */
  lemma ScopesTellApart(a: Alert, b: Alert)
    requires a.scope == "tenant" && b.scope == "platform"
    ensures DedupeKey(a) != DedupeKey(b)
  {
    assert DedupeKey(a)[12] == 't' && DedupeKey(b)[12] == 'p';
  }

  /** The alert at each of these levels, and the keys of those. */
  function Alerts(a: Alert, levels: seq<Level>): seq<Alert> {
    seq(|levels|, i requires 0 <= i < |levels| => a.(level := Text(levels[i])))
  }

  function KeysOf(a: Alert, levels: seq<Level>): set<string> {
    set l | l in levels :: DedupeKey(a.(level := Text(l)))
  }

  /** What a poller without claims raises: every reading that is low or empty. */
  function BadReadings(run: seq<real>, mark: real): seq<Level> {
    if run == [] then []
    else
      var seen, level := BadReadings(run[..|run| - 1], mark), LevelOf(run[|run| - 1], mark);
      if level == NoLevel then seen else seen + [level]
  }

  /** Which publishes succeed, by movement or tick. */
  type Answers = nat -> bool

  /** The crossings whose publish succeeds. */
  function SentCrossings(start: real, run: seq<real>, mark: real, ok: Answers): seq<Level> {
    if run == [] then []
    else
      var n := |run| - 1;
      var sent, level := SentCrossings(start, run[..n], mark, ok), Crossed(Before(start, run), run[n], mark);
      if level == NoLevel || !ok(n) then sent else sent + [level]
  }

  /** A level is published only when its key is first claimed, so a failed publish is not made up for. */
  function SentPolled(run: seq<real>, mark: real, ok: Answers): seq<Level> {
    if run == [] then []
    else
      var n := |run| - 1;
      var sent, level := SentPolled(run[..n], mark, ok), LevelOf(run[n], mark);
      if level == NoLevel || level in Polled(run[..n], mark) || !ok(n) then sent else sent + [level]
  }

  function SentReadings(run: seq<real>, mark: real, ok: Answers): seq<Level> {
    if run == [] then []
    else
      var n := |run| - 1;
      var sent, level := SentReadings(run[..n], mark, ok), LevelOf(run[n], mark);
      if level == NoLevel || !ok(n) then sent else sent + [level]
  }

  /** When no publish fails, everything raised is sent. */
  lemma {:induction false} AllAreSent(start: real, run: seq<real>, mark: real, ok: Answers)
    requires forall n: nat | n < |run| :: ok(n)
    ensures SentCrossings(start, run, mark, ok) == Crossings(start, run, mark)
    ensures SentPolled(run, mark, ok) == Polled(run, mark)
    ensures SentReadings(run, mark, ok) == BadReadings(run, mark)
  {
    if run != [] {
      AllAreSent(start, run[..|run| - 1], mark, ok);
    }
  }

  lemma {:induction false} NoEmptyReports(start: real, run: seq<real>, mark: real)
    ensures NoLevel !in Polled(run, mark) && NoLevel !in Crossings(start, run, mark)
    ensures NoLevel !in BadReadings(run, mark)
  {
    if run != [] {
      NoEmptyReports(start, run[..|run| - 1], mark);
    }
  }

  // ---------------------------------------------------------------- what is sent, reading by reading

  /** A balance of nothing is empty; a positive one up to the mark is low. */
  predicate Reads(l: Level, balance: real, mark: real) {
    match l
    case Empty => balance <= 0.0
    case Low => 0.0 < balance <= mark
    case NoLevel => balance > 0.0 && balance > mark
  }

  /** The n-th movement takes the balance to nothing from above it, or from above the mark to it. */
  predicate MovesTo(l: Level, start: real, run: seq<real>, n: nat, mark: real)
    requires n < |run|
  {
    var before := if n == 0 then start else run[n - 1];
    match l
    case Empty => before > 0.0 && run[n] <= 0.0
    case Low => before > mark && 0.0 < run[n] <= mark
    case NoLevel => false
  }

  lemma LevelReads(balance: real, mark: real)
    ensures Reads(LevelOf(balance, mark), balance, mark)
    ensures forall l :: Reads(l, balance, mark) ==> l == LevelOf(balance, mark)
  {
  }

  lemma {:induction false} PolledWhen(run: seq<real>, mark: real, l: Level)
    requires l != NoLevel
    ensures l in Polled(run, mark) <==> exists n: nat :: n < |run| && Reads(l, run[n], mark)
  {
    if run != [] {
      var n := |run| - 1;
      PolledWhen(run[..n], mark, l);
      LevelReads(run[n], mark);
      assert Reads(l, run[n], mark) ==> l in Polled(run, mark);
      if i: nat :| i < n && Reads(l, run[i], mark) {
        assert run[..n][i] == run[i];
      }
    }
  }

  /** The first time the level is read, the publish succeeds. */
  ghost predicate FirstReadSent(l: Level, run: seq<real>, n: nat, mark: real, ok: Answers) {
    n < |run| && Reads(l, run[n], mark) && ok(n) && forall m: nat | m < n :: !Reads(l, run[m], mark)
  }

  lemma {:induction false} SentPolledWhen(run: seq<real>, mark: real, ok: Answers, l: Level)
    requires l != NoLevel
    ensures l in SentPolled(run, mark, ok) <==> exists n: nat :: FirstReadSent(l, run, n, mark, ok)
  {
    if run != [] {
      var n := |run| - 1;
      SentPolledWhen(run[..n], mark, ok, l);
      PolledWhen(run[..n], mark, l);
      LevelReads(run[n], mark);
      forall i: nat | i < n ensures FirstReadSent(l, run[..n], i, mark, ok) <==> FirstReadSent(l, run, i, mark, ok) {
        forall m: nat | m <= i ensures run[..n][m] == run[m] {
        }
      }
      assert FirstReadSent(l, run, n, mark, ok) <==>
        Reads(l, run[n], mark) && ok(n) && l !in Polled(run[..n], mark) by {
        forall m: nat | m < n ensures run[..n][m] == run[m] {
        }
      }
    }
  }

  lemma {:induction false} SentReadingsWhen(run: seq<real>, mark: real, ok: Answers, l: Level)
    requires l != NoLevel
    ensures l in SentReadings(run, mark, ok) <==> exists n: nat :: n < |run| && Reads(l, run[n], mark) && ok(n)
  {
    if run != [] {
      var n := |run| - 1;
      SentReadingsWhen(run[..n], mark, ok, l);
      LevelReads(run[n], mark);
      assert Reads(l, run[n], mark) && ok(n) ==> l in SentReadings(run, mark, ok);
      if i: nat :| i < n && Reads(l, run[i], mark) && ok(i) {
        assert run[..n][i] == run[i];
      }
    }
  }

  lemma {:induction false} SentCrossingsWhen(start: real, run: seq<real>, mark: real, ok: Answers, l: Level)
    requires l != NoLevel
    ensures l in SentCrossings(start, run, mark, ok) <==>
      exists n: nat :: n < |run| && MovesTo(l, start, run, n, mark) && ok(n)
  {
    if run != [] {
      var n := |run| - 1;
      SentCrossingsWhen(start, run[..n], mark, ok, l);
      assert MovesTo(l, start, run, n, mark) <==> Crossed(Before(start, run), run[n], mark) == l;
      assert MovesTo(l, start, run, n, mark) && ok(n) ==> l in SentCrossings(start, run, mark, ok);
      forall i: nat | i < n ensures MovesTo(l, start, run[..n], i, mark) <==> MovesTo(l, start, run, i, mark) {
      }
      if i: nat :| i < n && MovesTo(l, start, run, i, mark) && ok(i) {
        assert MovesTo(l, start, run[..n], i, mark);
      }
    }
  }

  /** The alerts sent name their level in the words of the event. */
  lemma AlertsNameTheirLevel(a: Alert, levels: seq<Level>)
    requires NoLevel !in levels
    ensures a.(level := "low") in Alerts(a, levels) <==> Low in levels
    ensures a.(level := "empty") in Alerts(a, levels) <==> Empty in levels
    ensures forall x | x in Alerts(a, levels) :: x == a.(level := "low") || x == a.(level := "empty")
  {
    var alerts := Alerts(a, levels);
    forall i | 0 <= i < |levels| ensures alerts[i] == a.(level := if levels[i] == Low then "low" else "empty") {
      assert levels[i] in levels;
    }
    if Low in levels {
      var i :| 0 <= i < |levels| && levels[i] == Low;
      assert alerts[i] == a.(level := "low");
    }
    if Empty in levels {
      var i :| 0 <= i < |levels| && levels[i] == Empty;
      assert alerts[i] == a.(level := "empty");
    }
  }

  lemma {:induction false} NoEmptySends(start: real, run: seq<real>, mark: real, ok: Answers)
    ensures NoLevel !in SentCrossings(start, run, mark, ok) && NoLevel !in SentPolled(run, mark, ok)
    ensures NoLevel !in SentReadings(run, mark, ok)
  {
    if run != [] {
      NoEmptySends(start, run[..|run| - 1], mark, ok);
    }
  }

  /** What one more spend adds: a level that was not raised before. */
  lemma NextMovement(start: real, run: seq<real>, n: nat, mark: real, ok: Answers)
    requires Spends(start, run) && n < |run|
    ensures var level := Crossed(if n == 0 then start else run[n - 1], run[n], mark);
      var raised, sent := Crossings(start, run[..n], mark), SentCrossings(start, run[..n], mark, ok);
      && NoLevel !in raised && level !in raised
      && Crossings(start, run[..n + 1], mark) == (if level == NoLevel then raised else raised + [level])
      && SentCrossings(start, run[..n + 1], mark, ok)
        == if level == NoLevel || !ok(n) then sent else sent + [level]
  {
    assert run[..n + 1][..n] == run[..n];
    NoEmptyReports(start, run[..n], mark);
    SpendsPrefix(start, run, n + 1);
    CrossingsOfSpends(start, run[..n], mark);
    CrossingsOfSpends(start, run[..n + 1], mark);
  }

  /** What a poller raises, and what it sends, with or without a claim store. */
  function Raised(claims: bool, run: seq<real>, mark: real): seq<Level> {
    if claims then Polled(run, mark) else BadReadings(run, mark)
  }

  function SentTicks(claims: bool, run: seq<real>, mark: real, ok: Answers): seq<Level> {
    if claims then SentPolled(run, mark, ok) else SentReadings(run, mark, ok)
  }

  lemma NextTick(claims: bool, run: seq<real>, n: nat, mark: real, ok: Answers)
    requires n < |run|
    ensures var level := LevelOf(run[n], mark);
      var raised, sent := Raised(claims, run[..n], mark), SentTicks(claims, run[..n], mark, ok);
      var taken := level == NoLevel || (claims && level in raised);
      && NoLevel !in raised
      && Raised(claims, run[..n + 1], mark) == (if taken then raised else raised + [level])
      && SentTicks(claims, run[..n + 1], mark, ok) == if taken || !ok(n) then sent else sent + [level]
  {
    assert run[..n + 1][..n] == run[..n];
    NoEmptyReports(0.0, run[..n], mark);
  }

  /** What a spend path sends: the empty alert for a movement to nothing, the low one for a movement to the
      mark, and no other. */
  lemma SpendSends(a: Alert, start: real, run: seq<real>, mark: real, ok: Answers)
    ensures var alerts := Alerts(a, SentCrossings(start, run, mark, ok));
      && (a.(level := "empty") in alerts <==> exists n: nat ::
        n < |run| && ok(n) && (if n == 0 then start else run[n - 1]) > 0.0 >= run[n])
      && (a.(level := "low") in alerts <==> exists n: nat ::
        n < |run| && ok(n) && (if n == 0 then start else run[n - 1]) > mark >= run[n] > 0.0)
      && (forall x | x in alerts :: x == a.(level := "low") || x == a.(level := "empty"))
  {
    NoEmptySends(start, run, mark, ok);
    AlertsNameTheirLevel(a, SentCrossings(start, run, mark, ok));
    SentCrossingsWhen(start, run, mark, ok, Low);
    SentCrossingsWhen(start, run, mark, ok, Empty);
    if n: nat :| n < |run| && ok(n) && (if n == 0 then start else run[n - 1]) > 0.0 >= run[n] {
      assert MovesTo(Empty, start, run, n, mark);
    }
    if n: nat :| n < |run| && MovesTo(Empty, start, run, n, mark) && ok(n) {
      assert (if n == 0 then start else run[n - 1]) > 0.0 >= run[n];
    }
    if n: nat :| n < |run| && ok(n) && (if n == 0 then start else run[n - 1]) > mark >= run[n] > 0.0 {
      assert MovesTo(Low, start, run, n, mark);
    }
    if n: nat :| n < |run| && MovesTo(Low, start, run, n, mark) && ok(n) {
      assert (if n == 0 then start else run[n - 1]) > mark >= run[n] > 0.0;
    }
  }

  /** The level is read, for the first time if claims are taken, and the publish succeeds. */
  ghost predicate ReadSent(claims: bool, l: Level, run: seq<real>, n: nat, mark: real, ok: Answers) {
    n < |run| && Reads(l, run[n], mark) && ok(n) && (claims ==> forall m: nat | m < n :: !Reads(l, run[m], mark))
  }

  lemma TicksSendWhen(claims: bool, run: seq<real>, mark: real, ok: Answers, l: Level)
    requires l != NoLevel
    ensures l in SentTicks(claims, run, mark, ok) <==> exists n: nat :: ReadSent(claims, l, run, n, mark, ok)
  {
    if claims {
      SentPolledWhen(run, mark, ok, l);
      forall n: nat ensures FirstReadSent(l, run, n, mark, ok) <==> ReadSent(claims, l, run, n, mark, ok) {
      }
    } else {
      SentReadingsWhen(run, mark, ok, l);
      forall n: nat | n < |run| ensures Reads(l, run[n], mark) && ok(n) <==> ReadSent(claims, l, run, n, mark, ok) {
      }
    }
  }

  /** What a poller sends: each alert for the first bad reading of its kind, or for every one without a claim
      store, if that publish succeeds. */
  lemma PollSends(claims: bool, a: Alert, run: seq<real>, mark: real, ok: Answers)
    ensures var alerts := Alerts(a, SentTicks(claims, run, mark, ok));
      && (a.(level := "empty") in alerts <==> exists n: nat ::
        n < |run| && ok(n) && run[n] <= 0.0 && (claims ==> forall m: nat | m < n :: run[m] > 0.0))
      && (a.(level := "low") in alerts <==> exists n: nat ::
        n < |run| && ok(n) && 0.0 < run[n] <= mark && (claims ==> forall m: nat | m < n :: !(0.0 < run[m] <= mark)))
      && (forall x | x in alerts :: x == a.(level := "low") || x == a.(level := "empty"))
  {
    NoEmptySends(0.0, run, mark, ok);
    AlertsNameTheirLevel(a, SentTicks(claims, run, mark, ok));
    TicksSendWhen(claims, run, mark, ok, Low);
    TicksSendWhen(claims, run, mark, ok, Empty);
    if n: nat :| ReadSent(claims, Empty, run, n, mark, ok) {
      assert n < |run| && ok(n) && run[n] <= 0.0 && (claims ==> forall m: nat | m < n :: run[m] > 0.0) by {
        assert forall m: nat | m < n :: Reads(Empty, run[m], mark) <==> run[m] <= 0.0;
      }
    }
    if n: nat :| n < |run| && ok(n) && run[n] <= 0.0 && (claims ==> forall m: nat | m < n :: run[m] > 0.0) {
      assert ReadSent(claims, Empty, run, n, mark, ok);
    }
    if n: nat :| ReadSent(claims, Low, run, n, mark, ok) {
      assert n < |run| && ok(n) && 0.0 < run[n] <= mark
        && (claims ==> forall m: nat | m < n :: !(0.0 < run[m] <= mark)) by {
        assert forall m: nat | m < n :: Reads(Low, run[m], mark) <==> 0.0 < run[m] <= mark;
      }
    }
    if n: nat :| (n < |run| && ok(n) && 0.0 < run[n] <= mark
      && (claims ==> forall m: nat | m < n :: !(0.0 < run[m] <= mark)))
    {
      assert ReadSent(claims, Low, run, n, mark, ok);
    }
  }

  lemma OneMoreLevel(a: Alert, levels: seq<Level>, level: Level)
    requires NoLevel !in levels && level != NoLevel
    ensures var alert := a.(level := Text(level));
      && KeysOf(a, levels + [level]) == KeysOf(a, levels) + {DedupeKey(alert)}
      && Alerts(a, levels + [level]) == Alerts(a, levels) + [alert]
      && (level in levels <==> DedupeKey(alert) in KeysOf(a, levels))
  {
    LevelsTellApart(a.(level := "low"), "empty");
    forall l | l in levels
      ensures DedupeKey(a.(level := Text(l))) == DedupeKey(a.(level := Text(level))) ==> l == level
    {
      assert (l.Low? || l.Empty?) && (level.Low? || level.Empty?);
    }
  }

  lemma {:induction false} SpendsPrefix(start: real, run: seq<real>, n: nat)
    requires Spends(start, run) && n <= |run|
    ensures Spends(start, run[..n])
    decreases |run|
  {
    if n == |run| {
      assert run[..n] == run;
    } else {
      SpendsPrefix(start, run[..|run| - 1], n);
      assert run[..|run| - 1][..n] == run[..n];
    }
  }

  datatype NotifyResult = Invalid | AlreadyClaimed | Published | PublishError

  /** The claim store and the broker behind Notify. */
  class Notifier {
    var claimed: set<string>
    var sent: seq<Alert>
    const claims: bool // false when no claim function is given

    constructor (claims: bool)
      ensures claimed == {} && sent == [] && this.claims == claims
    {
      claimed, sent, this.claims := {}, [], claims;
    }

    /** Claims the key first; a publish error leaves it claimed. */
    method Notify(a: Alert, publishOk: bool) returns (res: NotifyResult)
      modifies this
      ensures res == Invalid <==>
        || a.scope !in {"tenant", "platform"}
        || (a.scope == "tenant" && (a.tenantId == "" || !a.tenantParses))
        || a.resource == "" || a.level !in {"low", "empty"} || a.period == ""
      ensures res == AlreadyClaimed <==> Valid(a) && claims && DedupeKey(a) in old(claimed)
      ensures claimed == old(claimed) + (if Valid(a) && claims then {DedupeKey(a)} else {})
      ensures sent == old(sent) + (if res == Published then [a] else [])
      ensures res == Published <==> publishOk && Valid(a) && res != AlreadyClaimed
    {
      if !Valid(a) {
        return Invalid;
      }
      if claims {
        if DedupeKey(a) in claimed {
          assert claimed + {DedupeKey(a)} == claimed;
          return AlreadyClaimed;
        }
        claimed := claimed + {DedupeKey(a)};
      }
      if !publishOk {
        return PublishError;
      }
      sent := sent + [a];
      res := Published;
    }

    /** No replica has claimed a level of this alert, when claims are taken at all. */
    predicate Fresh(a: Alert, claimed0: set<string>) {
      claims ==> DedupeKey(a.(level := "low")) !in claimed0 && DedupeKey(a.(level := "empty")) !in claimed0
    }

    /** The broker after alerts at the levels sent, and the store after claims of the levels raised. */
    ghost predicate After(a: Alert, out: seq<Level>, raised: seq<Level>, claimed0: set<string>, sent0: seq<Alert>)
      reads this
    {
      sent == sent0 + Alerts(a, out) && claimed == claimed0 + if claims then KeysOf(a, raised) else {}
    }

    /** A level whose key was claimed before changes nothing; any other is claimed, and sent if the publish
        succeeds. */
    method NotifyLevel(a: Alert, level: Level, ok: bool, ghost out: seq<Level>, ghost raised: seq<Level>,
      ghost claimed0: set<string>, ghost sent0: seq<Alert>)
      requires level != NoLevel && Valid(a.(level := "low")) && After(a, out, raised, claimed0, sent0)
      requires NoLevel !in raised && (claims ==> DedupeKey(a.(level := Text(level))) !in claimed0)
      modifies this
      ensures var taken := claims && level in raised;
        After(a, if taken || !ok then out else out + [level], if taken then raised else raised + [level],
          claimed0, sent0)
    {
      OneMoreLevel(a, raised, level);
      assert Alerts(a, out + [level]) == Alerts(a, out) + [a.(level := Text(level))];
      var res := Notify(a.(level := Text(level)), ok);
    }

    /** One movement of a spend path. */
    method Move(a: Alert, start: real, run: seq<real>, n: nat, mark: real, ok: Answers,
      ghost claimed0: set<string>, ghost sent0: seq<Alert>)
      requires Spends(start, run) && n < |run| && Valid(a.(level := "low")) && Fresh(a, claimed0)
      requires After(a, SentCrossings(start, run[..n], mark, ok), Crossings(start, run[..n], mark), claimed0, sent0)
      modifies this
      ensures After(
        a, SentCrossings(start, run[..n + 1], mark, ok), Crossings(start, run[..n + 1], mark), claimed0, sent0)
    {
      var level := Crossed(if n == 0 then start else run[n - 1], run[n], mark);
      NextMovement(start, run, n, mark, ok);
      if level != NoLevel {
        NotifyLevel(a, level, ok(n), SentCrossings(start, run[..n], mark, ok), Crossings(start, run[..n], mark),
          claimed0, sent0);
      }
    }

    /** A spend path that notifies on every crossing claims exactly the crossings and sends those whose publish
        succeeds: with or without a claim store, none of its own claims stands in its way. */
    method Spend(a: Alert, start: real, run: seq<real>, mark: real, ok: Answers)
      requires Spends(start, run) && Valid(a.(level := "low")) && Fresh(a, claimed)
      modifies this
      ensures After(a, SentCrossings(start, run, mark, ok), Crossings(start, run, mark), old(claimed), old(sent))
      ensures old(sent) <= sent
      ensures var added := sent[|old(sent)|..];
        && (a.(level := "empty") in added <==> exists n: nat ::
          n < |run| && ok(n) && (if n == 0 then start else run[n - 1]) > 0.0 >= run[n])
        && (a.(level := "low") in added <==> exists n: nat ::
          n < |run| && ok(n) && (if n == 0 then start else run[n - 1]) > mark >= run[n] > 0.0)
        && (forall x | x in added :: x == a.(level := "low") || x == a.(level := "empty"))
    {
      for n := 0 to |run|
        invariant After(a, SentCrossings(start, run[..n], mark, ok), Crossings(start, run[..n], mark),
          old(claimed), old(sent))
      {
        Move(a, start, run, n, mark, ok, old(claimed), old(sent));
      }
      assert run[..|run|] == run;
      SpendSends(a, start, run, mark, ok);
      assert sent[|old(sent)|..] == Alerts(a, SentCrossings(start, run, mark, ok));
    }

    /** One tick of a poller. */
    method Tick(a: Alert, run: seq<real>, n: nat, mark: real, ok: Answers,
      ghost claimed0: set<string>, ghost sent0: seq<Alert>)
      requires n < |run| && Valid(a.(level := "low")) && Fresh(a, claimed0)
      requires After(a, SentTicks(claims, run[..n], mark, ok), Raised(claims, run[..n], mark), claimed0, sent0)
      modifies this
      ensures After(a, SentTicks(claims, run[..n + 1], mark, ok), Raised(claims, run[..n + 1], mark), claimed0, sent0)
    {
      var level := LevelOf(run[n], mark);
      NextTick(claims, run, n, mark, ok);
      if level != NoLevel {
        NotifyLevel(a, level, ok(n), SentTicks(claims, run[..n], mark, ok), Raised(claims, run[..n], mark),
          claimed0, sent0);
      }
    }

    /** A poller that notifies on every tick claims each level once and sends it if that publish succeeds;
        without a claim store, it sends every bad reading whose publish succeeds. */
    method Poll(a: Alert, run: seq<real>, mark: real, ok: Answers)
      requires Valid(a.(level := "low")) && Fresh(a, claimed)
      modifies this
      ensures After(a, SentTicks(claims, run, mark, ok), Raised(claims, run, mark), old(claimed), old(sent))
      ensures old(sent) <= sent
      ensures var added := sent[|old(sent)|..];
        && (a.(level := "empty") in added <==> exists n: nat ::
          n < |run| && ok(n) && run[n] <= 0.0 && (claims ==> forall m: nat | m < n :: run[m] > 0.0))
        && (a.(level := "low") in added <==> exists n: nat ::
          n < |run| && ok(n) && 0.0 < run[n] <= mark && (claims ==> forall m: nat | m < n :: !(0.0 < run[m] <= mark)))
        && (forall x | x in added :: x == a.(level := "low") || x == a.(level := "empty"))
    {
      for n := 0 to |run|
        invariant After(a, SentTicks(claims, run[..n], mark, ok), Raised(claims, run[..n], mark),
          old(claimed), old(sent))
      {
        Tick(a, run, n, mark, ok, old(claimed), old(sent));
      }
      assert run[..|run|] == run;
      PollSends(claims, a, run, mark, ok);
      assert sent[|old(sent)|..] == Alerts(a, SentTicks(claims, run, mark, ok));
    }
  }
}
