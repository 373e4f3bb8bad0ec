/** The FanoutHub: a pod's subscribers, their bounded buffers, and who hears what (fanout.go). */
module Fanout {
  import opened Common
  import opened Subjects
  import opened Broadcast

  const WILDCARD_SCOPE := "*"

  // ---------------------------------------------------------------- one subscriber's line

  /** A subscriber's channel with its history: what it was offered and what it has received. */
  datatype Line = Line(
    size: nat, buffer: seq<Bytes>, closed: bool, dropped: nat, offered: seq<Bytes>, received: seq<Bytes>)

  datatype LineOp = Offer(data: Bytes) | Take | Shut

  /** Nothing is sent on, and nothing closes, a channel that is already closed. */
  predicate Allowed(l: Line, op: LineOp) {
    match op
    case Offer(_) => !l.closed
    case Take => l.buffer != []
    case Shut => !l.closed
  }

  function Operate(l: Line, op: LineOp): Line
    requires Allowed(l, op)
  {
    match op
    case Offer(data) =>
      var o := l.(offered := l.offered + [data]);
      if |l.buffer| < l.size then o.(buffer := l.buffer + [data]) else o.(dropped := l.dropped + 1)
    case Take => l.(buffer := l.buffer[1..], received := l.received + [l.buffer[0]])
    case Shut => l.(closed := true)
  }

  /** The line after a delivery that does or does not concern it. */
  function Offered(l: Line, heard: bool, data: Bytes): Line {
    if heard && Allowed(l, Offer(data)) then Operate(l, Offer(data)) else l
  }

  /** Offered is received plus buffered plus dropped, in order and within the buffer's size. */
  ghost predicate Balanced(l: Line) {
    && |l.buffer| <= l.size
    && |l.offered| == |l.received| + |l.buffer| + l.dropped
    && Subsequence(l.received + l.buffer, l.offered)
  }

  lemma OperateKeepsBalance(l: Line, op: LineOp)
    requires Balanced(l) && Allowed(l, op)
    ensures Balanced(Operate(l, op))
  {
    match op
    case Offer(data) =>
      SubsequenceSkip(l.received + l.buffer, l.offered, data);
      SubsequenceTake(l.received + l.buffer, l.offered, data);
      assert l.received + (l.buffer + [data]) == l.received + l.buffer + [data];
    case Take =>
      assert l.received + [l.buffer[0]] + l.buffer[1..] == l.received + l.buffer;
    case Shut =>
  }

  function NewLine(size: nat): Line {
    Line(size, [], false, 0, [], [])
  }

  ghost predicate LegalLine(size: nat, ops: seq<LineOp>)
    decreases |ops|, 0
  {
    ops == [] || (LegalLine(size, ops[..|ops| - 1]) && Allowed(RunLine(size, ops[..|ops| - 1]), ops[|ops| - 1]))
  }

  ghost function RunLine(size: nat, ops: seq<LineOp>): Line
    requires LegalLine(size, ops)
    decreases |ops|, 1
  {
    if ops == [] then NewLine(size) else Operate(RunLine(size, ops[..|ops| - 1]), ops[|ops| - 1])
  }

  /** In every run of offers, receives and closes, no message is counted twice or forgotten. */
  lemma {:induction false} EveryRunIsBalanced(size: nat, ops: seq<LineOp>)
    requires LegalLine(size, ops)
    ensures Balanced(RunLine(size, ops)) && RunLine(size, ops).size == size
    ensures Subsequence(RunLine(size, ops).received, RunLine(size, ops).offered)
  {
    if ops != [] {
      EveryRunIsBalanced(size, ops[..|ops| - 1]);
      OperateKeepsBalance(RunLine(size, ops[..|ops| - 1]), ops[|ops| - 1]);
    }
    var l := RunLine(size, ops);
    SubsequencePrefix(l.received + l.buffer, l.offered, |l.received|);
    assert (l.received + l.buffer)[..|l.received|] == l.received;
  }

  function Offers(ops: seq<LineOp>): nat {
    if ops == [] then 0 else Offers(ops[..|ops| - 1]) + Count(ops[|ops| - 1].Offer?)
  }

  function Takes(ops: seq<LineOp>): nat {
    if ops == [] then 0 else Takes(ops[..|ops| - 1]) + Count(ops[|ops| - 1].Take?)
  }

  /** At no point do the offers so far outnumber the receives by more than the buffer holds. */
  ghost predicate KeepsUp(size: nat, ops: seq<LineOp>) {
    ops == [] || (KeepsUp(size, ops[..|ops| - 1]) && Offers(ops) - Takes(ops) <= size)
  }

  /** A line after o offers and t receives that has, or has not, kept up. */
  ghost predicate OnTrack(l: Line, o: nat, t: nat, keepsUp: bool) {
    && |l.buffer| <= l.size && |l.offered| == o && |l.received| == t
    && |l.offered| == |l.received| + |l.buffer| + l.dropped
    && (l.dropped == 0 <==> keepsUp)
    && (l.dropped == 0 ==> l.received + l.buffer == l.offered)
  }

  lemma OperateStaysOnTrack(l: Line, op: LineOp, o: nat, t: nat, keepsUp: bool)
    requires OnTrack(l, o, t, keepsUp) && Allowed(l, op)
    ensures var o', t' := o + Count(op.Offer?), t + Count(op.Take?);
      OnTrack(Operate(l, op), o', t', keepsUp && o' - t' <= l.size)
  {
    match op
    case Offer(data) =>
      assert l.received + (l.buffer + [data]) == l.received + l.buffer + [data];
    case Take =>
      assert l.received + [l.buffer[0]] + l.buffer[1..] == l.received + l.buffer;
    case Shut =>
  }

  /** A client loses nothing exactly when it keeps up; then all it was offered is received or buffered. */
  lemma {:induction false} NothingLostExactlyWhenKeepingUp(size: nat, ops: seq<LineOp>)
    requires LegalLine(size, ops)
    ensures RunLine(size, ops).size == size && OnTrack(RunLine(size, ops), Offers(ops), Takes(ops), KeepsUp(size, ops))
    ensures var l := RunLine(size, ops);
      (l.dropped == 0 <==> KeepsUp(size, ops)) && (l.dropped == 0 ==> l.received + l.buffer == l.offered)
  {
    if ops != [] {
      var front, op := ops[..|ops| - 1], ops[|ops| - 1];
      NothingLostExactlyWhenKeepingUp(size, front);
      OperateStaysOnTrack(RunLine(size, front), op, Offers(front), Takes(front), KeepsUp(size, front));
    }
  }

  class Sub {
    const tenant: string
    const scopes: set<string>
    const size: nat
    var buffer: seq<Bytes>
    var closed: bool
    var dropped: nat
    ghost var offered: seq<Bytes>
    ghost var received: seq<Bytes>

    constructor (tenant: string, scopes: set<string>, size: nat)
      ensures this.tenant == tenant && this.scopes == scopes && View() == NewLine(size)
    {
      this.tenant, this.scopes, this.size := tenant, scopes, size;
      buffer, closed, dropped := [], false, 0;
      offered, received := [], [];
    }

    ghost function View(): Line
      reads this
    {
      Line(size, buffer, closed, dropped, offered, received)
    }

    /** select { case C <- data: default: Dropped++ } */
    method Send(data: Bytes)
      requires !closed
      modifies this
      ensures View() == Operate(old(View()), Offer(data))
      ensures old(|buffer|) < size ==> buffer == old(buffer) + [data] && dropped == old(dropped)
      ensures old(|buffer|) >= size ==> buffer == old(buffer) && dropped == old(dropped) + 1
      ensures closed == old(closed) && offered == old(offered) + [data] && received == old(received)
    {
      if |buffer| < size {
        buffer := buffer + [data];
      } else {
        dropped := dropped + 1;
      }
      offered := offered + [data];
    }

    /** <-C, once a message is there. */
    method Receive() returns (data: Bytes)
      requires buffer != []
      modifies this
      ensures data == old(buffer[0]) && View() == Operate(old(View()), Take)
      ensures buffer == old(buffer[1..]) && received == old(received) + [data]
      ensures closed == old(closed) && dropped == old(dropped) && offered == old(offered)
    {
      data := buffer[0];
      buffer := buffer[1..];
      received := received + [data];
    }

    /** One turn of deliver's loop: skip the message, or offer it. */
    method Hear(scope: string, data: Bytes)
      requires !closed && Balanced(View())
      modifies this
      ensures View() == Offered(old(View()), Hears(tenant, scopes, tenant, scope), data) && Balanced(View())
    {
      if scope != "" && scope !in scopes && WILDCARD_SCOPE !in scopes {
        return;
      }
      OperateKeepsBalance(View(), Offer(data));
      Send(data);
    }

    method Close()
      requires !closed
      modifies this
      ensures View() == Operate(old(View()), Shut)
      ensures closed && buffer == old(buffer) && dropped == old(dropped)
    {
      closed := true;
    }
  }

  /** A selected client with room has the message last in its buffer; one without room counts a drop; for any
      other nothing changes. */
  ghost predicate Got(before: Line, after: Line, selected: bool, data: Bytes) {
    && (selected && |before.buffer| < before.size ==>
      after.buffer == before.buffer + [data] && after.dropped == before.dropped)
    && (selected && |before.buffer| >= before.size ==>
      after.buffer == before.buffer && after.dropped == before.dropped + 1)
    && (!selected ==> after == before)
  }

  // ---------------------------------------------------------------- who hears a message

  /** The delivery rule, as the hub's documentation states it. */
  predicate Hears(clientTenant: string, scopes: set<string>, tenant: string, scope: string) {
    clientTenant == tenant && (scope == "" || scope in scopes || WILDCARD_SCOPE in scopes)
  }

  /** A message reaches the same audience on every pod, whatever the subscribers, exactly when both
      its tenant and its scope are clean and neither is the placeholder. */
  lemma SameAudienceExactlyWhenClean(tenant: string, scope: string)
    ensures (forall t: string, s: set<string> ::
      Hears(t, s, Relayed(tenant), Relayed(scope)) <==> Hears(t, s, tenant, scope))
      <==> Clean(tenant) && tenant != "_" && Clean(scope) && scope != "_"
  {
    SurvivesRelay(tenant);
    SurvivesRelay(scope);
    if Relayed(tenant) != tenant {
      assert Hears(tenant, {WILDCARD_SCOPE}, tenant, scope);
      assert !Hears(tenant, {WILDCARD_SCOPE}, Relayed(tenant), Relayed(scope));
    } else if Relayed(scope) == "" != scope {
      assert Hears(tenant, {}, Relayed(tenant), Relayed(scope)) && !Hears(tenant, {}, tenant, scope);
    } else if Relayed(scope) != scope {
      StarBecomesEmpty(scope);
      assert Hears(tenant, {scope}, tenant, scope) && !Hears(tenant, {scope}, Relayed(tenant), Relayed(scope));
    }
  }

  lemma StarBecomesEmpty(scope: string)
    ensures scope == WILDCARD_SCOPE ==> Relayed(scope) == ""
  {
    if scope == WILDCARD_SCOPE {
      assert Replaced('*') && SubjectToken(scope) == "_";
    }
  }

  /** Published with the scope "*", a message is tenant-wide on the other pods; and an unclean tenant
      is taken for another tenant there. */
  lemma UncleanNamesChangeTheAudience()
    ensures !Hears("t", {}, "t", "*") && Hears("t", {}, Relayed("t"), Relayed("*"))
    ensures !Hears("a_b", {}, "a.b", "") && Hears("a_b", {}, Relayed("a.b"), Relayed(""))
  {
    StarBecomesEmpty("*");
    SurvivesRelay("t");
    assert SubjectToken("a.b") == "a_b";
  }

  // ---------------------------------------------------------------- the audience on every pod

  /** A client's line after the bus has made these calls: the hub's handler delivers each of its own. */
  function AfterCalls(l: Line, tenant: string, scopes: set<string>, h: Handler, calls: seq<Call>): Line {
    if calls == [] then l
    else
      var c := calls[|calls| - 1];
      Offered(AfterCalls(l, tenant, scopes, h, calls[..|calls| - 1]),
        c.handler == h && Hears(tenant, scopes, c.message.tenant, c.message.scope), c.message.data)
  }

  function Occurrences(hs: seq<Handler>, h: Handler): nat {
    if hs == [] then 0 else Occurrences(hs[..|hs| - 1], h) + Count(hs[|hs| - 1] == h)
  }

  /** One message to all handlers reaches the clients of a hub registered once exactly once. */
  lemma {:induction false} CallsReachOnce(l: Line, tenant: string, scopes: set<string>, h: Handler,
    hs: seq<Handler>, m: Message)
    requires !l.closed && Occurrences(hs, h) <= 1
    ensures AfterCalls(l, tenant, scopes, h, CallsOf(hs, m))
      == Offered(l, h in hs && Hears(tenant, scopes, m.tenant, m.scope), m.data)
    ensures Occurrences(hs, h) == 1 <==> h in hs
  {
    if hs != [] {
      var front := hs[..|hs| - 1];
      CallsReachOnce(l, tenant, scopes, h, front, m);
      assert CallsOf(hs, m)[..|hs| - 1] == CallsOf(front, m);
      assert hs == front + [hs[|hs| - 1]];
    }
  }

  /** Pod i publishes. Whoever is connected to a hub on pod j that is registered once is offered the message
      exactly once when pod j is reached and the delivery rule says so, and otherwise not at all; the rule is
      applied to the names as published on pod i and as relayed elsewhere. */
  lemma ClientIsOffered(pods: seq<Bus>, namespace: string, i: nat, j: nat, m: Message, reached: set<nat>,
    h: Handler, l: Line, tenant: string, scopes: set<string>)
    requires i < |pods| && j < |pods| && Fleet(pods, namespace) && Clean(m.topic)
    requires Occurrences(HandlersOf(pods[j], m.topic), h) == 1 && !l.closed
    ensures AfterCalls(l, tenant, scopes, h, CallsOn(pods, i, j, m, reached)) ==
      if i == j then Offered(l, Hears(tenant, scopes, m.tenant, m.scope), m.data)
      else Offered(l, j in reached && Hears(tenant, scopes, Relayed(m.tenant), Relayed(m.scope)), m.data)
  {
    EveryHandlerRunsOnce(pods, namespace, i, j, m, reached);
    var hs := HandlersOf(pods[j], m.topic);
    CallsReachOnce(l, tenant, scopes, h, hs, m);
    CallsReachOnce(l, tenant, scopes, h, hs, m.(tenant := Relayed(m.tenant), scope := Relayed(m.scope)));
  }

  /** For clean names the audience is one rule on every pod: the clients of the message's tenant that hold its
      scope or the wildcard, or all of them when it has none, are offered it once. Nobody else is. */
  lemma CleanNamesReachTheirAudience(pods: seq<Bus>, namespace: string, i: nat, j: nat, m: Message,
    reached: set<nat>, h: Handler, l: Line, tenant: string, scopes: set<string>)
    requires i < |pods| && j < |pods| && Fleet(pods, namespace) && Clean(m.topic)
    requires Clean(m.tenant) && m.tenant != "_" && Clean(m.scope) && m.scope != "_"
    requires Occurrences(HandlersOf(pods[j], m.topic), h) == 1 && !l.closed
    ensures var selected := (i == j || j in reached) && tenant == m.tenant
        && (m.scope == "" || m.scope in scopes || "*" in scopes);
      Got(l, AfterCalls(l, tenant, scopes, h, CallsOn(pods, i, j, m, reached)), selected, m.data)
  {
    SurvivesRelay(m.tenant);
    SurvivesRelay(m.scope);
    ClientIsOffered(pods, namespace, i, j, m, reached, h, l, tenant, scopes);
  }

  /** A client reacts alike on both pods. */
  ghost predicate Agree(pods: seq<Bus>, i: nat, j: nat, m: Message, reached: set<nat>,
    here: Handler, there: Handler, l: Line, tenant: string, scopes: set<string>)
    requires i < |pods| && j < |pods|
  {
    AfterCalls(l, tenant, scopes, here, CallsOn(pods, i, i, m, reached))
    == AfterCalls(l, tenant, scopes, there, CallsOn(pods, i, j, m, reached))
  }

  /** And only for clean names: the clients of another pod react as those of the publishing pod, whoever they
      are, exactly when tenant and scope are clean and neither is the placeholder. */
  lemma PodsAgreeExactlyWhenClean(pods: seq<Bus>, namespace: string, i: nat, j: nat, m: Message,
    reached: set<nat>, here: Handler, there: Handler, l: Line)
    requires i < |pods| && j < |pods| && i != j && j in reached && Fleet(pods, namespace) && Clean(m.topic)
    requires Occurrences(HandlersOf(pods[i], m.topic), here) == 1
    requires Occurrences(HandlersOf(pods[j], m.topic), there) == 1 && !l.closed
    ensures (forall tenant: string, scopes: set<string> ::
        Agree(pods, i, j, m, reached, here, there, l, tenant, scopes))
      <==> Clean(m.tenant) && m.tenant != "_" && Clean(m.scope) && m.scope != "_"
  {
    forall tenant: string, scopes: set<string>
      ensures Agree(pods, i, j, m, reached, here, there, l, tenant, scopes)
        <==> (Hears(tenant, scopes, Relayed(m.tenant), Relayed(m.scope)) <==> Hears(tenant, scopes, m.tenant, m.scope))
    {
      ClientIsOffered(pods, namespace, i, i, m, reached, here, l, tenant, scopes);
      ClientIsOffered(pods, namespace, i, j, m, reached, there, l, tenant, scopes);
      assert Operate(l, Offer(m.data)) != l;
    }
    SameAudienceExactlyWhenClean(m.tenant, m.scope);
    if forall tenant: string, scopes: set<string> :: Agree(pods, i, j, m, reached, here, there, l, tenant, scopes) {
      forall tenant: string, scopes: set<string>
        ensures Hears(tenant, scopes, Relayed(m.tenant), Relayed(m.scope)) <==> Hears(tenant, scopes, m.tenant, m.scope)
      {
        assert Agree(pods, i, j, m, reached, here, there, l, tenant, scopes);
      }
    }
  }

  // ---------------------------------------------------------------- the registry

  /** tenant -> subscribers, each under its own tenant, with no empty set. */
  type Registry = map<string, set<Sub>>

  ghost function AllOf(subs: Registry): set<Sub> {
    set t, s | t in subs && s in subs[t] :: s
  }

  ghost predicate Keyed(subs: Registry) {
    forall t | t in subs :: subs[t] != {} && forall s | s in subs[t] :: s.tenant == t
  }

  lemma AllByTenant(subs: Registry, s: Sub)
    requires Keyed(subs)
    ensures s in AllOf(subs) <==> s.tenant in subs && s in subs[s.tenant]
  {
  }

  function Group(subs: Registry, tenant: string): set<Sub> {
    if tenant in subs then subs[tenant] else {}
  }

  function WithGroup(subs: Registry, tenant: string, group: set<Sub>): Registry {
    if group == {} then subs - {tenant} else subs[tenant := group]
  }

  lemma RegroupMembers(subs: Registry, tenant: string, group: set<Sub>)
    requires Keyed(subs) && forall s | s in group :: s.tenant == tenant
    ensures Keyed(WithGroup(subs, tenant, group))
    ensures AllOf(WithGroup(subs, tenant, group)) == AllOf(subs) - Group(subs, tenant) + group
  {
    var after := WithGroup(subs, tenant, group);
    forall s: Sub ensures s in AllOf(after) <==> s in AllOf(subs) - Group(subs, tenant) + group {
      AllByTenant(subs, s);
      AllByTenant(after, s);
    }
  }

  lemma GroupIsTheTenant(subs: Registry, tenant: string)
    requires Keyed(subs)
    ensures Group(subs, tenant) == set s | s in AllOf(subs) && s.tenant == tenant
  {
    forall s: Sub ensures s in Group(subs, tenant) <==> s in AllOf(subs) && s.tenant == tenant {
      AllByTenant(subs, s);
    }
  }

  /** The scopes a client holds: the non-empty ones it asks for. */
  method HeldScopes(scopes: seq<string>) returns (held: set<string>)
    ensures held == set x | x in scopes && x != ""
  {
    held := {};
    for i := 0 to |scopes|
      invariant held == set x | x in scopes[..i] && x != ""
    {
      assert scopes[..i + 1] == scopes[..i] + [scopes[i]];
      if scopes[i] != "" {
        held := held + {scopes[i]};
      }
    }
    assert scopes[..|scopes|] == scopes;
  }

  class FanoutHub {
    const relay: Broadcaster?
    const topic: string
    const buf: nat
    const handler: Handler // the hub's entry in the relay's handler lists; a call of it delivers
    var subs: Registry

    ghost function Members(): set<Sub>
      reads this
    {
      AllOf(subs)
    }

    /** Registered subscribers are open, sit under their own tenant, and no tenant's set is empty. */
    ghost predicate Valid()
      reads this, Members()
    {
      Keyed(subs) && forall s | s in Members() :: !s.closed && s.size == buf && Balanced(s.View())
    }

    constructor (relay: Broadcaster?, topic: string, buf: int, handler: Handler, natsOk: bool)
      modifies relay
      ensures Valid() && subs == map[] && this.relay == relay && this.topic == topic && this.handler == handler
      ensures this.buf == if buf <= 0 then 32 else buf
      ensures relay != null ==> relay.State() == Apply(old(relay.State()), Register(topic, handler, natsOk))
    {
      this.relay, this.topic, this.handler := relay, topic, handler;
      this.buf := if buf <= 0 then 32 else buf;
      subs := map[];
      new;
      if relay != null {
        var registered := relay.Subscribe(topic, handler, natsOk);
      }
    }

    method Subscribe(tenant: string, scopes: seq<string>) returns (s: Sub)
      requires Valid()
      modifies this
      ensures Valid() && fresh(s) && Members() == old(Members()) + {s}
      ensures s.tenant == tenant && s.View() == NewLine(buf)
      ensures s.scopes == set x | x in scopes && x != ""
    {
      var held := HeldScopes(scopes);
      s := new Sub(tenant, held, buf);
      assert Balanced(NewLine(buf));
      Add(s);
    }

    method Add(s: Sub)
      requires Keyed(subs)
      modifies this`subs
      ensures Keyed(subs) && Members() == old(Members()) + {s}
    {
      var others := if s.tenant in subs then subs[s.tenant] else {};
      RegroupMembers(subs, s.tenant, others + {s});
      subs := subs[s.tenant := others + {s}];
      GroupIsTheTenant(old(subs), s.tenant);
    }

    /** Removes and closes a registered subscriber; a second call changes nothing. */
    method Unsubscribe(s: Sub)
      requires Valid()
      modifies this, s
      ensures Valid() && Members() == old(Members()) - {s}
      ensures s.View() == if s in old(Members()) then Operate(old(s.View()), Shut) else old(s.View())
      ensures s in old(Members()) ==> s.closed && s.buffer == old(s.buffer)
    {
      AllByTenant(subs, s);
      if s.tenant in subs {
        var group := subs[s.tenant];
        if s in group {
          RegroupMembers(subs, s.tenant, group - {s});
          group := group - {s};
          subs := subs[s.tenant := group];
          OperateKeepsBalance(s.View(), Shut);
          s.Close();
        }
        if group == {} {
          assert subs - {s.tenant} == old(subs) - {s.tenant};
          subs := subs - {s.tenant};
        }
      }
    }

    method Count(tenant: string) returns (n: nat)
      requires Valid()
      ensures n == |set s | s in Members() && s.tenant == tenant|
    {
      n := if tenant in subs then |subs[tenant]| else 0;
      GroupIsTheTenant(subs, tenant);
    }

    /** The loop of deliver. */
    method OfferToAll(tenant: string, scope: string, data: Bytes)
      requires Valid()
      modifies Members()
      ensures Valid()
      ensures forall s | s in Members() ::
        s.View() == Offered(old(s.View()), Hears(s.tenant, s.scopes, tenant, scope), data)
    {
      var rest := if tenant in subs then subs[tenant] else {};
      GroupIsTheTenant(subs, tenant);
      ghost var all := Members();
      while rest != {}
        invariant rest <= all && forall s | s in rest :: s.tenant == tenant
        invariant forall s | s in all :: Balanced(s.View()) && !s.closed
        invariant forall s | s in all ::
          s.View() == Offered(old(s.View()), s !in rest && Hears(s.tenant, s.scopes, tenant, scope), data)
        decreases rest
      {
        var s :| s in rest;
        rest := rest - {s};
        s.Hear(scope, data);
      }
    }

    /** Offers the message to exactly the subscribers that hear it: those with room have it last in their
        buffer, those without count a drop, and nothing changes for the others. */
    method Deliver(tenant: string, scope: string, data: Bytes)
      requires Valid()
      modifies Members()
      ensures Valid()
      ensures forall s | s in Members() ::
        s.View() == Offered(old(s.View()), Hears(s.tenant, s.scopes, tenant, scope), data)
      ensures forall s | s in Members() ::
        var selected := s.tenant == tenant && (scope == "" || scope in s.scopes || "*" in s.scopes);
        && (selected && old(|s.buffer|) < s.size ==> s.buffer == old(s.buffer) + [data] && s.dropped == old(s.dropped))
        && (selected && old(|s.buffer|) >= s.size ==> s.buffer == old(s.buffer) && s.dropped == old(s.dropped) + 1)
        && (!selected ==> s.buffer == old(s.buffer) && s.dropped == old(s.dropped))
    {
      OfferToAll(tenant, scope, data);
    }

    /** The relay's calls of this hub's handler, which delivers. */
    method Serve(calls: seq<Call>)
      requires Valid()
      modifies Members()
      ensures Valid()
      ensures forall s | s in Members() :: s.View() == AfterCalls(old(s.View()), s.tenant, s.scopes, handler, calls)
    {
      for i := 0 to |calls|
        invariant Valid()
        invariant forall s | s in Members() ::
          s.View() == AfterCalls(old(s.View()), s.tenant, s.scopes, handler, calls[..i])
      {
        assert calls[..i + 1][..i] == calls[..i];
        if calls[i].handler == handler {
          Deliver(calls[i].message.tenant, calls[i].message.scope, calls[i].message.data);
        }
      }
      assert calls[..|calls|] == calls;
    }

    /** Publish: with a relay, the bus calls its handlers for the topic, this hub's among them if registered,
        and then relays the message; without one, deliver here. */
    method Publish(tenant: string, scope: string, data: Bytes, natsOk: bool) returns (wire: Option<Wire>)
      requires Valid()
      modifies Members(), if relay == null then {} else {relay}
      ensures Valid()
      ensures relay == null ==> forall s | s in Members() ::
        s.View() == Offered(old(s.View()), Hears(s.tenant, s.scopes, tenant, scope), data)
      ensures relay != null ==>
        var t := SubjectToken(topic);
        relay.State() == old(relay.State()) && forall s | s in Members() ::
          s.View() == AfterCalls(old(s.View()), s.tenant, s.scopes, handler,
            CallsOf(HandlersOf(relay.State(), t), Message(t, tenant, scope, data)))
      // so with no relay, or registered there once, every client here that is selected gets the message
      ensures relay == null || Occurrences(HandlersOf(relay.State(), SubjectToken(topic)), handler) == 1 ==>
        forall s | s in Members() ::
          Got(old(s.View()), s.View(),
            s.tenant == tenant && (scope == "" || scope in s.scopes || "*" in s.scopes), data)
      ensures wire == if relay != null && relay.connected && natsOk
        then Some(Wire(Subject(relay.namespace, SubjectToken(topic), tenant, scope), relay.origin, data)) else None
    {
      wire := None;
      if relay == null {
        Deliver(tenant, scope, data);
      } else {
        var earlier := relay.calls;
        var ok;
        wire, ok := relay.Publish(topic, tenant, scope, data, natsOk);
        Serve(relay.calls[|earlier|..]);
        ghost var t := SubjectToken(topic);
        RegisteredOnce(HandlersOf(relay.State(), t), Message(t, tenant, scope, data));
      }
    }

    /** A hub registered once delivers a publish once. */
    lemma RegisteredOnce(hs: seq<Handler>, m: Message)
      ensures Occurrences(hs, handler) == 1 ==> forall l: Line, tenant: string, scopes: set<string> | !l.closed ::
        Got(l, AfterCalls(l, tenant, scopes, handler, CallsOf(hs, m)), Hears(tenant, scopes, m.tenant, m.scope), m.data)
    {
      if Occurrences(hs, handler) == 1 {
        forall l: Line, tenant: string, scopes: set<string> | !l.closed
          ensures Got(l, AfterCalls(l, tenant, scopes, handler, CallsOf(hs, m)),
            Hears(tenant, scopes, m.tenant, m.scope), m.data)
        {
          CallsReachOnce(l, tenant, scopes, handler, hs, m);
        }
      }
    }

    /** A message of another pod, or the own echo, comes in on the relay. */
    method Arrive(w: Wire)
      requires Valid() && relay != null
      modifies Members(), relay
      ensures Valid() && relay.State() == old(relay.State())
      ensures forall s | s in Members() ::
        s.View() == AfterCalls(old(s.View()), s.tenant, s.scopes, handler, RelayCalls(relay.State(), relay.subs, w))
    {
      var earlier := relay.calls;
      relay.Arrive(w);
      Serve(relay.calls[|earlier|..]);
    }
  }
}
