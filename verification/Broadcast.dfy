/** The Broadcaster: one fan-out bus per pod over a shared relay (broadcast.go). */
module Broadcast {
  import opened Common
  import opened Subjects

  type Bytes = seq<bv8>

  /** A registered handler, by identity. */
  type Handler = nat

  datatype Message = Message(topic: string, tenant: string, scope: string, data: Bytes)

  datatype Call = Call(handler: Handler, message: Message)

  /** A message on the relay, with the origin header. */
  datatype Wire = Wire(subject: string, origin: string, data: Bytes)

  /** One pod's bus. `subs` lists the topics of its open NATS subscriptions. */
  datatype Bus = Bus(
    connected: bool, namespace: string, origin: string, handlers: map<string, seq<Handler>>, subs: seq<string>)

  function HandlersOf(b: Bus, topic: string): seq<Handler> {
    if topic in b.handlers then b.handlers[topic] else []
  }

  function CallsOf(hs: seq<Handler>, m: Message): seq<Call> {
    seq(|hs|, i requires 0 <= i < |hs| => Call(hs[i], m))
  }

  /** The relay hands the message to the subscription _rt.namespace.topic.*.* */
  predicate Matches(b: Bus, topic: string, w: Wire) {
    var tokens := Split(w.subject);
    |tokens| == 5 && tokens[0] == "_rt" && tokens[1] == b.namespace && tokens[2] == topic
  }

  /** The subscription callback: drop the own echo, decode, dispatch. */
  function Callback(b: Bus, topic: string, w: Wire): seq<Call> {
    var tokens := Split(w.subject);
    if w.origin == b.origin || |tokens| != 5 then []
    else CallsOf(HandlersOf(b, topic), Message(topic, FromToken(tokens[3]), FromToken(tokens[4]), w.data))
  }

  /** Every open subscription that matches runs its callback. */
  function RelayCalls(b: Bus, subs: seq<string>, w: Wire): seq<Call> {
    if subs == [] then []
    else
      RelayCalls(b, subs[..|subs| - 1], w)
      + if Matches(b, subs[|subs| - 1], w) then Callback(b, subs[|subs| - 1], w) else []
  }

  class Broadcaster {
    const connected: bool
    const namespace: string
    const origin: string
    var handlers: map<string, seq<Handler>>
    var subs: seq<string>
    var calls: seq<Call> // the handler calls made so far

    constructor (connected: bool, namespace: string, origin: string)
      ensures State() == Bus(connected, SubjectToken(namespace), origin, map[], [])
      ensures calls == []
    {
      this.connected, this.namespace, this.origin := connected, SubjectToken(namespace), origin;
      handlers, subs, calls := map[], [], [];
    }

    function State(): Bus
      reads this
    {
      Bus(connected, namespace, origin, handlers, subs)
    }

    /** The first handler of a topic opens the subscription; when that fails it is taken out again. */
    method Subscribe(topic: string, handler: Handler, natsOk: bool) returns (ok: bool)
      modifies this
      ensures State() == Apply(old(State()), Register(topic, handler, natsOk))
      ensures var t := SubjectToken(topic);
        && ok == (HandlersOf(old(State()), t) != [] || !connected || natsOk)
        && HandlersOf(State(), t) == HandlersOf(old(State()), t) + (if ok then [handler] else [])
        && (forall u | u != t :: HandlersOf(State(), u) == HandlersOf(old(State()), u))
        && subs == old(subs) + (if HandlersOf(old(State()), t) == [] && connected && natsOk then [t] else [])
      ensures calls == old(calls)
    {
      var t := SubjectToken(topic);
      var existing := if t in handlers then handlers[t] else [];
      var first := existing == [];
      handlers := handlers[t := existing + [handler]];
      if !first || !connected {
        return true;
      }
      if !natsOk {
        handlers := handlers[t := handlers[t][..|handlers[t]| - 1]];
        assert handlers == old(handlers)[t := []];
        return false;
      }
      subs := subs + [t];
      assert handlers == old(handlers)[t := [handler]] by {
        assert [] + [handler] == [handler];
      }
      ok := true;
    }

    method Dispatch(m: Message)
      modifies this`calls
      ensures calls == old(calls) + CallsOf(HandlersOf(State(), m.topic), m)
    {
      var hs := if m.topic in handlers then handlers[m.topic] else [];
      for i := 0 to |hs|
        invariant calls == old(calls) + CallsOf(hs[..i], m)
      {
        assert CallsOf(hs[..i + 1], m) == CallsOf(hs[..i], m) + [Call(hs[i], m)];
        calls := calls + [Call(hs[i], m)];
      }
      assert hs[..|hs|] == hs;
    }

    /** Local handlers first, then the relay; a relay error leaves the local delivery standing. */
    method Publish(topic: string, tenant: string, scope: string, data: Bytes, natsOk: bool)
      returns (wire: Option<Wire>, ok: bool)
      modifies this`calls
      ensures var t := SubjectToken(topic);
        && calls == old(calls) + CallsOf(HandlersOf(State(), t), Message(t, tenant, scope, data))
        && wire == (
          if connected && natsOk then Some(Wire(Subject(namespace, t, tenant, scope), origin, data)) else None)
      ensures ok <==> !connected || natsOk
    {
      var t := SubjectToken(topic);
      Dispatch(Message(t, tenant, scope, data));
      if !connected {
        return None, true;
      }
      if !natsOk {
        return None, false;
      }
      wire, ok := Some(Wire(Join(["_rt", namespace, t, ToToken(tenant), ToToken(scope)]), origin, data)), true;
    }

    /** What the subscription opened for `topic` does with a message. */
    method OnRelay(topic: string, w: Wire)
      modifies this`calls
      ensures calls == old(calls) + Callback(State(), topic, w)
    {
      if w.origin == origin {
        return;
      }
      var tokens := Split(w.subject);
      if |tokens| != 5 {
        return;
      }
      Dispatch(Message(topic, FromToken(tokens[3]), FromToken(tokens[4]), w.data));
    }

    /** A message on the relay: every open subscription it matches runs its callback. */
    method Arrive(w: Wire)
      modifies this`calls
      ensures calls == old(calls) + RelayCalls(State(), subs, w)
    {
      for i := 0 to |subs|
        invariant calls == old(calls) + RelayCalls(State(), subs[..i], w)
      {
        assert subs[..i + 1][..i] == subs[..i];
        if Matches(State(), subs[i], w) {
          OnRelay(subs[i], w);
        }
      }
      assert subs[..|subs|] == subs;
    }

    method Close()
      modifies this
      ensures State() == Apply(old(State()), CloseAll) && calls == old(calls)
      ensures subs == [] && handlers == old(handlers)
    {
      subs := [];
    }
  }

  // ---------------------------------------------------------------- subscriptions over a run

  datatype Op = Register(topic: string, handler: Handler, natsOk: bool) | CloseAll

  function Apply(b: Bus, op: Op): Bus {
    match op
    case CloseAll => b.(subs := [])
    case Register(topic, handler, natsOk) =>
      var t := SubjectToken(topic);
      var hs := HandlersOf(b, t);
      if hs != [] || !b.connected then b.(handlers := b.handlers[t := hs + [handler]])
      else if natsOk then b.(handlers := b.handlers[t := [handler]], subs := b.subs + [t])
      else b.(handlers := b.handlers[t := []])
  }

  function RunOps(b: Bus, ops: seq<Op>): Bus {
    if ops == [] then b else Apply(RunOps(b, ops[..|ops| - 1]), ops[|ops| - 1])
  }

  /** Exactly one open subscription for each topic that has handlers. */
  ghost predicate Wired(b: Bus) {
    NoRepeats(b.subs) && forall t :: t in b.subs <==> HandlersOf(b, t) != []
  }

  /** Since `base`, subscriptions are open exactly for the topics that got their first handler. */
  ghost predicate WiredSince(b: Bus, base: Bus) {
    && NoRepeats(b.subs)
    && (forall t :: t in b.subs <==> HandlersOf(b, t) != [] && HandlersOf(base, t) == [])
    && (forall t :: HandlersOf(base, t) != [] ==> HandlersOf(b, t) != [])
  }

  lemma {:induction false} RunKeepsWired(base: Bus, ops: seq<Op>)
    requires base.connected && base.subs == [] && forall op | op in ops :: op.Register?
    ensures RunOps(base, ops).connected && WiredSince(RunOps(base, ops), base)
  {
    if ops != [] {
      var front, op := ops[..|ops| - 1], ops[|ops| - 1];
      RunKeepsWired(base, front);
      var b, after := RunOps(base, front), RunOps(base, ops);
      var t := SubjectToken(op.topic);
      assert forall u | u != t :: HandlersOf(after, u) == HandlersOf(b, u);
      if HandlersOf(b, t) == [] && op.natsOk {
        assert t !in b.subs && after.subs == b.subs + [t];
      }
    }
  }

  /** A connected bus that is never closed keeps one subscription per topic with handlers, failed
      attempts included. */
  lemma OneSubscriptionPerTopic(namespace: string, origin: string, ops: seq<Op>)
    requires forall op | op in ops :: op.Register?
    ensures Wired(RunOps(Bus(true, namespace, origin, map[], []), ops))
  {
    RunKeepsWired(Bus(true, namespace, origin, map[], []), ops);
  }

  lemma {:induction false} RunConnected(b: Bus, ops: seq<Op>)
    ensures RunOps(b, ops).connected == b.connected
  {
    if ops != [] {
      RunConnected(b, ops[..|ops| - 1]);
    }
  }

  lemma {:induction false} RunConcat(b: Bus, first: seq<Op>, rest: seq<Op>)
    ensures RunOps(b, first + rest) == RunOps(RunOps(b, first), rest)
    decreases |rest|
  {
    if rest == [] {
      assert first + rest == first;
    } else {
      assert (first + rest)[..|first + rest| - 1] == first + rest[..|rest| - 1];
      RunConcat(b, first, rest[..|rest| - 1]);
    }
  }

  /** After a Close, a topic hears the relay again exactly when it had no handler at that moment:
      handlers added to a topic that already had some stay local, although Subscribe reports success. */
  lemma SubscriptionsAfterClose(b: Bus, before: seq<Op>, after: seq<Op>, topic: string)
    requires b.connected && forall op | op in after :: op.Register?
    ensures var end := RunOps(b, before + [CloseAll] + after);
      topic in end.subs <==> HandlersOf(end, topic) != [] && HandlersOf(RunOps(b, before), topic) == []
  {
    RunConcat(b, before + [CloseAll], after);
    RunConcat(b, before, [CloseAll]);
    RunConnected(b, before);
    var shut := RunOps(b, before + [CloseAll]);
    assert shut == Apply(RunOps(b, before), CloseAll) by {
      assert [CloseAll][..0] == [];
    }
    RunKeepsWired(shut, after);
    assert HandlersOf(shut, topic) == HandlersOf(RunOps(b, before), topic);
  }

  // ---------------------------------------------------------------- one publish over all pods

  /** The calls on pod j when pod i publishes and the relay reaches the pods in `reached`. */
  function CallsOn(pods: seq<Bus>, i: nat, j: nat, m: Message, reached: set<nat>): seq<Call>
    requires i < |pods| && j < |pods|
  {
    var b := pods[i];
    var w := Wire(Subject(b.namespace, m.topic, m.tenant, m.scope), b.origin, m.data);
    (if i == j then CallsOf(HandlersOf(b, m.topic), m) else [])
    + if j in reached then RelayCalls(pods[j], pods[j].subs, w) else []
  }

  ghost predicate Fleet(pods: seq<Bus>, namespace: string) {
    && Clean(namespace)
    && (forall i | 0 <= i < |pods| :: pods[i].connected && pods[i].namespace == namespace && Wired(pods[i]))
    && (forall i, j | 0 <= i < j < |pods| :: pods[i].origin != pods[j].origin)
  }

  lemma {:induction false} RelayRunsOnce(b: Bus, subs: seq<string>, w: Wire, topic: string)
    requires Matches(b, topic, w) && NoRepeats(subs)
    ensures RelayCalls(b, subs, w) == if topic in subs then Callback(b, topic, w) else []
  {
    if subs != [] {
      var front, last := subs[..|subs| - 1], subs[|subs| - 1];
      RelayRunsOnce(b, front, w, topic);
      assert subs == front + [last];
    }
  }

  /** Each handler runs exactly once on the publishing pod, and on every other pod exactly once when
      the relay reaches it and not at all when it does not. */
  lemma EveryHandlerRunsOnce(pods: seq<Bus>, namespace: string, i: nat, j: nat, m: Message, reached: set<nat>)
    requires i < |pods| && j < |pods| && Fleet(pods, namespace) && Clean(m.topic)
    ensures CallsOn(pods, i, j, m, reached) ==
      if i == j then CallsOf(HandlersOf(pods[j], m.topic), m)
      else if j in reached then
        CallsOf(HandlersOf(pods[j], m.topic), m.(tenant := Relayed(m.tenant), scope := Relayed(m.scope)))
      else []
  {
    var b := pods[i];
    var w := Wire(Subject(b.namespace, m.topic, m.tenant, m.scope), b.origin, m.data);
    SubjectHasFiveTokens(namespace, m.topic, m.tenant, m.scope);
    RelayRunsOnce(pods[j], pods[j].subs, w, m.topic);
    assert Wired(pods[j]);
  }
}
