/** The one socket write loop (pump.go): its reader, its writer and the hub, interleaved by a schedule. */
module Pumping {
  import opened Common
  import opened Broadcast
  import opened Fanout

  const REPLY_QUEUE := 4

  datatype Frame = HelloFrame(data: Bytes) | MessageFrame(data: Bytes) | ReplyFrame(data: Bytes)

  /** One step of the interleaving. A select case whose channel is not ready does nothing. */
  datatype Event =
    | HubSends(data: Bytes)
    | HubCloses
    | ReadFrame(reply: Option<Bytes>) // the reader's frame, and what the reply function made of it
    | ReadError                       // the reader ends and cancels
    | WriteHello(ok: bool)
    | TakeMessage(ok: bool)
    | TakeReply(ok: bool)
    | Ping(ok: bool)
    | Stop                            // the loop sees that the context is done

  function Messages(writes: seq<Frame>): seq<Bytes> {
    if writes == [] then []
    else
      var last := writes[|writes| - 1];
      Messages(writes[..|writes| - 1]) + if last.MessageFrame? then [last.data] else []
  }

  function Replies(writes: seq<Frame>): seq<Bytes> {
    if writes == [] then []
    else
      var last := writes[|writes| - 1];
      Replies(writes[..|writes| - 1]) + if last.ReplyFrame? then [last.data] else []
  }

  /** The replies the client's frames called for, in order. */
  function RepliesMade(events: seq<Event>): seq<Bytes> {
    if events == [] then [] else MadeWith(RepliesMade(events[..|events| - 1]), events[|events| - 1])
  }

  function MadeWith(made: seq<Bytes>, event: Event): seq<Bytes> {
    if event.ReadFrame? && event.reply.Some? then made + [event.reply.value] else made
  }

  /** The hello, if any, is the first frame and the only one of its kind. */
  ghost predicate HelloFirst(writes: seq<Frame>, hello: Option<Bytes>) {
    && (writes != [] && hello.Some? ==> writes[0] == HelloFrame(hello.value))
    && (forall i | 0 <= i < |writes| && (i > 0 || hello.None?) :: !writes[i].HelloFrame?)
  }

  /** What the socket has seen: messages are a prefix of what was received from the hub; replies,
      with those still queued, are some of the replies made; both in order. */
  ghost predicate Orderly(writes: seq<Frame>, hello: Option<Bytes>, received: seq<Bytes>,
    queued: seq<Bytes>, made: seq<Bytes>)
  {
    && HelloFirst(writes, hello)
    && Messages(writes) <= received
    && |queued| <= REPLY_QUEUE
    && Subsequence(Replies(writes) + queued, made)
  }

  lemma AppendFrame(writes: seq<Frame>, f: Frame)
    ensures Messages(writes + [f]) == Messages(writes) + if f.MessageFrame? then [f.data] else []
    ensures Replies(writes + [f]) == Replies(writes) + if f.ReplyFrame? then [f.data] else []
  {
    assert (writes + [f])[..|writes|] == writes;
  }

  /** The reader's non-blocking send into the reply queue. */
  method Enqueue(queued: seq<Bytes>, reply: Bytes) returns (after: seq<Bytes>)
    ensures after == if |queued| < REPLY_QUEUE then queued + [reply] else queued
  {
    after := queued;
    if |queued| < REPLY_QUEUE {
      after := queued + [reply];
    }
  }

  lemma EnqueueKeepsOrder(done: seq<Bytes>, queued: seq<Bytes>, made: seq<Bytes>, reply: Bytes)
    requires Subsequence(done + queued, made)
    ensures Subsequence(done + queued, made + [reply]) && Subsequence(done + (queued + [reply]), made + [reply])
  {
    SubsequenceSkip(done + queued, made, reply);
    SubsequenceTake(done + queued, made, reply);
    assert done + (queued + [reply]) == done + queued + [reply];
  }

  /** A reply taken from the queue whose write fails is not written by anyone else. */
  lemma ForgetQueue(writes: seq<Frame>, hello: Option<Bytes>, received: seq<Bytes>, queued: seq<Bytes>,
    made: seq<Bytes>)
    requires Orderly(writes, hello, received, queued, made)
    ensures Orderly(writes, hello, received, [], made)
  {
    SubsequencePrefix(Replies(writes) + queued, made, |Replies(writes)|);
    assert (Replies(writes) + queued)[..|Replies(writes)|] == Replies(writes) + [];
  }

  lemma WriteKeepsOrder(writes: seq<Frame>, hello: Option<Bytes>, received: seq<Bytes>, queued: seq<Bytes>,
    made: seq<Bytes>, f: Frame, received': seq<Bytes>, queued': seq<Bytes>)
    requires Orderly(writes, hello, received, queued, made)
    requires f.HelloFrame? ==> writes == [] && hello == Some(f.data) && received' == received && queued' == queued
    requires !f.HelloFrame? && hello.Some? ==> writes != []
    requires f.MessageFrame? ==> Messages(writes) == received && received' == received + [f.data] && queued' == queued
    requires f.ReplyFrame? ==> queued == [f.data] + queued' && received' == received
    ensures Orderly(writes + [f], hello, received', queued', made)
  {
    AppendFrame(writes, f);
    if f.ReplyFrame? {
      assert Replies(writes) + [f.data] + queued' == Replies(writes) + queued;
    } else {
      assert Replies(writes) + [] == Replies(writes);
    }
  }

  lemma Delivered(writes: seq<Frame>, hello: Option<Bytes>, l: Line, earlier: seq<Bytes>, received: seq<Bytes>,
    queued: seq<Bytes>, made: seq<Bytes>)
    requires Orderly(writes, hello, received, queued, made) && Balanced(l) && l.received == earlier + received
    ensures earlier + Messages(writes) <= l.received
    ensures Subsequence(earlier + Messages(writes), l.offered) && Subsequence(Replies(writes), made)
  {
    var n := |earlier + Messages(writes)|;
    SubsequencePrefix(l.received + l.buffer, l.offered, n);
    assert (l.received + l.buffer)[..n] == earlier + Messages(writes);
    ForgetQueue(writes, hello, received, queued, made);
    assert Replies(writes) + [] == Replies(writes);
  }

  /** What the hub's goroutines do to the subscription meanwhile. */
  method HubActs(sub: Sub, event: Event)
    requires Balanced(sub.View()) && (event.HubSends? || event.HubCloses?)
    modifies sub
    ensures Balanced(sub.View()) && sub.received == old(sub.received)
    ensures event.HubSends? && !old(sub.closed) && old(|sub.buffer|) < sub.size ==>
      sub.buffer == old(sub.buffer) + [event.data] && sub.dropped == old(sub.dropped)
    ensures event.HubSends? && !old(sub.closed) && old(|sub.buffer|) >= sub.size ==>
      sub.buffer == old(sub.buffer) && sub.dropped == old(sub.dropped) + 1
    ensures event.HubCloses? ==> sub.buffer == old(sub.buffer) && sub.dropped == old(sub.dropped)
    ensures sub.closed == (old(sub.closed) || event.HubCloses?)
    ensures old(sub.closed) ==> sub.View() == old(sub.View())
  {
    if sub.closed {
      return;
    }
    match event {
      case HubSends(data) =>
        OperateKeepsBalance(sub.View(), Offer(data));
        sub.Send(data);
      case HubCloses =>
        OperateKeepsBalance(sub.View(), Shut);
        sub.Close();
    }
  }

  /** Write the hello; a failed write ends the loop. */
  method Greet(writes: seq<Frame>, hello: Bytes, ok: bool, ghost received: seq<Bytes>, ghost queued: seq<Bytes>,
    ghost made: seq<Bytes>)
    returns (written: seq<Frame>)
    requires Orderly(writes, Some(hello), received, queued, made) && Messages(writes) == received && writes == []
    ensures written == if ok then writes + [HelloFrame(hello)] else writes
    ensures Orderly(written, Some(hello), received, queued, made) && Messages(written) == received
  {
    written := writes;
    if ok {
      WriteKeepsOrder(writes, Some(hello), received, queued, made, HelloFrame(hello), received, queued);
      AppendFrame(writes, HelloFrame(hello));
      written := writes + [HelloFrame(hello)];
    }
  }

  /** Take a message from the subscription and write it; a failed write ends the loop. */
  method ForwardMessage(sub: Sub, writes: seq<Frame>, hello: Option<Bytes>, ok: bool,
    ghost earlier: seq<Bytes>, ghost received: seq<Bytes>, ghost queued: seq<Bytes>, ghost made: seq<Bytes>)
    returns (written: seq<Frame>, ended: bool, ghost taken: seq<Bytes>)
    requires Balanced(sub.View()) && sub.buffer != [] && sub.received == earlier + received
    requires Orderly(writes, hello, received, queued, made) && Messages(writes) == received
    requires hello.Some? ==> writes != []
    modifies sub
    ensures Balanced(sub.View()) && sub.received == earlier + taken && ended == !ok
    ensures Orderly(written, hello, taken, if ended then [] else queued, made)
    ensures !ended ==> Messages(written) == taken
    ensures sub.buffer == old(sub.buffer[1..]) && taken == received + [old(sub.buffer[0])]
    ensures sub.closed == old(sub.closed)
    ensures written == if ok then writes + [MessageFrame(old(sub.buffer[0]))] else writes
  {
    OperateKeepsBalance(sub.View(), Take);
    ForgetQueue(writes, hello, received, queued, made);
    var data := sub.Receive();
    written, ended, taken := writes, !ok, received + [data];
    if ok {
      WriteKeepsOrder(writes, hello, received, queued, made, MessageFrame(data), taken, queued);
      AppendFrame(writes, MessageFrame(data));
      written := writes + [MessageFrame(data)];
    }
  }

  /** Take a reply from the queue and write it; a failed write ends the loop. */
  method ForwardReply(writes: seq<Frame>, hello: Option<Bytes>, ok: bool, queued: seq<Bytes>,
    ghost received: seq<Bytes>, ghost made: seq<Bytes>)
    returns (written: seq<Frame>, ended: bool, left: seq<Bytes>)
    requires Orderly(writes, hello, received, queued, made) && Messages(writes) == received
    requires queued != [] && (hello.Some? ==> writes != [])
    ensures ended == !ok && left == queued[1..] && Messages(written) == received
    ensures written == if ok then writes + [ReplyFrame(queued[0])] else writes
    ensures Orderly(written, hello, received, if ended then [] else left, made)
  {
    ForgetQueue(writes, hello, received, queued, made);
    written, ended, left := writes, !ok, queued[1..];
    if ok {
      WriteKeepsOrder(writes, hello, received, queued, made, ReplyFrame(queued[0]), received, left);
      AppendFrame(writes, ReplyFrame(queued[0]));
      written := writes + [ReplyFrame(queued[0])];
    }
  }

  /** The loop between two events: what is written, the replies queued, whether the hello is out of the way,
      whether the reader has ended, whether the loop has. */
  datatype Loop = Loop(writes: seq<Frame>, queued: seq<Bytes>, greeted: bool, cancelled: bool, ended: bool)

  ghost predicate Sound(l: Line, d: Loop, hello: Option<Bytes>, earlier: seq<Bytes>, received: seq<Bytes>,
    made: seq<Bytes>)
  {
    && Balanced(l) && l.received == earlier + received
    && Orderly(d.writes, hello, received, if d.ended then [] else d.queued, made)
    && (!d.ended ==> Messages(d.writes) == received)
    && |received| <= |Messages(d.writes)| + 1
    && (d.greeted <==> hello.None? || d.writes != [])
  }

  /** What one event does to the subscription and to the loop. The hub fills the buffer while there is room, the
      reader queues replies while it runs and there is room, and only after the hello are they taken, each oldest
      first; a taken frame is the next one written, or its write fails and the loop ends. */
  ghost predicate Turned(before: Line, d: Loop, event: Event, after: Line, next: Loop, hello: Option<Bytes>) {
    && (event.HubSends? && !before.closed && |before.buffer| < before.size ==>
      after.buffer == before.buffer + [event.data] && after.dropped == before.dropped)
    && (event.HubSends? && !before.closed && |before.buffer| >= before.size ==>
      after.buffer == before.buffer && after.dropped == before.dropped + 1)
    && (event.TakeMessage? && d.greeted && before.buffer != [] ==>
      && after.buffer == before.buffer[1..]
      && next == if event.ok then d.(writes := d.writes + [MessageFrame(before.buffer[0])]) else d.(ended := true))
    && (event.TakeMessage? && d.greeted && before.buffer == [] ==> next == d.(ended := before.closed))
    && (!event.HubSends? && !(event.TakeMessage? && d.greeted && before.buffer != []) ==> after.buffer == before.buffer)
    && after.size == before.size && after.closed == (before.closed || event.HubCloses?)
    && (event.ReadFrame? && event.reply.Some? && !d.cancelled && |d.queued| < 4 ==>
      next == d.(queued := d.queued + [event.reply.value]))
    && (event.ReadFrame? && (event.reply.None? || d.cancelled || |d.queued| >= 4) ==> next == d)
    && (event.TakeReply? && d.greeted && d.queued != [] ==>
      next.queued == d.queued[1..] && next.greeted && next.cancelled == d.cancelled && next.ended == !event.ok
      && next.writes == d.writes + if event.ok then [ReplyFrame(d.queued[0])] else [])
    && (event.TakeReply? && (!d.greeted || d.queued == []) ==> next == d)
    && (event.WriteHello? && !d.greeted && hello.Some? && event.ok ==>
      next == d.(writes := d.writes + [HelloFrame(hello.value)], greeted := true))
    && (event.WriteHello? && !d.greeted && !event.ok ==> next == d.(ended := true))
    && (event.WriteHello? && d.greeted ==> next == d)
    && (event.ReadError? ==> next == d.(cancelled := true))
    && (event.Stop? || event.Ping? ==> next == d.(ended := d.greeted && event != Ping(true)))
    && (event.HubSends? || event.HubCloses? || (event.TakeMessage? && !d.greeted) ==> next == d)
  }

  /** The reader's goroutine. */
  method ReaderActs(event: Event, d: Loop, ghost l: Line, ghost hello: Option<Bytes>, ghost made: seq<Bytes>)
    returns (next: Loop)
    requires !d.ended && (event.ReadFrame? || event.ReadError?)
    requires Subsequence(Replies(d.writes) + d.queued, made) && |d.queued| <= REPLY_QUEUE
    ensures Turned(l, d, event, l, next, hello)
    ensures next.writes == d.writes && next.greeted == d.greeted && !next.ended && |next.queued| <= REPLY_QUEUE
    ensures Subsequence(Replies(d.writes) + next.queued, MadeWith(made, event))
  {
    next := d;
    if event.ReadError? {
      next := d.(cancelled := true);
    } else if event.reply.Some? {
      EnqueueKeepsOrder(Replies(d.writes), d.queued, made, event.reply.value);
      if !d.cancelled {
        var queued := Enqueue(d.queued, event.reply.value);
        next := d.(queued := queued);
      }
    }
  }

  /** The write loop's case for the subscription's channel. */
  method MessageActs(sub: Sub, hello: Option<Bytes>, ok: bool, d: Loop,
    ghost earlier: seq<Bytes>, ghost received: seq<Bytes>, ghost made: seq<Bytes>)
    returns (next: Loop, ghost taken: seq<Bytes>)
    requires !d.ended && Sound(sub.View(), d, hello, earlier, received, made)
    modifies sub
    ensures Sound(sub.View(), next, hello, earlier, taken, made)
    ensures Turned(old(sub.View()), d, TakeMessage(ok), sub.View(), next, hello)
    ensures next.ended ==> Ends(TakeMessage(ok), sub.closed && sub.buffer == [])
  {
    next, taken := d, received;
    if d.greeted && sub.buffer != [] {
      var writes, ended;
      writes, ended, taken := ForwardMessage(sub, d.writes, hello, ok, earlier, received, d.queued, made);
      next := d.(writes := writes, ended := ended);
    } else if d.greeted && sub.closed {
      ForgetQueue(d.writes, hello, received, d.queued, made);
      next := d.(ended := true);
    }
  }

  /** Its other cases, and the hello before it. */
  method WriterActs(hello: Option<Bytes>, event: Event, d: Loop,
    ghost l: Line, ghost earlier: seq<Bytes>, ghost received: seq<Bytes>, ghost made: seq<Bytes>)
    returns (next: Loop)
    requires !d.ended && Sound(l, d, hello, earlier, received, made)
    requires event.WriteHello? || event.TakeReply? || event.Ping? || event.Stop?
    ensures Sound(l, next, hello, earlier, received, made) && Turned(l, d, event, l, next, hello)
    ensures next.ended ==> Ends(event, false)
  {
    next := d;
    ForgetQueue(d.writes, hello, received, d.queued, made);
    match event {
      case WriteHello(ok) =>
        if !d.greeted {
          var writes := Greet(d.writes, hello.value, ok, received, d.queued, made);
          next := d.(writes := writes, greeted := ok, ended := !ok);
        }
      case TakeReply(ok) =>
        if d.greeted && d.queued != [] {
          var writes, ended, queued := ForwardReply(d.writes, hello, ok, d.queued, received, made);
          next := d.(writes := writes, ended := ended, queued := queued);
        }
      case Ping(ok) =>
        next := d.(ended := d.greeted && !ok);
      case Stop =>
        next := d.(ended := d.greeted);
    }
  }

  /** One event, by whoever it concerns. */
  method Turn(sub: Sub, hello: Option<Bytes>, event: Event, d: Loop,
    ghost earlier: seq<Bytes>, ghost received: seq<Bytes>, ghost made: seq<Bytes>)
    returns (next: Loop, ghost taken: seq<Bytes>)
    requires !d.ended && Sound(sub.View(), d, hello, earlier, received, made)
    modifies sub
    ensures Sound(sub.View(), next, hello, earlier, taken, MadeWith(made, event))
    ensures Turned(old(sub.View()), d, event, sub.View(), next, hello)
    ensures next.ended ==> Ends(event, sub.closed && sub.buffer == [])
  {
    next, taken := d, received;
    if event.HubSends? || event.HubCloses? {
      HubActs(sub, event);
    } else if event.ReadFrame? || event.ReadError? {
      next := ReaderActs(event, d, sub.View(), hello, made);
    } else if event.TakeMessage? {
      next, taken := MessageActs(sub, hello, event.ok, d, earlier, received, made);
    } else {
      next := WriterActs(hello, event, d, sub.View(), earlier, received, made);
    }
  }

  /** The loop ends at a failed write or ping, when the context is done, or when a closed subscription has
      been emptied. */
  predicate Ends(event: Event, spent: bool) {
    || event == WriteHello(false) || event == TakeMessage(false) || event == TakeReply(false)
    || event == Ping(false) || event == Stop || (event.TakeMessage? && spent)
  }

  // ---------------------------------------------------------------- what a schedule is sure to write

  /** The first attempt to write the hello, if any. */
  function FirstHello(events: seq<Event>): Option<bool> {
    if events == [] then None
    else
      var earlier, last := FirstHello(events[..|events| - 1]), events[|events| - 1];
      if earlier.None? && last.WriteHello? then Some(last.ok) else earlier
  }

  /** The takes since the hub last sent or closed, or a hello was written. */
  function TakesSince(events: seq<Event>): nat {
    if events == [] then 0
    else
      var last := events[|events| - 1];
      if last.HubSends? || last.HubCloses? || last.WriteHello? then 0
      else TakesSince(events[..|events| - 1]) + Count(last.TakeMessage?)
  }

  /** The replies taken since a frame was last read or a hello was written. */
  function ReplyTakesSince(events: seq<Event>): nat {
    if events == [] || events[|events| - 1].ReadFrame? || events[|events| - 1].WriteHello? then 0
    else ReplyTakesSince(events[..|events| - 1]) + Count(events[|events| - 1].TakeReply?)
  }

  /** How far the loop has come against the schedule. */
  ghost predicate Caught(l: Line, d: Loop, hello: Option<Bytes>, events: seq<Event>) {
    && (d.greeted && !d.ended ==> (l.buffer == [] && !l.closed) || |l.buffer| + TakesSince(events) <= l.size)
    && (d.greeted && !d.ended ==> d.queued == [] || |d.queued| + ReplyTakesSince(events) <= REPLY_QUEUE)
    && (hello.Some? ==> (d.greeted <==> FirstHello(events) == Some(true)))
    && (!d.ended && !d.greeted ==> FirstHello(events) == None)
    && (d.cancelled ==> ReadError in events)
    && (!d.ended && hello.None? ==> d.greeted && Stop !in events && Ping(false) !in events)
    && (!d.ended && ReadError !in events ==> NoneDropped(d, RepliesMade(events)))
  }

  /** The first four replies always find room. */
  ghost predicate NoneDropped(d: Loop, made: seq<Bytes>) {
    |made| <= REPLY_QUEUE ==> Replies(d.writes) + d.queued == made
  }

  lemma ReplyTaken(was: Loop, now: Loop, made: seq<Bytes>)
    requires NoneDropped(was, made) && was.queued != [] && now.queued == was.queued[1..]
    requires now.writes == was.writes + [ReplyFrame(was.queued[0])]
    ensures NoneDropped(now, made)
  {
    AppendFrame(was.writes, ReplyFrame(was.queued[0]));
    assert Replies(was.writes) + [was.queued[0]] + was.queued[1..] == Replies(was.writes) + was.queued;
  }

  lemma ReplyQueued(was: Loop, now: Loop, made: seq<Bytes>, reply: Bytes)
    requires NoneDropped(was, made) && (|was.queued| < 4 ==> now == was.(queued := was.queued + [reply]))
    ensures NoneDropped(now, made + [reply])
  {
    assert Replies(was.writes) + (was.queued + [reply]) == Replies(was.writes) + was.queued + [reply];
  }

  lemma RepliesFollow(before: Line, was: Loop, after: Line, now: Loop, hello: Option<Bytes>, event: Event,
    made: seq<Bytes>)
    requires Turned(before, was, event, after, now, hello) && NoneDropped(was, made) && !now.ended
    requires !was.ended && !was.cancelled && (!was.greeted ==> hello.Some?)
    ensures NoneDropped(now, MadeWith(made, event))
  {
    if event.ReadFrame? && event.reply.Some? {
      ReplyQueued(was, now, made, event.reply.value);
    } else if event.TakeReply? && was.greeted && was.queued != [] {
      ReplyTaken(was, now, made);
    } else if now.writes != was.writes {
      AppendFrame(was.writes, if event.WriteHello? then HelloFrame(hello.value) else MessageFrame(before.buffer[0]));
    }
  }

  lemma StaysCaught(before: Line, was: Loop, after: Line, now: Loop, hello: Option<Bytes>, events: seq<Event>,
    event: Event)
    requires !was.ended && Caught(before, was, hello, events) && Turned(before, was, event, after, now, hello)
    requires |after.buffer| <= after.size && |was.queued| <= REPLY_QUEUE && (!was.greeted ==> hello.Some?)
    ensures Caught(after, now, hello, events + [event])
  {
    var all := events + [event];
    assert all[..|events|] == events && all[|events|] == event;
    if !now.ended && ReadError !in all {
      RepliesFollow(before, was, after, now, hello, event, RepliesMade(events));
    }
  }

  ghost predicate OnSchedule(l: Line, d: Loop, hello: Option<Bytes>, earlier: seq<Bytes>, received: seq<Bytes>,
    events: seq<Event>)
  {
    Sound(l, d, hello, earlier, received, RepliesMade(events)) && Caught(l, d, hello, events)
  }

  method Cycle(sub: Sub, hello: Option<Bytes>, event: Event, d: Loop,
    ghost earlier: seq<Bytes>, ghost received: seq<Bytes>, ghost events: seq<Event>)
    returns (next: Loop, ghost taken: seq<Bytes>)
    requires !d.ended && OnSchedule(sub.View(), d, hello, earlier, received, events)
    modifies sub
    ensures OnSchedule(sub.View(), next, hello, earlier, taken, events + [event])
    ensures next.ended ==> Ends(event, sub.closed && sub.buffer == [])
  {
    ghost var before := sub.View();
    next, taken := Turn(sub, hello, event, d, earlier, received, RepliesMade(events));
    StaysCaught(before, d, sub.View(), next, hello, events, event);
    assert (events + [event])[..|events|] == events;
  }

  /** The loop itself. */
  method Serve(sub: Sub, hello: Option<Bytes>, schedule: seq<Event>)
    returns (d: Loop, steps: nat, ghost received: seq<Bytes>)
    requires Balanced(sub.View())
    modifies sub
    ensures steps <= |schedule| && (!d.ended ==> steps == |schedule|)
    ensures OnSchedule(sub.View(), d, hello, old(sub.received), received, schedule[..steps])
    ensures d.ended ==> steps > 0 && Ends(schedule[steps - 1], sub.closed && sub.buffer == [])
  {
    d, steps, received := Loop([], [], hello.None?, false, false), 0, [];
    ghost var earlier := sub.received;
    while steps < |schedule| && !d.ended
      invariant steps <= |schedule|
      invariant OnSchedule(sub.View(), d, hello, earlier, received, schedule[..steps])
      invariant d.ended ==> steps > 0 && Ends(schedule[steps - 1], sub.closed && sub.buffer == [])
      decreases |schedule| - steps
    {
      ghost var events := schedule[..steps];
      d, received := Cycle(sub, hello, schedule[steps], d, earlier, received, events);
      assert schedule[..steps + 1] == events + [schedule[steps]];
      steps := steps + 1;
    }
  }

  /** Pump over a schedule, which may end early. Whatever the subscriber had received earlier, the socket sees
      a prefix of what it receives from now on; `queued` are the replies not yet written. */
  method Pump(sub: Sub, hello: Option<Bytes>, schedule: seq<Event>)
    returns (writes: seq<Frame>, queued: seq<Bytes>, ended: bool, steps: nat)
    requires Balanced(sub.View())
    modifies sub
    ensures Balanced(sub.View()) && steps <= |schedule| && (!ended ==> steps == |schedule|)
    // never more than this, and in this order
    ensures HelloFirst(writes, hello)
    ensures old(sub.received) + Messages(writes) <= sub.received
    ensures Subsequence(old(sub.received) + Messages(writes), sub.offered)
    ensures Subsequence(Replies(writes), RepliesMade(schedule[..steps]))
    // never less than this: the hello when its write succeeds, all that is taken but for one failed write
    ensures hello.Some? ==> (writes != [] <==> FirstHello(schedule[..steps]) == Some(true))
    ensures |sub.received| <= |old(sub.received)| + |Messages(writes)| + 1
    ensures !ended ==> old(sub.received) + Messages(writes) == sub.received
    // after as many takes as the buffer holds everything offered and not dropped is written
    ensures !ended && (hello.None? || FirstHello(schedule).Some?) && TakesSince(schedule) >= sub.size ==>
      sub.buffer == [] && |sub.offered| == |old(sub.received)| + |Messages(writes)| + sub.dropped
    // and one take more finds a subscription that is closed out
    ensures !ended && (hello.None? || FirstHello(schedule).Some?) && TakesSince(schedule) > sub.size ==> !sub.closed
    // after four takes of replies none is left; the first four are all queued
    ensures !ended && (hello.None? || FirstHello(schedule).Some?) && ReplyTakesSince(schedule) >= 4 ==> queued == []
    ensures !ended && ReadError !in schedule && |RepliesMade(schedule)| <= 4 ==>
      Replies(writes) + queued == RepliesMade(schedule)
    // it ends at a failed write or ping, when the context is done, or when a closed subscription is empty
    ensures ended ==> steps > 0 && var e := schedule[steps - 1];
      || e == WriteHello(false) || e == TakeMessage(false) || e == TakeReply(false) || e == Ping(false)
      || e == Stop || (e.TakeMessage? && sub.closed && sub.buffer == [])
    ensures !ended && hello.None? ==> Stop !in schedule && Ping(false) !in schedule
  {
    var d;
    ghost var earlier, received := sub.received, [];
    d, steps, received := Serve(sub, hello, schedule);
    assert schedule[..|schedule|] == schedule;
    writes, queued, ended := d.writes, d.queued, d.ended;
    Delivered(
      writes, hello, sub.View(), earlier, received, if ended then [] else queued, RepliesMade(schedule[..steps]));
  }
}
