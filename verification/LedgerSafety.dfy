/**
 * Runs of the ledger: a consumer that claims first applies one event's effect at most once per retention
 * span, and exactly which deliveries win their claim.
 */
module LedgerSafety {
  import opened Common
  import opened Ledger
  import opened Outbox

  /** Deliveries claim; other handlers may only mark; pruners delete rows older than their cutoff. A claim or
      mark may insert its row and still report an error. */
  datatype Action =
    | Tick(elapsed: nat)
    | Deliver(msg: Msg, consumer: string, answer: DbAnswer)
    | Mark(key: Key, answer: DbAnswer)
    | PruneBatch(startedAt: int, olderThan: int, gone: set<Key>)

  datatype State = State(now: int, rows: Rows)

  function KeyOf(m: Msg, consumer: string, c: Codec): Option<Key> {
    match EventIdFromMsg(m, c)
    case None => None
    case Some(id) => Some(Key(id, consumer))
  }

  ghost predicate Enabled(s: State, a: Action, span: int) {
    a.PruneBatch? ==>
      && a.startedAt <= s.now && span <= Retention(a.olderThan)
      && a.gone <= Stale(s.rows, a.startedAt - Retention(a.olderThan))
  }

  function Apply(s: State, a: Action, c: Codec): State {
    match a
    case Tick(elapsed) => s.(now := s.now + elapsed)
    case Deliver(m, consumer, answer) =>
      (match KeyOf(m, consumer, c)
       case None => s
       case Some(key) => s.(rows := if answer == Down then s.rows else Insert(s.rows, key, s.now)))
    case Mark(key, answer) => s.(rows := if answer == Down then s.rows else Insert(s.rows, key, s.now))
    case PruneBatch(_, _, gone) => s.(rows := s.rows - gone)
  }

  function Exec(s: State, acts: seq<Action>, c: Codec): State {
    if acts == [] then s else Apply(Exec(s, acts[..|acts| - 1], c), acts[|acts| - 1], c)
  }

  /** `span` bounds the retention of every pruner from below. */
  ghost predicate Legal(s: State, acts: seq<Action>, span: int, c: Codec) {
    acts == [] ||
    (Legal(s, acts[..|acts| - 1], span, c) && Enabled(Exec(s, acts[..|acts| - 1], c), acts[|acts| - 1], span))
  }

  /** The i-th action delivers a copy whose claim reaches the database. */
  ghost predicate Reaches(acts: seq<Action>, i: nat, key: Key, c: Codec)
    requires i < |acts|
  {
    acts[i].Deliver? && acts[i].answer != Down && KeyOf(acts[i].msg, acts[i].consumer, c) == Some(key)
  }

  /** Its claim wins: the row was not there, and the consumer is told so. Only then may the effect follow; a
      consumer that dies between its claim and its effect leaves none. */
  ghost predicate Wins(s: State, acts: seq<Action>, i: nat, key: Key, c: Codec)
    requires i < |acts|
  {
    Reaches(acts, i, key, c) && acts[i].answer == Done && key !in Exec(s, acts[..i], c).rows
  }

  /** After a win the row stands until a pruner can have seen it as older than the span. */
  lemma {:induction false} WinLasts(s: State, acts: seq<Action>, span: int, c: Codec, i: nat, key: Key)
    requires Legal(s, acts, span, c) && i < |acts| && Wins(s, acts, i, key, c)
    ensures var at, end := Exec(s, acts[..i], c).now, Exec(s, acts, c);
      at <= end.now && (end.now > at + span || (key in end.rows && end.rows[key] == at))
    decreases |acts|
  {
    var front := acts[..|acts| - 1];
    assert acts[..|acts|] == acts;
    if i == |acts| - 1 {
    } else {
      assert front[..i] == acts[..i] && front[i] == acts[i];
      WinLasts(s, front, span, c, i, key);
    }
  }

  lemma {:induction false} PrefixIsLegal(s: State, acts: seq<Action>, span: int, c: Codec, n: nat)
    requires Legal(s, acts, span, c) && n <= |acts|
    ensures Legal(s, acts[..n], span, c)
    decreases |acts|
  {
    if n == |acts| {
      assert acts[..n] == acts;
    } else {
      PrefixIsLegal(s, acts[..|acts| - 1], span, c, n);
      assert acts[..|acts| - 1][..n] == acts[..n];
    }
  }

  /** Two winning claims of one key are more than the smallest retention apart. */
  lemma WinsAreFarApart(s: State, acts: seq<Action>, span: int, c: Codec, i: nat, j: nat, key: Key)
    requires Legal(s, acts, span, c) && i < j < |acts|
    requires Wins(s, acts, i, key, c) && Wins(s, acts, j, key, c)
    ensures Exec(s, acts[..j], c).now - Exec(s, acts[..i], c).now > span
  {
    PrefixIsLegal(s, acts, span, c, j);
    assert acts[..j][..i] == acts[..i] && acts[..j][i] == acts[i];
    WinLasts(s, acts[..j], span, c, i, key);
  }

  // ---------------------------------------------------------------- when a claim wins

  /** The i-th action leaves a row for the key, whatever it reports. */
  ghost predicate Puts(acts: seq<Action>, i: nat, key: Key, c: Codec)
    requires i < |acts|
  {
    Reaches(acts, i, key, c) || (acts[i].Mark? && acts[i].key == key && acts[i].answer != Down)
  }

  ghost predicate Removes(acts: seq<Action>, i: nat, key: Key)
    requires i < |acts|
  {
    acts[i].PruneBatch? && key in acts[i].gone
  }

  /** No pruner takes the key's row from the n-th action on. */
  ghost predicate Kept(acts: seq<Action>, n: nat, key: Key) {
    forall j | n <= j < |acts| :: !Removes(acts, j, key)
  }

  ghost predicate Recorded(s: State, acts: seq<Action>, key: Key, c: Codec) {
    (key in s.rows && Kept(acts, 0, key)) || exists m: nat :: m < |acts| && Puts(acts, m, key, c) && Kept(acts, m, key)
  }

  lemma RecordedStep(s: State, acts: seq<Action>, a: Action, key: Key, c: Codec)
    ensures Recorded(s, acts + [a], key, c) <==>
      (Recorded(s, acts, key, c) && !Removes([a], 0, key)) || Puts([a], 0, key, c)
  {
    var longer, n := acts + [a], |acts|;
    forall m: nat | m <= n ensures Kept(longer, m, key) <==> Kept(acts, m, key) && !Removes([a], 0, key) {
      assert Removes(longer, n, key) <==> Removes([a], 0, key);
      forall j | m <= j < n ensures Removes(longer, j, key) <==> Removes(acts, j, key) {
      }
    }
    forall m: nat | m < n ensures Puts(longer, m, key, c) <==> Puts(acts, m, key, c) {
      assert longer[m] == acts[m];
    }
    assert Puts(longer, n, key, c) <==> Puts([a], 0, key, c);
  }

  /** AlreadyProcessed says yes exactly when some claim or mark of the key reached the database, answered or
      not, and no pruner has taken the row since. */
  lemma {:induction false} ProcessedExactlyWhen(s: State, acts: seq<Action>, c: Codec, key: Key)
    ensures key in Exec(s, acts, c).rows <==> Recorded(s, acts, key, c)
  {
    if acts != [] {
      var front, a := acts[..|acts| - 1], acts[|acts| - 1];
      assert acts == front + [a];
      ProcessedExactlyWhen(s, front, c, key);
      RecordedStep(s, front, a, key, c);
    }
  }

  /** A delivery wins exactly when its claim is answered and nothing recorded the key before, or all of that
      has been pruned. */
  lemma WinsExactlyWhen(s: State, acts: seq<Action>, c: Codec, i: nat, key: Key)
    requires i < |acts|
    ensures Wins(s, acts, i, key, c) <==>
      Reaches(acts, i, key, c) && acts[i].answer == Done && !Recorded(s, acts[..i], key, c)
  {
    ProcessedExactlyWhen(s, acts[..i], c, key);
  }

  /** The i-th action is the first delivery of the key whose claim reaches the database. */
  ghost predicate ReachesFirst(acts: seq<Action>, i: nat, key: Key, c: Codec)
    requires i < |acts|
  {
    Reaches(acts, i, key, c) && forall j | 0 <= j < i :: !Reaches(acts, j, key, c)
  }

  /** While nobody marks or prunes the key, some delivery wins exactly when the first claim that reached the
      database was answered: a claim whose answer was lost is lost for good. */
  lemma SomeDeliveryWinsExactlyWhen(s: State, acts: seq<Action>, c: Codec, key: Key)
    requires key !in s.rows && Kept(acts, 0, key)
    requires forall i | 0 <= i < |acts| :: Puts(acts, i, key, c) ==> Reaches(acts, i, key, c)
    ensures (exists i: nat :: i < |acts| && Wins(s, acts, i, key, c)) <==>
      (exists i: nat :: i < |acts| && ReachesFirst(acts, i, key, c) && acts[i].answer == Done)
  {
    forall i: nat | i < |acts|
      ensures Wins(s, acts, i, key, c) <==> ReachesFirst(acts, i, key, c) && acts[i].answer == Done
    {
      WinsExactlyWhen(s, acts, c, i, key);
      forall j: nat | j < i ensures Puts(acts[..i], j, key, c) <==> Reaches(acts, j, key, c) {
        assert acts[..i][j] == acts[j];
      }
      assert forall j: nat | j < i :: Kept(acts[..i], j, key) by {
        forall j: nat | j < i ensures !Removes(acts[..i], j, key) {
          assert acts[..i][j] == acts[j] && !Removes(acts, j, key);
        }
      }
    }
  }

  /** After a claim that inserted the row and reported an error, no later delivery wins until a pruner takes
      the row: the event is recorded as processed although no effect was ever allowed. */
  lemma LostClaimBlocks(s: State, acts: seq<Action>, c: Codec, i: nat, j: nat, key: Key)
    requires i < j < |acts| && Reaches(acts, i, key, c) && acts[i].answer == Lost && Kept(acts[..j], i, key)
    ensures !Wins(s, acts, j, key, c) && key in Exec(s, acts[..j], c).rows
  {
    assert acts[..j][i] == acts[i] && Puts(acts[..j], i, key, c);
    ProcessedExactlyWhen(s, acts[..j], c, key);
  }

  // ---------------------------------------------------------------- copies of one event

  /** Copies of one event carry one key, whatever their bodies say. */
  lemma CopiesShareAKey(c: Codec, e: Event, a: Msg, b: Msg, consumer: string)
    requires Faithful(c) && CopyOf(a, e, c) && CopyOf(b, e, c)
    ensures KeyOf(a, consumer, c) == KeyOf(b, consumer, c) == Some(Key(e.id, consumer))
  {
    assert c.text(e.id) != "";
  }

  /** So the copies of an outbox event, stored or redelivered any number of times, take effect at most
      once within the span. */
  lemma EventTakesEffectOncePerSpan(s: State, acts: seq<Action>, span: int, c: Codec, e: Event, consumer: string,
    i: nat, j: nat)
    requires Faithful(c) && Legal(s, acts, span, c) && i < j < |acts|
    requires acts[i].Deliver? && acts[i].consumer == consumer && CopyOf(acts[i].msg, e, c)
    requires acts[j].Deliver? && acts[j].consumer == consumer && CopyOf(acts[j].msg, e, c)
    requires Exec(s, acts[..j], c).now - Exec(s, acts[..i], c).now <= span
    ensures Wins(s, acts, i, Key(e.id, consumer), c) ==> !Wins(s, acts, j, Key(e.id, consumer), c)
  {
    CopiesShareAKey(c, e, acts[i].msg, acts[j].msg, consumer);
    if Wins(s, acts, i, Key(e.id, consumer), c) && Wins(s, acts, j, Key(e.id, consumer), c) {
      WinsAreFarApart(s, acts, span, c, i, j, Key(e.id, consumer));
    }
  }
}
