/** The retry machine that binds a durable consumer (subscribe.go). */
module Rebind {
  import opened Common

  /** The server's answer to one subscribe call. */
  datatype Answer = Bound | Error(text: string)

  const ATTEMPTS := 40
  const FIRST_BACKOFF := 3
  const MAX_BACKOFF := 30

  predicate IsAlreadyBound(text: string) {
    Contains(text, "already bound")
  }

  predicate MissingDeliverGroup(text: string) {
    Contains(text, "without a deliver group")
  }

  predicate StreamMissing(text: string) {
    Contains(text, "stream not found")
  }

  /** Some answer says that the durable has no deliver group. */
  predicate LacksGroup(answers: seq<Answer>) {
    exists a | a in answers :: a.Error? && MissingDeliverGroup(a.text)
  }

  /** What the loop does with an answer, in the order of its branches. */
  datatype Branch = Active | Migrate | AwaitStream | Fatal | Conflict

  function BranchOf(answer: Answer, deleted: bool, stream: string): Branch {
    match answer
    case Bound => Active
    case Error(text) =>
      if MissingDeliverGroup(text) && !deleted && stream != "" then Migrate
      else if StreamMissing(text) then AwaitStream
      else if !IsAlreadyBound(text) && !MissingDeliverGroup(text) then Fatal
      else Conflict
  }

  /** How the loop ends; Waiting when the answers run out first. */
  datatype Outcome = Subscribed | Abandoned | GaveUp | Waiting

  /** The answers that reach the stream-missing branch are erased. */
  function Erase(answers: seq<Answer>, deleted: bool, stream: string): (kept: seq<Answer>)
    ensures |kept| <= |answers|
  {
    if answers == [] then []
    else
      var branch := BranchOf(answers[0], deleted, stream);
      var rest := Erase(answers[1..], deleted || branch == Migrate, stream);
      if branch == AwaitStream then rest else [answers[0]] + rest
  }

  function MissingCount(answers: seq<Answer>, deleted: bool, stream: string): nat {
    |answers| - |Erase(answers, deleted, stream)|
  }

  /** The outcome of a sequence without stream-missing answers, read off it: the first answer that
      decides, if it comes within the attempts. */
  function Verdict(answers: seq<Answer>, attempts: nat): Outcome {
    if attempts == 0 then GaveUp
    else if answers == [] then Waiting
    else if answers[0].Bound? then Subscribed
    else if !IsAlreadyBound(answers[0].text) && !MissingDeliverGroup(answers[0].text) then Abandoned
    else Verdict(answers[1..], attempts - 1)
  }

  function Backoff(n: nat): nat {
    if n == 0 then 3 else if n == 1 then 6 else if n == 2 then 12 else if n == 3 then 24 else 48
  }

  function Sum(s: seq<nat>): nat {
    if s == [] then 0 else Sum(s[..|s| - 1]) + s[|s| - 1]
  }

  function Backoffs(n: nat): seq<nat> {
    seq(n, i requires i >= 0 => Backoff(i))
  }

  lemma {:induction false} BackoffsSum(n: nat)
    ensures Sum(Backoffs(n)) == (
      if n == 0 then 0 else if n == 1 then 3 else if n == 2 then 9 else if n == 3 then 21 else 45 + 48 * (n - 4))
  {
    if n > 0 {
      BackoffsSum(n - 1);
      assert Backoffs(n)[..n - 1] == Backoffs(n - 1);
    }
  }

  // ---------------------------------------------------------------- the branches taken

  function Taken(branches: seq<Branch>, b: Branch): nat {
    if branches == [] then 0 else Taken(branches[..|branches| - 1], b) + Count(branches[|branches| - 1] == b)
  }

  /** The attempts they take up. */
  function Used(branches: seq<Branch>): nat {
    Taken(branches, Migrate) + Taken(branches, Conflict)
  }

  /** These branches are what the first answers call for, the consumer being deleted at most once. */
  ghost predicate Follows(branches: seq<Branch>, answers: seq<Answer>, deleted: bool, stream: string) {
    && |branches| <= |answers|
    && forall i | 0 <= i < |branches| ::
      branches[i] == BranchOf(answers[i], deleted || Migrate in branches[..i], stream)
  }

  predicate Retried(b: Branch) {
    b in {Migrate, AwaitStream, Conflict}
  }

  ghost predicate AllRetried(branches: seq<Branch>) {
    forall b | b in branches :: Retried(b)
  }

  lemma TakenNext(branches: seq<Branch>, b: Branch, x: Branch)
    ensures Taken(branches + [b], x) == Taken(branches, x) + Count(b == x)
  {
    assert (branches + [b])[..|branches|] == branches;
  }

  lemma FollowsNext(branches: seq<Branch>, answers: seq<Answer>, deleted: bool, stream: string)
    requires Follows(branches, answers, deleted, stream) && |branches| < |answers|
    ensures var b := BranchOf(answers[|branches|], deleted || Migrate in branches, stream);
      Follows(branches + [b], answers, deleted, stream)
  {
    var b := BranchOf(answers[|branches|], deleted || Migrate in branches, stream);
    var longer := branches + [b];
    assert longer[..|branches|] == branches;
    forall i | 0 <= i < |branches| ensures longer[..i] == branches[..i] {
    }
  }

  lemma FollowsFront(branches: seq<Branch>, answers: seq<Answer>, stream: string)
    requires Follows(branches, answers, false, stream) && branches != []
    ensures var front, last := branches[..|branches| - 1], branches[|branches| - 1];
      && Follows(front, answers, false, stream) && last == BranchOf(answers[|front|], Migrate in front, stream)
      && (Migrate in branches <==> Migrate in front || last == Migrate)
      && (AllRetried(branches) ==> AllRetried(front) && Retried(last))
  {
    var front, last := branches[..|branches| - 1], branches[|branches| - 1];
    assert branches == front + [last] && branches[..|front|] == front;
    forall i | 0 <= i < |front| ensures front[..i] == branches[..i] {
    }
  }

  /** An answer that is retried leaves the verdict to the answers after it, and takes up an attempt unless the
      stream was missing. */
  lemma NextAnswer(answers: seq<Answer>, n: nat, deleted: bool, stream: string, left: nat, branch: Branch,
    after: bool, leftAfter: nat)
    requires n < |answers| && branch == BranchOf(answers[n], deleted, stream) && Retried(branch)
    requires after == (deleted || branch == Migrate) && leftAfter + Count(branch != AwaitStream) == left
    ensures Verdict(Erase(answers[n..], deleted, stream), left)
      == Verdict(Erase(answers[n + 1..], after, stream), leftAfter)
  {
    assert answers[n..][1..] == answers[n + 1..];
    var rest := Erase(answers[n + 1..], after, stream);
    assert ([answers[n]] + rest)[1..] == rest;
  }

  lemma NextMissing(answers: seq<Answer>, n: nat, deleted: bool, stream: string, branch: Branch, after: bool)
    requires n < |answers| && branch == BranchOf(answers[n], deleted, stream)
    requires after == (deleted || branch == Migrate)
    ensures MissingCount(answers[n..], deleted, stream)
      == MissingCount(answers[n + 1..], after, stream) + Count(branch == AwaitStream)
  {
    assert answers[n..][1..] == answers[n + 1..];
  }

  /** Success, or an error that no branch retries, decides. */
  lemma FinalAnswer(answers: seq<Answer>, n: nat, deleted: bool, stream: string, left: nat)
    requires n < |answers| && left > 0 && !Retried(BranchOf(answers[n], deleted, stream))
    ensures Verdict(Erase(answers[n..], deleted, stream), left) == if answers[n].Bound? then Subscribed else Abandoned
  {
    assert answers[n..][1..] == answers[n + 1..];
  }

  /** What a run of retried answers leaves: the verdict of the answers after it, with the attempts left. */
  lemma {:induction false} RetriesLeave(branches: seq<Branch>, answers: seq<Answer>, stream: string, left: nat)
    requires Follows(branches, answers, false, stream) && AllRetried(branches)
    requires Used(branches) <= left
    ensures Verdict(Erase(answers, false, stream), left)
      == Verdict(Erase(answers[|branches|..], Migrate in branches, stream), left - Used(branches))
  {
    if branches == [] {
      assert answers[0..] == answers;
    } else {
      var front, last := branches[..|branches| - 1], branches[|branches| - 1];
      FollowsFront(branches, answers, stream);
      var still, after := left - Used(front), left - Used(branches);
      assert Used(branches) == Used(front) + Count(last != AwaitStream);
      RetriesLeave(front, answers, stream, left);
      NextAnswer(answers, |front|, Migrate in front, stream, still, last, Migrate in branches, after);
    }
  }

  lemma {:induction false} MissingLeft(branches: seq<Branch>, answers: seq<Answer>, stream: string)
    requires Follows(branches, answers, false, stream) && AllRetried(branches)
    ensures MissingCount(answers, false, stream)
      == Taken(branches, AwaitStream) + MissingCount(answers[|branches|..], Migrate in branches, stream)
  {
    if branches == [] {
      assert answers[0..] == answers;
    } else {
      var front, last := branches[..|branches| - 1], branches[|branches| - 1];
      FollowsFront(branches, answers, stream);
      MissingLeft(front, answers, stream);
      NextMissing(answers, |front|, Migrate in front, stream, last, Migrate in branches);
    }
  }

  /** The consumer is deleted at most once, exactly when an answer asks for it and its stream is known. */
  lemma {:induction false} DeletedAtMostOnce(branches: seq<Branch>, answers: seq<Answer>, stream: string)
    requires Follows(branches, answers, false, stream)
    ensures Taken(branches, Migrate) == Count(Migrate in branches)
    ensures Migrate in branches <==> stream != "" && LacksGroup(answers[..|branches|])
  {
    if branches != [] {
      var front := branches[..|branches| - 1];
      FollowsFront(branches, answers, stream);
      DeletedAtMostOnce(front, answers, stream);
      assert answers[..|branches|] == answers[..|front|] + [answers[|front|]];
    }
  }

  /** How a run ends, given the branches taken: for want of attempts or answers, or by a deciding answer. */
  lemma BranchesDecide(branches: seq<Branch>, answers: seq<Answer>, stream: string, used: nat)
    requires Follows(branches, answers, false, stream) && AllRetried(branches)
    requires used == Used(branches) <= ATTEMPTS
    requires used < ATTEMPTS && |branches| < |answers| ==>
      !Retried(BranchOf(answers[|branches|], Migrate in branches, stream))
    ensures Verdict(Erase(answers, false, stream), ATTEMPTS) == (
      if used == ATTEMPTS then GaveUp else if |branches| == |answers| then Waiting
      else if answers[|branches|].Bound? then Subscribed else Abandoned)
    ensures Taken(branches, AwaitStream) <= MissingCount(answers, false, stream)
  {
    RetriesLeave(branches, answers, stream, ATTEMPTS);
    MissingLeft(branches, answers, stream);
    if used < ATTEMPTS && |branches| < |answers| {
      FinalAnswer(answers, |branches|, Migrate in branches, stream, ATTEMPTS - used);
    }
  }

  // ---------------------------------------------------------------- read off the texts

  /** The server says so in its error. */
  predicate Says(a: Answer, phrase: string) {
    a.Error? && Contains(a.text, phrase)
  }

  /** An error of none of the three kinds that are worth another try. */
  predicate OfNoKind(a: Answer) {
    && a.Error? && !Says(a, "already bound") && !Says(a, "stream not found")
    && !Says(a, "without a deliver group")
  }

  /** No error asks for the migration and for the stream at once. */
  ghost predicate NoneSaysBoth(answers: seq<Answer>) {
    forall a | a in answers :: !(Says(a, "stream not found") && Says(a, "without a deliver group"))
  }

  /** The errors that can only mean a missing stream. */
  function StreamErrors(answers: seq<Answer>): nat {
    if answers == [] then 0
    else
      var last := answers[|answers| - 1];
      StreamErrors(answers[..|answers| - 1])
      + Count(Says(last, "stream not found") && !Says(last, "without a deliver group"))
  }

  function WithoutStreamErrors(answers: seq<Answer>): seq<Answer> {
    if answers == [] then []
    else
      var rest := WithoutStreamErrors(answers[1..]);
      if Says(answers[0], "stream not found") then rest else [answers[0]] + rest
  }

  /** What is erased are the errors about a missing stream. */
  lemma {:induction false} ErasesByText(answers: seq<Answer>, deleted: bool, stream: string)
    requires NoneSaysBoth(answers)
    ensures Erase(answers, deleted, stream) == WithoutStreamErrors(answers)
  {
    if answers != [] {
      assert answers[0] in answers && forall a | a in answers[1..] :: a in answers;
      ErasesByText(answers[1..], deleted || BranchOf(answers[0], deleted, stream) == Migrate, stream);
    }
  }

  /** Every retried answer is an error of one of three kinds. */
  lemma RetriedTexts(branches: seq<Branch>, answers: seq<Answer>, stream: string)
    requires Follows(branches, answers, false, stream) && AllRetried(branches)
    ensures forall i | 0 <= i < |branches| :: answers[i].Error? && !OfNoKind(answers[i])
  {
    forall i | 0 <= i < |branches| ensures answers[i].Error? && !OfNoKind(answers[i]) {
      assert branches[i] in branches;
    }
  }

  /** Every error that can only mean a missing stream is waited for. */
  lemma {:induction false} WaitsForTheStream(branches: seq<Branch>, answers: seq<Answer>, stream: string)
    requires Follows(branches, answers, false, stream) && AllRetried(branches)
    ensures Taken(branches, AwaitStream) >= StreamErrors(answers[..|branches|])
    ensures NoneSaysBoth(answers) ==> Taken(branches, AwaitStream) == StreamErrors(answers[..|branches|])
  {
    if branches != [] {
      var front := branches[..|branches| - 1];
      FollowsFront(branches, answers, stream);
      WaitsForTheStream(front, answers, stream);
      assert answers[..|branches|][..|front|] == answers[..|front|];
      assert answers[|front|] in answers;
    }
  }

  lemma ReadOffTheTexts(branches: seq<Branch>, answers: seq<Answer>, stream: string)
    requires Follows(branches, answers, false, stream) && AllRetried(branches)
    ensures forall i | 0 <= i < |branches| :: answers[i].Error? && !OfNoKind(answers[i])
    ensures Taken(branches, AwaitStream) >= StreamErrors(answers[..|branches|])
    ensures NoneSaysBoth(answers) ==>
      && Taken(branches, AwaitStream) == StreamErrors(answers[..|branches|])
      && Erase(answers, false, stream) == WithoutStreamErrors(answers)
    ensures LacksGroup(answers[..|branches|]) <==>
      exists i :: 0 <= i < |branches| && Says(answers[i], "without a deliver group")
  {
    RetriedTexts(branches, answers, stream);
    WaitsForTheStream(branches, answers, stream);
    if NoneSaysBoth(answers) {
      ErasesByText(answers, false, stream);
    }
    if i :| 0 <= i < |branches| && Says(answers[i], "without a deliver group") {
      assert answers[..|branches|][i] == answers[i];
    }
  }

  /** SubscribeQueueWithRebind, after its settling wait: `calls` subscribe calls, `deletes` consumer
      deletions, and the seconds slept after conflicts and for a missing stream. */
  method SubscribeQueueWithRebind(answers: seq<Answer>, stream: string)
    returns (outcome: Outcome, calls: nat, deletes: nat, conflictWaits: seq<nat>, streamWaits: seq<nat>,
      ghost retries: seq<Branch>)
    ensures outcome == Verdict(Erase(answers, false, stream), ATTEMPTS)
    ensures Follows(retries, answers, false, stream) && AllRetried(retries)
    // every call is a retry or the last one
    ensures calls == |conflictWaits| + deletes + |streamWaits| + Count(outcome in {Subscribed, Abandoned})
    ensures |retries| == |conflictWaits| + deletes + |streamWaits| && (outcome == Waiting ==> calls == |answers|)
    ensures calls <= |answers| && calls <= 40 + MissingCount(answers, false, stream)
    // how it ends, read off the server's texts
    ensures |conflictWaits| + deletes <= 40 && (|conflictWaits| + deletes == 40 <==> outcome == GaveUp)
    ensures outcome == Subscribed ==> |retries| < |answers| && answers[|retries|].Bound?
    ensures outcome == Abandoned ==> |retries| < |answers| && OfNoKind(answers[|retries|])
    ensures forall i | 0 <= i < |retries| :: answers[i].Error? && !OfNoKind(answers[i])
    // what the retries cost
    ensures deletes <= 1
    ensures deletes == 1 <==>
      stream != "" && exists i :: 0 <= i < |retries| && Says(answers[i], "without a deliver group")
    ensures conflictWaits == Backoffs(|conflictWaits|) && Sum(conflictWaits) <= 1773
    ensures forall w | w in streamWaits :: w == 30
    ensures StreamErrors(answers[..|retries|]) <= |streamWaits| <= MissingCount(answers, false, stream)
    ensures NoneSaysBoth(answers) ==>
      |streamWaits| == StreamErrors(answers[..|retries|]) && outcome == Verdict(WithoutStreamErrors(answers), 40)
  {
    outcome, calls, deletes, conflictWaits, streamWaits, retries := BindQueue(answers, stream);
    ReadOffTheTexts(retries, answers, stream);
  }

  /** The loop of attempts. */
  method BindQueue(answers: seq<Answer>, stream: string)
    returns (outcome: Outcome, calls: nat, deletes: nat, conflictWaits: seq<nat>, streamWaits: seq<nat>,
      ghost retries: seq<Branch>)
    ensures outcome == Verdict(Erase(answers, false, stream), ATTEMPTS)
    ensures Follows(retries, answers, false, stream) && AllRetried(retries)
    ensures calls == |conflictWaits| + deletes + |streamWaits| + Count(outcome in {Subscribed, Abandoned})
    ensures |retries| == |conflictWaits| + deletes + |streamWaits| && (outcome == Waiting ==> calls == |answers|)
    ensures calls <= |answers| && calls <= ATTEMPTS + MissingCount(answers, false, stream)
    ensures outcome in {Subscribed, Abandoned} ==>
      && |retries| < |answers|
      && BranchOf(answers[|retries|], Migrate in retries, stream) == (if outcome == Subscribed then Active else Fatal)
    ensures deletes == Taken(retries, Migrate) == Count(stream != "" && LacksGroup(answers[..|retries|]))
    ensures |conflictWaits| == Taken(retries, Conflict) && |streamWaits| == Taken(retries, AwaitStream)
    ensures |conflictWaits| + deletes <= ATTEMPTS && (|conflictWaits| + deletes == ATTEMPTS <==> outcome == GaveUp)
    ensures |streamWaits| <= MissingCount(answers, false, stream)
    ensures conflictWaits == Backoffs(|conflictWaits|) && Sum(conflictWaits) <= 1773
    ensures forall w | w in streamWaits :: w == 30
  {
    outcome, calls, deletes, conflictWaits, streamWaits, retries := Waiting, 0, 0, [], [], [];
    var backoff: nat, deletedStale, attempt: nat := FIRST_BACKOFF, false, 1;
    while attempt <= ATTEMPTS && calls < |answers|
      invariant calls == |retries| == attempt - 1 + |streamWaits| && 1 <= attempt <= ATTEMPTS + 1
      invariant Follows(retries, answers, false, stream) && AllRetried(retries)
      invariant deletedStale <==> Migrate in retries
      invariant deletes == Taken(retries, Migrate) && |conflictWaits| == Taken(retries, Conflict)
      invariant |streamWaits| == Taken(retries, AwaitStream) && |conflictWaits| + deletes == attempt - 1
      invariant Paced(conflictWaits, backoff, streamWaits)
      decreases |answers| - calls
    {
      var branch := BranchOf(answers[calls], deletedStale, stream);
      calls := calls + 1;
      if !Retried(branch) {
        BranchesDecide(retries, answers, stream, attempt - 1);
        DeletedAtMostOnce(retries, answers, stream);
        BackoffsBound(|conflictWaits|);
        outcome := if branch == Active then Subscribed else Abandoned;
        return;
      }
      FollowsNext(retries, answers, false, stream);
      TakenNext(retries, branch, Migrate);
      TakenNext(retries, branch, Conflict);
      TakenNext(retries, branch, AwaitStream);
      retries := retries + [branch];
      deletes, attempt, conflictWaits, backoff, streamWaits :=
        Retry(branch, deletes, attempt, conflictWaits, backoff, streamWaits);
      deletedStale := deletedStale || branch == Migrate;
    }
    BranchesDecide(retries, answers, stream, attempt - 1);
    DeletedAtMostOnce(retries, answers, stream);
    BackoffsBound(|conflictWaits|);
    outcome := if attempt > ATTEMPTS then GaveUp else Waiting;
  }

  /** The backoff in force follows the waits so far, and a missing stream is waited for 30 seconds. */
  ghost predicate Paced(conflictWaits: seq<nat>, backoff: nat, streamWaits: seq<nat>) {
    && conflictWaits == Backoffs(|conflictWaits|) && backoff == Backoff(|conflictWaits|)
    && forall w | w in streamWaits :: w == 30
  }

  /** The branches after which the loop goes on. */
  method Retry(branch: Branch, deletes: nat, attempt: nat, conflictWaits: seq<nat>, backoff: nat, streamWaits: seq<nat>)
    returns (deletes': nat, attempt': nat, conflictWaits': seq<nat>, backoff': nat, streamWaits': seq<nat>)
    requires branch in {Migrate, AwaitStream, Conflict} && Paced(conflictWaits, backoff, streamWaits) && attempt > 0
    ensures Paced(conflictWaits', backoff', streamWaits')
    ensures deletes' == deletes + Count(branch == Migrate)
    ensures attempt' == attempt + Count(branch != AwaitStream)
    ensures |conflictWaits'| == |conflictWaits| + Count(branch == Conflict)
    ensures |streamWaits'| == |streamWaits| + Count(branch == AwaitStream)
  {
    deletes', attempt', conflictWaits', backoff', streamWaits' := deletes, attempt, conflictWaits, backoff, streamWaits;
    match branch {
      case Migrate =>
        deletes' := deletes + 1;
      case AwaitStream =>
        attempt' := attempt' - 1;
        streamWaits' := streamWaits + [MAX_BACKOFF];
      case Conflict =>
        conflictWaits', backoff' := Conflicted(conflictWaits, backoff);
    }
    attempt' := attempt' + 1;
  }

  /** Sleep for the backoff and double it while it is below the maximum. */
  method Conflicted(waits: seq<nat>, backoff: nat) returns (longer: seq<nat>, next: nat)
    requires waits == Backoffs(|waits|) && backoff == Backoff(|waits|)
    ensures longer == Backoffs(|waits| + 1) && |longer| == |waits| + 1 && next == Backoff(|longer|)
  {
    BackoffsGrow(|waits|);
    longer, next := waits + [backoff], backoff;
    if backoff < MAX_BACKOFF {
      next := backoff * 2;
    }
  }

  lemma BackoffsGrow(n: nat)
    ensures Backoffs(n + 1) == Backoffs(n) + [Backoff(n)]
  {
  }

  lemma BackoffsBound(n: nat)
    requires n <= ATTEMPTS
    ensures Sum(Backoffs(n)) <= 1773
  {
    BackoffsSum(n);
  }

  /** SubscribeWithRebind: only bind conflicts are retried. */
  method SubscribeWithRebind(answers: seq<Answer>)
    returns (outcome: Outcome, calls: nat, waits: seq<nat>)
    ensures calls <= |answers| && calls <= ATTEMPTS
    ensures waits == Backoffs(|waits|) && Sum(waits) <= 1773
    ensures forall i | 0 <= i < |waits| :: i < |answers| && Says(answers[i], "already bound")
    ensures outcome == GaveUp <==> |waits| == 40
    ensures outcome == Waiting ==> |waits| == |answers|
    ensures outcome == Subscribed ==> |waits| < |answers| && answers[|waits|].Bound?
    ensures outcome == Abandoned ==>
      |waits| < |answers| && answers[|waits|].Error? && !Says(answers[|waits|], "already bound")
  {
    outcome, calls, waits := Waiting, 0, [];
    var backoff := FIRST_BACKOFF;
    for attempt := 1 to ATTEMPTS + 1
      invariant calls == attempt - 1 == |waits| <= |answers|
      invariant waits == Backoffs(|waits|) && backoff == Backoff(|waits|)
      invariant forall i | 0 <= i < |waits| :: answers[i].Error? && IsAlreadyBound(answers[i].text)
    {
      BackoffsBound(|waits|);
      if calls == |answers| {
        return Waiting, calls, waits;
      }
      var answer := answers[calls];
      calls := calls + 1;
      if answer.Bound? {
        return Subscribed, calls, waits;
      } else if !IsAlreadyBound(answer.text) {
        return Abandoned, calls, waits;
      }
      waits, backoff := Conflicted(waits, backoff);
    }
    BackoffsBound(|waits|);
    outcome := GaveUp;
  }

  // ---------------------------------------------------------------- what the outcome depends on

  /** Erasing once is enough, so a run on the erased answers ends the same way. */
  lemma {:induction false} EraseIsIdempotent(answers: seq<Answer>, deleted: bool, stream: string)
    ensures Erase(Erase(answers, deleted, stream), deleted, stream) == Erase(answers, deleted, stream)
  {
    if answers != [] {
      var branch := BranchOf(answers[0], deleted, stream);
      EraseIsIdempotent(answers[1..], deleted || branch == Migrate, stream);
      if branch != AwaitStream {
        var erased := Erase(answers, deleted, stream);
        assert erased[1..] == Erase(answers[1..], deleted || branch == Migrate, stream);
      }
    }
  }

  /** An answer that leaves the loop undecided. */
  predicate Retryable(a: Answer) {
    Says(a, "already bound") || Says(a, "without a deliver group")
  }

  /** The verdict read off as a position: it gives up exactly when the first forty erased answers are
      all retryable, and otherwise ends at the first answer that is not. */
  lemma {:induction false} VerdictIsFirstDecision(answers: seq<Answer>, attempts: nat)
    ensures Verdict(answers, attempts) == GaveUp <==>
      attempts <= |answers| && forall i | 0 <= i < attempts :: Retryable(answers[i])
    ensures Verdict(answers, attempts) == Subscribed <==>
      exists i :: 0 <= i < attempts && i < |answers| && answers[i].Bound?
        && forall j | 0 <= j < i :: Retryable(answers[j])
  {
    if attempts > 0 && answers != [] && Retryable(answers[0]) {
      VerdictIsFirstDecision(answers[1..], attempts - 1);
      if attempts <= |answers| && forall i | 0 <= i < attempts - 1 :: Retryable(answers[1..][i]) {
        forall i | 0 <= i < attempts ensures Retryable(answers[i]) {
          assert i > 0 ==> answers[i] == answers[1..][i - 1];
        }
      }
      if Verdict(answers, attempts) == Subscribed {
        var i :| 0 <= i < attempts - 1 && i < |answers[1..]| && answers[1..][i].Bound?
          && forall j | 0 <= j < i :: Retryable(answers[1..][j]);
        forall j | 0 <= j < i + 1 ensures Retryable(answers[j]) {
          assert j > 0 ==> answers[j] == answers[1..][j - 1];
        }
        assert answers[i + 1].Bound?;
      }
      forall i | 0 <= i < attempts && i < |answers| && answers[i].Bound?
          && forall j | 0 <= j < i :: Retryable(answers[j])
        ensures Verdict(answers, attempts) == Subscribed
      {
        assert answers[1..][i - 1].Bound?;
        assert forall j | 0 <= j < i - 1 :: answers[1..][j] == answers[j + 1];
      }
    }
  }
}
