/** Low-balance alerts (balancealert/balancealert.go): a movement rule that agrees with a level rule. */
module Balance {
  import opened Common

  /** "" is the absence of a level. */
  datatype Level = NoLevel | Low | Empty

  function Text(l: Level): string {
    match l
    case NoLevel => ""
    case Low => "low"
    case Empty => "empty"
  }

  function Severity(l: Level): nat {
    match l
    case NoLevel => 0
    case Low => 1
    case Empty => 2
  }

  const DEFAULT_LOW_RATIO := 0.20

  function Ratio(ratio: real): (r: real)
    ensures 0.0 < r < 1.0
  {
    if ratio <= 0.0 || ratio >= 1.0 then DEFAULT_LOW_RATIO else ratio
  }

  function LowMark(total: real, ratio: real): real {
    if total <= 0.0 then 0.0 else total * Ratio(ratio)
  }

  /** The mark of a positive total lies strictly inside it, whatever ratio is asked for, and a ratio
      outside (0,1) means a fifth. */
  lemma MarkIsInside(total: real, ratio: real)
    ensures total > 0.0 ==> 0.0 < LowMark(total, ratio) < total
    ensures total <= 0.0 ==> LowMark(total, ratio) == 0.0
    ensures !(0.0 < ratio < 1.0) ==> 5.0 * LowMark(total, ratio) == if total > 0.0 then total else 0.0
    ensures 0.0 < ratio < 1.0 && total > 0.0 ==> LowMark(total, ratio) / total == ratio
  {
    if total > 0.0 {
      var r := Ratio(ratio);
      assert total * r > 0.0 && total * (1.0 - r) > 0.0;
      assert total * r + total * (1.0 - r) == total;
    }
  }

  function Crossed(before: real, after: real, lowMark: real): Level {
    if after >= before then NoLevel
    else if before > 0.0 && after <= 0.0 then Empty
    else if lowMark > 0.0 && before > lowMark && after <= lowMark then Low
    else NoLevel
  }

  function LevelOf(remaining: real, lowMark: real): Level {
    if remaining <= 0.0 then Empty
    else if lowMark > 0.0 && remaining <= lowMark then Low
    else NoLevel
  }

  /** A movement crosses exactly when the level after it is worse, and it reports that level. */
  lemma CrossedMeansWorse(before: real, after: real, mark: real)
    ensures Crossed(before, after, mark) ==
      if Severity(LevelOf(after, mark)) > Severity(LevelOf(before, mark)) then LevelOf(after, mark) else NoLevel
  {
  }

  // ---------------------------------------------------------------- whole runs

  /** The balance before the last movement of a run. */
  function Before(start: real, run: seq<real>): real
    requires run != []
  {
    if |run| == 1 then start else run[|run| - 2]
  }

  /** The levels the spend path reports while the balance takes the values of `run`. */
  function Crossings(start: real, run: seq<real>, mark: real): seq<Level> {
    if run == [] then []
    else
      var seen, level := Crossings(start, run[..|run| - 1], mark), Crossed(Before(start, run), run[|run| - 1], mark);
      if level == NoLevel then seen else seen + [level]
  }

  /** The alerts a poller raises when it reads the balance after every movement: each level once. */
  function Polled(run: seq<real>, mark: real): seq<Level> {
    if run == [] then []
    else
      var seen, level := Polled(run[..|run| - 1], mark), LevelOf(run[|run| - 1], mark);
      if level == NoLevel || level in seen then seen else seen + [level]
  }

  /** Every movement is a spend. */
  ghost predicate Spends(start: real, run: seq<real>) {
    run == [] || (Spends(start, run[..|run| - 1]) && run[|run| - 1] <= Before(start, run))
  }

  function Final(start: real, run: seq<real>): real {
    if run == [] then start else run[|run| - 1]
  }

  /** Over spends each level is reported at most once, low never after empty: the reports are one of
      four sequences, ending with the level at the end, and none when the level has not changed. */
  lemma {:induction false} CrossingsOfSpends(start: real, run: seq<real>, mark: real)
    requires Spends(start, run)
    ensures Severity(LevelOf(start, mark)) <= Severity(LevelOf(Final(start, run), mark))
    ensures var crossed := Crossings(start, run, mark);
      && crossed in {[], [Low], [Empty], [Low, Empty]}
      && (crossed == [] <==> LevelOf(Final(start, run), mark) == LevelOf(start, mark))
      && (crossed != [] ==> crossed[|crossed| - 1] == LevelOf(Final(start, run), mark))
      && (LevelOf(start, mark) != NoLevel ==> Low !in crossed)
  {
    if run != [] {
      var front := run[..|run| - 1];
      CrossingsOfSpends(start, front, mark);
      CrossedMeansWorse(Before(start, run), run[|run| - 1], mark);
      assert Before(start, run) == Final(start, front);
      assert [] + [Low] == [Low] && [] + [Empty] == [Empty] && [Low] + [Empty] == [Low, Empty];
    }
  }

  /** From above the mark, the spend path and the poller raise the same alerts in the same order. */
  lemma {:induction false} PolledIsCrossings(start: real, run: seq<real>, mark: real)
    requires Spends(start, run) && LevelOf(start, mark) == NoLevel
    ensures Polled(run, mark) == Crossings(start, run, mark)
  {
    if run != [] {
      var front := run[..|run| - 1];
      PolledIsCrossings(start, front, mark);
      CrossingsOfSpends(start, front, mark);
      CrossedMeansWorse(Before(start, run), run[|run| - 1], mark);
      assert Before(start, run) == Final(start, front);
    }
  }

  /** The two paths raise the same alerts exactly when the run does not begin by staying at a level
      that was already low or empty before it. */
  lemma PathsAgreeExactlyWhen(start: real, run: seq<real>, mark: real)
    requires Spends(start, run)
    ensures Polled(run, mark) == Crossings(start, run, mark) <==>
      run == [] || LevelOf(start, mark) == NoLevel || LevelOf(run[0], mark) != LevelOf(start, mark)
  {
    if LevelOf(start, mark) == NoLevel {
      PolledIsCrossings(start, run, mark);
    } else if run != [] {
      FirstIsSpend(start, run);
      CrossedMeansWorse(start, run[0], mark);
      if LevelOf(start, mark) != LevelOf(run[0], mark) {
        EmptyStays(start, run, mark);
      } else {
        CrossingsOfSpends(start, run, mark);
        PolledBegins(start, run, mark);
        if LevelOf(start, mark) == Empty {
          EmptyIsTheWorst(start, run, mark);
        }
      }
    }
  }

  lemma {:induction false} FirstIsSpend(start: real, run: seq<real>)
    requires run != [] && Spends(start, run)
    ensures run[0] <= start
  {
    if |run| > 1 {
      FirstIsSpend(start, run[..|run| - 1]);
    }
  }

  lemma EmptyIsTheWorst(start: real, run: seq<real>, mark: real)
    requires Spends(start, run) && LevelOf(start, mark) == Empty
    ensures Crossings(start, run, mark) == []
  {
    CrossingsOfSpends(start, run, mark);
  }

  lemma {:induction false} PolledBegins(start: real, run: seq<real>, mark: real)
    requires run != [] && Spends(start, run) && LevelOf(run[0], mark) != NoLevel
    ensures Polled(run, mark) != [] && Polled(run, mark)[0] == LevelOf(run[0], mark)
  {
    if |run| == 1 {
      assert run[..0] == [];
    } else {
      PolledBegins(start, run[..|run| - 1], mark);
    }
  }

  /** A low balance whose first spend empties it is reported as empty by both paths. */
  lemma {:induction false} EmptyStays(start: real, run: seq<real>, mark: real)
    requires run != [] && Spends(start, run)
    requires LevelOf(start, mark) == Low && LevelOf(run[0], mark) == Empty
    ensures Polled(run, mark) == [Empty] && Crossings(start, run, mark) == [Empty]
    ensures LevelOf(run[|run| - 1], mark) == Empty
  {
    if |run| == 1 {
      assert run[..0] == [];
      CrossedMeansWorse(start, run[0], mark);
    } else {
      EmptyStays(start, run[..|run| - 1], mark);
      CrossedMeansWorse(Before(start, run), run[|run| - 1], mark);
    }
  }
}
