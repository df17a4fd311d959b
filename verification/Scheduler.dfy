/** The do/while loop that drives every collector: three deadlines on one clock, and the shutdown latch.
    Times are system_clock nanoseconds; the clock readings of each pass are arbitrary inputs. */
module Scheduler {
  import opened Clock

  datatype Deadlines = Deadlines(nextRun: int, nextFive: int, nextSixty: int)

  /** Which collections a pass runs besides the one-second one. */
  datatype Flags = Flags(five: bool, sixty: bool)

  /** What one pass observes: the clock at its top and at its bottom, and whether the signal handler
      calls kill() during the pass or its wait. */
  datatype Pass = Pass(start: int, end: int, kill: bool)

  function FlagsOf(d: Deadlines, start: int): Flags {
    Flags(start >= d.nextFive, start >= d.nextSixty)
  }

  function Advance(d: Deadlines, f: Flags): Deadlines {
    Deadlines(d.nextRun + SECOND,
              if f.five then d.nextFive + 5 * SECOND else d.nextFive,
              if f.sixty then d.nextSixty + 60 * SECOND else d.nextSixty)
  }

  /** The deadlines after n passes of an agent that set them at t0. */
  function At(t0: int, r: seq<Pass>, n: nat): Deadlines
    requires n <= |r|
    decreases n, 0
  {
    if n == 0 then Deadlines(t0, t0 + 5 * SECOND, t0 + 60 * SECOND)
    else Advance(At(t0, r, n - 1), FlagsAt(t0, r, n - 1))
  }

  function FlagsAt(t0: int, r: seq<Pass>, i: nat): Flags
    requires i < |r|
    decreases i, 1
  {
    FlagsOf(At(t0, r, i), r[i].start)
  }

  lemma OnePassAdvances(t0: int, r: seq<Pass>, n: nat)
    requires n < |r|
    ensures FlagsAt(t0, r, n) == FlagsOf(At(t0, r, n), r[n].start)
    ensures At(t0, r, n + 1) == Advance(At(t0, r, n), FlagsAt(t0, r, n))
  {
  }

  /** How many of the first n passes ran the five-second collection. */
  function Fives(t0: int, r: seq<Pass>, n: nat): nat
    requires n <= |r|
  {
    if n == 0 then 0 else Fives(t0, r, n - 1) + if FlagsAt(t0, r, n - 1).five then 1 else 0
  }

  /** How many of the first n passes ran the sixty-second collection. */
  function Sixties(t0: int, r: seq<Pass>, n: nat): nat
    requires n <= |r|
  {
    if n == 0 then 0 else Sixties(t0, r, n - 1) + if FlagsAt(t0, r, n - 1).sixty then 1 else 0
  }

  /** The deadlines are a function of how often each collection ran. */
  lemma {:induction false} DeadlinesCountCollections(t0: int, r: seq<Pass>, n: nat)
    requires n <= |r|
    ensures At(t0, r, n) == Deadlines(t0 + n * SECOND,
                                      t0 + 5 * SECOND * (Fives(t0, r, n) + 1),
                                      t0 + 60 * SECOND * (Sixties(t0, r, n) + 1))
  {
    hide FlagsAt;
    if n > 0 {
      DeadlinesCountCollections(t0, r, n - 1);
    }
  }

  /** A pass collects when it starts at or after the deadline that the collections so far have set. */
  lemma CollectsIffDue(t0: int, r: seq<Pass>, i: nat)
    requires i < |r|
    ensures FlagsAt(t0, r, i).five <==> r[i].start >= t0 + 5_000_000_000 * (Fives(t0, r, i) + 1)
    ensures FlagsAt(t0, r, i).sixty <==> r[i].start >= t0 + 60_000_000_000 * (Sixties(t0, r, i) + 1)
  {
    hide At, Fives, Sixties;
    DeadlinesCountCollections(t0, r, i);
    OnePassAdvances(t0, r, i);
  }

  /** For any clock readings, stalls and backward jumps included, the five-second deadline never
      overtakes the sixty-second one. */
  lemma {:induction false} FiveNeverBehindSixty(t0: int, r: seq<Pass>, n: nat)
    requires n <= |r|
    ensures At(t0, r, n).nextFive <= At(t0, r, n).nextSixty
    ensures Fives(t0, r, n) <= 12 * Sixties(t0, r, n) + 11
  {
    hide At;
    DeadlinesCountCollections(t0, r, n);
    if n > 0 {
      FiveNeverBehindSixty(t0, r, n - 1);
      DeadlinesCountCollections(t0, r, n - 1);
      OneMorePass(t0, r, n - 1);
    }
  }

  lemma OnePassCounts(t0: int, r: seq<Pass>, n: nat)
    requires n < |r|
    ensures Fives(t0, r, n + 1) == Fives(t0, r, n) + if FlagsAt(t0, r, n).five then 1 else 0
    ensures Sixties(t0, r, n + 1) == Sixties(t0, r, n) + if FlagsAt(t0, r, n).sixty then 1 else 0
  {
    hide FlagsAt;
  }

  /** A five-second deadline that has caught up with the sixty-second one is due no earlier than it. */
  lemma OneMorePass(t0: int, r: seq<Pass>, n: nat)
    requires n < |r| && Fives(t0, r, n) <= 12 * Sixties(t0, r, n) + 11
    requires At(t0, r, n).nextFive == t0 + 5 * SECOND * (Fives(t0, r, n) + 1)
    requires At(t0, r, n).nextSixty == t0 + 60 * SECOND * (Sixties(t0, r, n) + 1)
    ensures Fives(t0, r, n + 1) <= 12 * Sixties(t0, r, n + 1) + 11
  {
    hide At, Fives, Sixties;
    var f := FlagsAt(t0, r, n);
    assert Fives(t0, r, n) == 12 * Sixties(t0, r, n) + 11 ==> f.sixty == f.five;
    OnePassCounts(t0, r, n);
  }

  /** So every sixty-second pass is a five-second pass too. */
  lemma SixtyPassIsFivePass(t0: int, r: seq<Pass>, i: nat)
    requires i < |r|
    ensures FlagsAt(t0, r, i).sixty ==> FlagsAt(t0, r, i).five
  {
    FiveNeverBehindSixty(t0, r, i);
  }

  /** How many five-second deadlines are still due before the sixty-second one. */
  function Lag(d: Deadlines): int {
    (d.nextSixty - d.nextFive) / (5 * SECOND)
  }

  lemma LagCounts(t0: int, r: seq<Pass>, n: nat)
    requires n <= |r|
    ensures Lag(At(t0, r, n)) == 12 * Sixties(t0, r, n) + 11 - Fives(t0, r, n) >= 0
  {
    hide At, Fives, Sixties;
    DeadlinesCountCollections(t0, r, n);
    FiveNeverBehindSixty(t0, r, n);
    var k := 12 * Sixties(t0, r, n) + 11 - Fives(t0, r, n);
    assert At(t0, r, n).nextSixty - At(t0, r, n).nextFive == k * (5 * SECOND);
  }

  /** Two consecutive sixty-second passes p < q hold a window of five-second collections between them;
      for any clock readings it holds exactly twelve if and only if both found the same lag. */
  lemma WindowHoldsTwelveIff(t0: int, r: seq<Pass>, p: nat, q: nat)
    requires p < q < |r|
    requires FlagsAt(t0, r, p).sixty && FlagsAt(t0, r, q).sixty
    requires Sixties(t0, r, q) == Sixties(t0, r, p) + 1
    ensures Fives(t0, r, q + 1) - Fives(t0, r, p + 1) == 12 + Lag(At(t0, r, p)) - Lag(At(t0, r, q))
    ensures Fives(t0, r, q + 1) - Fives(t0, r, p + 1) == 12 <==> Lag(At(t0, r, p)) == Lag(At(t0, r, q))
  {
    LagCounts(t0, r, p);
    LagCounts(t0, r, q);
    SixtyPassIsFivePass(t0, r, p);
    SixtyPassIsFivePass(t0, r, q);
  }

  /** A clock that never goes back, a first pass within 5 s, and passes at most 5 s apart. */
  ghost predicate Steady(t0: int, r: seq<Pass>) {
    && (|r| > 0 ==> r[0].start <= t0 + 5 * SECOND)
    && forall i :: 0 < i < |r| ==> r[i - 1].start <= r[i].start <= r[i - 1].start + 5 * SECOND
  }

  lemma {:induction false} SteadyFiveIsNeverLate(t0: int, r: seq<Pass>, i: nat)
    requires Steady(t0, r) && i < |r|
    ensures r[i].start < At(t0, r, i).nextFive + 5 * SECOND
    ensures r[i].start < At(t0, r, i + 1).nextFive
  {
    if i > 0 {
      SteadyFiveIsNeverLate(t0, r, i - 1);
    }
  }

  /** On a steady clock every sixty-second pass runs with no lag: the five-second collection it makes
      is number 12 j, so each window holds twelve and the first window ends with the twelfth. */
  lemma SteadyWindowsHoldTwelve(t0: int, r: seq<Pass>, i: nat)
    requires Steady(t0, r) && i < |r| && FlagsAt(t0, r, i).sixty
    ensures Lag(At(t0, r, i)) == 0
    ensures Fives(t0, r, i + 1) == 12 * Sixties(t0, r, i + 1)
  {
    hide At, Fives, Sixties, Steady;
    SteadyFiveIsNeverLate(t0, r, i);
    LagCounts(t0, r, i);
    DeadlinesCountCollections(t0, r, i);
    SixtyPassIsFivePass(t0, r, i);
    OnePassCounts(t0, r, i);
  }

  /** A stall breaks it: one pass 119 s late, then prompt catch-up passes, then a pass at 120 s. */
  function StalledRun(t0: int): (r: seq<Pass>)
    ensures |r| == 24 && forall i :: 0 <= i < |r| ==> r[i] == CatchUpPass(t0, i)
  {
    seq(24, i => CatchUpPass(t0, i))
  }

  /** Pass i of the stalled run: the catch-up passes are 40 ms apart. */
  function CatchUpPass(t0: int, i: int): Pass {
    var clock := if i < 23 then t0 + 119 * SECOND + i * 40_000_000 else t0 + 120 * SECOND;
    Pass(clock, clock, false)
  }

  lemma {:induction false} StalledRunCatchesUp(t0: int, n: nat)
    requires 1 <= n <= 23
    ensures Fives(t0, StalledRun(t0), n) == n && Sixties(t0, StalledRun(t0), n) == 1
  {
    hide At, StalledRun;
    var r := StalledRun(t0);
    DeadlinesCountCollections(t0, r, n - 1);
    if n > 1 {
      StalledRunCatchesUp(t0, n - 1);
    }
  }

  lemma StalledWindowHoldsTwentyThree(t0: int)
    ensures var r := StalledRun(t0); var last := |r| - 1;
            && FlagsAt(t0, r, 0).sixty && FlagsAt(t0, r, last).sixty && Sixties(t0, r, last) == Sixties(t0, r, 0) + 1
            && Fives(t0, r, |r|) - Fives(t0, r, 1) == 23
  {
    hide At, StalledRun;
    var r := StalledRun(t0);
    var last := |r| - 1;
    DeadlinesCountCollections(t0, r, 0);
    StalledRunCatchesUp(t0, 1);
    StalledRunCatchesUp(t0, last);
    DeadlinesCountCollections(t0, r, last);
  }

  /** How long pass i asks to sleep. */
  function SleepAt(t0: int, r: seq<Pass>, i: nat): int
    requires i < |r|
  {
    At(t0, r, i + 1).nextRun - r[i].end
  }

  /** The latch is never reset, so it is set once any pass so far was killed. */
  predicate Latched(r: seq<Pass>, i: nat)
    requires i < |r|
  {
    exists j :: 0 <= j <= i && r[j].kill
  }

  /** The loop leaves after pass i: it slept, and the latch was set when the wait ended. */
  predicate Exits(t0: int, r: seq<Pass>, i: nat)
    requires i < |r|
  {
    SleepAt(t0, r, i) > 0 && Latched(r, i)
  }

  /** For any clock readings: the loop leaves after pass i if and only if the latch is set by then and the
      pass ended before its own second did. A loop that stays a second behind never leaves. */
  lemma ExitsIff(t0: int, r: seq<Pass>, i: nat)
    requires i < |r|
    ensures Exits(t0, r, i) <==> Latched(r, i) && r[i].end < t0 + (i + 1) * SECOND
  {
    hide At;
    DeadlinesCountCollections(t0, r, i + 1);
  }

  /** A clock that never goes back and waits that last at least as long as asked. */
  ghost predicate Faithful(t0: int, r: seq<Pass>) {
    && (|r| > 0 ==> t0 <= r[0].start)
    && (forall i :: 0 <= i < |r| ==> r[i].start <= r[i].end)
    && forall i :: 0 < i < |r| ==> r[i - 1].end <= r[i].start && r[i - 1].end + SleepAt(t0, r, i - 1) <= r[i].start
  }

  /** The stalled run is one a real clock can show. */
  lemma StalledRunIsFaithful(t0: int)
    ensures Faithful(t0, StalledRun(t0))
  {
    hide At, StalledRun;
    var r := StalledRun(t0);
    forall i | 0 <= i < |r| ensures SleepAt(t0, r, i) == t0 + (i + 1) * SECOND - r[i].end {
      DeadlinesCountCollections(t0, r, i + 1);
    }
  }

  /** Pass i never starts before t0 + i seconds, and it has to wait exactly when i whole seconds have
      gone by at its end: every missed second is made up by a pass, and none is made twice. */
  lemma NoPassEarlyNoneLost(t0: int, r: seq<Pass>, i: nat)
    requires Faithful(t0, r) && i < |r|
    ensures t0 + i * SECOND <= r[i].start
    ensures SleepAt(t0, r, i) > 0 <==> i == (r[i].end - t0) / SECOND
  {
    DeadlinesCountCollections(t0, r, i);
    DeadlinesCountCollections(t0, r, i + 1);
    if i > 0 {
      assert r[i - 1].end + SleepAt(t0, r, i - 1) <= r[i].start;
      assert SleepAt(t0, r, i - 1) == At(t0, r, i).nextRun - r[i - 1].end;
    }
  }

  /** How far the loop has fallen behind its one-second deadline at the end of pass i. */
  function Backlog(t0: int, r: seq<Pass>, i: nat): int
    requires i < |r|
  {
    -SleepAt(t0, r, i)
  }

  /** The latch is set by pass k, and from there on a pass made without a wait is done within d. */
  ghost predicate KilledWithPromptPasses(t0: int, r: seq<Pass>, k: nat, d: int)
    requires k < |r|
  {
    && Latched(r, k)
    && forall i :: k < i < |r| && Backlog(t0, r, i - 1) >= 0 ==> r[i].end <= r[i - 1].end + d
  }

  /** After kill(), passes shorter than a second wear the backlog down by at least the difference each,
      so a run long enough to do so contains the pass that exits. */
  lemma {:induction false} KillStopsPromptLoop(t0: int, r: seq<Pass>, k: nat, d: int) returns (n: nat)
    requires k < |r| && d < SECOND && KilledWithPromptPasses(t0, r, k, d)
    requires Backlog(t0, r, k) < (|r| - 1 - k) * (SECOND - d)
    ensures k <= n < |r| && Exits(t0, r, n)
    ensures n == k || (n - k - 1) * (SECOND - d) <= Backlog(t0, r, k)
    decreases |r| - k
  {
    hide At;
    DeadlinesCountCollections(t0, r, k + 1);
    if Backlog(t0, r, k) < 0 {
      n := k;
    } else {
      DeadlinesCountCollections(t0, r, k + 2);
      assert Backlog(t0, r, k + 1) <= Backlog(t0, r, k) - (SECOND - d);
      OneFewer(|r| - 1 - k, SECOND - d);
      n := KillStopsPromptLoop(t0, r, k + 1, d);
      OneFewer(n - k - 1, SECOND - d);
    }
  }

  lemma OneFewer(n: int, c: int)
    ensures (n - 1) * c == n * c - c
    ensures n == 0 ==> n * c == 0
  {
  }

  /** Passes that each take a second or more never look at the latch: kill() goes unseen forever. */
  lemma {:induction false} SlowPassesNeverExit(t0: int, r: seq<Pass>, i: nat)
    requires i < |r| && r[0].end >= t0 + SECOND
    requires forall j :: 0 < j < |r| ==> r[j].end >= r[j - 1].end + SECOND
    ensures r[i].end >= t0 + (i + 1) * SECOND && !Exits(t0, r, i)
  {
    DeadlinesCountCollections(t0, r, i + 1);
    if i > 0 {
      SlowPassesNeverExit(t0, r, i - 1);
    }
  }

  /** The shutdown latch: set by the signal handler, never reset. */
  class Terminator {
    var terminate: bool

    constructor ()
      ensures !terminate
    {
      terminate := false;
    }

    method Kill()
      modifies this
      ensures terminate
    {
      terminate := true;
    }

    /** Sleeps for `time` unless killed; `kill` says whether the handler runs before the wait ends.
        Returns false only when it slept and saw the latch. */
    method WaitFor(time: int, kill: bool) returns (again: bool)
      modifies this
      ensures terminate == (old(terminate) || kill)
      ensures !again <==> time > 0 && terminate
    {
      if kill {
        Kill();
      }
      if time <= 0 {
        return true;
      }
      again := !terminate;
    }
  }
}
