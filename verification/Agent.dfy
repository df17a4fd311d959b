/** The scheduler driving the per-core window: what the agent as a whole publishes every sixty seconds. */
module Agent {
  import opened Text
  import opened Clock
  import opened CpuShares
  import opened AggregateGauges
  import opened CoreUtilization
  import opened CoreWindow
  import opened Scheduler

  /** The five-second collections made in the first n passes; files[i] is /proc/stat as pass i reads it. */
  ghost function Collections(t0: int, r: seq<Pass>, files: seq<seq<Line>>, n: nat): (cs: seq<Collection>)
    requires n <= |r| == |files|
    ensures |cs| == Fives(t0, r, n) && WellFormed(cs)
  {
    if n == 0 then []
    else
      var f := FlagsAt(t0, r, n - 1);
      StatLinesWellSized(files[n - 1]);
      Collections(t0, r, files, n - 1) + if f.five then [Collection(StatLines(files[n - 1]), f.sixty)] else []
  }

  lemma StatLinesWellSized(stat: seq<Line>)
    ensures WellSized(StatLines(stat))
  {
  }

  lemma {:induction false} AfterPrefix(cs: seq<Collection>, more: seq<Collection>, n: nat)
    requires WellFormed(cs) && WellFormed(cs + more) && n <= |cs|
    ensures After(cs + more, n) == After(cs, n)
  {
    hide Collect;
    if n > 0 {
      AfterPrefix(cs, more, n - 1);
      assert (cs + more)[n - 1] == cs[n - 1];
    }
  }

  ghost function StateAt(t0: int, r: seq<Pass>, files: seq<seq<Line>>, n: nat): CoreState
    requires n <= |r| == |files|
  {
    After(Collections(t0, r, files, n), Fives(t0, r, n))
  }

  lemma OnePass(t0: int, r: seq<Pass>, files: seq<seq<Line>>, n: nat)
    requires n < |r| == |files|
    ensures WellSized(StatLines(files[n]))
    ensures var f := FlagsAt(t0, r, n); var s := StateAt(t0, r, files, n);
            StateAt(t0, r, files, n + 1) == if f.five then Collect(s, StatLines(files[n]), f.sixty) else s
  {
    hide Collect, StatLines;
    StatLinesWellSized(files[n]);
    if FlagsAt(t0, r, n).five {
      var cs := Collections(t0, r, files, n);
      var more := [Collection(StatLines(files[n]), FlagsAt(t0, r, n).sixty)];
      assert Collections(t0, r, files, n + 1) == cs + more;
      AfterPrefix(cs, more, |cs|);
      assert (cs + more)[|cs|] == more[0];
      assert After(cs + more, |cs| + 1) == Collect(After(cs + more, |cs|), more[0].lines, more[0].sixty);
    } else {
      assert Collections(t0, r, files, n + 1) == Collections(t0, r, files, n);
    }
  }

  lemma InitialState(t0: int, r: seq<Pass>, files: seq<seq<Line>>)
    requires |r| == |files|
    ensures StateAt(t0, r, files, 0) == INITIAL
    ensures At(t0, r, 0) == Deadlines(t0, t0 + 5 * SECOND, t0 + 60 * SECOND) && !KilledBefore(r, 0)
  {
  }

  // ---------- the gauges the same loop sets ----------

  /** The aggregate lines of the first n passes: of every pass whose file has cpu lines, or of the
      sixty-second ones among them. */
  ghost function AggregateLines(t0: int, r: seq<Pass>, files: seq<seq<Line>>, n: nat, sixtyOnly: bool)
    : (lines: seq<Line>)
    requires n <= |r| == |files|
    ensures AllSized(lines)
  {
    if n == 0 then []
    else
      var cpuLines := StatLines(files[n - 1]);
      StatLinesWellSized(files[n - 1]);
      assert cpuLines != [] ==> cpuLines[0] in cpuLines;
      AggregateLines(t0, r, files, n - 1, sixtyOnly)
      + if cpuLines != [] && (sixtyOnly ==> FlagsAt(t0, r, n - 1).sixty) then [cpuLines[0]] else []
  }

  /** The number of cores the last sixty-second pass found, the aggregate line not counted. */
  ghost function CoresFound(t0: int, r: seq<Pass>, files: seq<seq<Line>>, n: nat): Option<nat>
    requires n <= |r| == |files|
  {
    if n == 0 then None
    else if FlagsAt(t0, r, n - 1).sixty && StatLines(files[n - 1]) != [] then Some(|StatLines(files[n - 1])| - 1)
    else CoresFound(t0, r, files, n - 1)
  }

  ghost function PeakAt(t0: int, r: seq<Pass>, files: seq<seq<Line>>, n: nat): GaugeState
    requires n <= |r| == |files|
  {
    var lines := AggregateLines(t0, r, files, n, false);
    GaugeAfter(lines, |lines|)
  }

  ghost function UtilizationAt(t0: int, r: seq<Pass>, files: seq<seq<Line>>, n: nat): GaugeState
    requires n <= |r| == |files|
  {
    var lines := AggregateLines(t0, r, files, n, true);
    GaugeAfter(lines, |lines|)
  }

  lemma OnePassOfGauges(t0: int, r: seq<Pass>, files: seq<seq<Line>>, n: nat)
    requires n < |r| == |files|
    ensures StatLines(files[n]) != [] ==> |StatLines(files[n])[0]| == CPU_FIELDS
    ensures var cpuLines := StatLines(files[n]); var sixty := FlagsAt(t0, r, n).sixty;
            && PeakAt(t0, r, files, n + 1)
               == (if cpuLines == [] then PeakAt(t0, r, files, n)
                   else GaugeStep(PeakAt(t0, r, files, n), cpuLines[0]))
            && UtilizationAt(t0, r, files, n + 1)
               == (if cpuLines == [] || !sixty then UtilizationAt(t0, r, files, n)
                   else GaugeStep(UtilizationAt(t0, r, files, n), cpuLines[0]))
            && CoresFound(t0, r, files, n + 1)
               == if cpuLines == [] || !sixty then CoresFound(t0, r, files, n) else Some(|cpuLines| - 1)
  {
    hide GaugeStep, StatLines, FlagsAt, GaugeAfter;
    var cpuLines := StatLines(files[n]);
    StatLinesWellSized(files[n]);
    var every, sixties := AggregateLines(t0, r, files, n, false), AggregateLines(t0, r, files, n, true);
    assert every + [] == every && sixties + [] == sixties;
    if cpuLines != [] {
      assert cpuLines[0] in cpuLines;
      OneMoreLine(every, cpuLines[0]);
      OneMoreLine(sixties, cpuLines[0]);
    }
  }

  lemma InitialGauges(t0: int, r: seq<Pass>, files: seq<seq<Line>>)
    requires |r| == |files|
    ensures PeakAt(t0, r, files, 0) == UtilizationAt(t0, r, files, 0) == EMPTY && CoresFound(t0, r, files, 0) == None
  {
  }

  /** After n passes the peak gauges were set to the shares between consecutive readable passes, all passes
      taken, and the utilization gauges to those between consecutive readable sixty-second passes. */
  lemma GaugesHoldShares(t0: int, r: seq<Pass>, files: seq<seq<Line>>, n: nat)
    requires n <= |r| == |files|
    ensures var every := AggregateLines(t0, r, files, n, false);
            SharesBetween(PeakAt(t0, r, files, n).published, Readable(every, |every|))
    ensures var sixties := AggregateLines(t0, r, files, n, true);
            SharesBetween(UtilizationAt(t0, r, files, n).published, Readable(sixties, |sixties|))
  {
    hide GaugeAfter, Readable, SharesBetween, PairShares, AggregateLines;
    var every, sixties := AggregateLines(t0, r, files, n, false), AggregateLines(t0, r, files, n, true);
    GaugesArePairwise(every, |every|);
    GaugesArePairwise(sixties, |sixties|);
  }

  // ---------- the loop ----------

  predicate KilledBefore(r: seq<Pass>, n: nat)
    requires n <= |r|
  {
    exists j :: 0 <= j < n && r[j].kill
  }

  lemma ExitsOrNot(t0: int, r: seq<Pass>, n: nat)
    requires n < |r|
    ensures KilledBefore(r, n + 1) == (KilledBefore(r, n) || r[n].kill)
    ensures Exits(t0, r, n) <==> At(t0, r, n + 1).nextRun - r[n].end > 0 && KilledBefore(r, n + 1)
  {
    hide At;
  }

  /** The do/while loop. It makes one collection per five-second pass, in order, feeds the peak gauges on
      every pass and the others on sixty-second passes, and leaves at the first pass that sleeps with the
      latch set (or here, when the given readings end). */
  method CollectSystemMetrics(proc: Proc, runner: Terminator, t0: int, r: seq<Pass>, files: seq<seq<Line>>)
    returns (done: nat, exited: bool)
    requires |r| == |files| > 0
    requires proc.Valid() && proc.State() == INITIAL && !runner.terminate
    requires proc.peak.State() == proc.utilization.State() == EMPTY && proc.numProcessors == None
    modifies proc, proc.utilization, proc.peak, runner
    ensures proc.Valid() && 1 <= done <= |r|
    ensures proc.State() == StateAt(t0, r, files, done)
    ensures proc.peak.State() == PeakAt(t0, r, files, done)
    ensures proc.utilization.State() == UtilizationAt(t0, r, files, done)
    ensures proc.numProcessors == CoresFound(t0, r, files, done)
    ensures forall i :: 0 <= i < done ==> (Exits(t0, r, i) <==> exited && i == done - 1)
    ensures exited || done == |r|
  {
    hide Collect, StatLines, StateAt, At, FlagsAt, Exits, KilledBefore, GaugeStep, PeakAt, UtilizationAt, CoresFound;
    InitialState(t0, r, files);
    InitialGauges(t0, r, files);
    var nextRun, nextFive, nextSixty := t0, t0 + 5 * SECOND, t0 + 60 * SECOND;
    done, exited := 0, false;
    while true
      invariant 0 <= done < |r| && !exited && proc.Valid()
      invariant Deadlines(nextRun, nextFive, nextSixty) == At(t0, r, done)
      invariant runner.terminate == KilledBefore(r, done)
      invariant proc.State() == StateAt(t0, r, files, done)
      invariant proc.peak.State() == PeakAt(t0, r, files, done)
      invariant proc.utilization.State() == UtilizationAt(t0, r, files, done)
      invariant proc.numProcessors == CoresFound(t0, r, files, done)
      invariant forall i :: 0 <= i < done ==> !Exits(t0, r, i)
      decreases |r| - done
    {
      var five := r[done].start >= nextFive;
      var sixty := r[done].start >= nextSixty;
      OnePass(t0, r, files, done);
      OnePassAdvances(t0, r, done);
      OnePassOfGauges(t0, r, files, done);
      proc.CpuStats(files[done], five, sixty);
      if five {
        nextFive := nextFive + 5 * SECOND;
      }
      if sixty {
        nextSixty := nextSixty + 60 * SECOND;
      }
      nextRun := nextRun + SECOND;
      var timeToSleep := nextRun - r[done].end;
      var again := runner.WaitFor(timeToSleep, r[done].kill);
      ExitsOrNot(t0, r, done);
      done := done + 1;
      exited := !again;
      if exited || done == |r| {
        return;
      }
    }
  }

  // ---------- which collection a pass makes ----------

  lemma {:induction false} CountsGrow(t0: int, r: seq<Pass>, m: nat, n: nat)
    requires m <= n <= |r|
    ensures Fives(t0, r, m) <= Fives(t0, r, n) && Sixties(t0, r, m) <= Sixties(t0, r, n)
  {
    if m < n {
      CountsGrow(t0, r, m, n - 1);
    }
  }

  /** A five-second pass i makes collection number Fives(i). */
  lemma {:induction false} CollectionOfPass(t0: int, r: seq<Pass>, files: seq<seq<Line>>, n: nat, i: nat)
    requires i < n <= |r| == |files| && FlagsAt(t0, r, i).five
    ensures Fives(t0, r, i) < Fives(t0, r, n)
    ensures Collections(t0, r, files, n)[Fives(t0, r, i)] == Collection(StatLines(files[i]), FlagsAt(t0, r, i).sixty)
  {
    hide At, StatLines;
    CountsGrow(t0, r, i + 1, n);
    if i < n - 1 {
      CollectionOfPass(t0, r, files, n - 1, i);
    }
  }

  lemma {:induction false} PassOfCollection(t0: int, r: seq<Pass>, n: nat, x: nat) returns (i: nat)
    requires n <= |r| && x < Fives(t0, r, n)
    ensures i < n && FlagsAt(t0, r, i).five && Fives(t0, r, i) == x
  {
    hide At;
    if Fives(t0, r, n - 1) == x {
      i := n - 1;
    } else {
      i := PassOfCollection(t0, r, n - 1, x);
    }
  }

  // ---------- the published maximum, end to end ----------

  /** From pass p to pass q, every five-second pass finds exactly these cores in /proc/stat, all readable. */
  ghost predicate AllCoresRead(t0: int, r: seq<Pass>, files: seq<seq<Line>>, cores: set<string>, p: nat, q: nat)
    requires |r| == |files|
  {
    && cores != {}
    && forall i :: p <= i <= q && i < |r| && FlagsAt(t0, r, i).five ==>
        Clean(StatLines(files[i])) && forall k :: k in cores <==> Lists(StatLines(files[i]), k)
  }

  lemma UniformCollections(t0: int, r: seq<Pass>, files: seq<seq<Line>>, cores: set<string>, p: nat, q: nat)
    requires |r| == |files| && AllCoresRead(t0, r, files, cores, p, q) && p <= q < |r|
    ensures Uniform(Collections(t0, r, files, |r|), cores, Fives(t0, r, p), Fives(t0, r, q + 1))
  {
    hide At, StatLines, Clean, Lists, FlagsAt;
    var cs := Collections(t0, r, files, |r|);
    CountsGrow(t0, r, p, q + 1);
    CountsGrow(t0, r, q + 1, |r|);
    forall x | Fives(t0, r, p) <= x < Fives(t0, r, q + 1)
      ensures Clean(cs[x].lines) && forall k :: k in cores <==> Lists(cs[x].lines, k)
    {
      var i := PassOfCollection(t0, r, q + 1, x);
      if i < p {
        OnePassCounts(t0, r, i);
        CountsGrow(t0, r, i + 1, p);
      }
      CollectionOfPass(t0, r, files, |r|, i);
    }
  }

  lemma {:induction false} WindowStartIs(cs: seq<Collection>, lo: nat, n: nat)
    requires 1 <= lo <= n <= |cs| && (lo == 1 || cs[lo - 1].sixty)
    requires forall x :: lo <= x < n ==> !cs[x].sixty
    ensures WindowStart(cs, n) == lo
  {
    if lo < n {
      WindowStartIs(cs, lo, n - 1);
    }
  }

  /** The window a sixty-second pass q closes starts at the collection after the previous such pass. */
  lemma WindowOfPass(t0: int, r: seq<Pass>, files: seq<seq<Line>>, p: nat, q: nat)
    requires p < q < |r| == |files| && FlagsAt(t0, r, p).sixty && FlagsAt(t0, r, q).sixty
    requires Sixties(t0, r, q) == Sixties(t0, r, p) + 1
    ensures FlagsAt(t0, r, q).five && Fives(t0, r, p + 1) <= Fives(t0, r, q) < Fives(t0, r, |r|)
    ensures WindowStart(Collections(t0, r, files, |r|), Fives(t0, r, q)) == Fives(t0, r, p + 1)
  {
    hide At, StatLines, WindowStart, Fives, Sixties, Collections, FlagsAt;
    var cs := Collections(t0, r, files, |r|);
    SixtyPassIsFivePass(t0, r, p);
    SixtyPassIsFivePass(t0, r, q);
    OnePassCounts(t0, r, p);
    OnePassCounts(t0, r, q);
    CountsGrow(t0, r, p + 1, q);
    CollectionOfPass(t0, r, files, |r|, p);
    CollectionOfPass(t0, r, files, |r|, q);
    var lo, c := Fives(t0, r, p + 1), Fives(t0, r, q);
    forall x | lo <= x < c ensures !cs[x].sixty {
      var i := PassOfCollection(t0, r, q, x);
      if i <= p {
        CountsGrow(t0, r, i + 1, p + 1);
      } else {
        CountsGrow(t0, r, p + 1, i);
      }
      OnePassCounts(t0, r, i);
      CollectionOfPass(t0, r, files, |r|, i);
      CountsGrow(t0, r, i + 1, q);
    }
    WindowStartIs(cs, lo, c);
  }

  lemma FirstWindow(t0: int, r: seq<Pass>, files: seq<seq<Line>>, q: nat)
    requires q < |r| == |files| && Sixties(t0, r, q) == 0 && 1 <= Fives(t0, r, q) < Fives(t0, r, |r|)
    ensures WindowStart(Collections(t0, r, files, |r|), Fives(t0, r, q)) == 1
  {
    hide At, StatLines, WindowStart;
    var cs := Collections(t0, r, files, |r|);
    forall x | 1 <= x < Fives(t0, r, q) ensures !cs[x].sixty {
      var i := PassOfCollection(t0, r, q, x);
      CollectionOfPass(t0, r, files, |r|, i);
      CountsGrow(t0, r, i + 1, q);
    }
    WindowStartIs(cs, 1, Fives(t0, r, q));
  }

  /** The collections of the window that pass q closes, with the one before them: those of the passes from
      the previous sixty-second pass p to q. */
  lemma WindowIsUniform(t0: int, r: seq<Pass>, files: seq<seq<Line>>, cores: set<string>, p: nat, q: nat)
    requires |r| == |files| && AllCoresRead(t0, r, files, cores, p, q) && p < q < |r|
    requires FlagsAt(t0, r, p).sixty && FlagsAt(t0, r, q).sixty && Sixties(t0, r, q) == Sixties(t0, r, p) + 1
    ensures var cs := Collections(t0, r, files, |r|); var c := Fives(t0, r, q);
            && c < |cs| && cs[c].sixty && WindowStart(cs, c) == Fives(t0, r, p + 1) <= c
            && Uniform(cs, cores, WindowStart(cs, c) - 1, c + 1)
  {
    hide At, StatLines, WindowStart, Uniform, AllCoresRead, FlagsAt, Fives, Sixties, Collections;
    UniformCollections(t0, r, files, cores, p, q);
    WindowOfPass(t0, r, files, p, q);
    SixtyPassIsFivePass(t0, r, p);
    OnePassCounts(t0, r, p);
    OnePassCounts(t0, r, q);
    CollectionOfPass(t0, r, files, |r|, q);
  }

  /** For any clock readings, and whatever was read before: what the second and every later sixty-second
      pass publishes is the largest true mean over its window if and only if the pass found the same lag as
      the one before it (so that twelve collections lie between them), or every core was idle throughout. */
  lemma PublishedIsTheMeanIffLagKept(t0: int, r: seq<Pass>, files: seq<seq<Line>>, cores: set<string>, p: nat, q: nat)
    requires |r| == |files| && AllCoresRead(t0, r, files, cores, p, q) && p < q < |r|
    requires FlagsAt(t0, r, p).sixty && FlagsAt(t0, r, q).sixty && Sixties(t0, r, q) == Sixties(t0, r, p) + 1
    ensures PublishesOne(Collections(t0, r, files, |r|), Fives(t0, r, q))
    ensures var cs := Collections(t0, r, files, |r|); var lo := Fives(t0, r, p + 1); var c := Fives(t0, r, q);
            PublishesMean(cs, cores, lo, c)
            <==> Lag(At(t0, r, p)) == Lag(At(t0, r, q)) || AllIdle(cs, cores, lo, c + 1)
  {
    hide At, FlagsAt, Fives, Sixties, StatLines, WindowStart, Uniform, PublishesOne, PublishesMean, AllIdle, Lag,
         Collections, AllCoresRead;
    WindowIsUniform(t0, r, files, cores, p, q);
    SixtyPassIsFivePass(t0, r, q);
    OnePassCounts(t0, r, q);
    WindowHoldsTwelveIff(t0, r, p, q);
    PublishedIsTheMeanIff(Collections(t0, r, files, |r|), cores, Fives(t0, r, q));
  }

  /** On a steady clock every window from the second on is published as its largest true mean of twelve. */
  lemma SteadyAgentPublishesMeans(t0: int, r: seq<Pass>, files: seq<seq<Line>>, cores: set<string>, p: nat, q: nat)
    requires |r| == |files| && AllCoresRead(t0, r, files, cores, p, q) && Steady(t0, r) && p < q < |r|
    requires FlagsAt(t0, r, p).sixty && FlagsAt(t0, r, q).sixty && Sixties(t0, r, q) == Sixties(t0, r, p) + 1
    ensures var lo := 12 * Sixties(t0, r, q); var c := Fives(t0, r, q);
            && c + 1 - lo == 12
            && PublishesMean(Collections(t0, r, files, |r|), cores, lo, c)
  {
    hide At, PublishesMean, AllIdle, PublishesOne, Uniform, Lag, AllCoresRead, Steady, Collections;
    SteadyWindowsHoldTwelve(t0, r, p);
    SteadyWindowsHoldTwelve(t0, r, q);
    SixtyPassIsFivePass(t0, r, q);
    CountsGrow(t0, r, p + 1, q);
    PublishedIsTheMeanIffLagKept(t0, r, files, cores, p, q);
  }

  /** The first sixty-second pass q, if a collection came before it, closes a window of collections 1 .. c. */
  lemma FirstWindowIsUniform(t0: int, r: seq<Pass>, files: seq<seq<Line>>, cores: set<string>, q: nat)
    requires |r| == |files| && AllCoresRead(t0, r, files, cores, 0, q) && q < |r|
    requires FlagsAt(t0, r, q).sixty && Sixties(t0, r, q) == 0 && Fives(t0, r, q) >= 1
    ensures var cs := Collections(t0, r, files, |r|); var c := Fives(t0, r, q);
            && c <= 11 && c < |cs| && cs[c].sixty && WindowStart(cs, c) == 1 && Uniform(cs, cores, 0, c + 1)
  {
    hide At, StatLines, WindowStart, Uniform, AllCoresRead, FlagsAt, Collections;
    UniformCollections(t0, r, files, cores, 0, q);
    FiveNeverBehindSixty(t0, r, q);
    SixtyPassIsFivePass(t0, r, q);
    OnePassCounts(t0, r, q);
    CollectionOfPass(t0, r, files, |r|, q);
    FirstWindow(t0, r, files, q);
  }

  /** For any clock readings the first window holds at most eleven usages, because the first collection only
      sets baselines: so its published value is never the mean, save when every core was idle. */
  lemma FirstWindowIsTheMeanIff(t0: int, r: seq<Pass>, files: seq<seq<Line>>, cores: set<string>, q: nat)
    requires |r| == |files| && AllCoresRead(t0, r, files, cores, 0, q) && q < |r|
    requires FlagsAt(t0, r, q).sixty && Sixties(t0, r, q) == 0 && Fives(t0, r, q) >= 1
    ensures Fives(t0, r, q) <= 11 && PublishesOne(Collections(t0, r, files, |r|), Fives(t0, r, q))
    ensures var cs := Collections(t0, r, files, |r|); var c := Fives(t0, r, q);
            PublishesMean(cs, cores, 1, c) <==> AllIdle(cs, cores, 1, c + 1)
  {
    hide At, FlagsAt, Fives, Sixties, WindowStart, Uniform, PublishesOne, PublishesMean, AllIdle, Collections,
         AllCoresRead;
    FirstWindowIsUniform(t0, r, files, cores, q);
    PublishedIsTheMeanIff(Collections(t0, r, files, |r|), cores, Fives(t0, r, q));
  }

  /** On a steady clock it holds exactly eleven: published are eleven twelfths of the largest true mean. */
  lemma SteadyFirstWindow(t0: int, r: seq<Pass>, files: seq<seq<Line>>, cores: set<string>, q: nat) returns (best: real)
    requires |r| == |files| && AllCoresRead(t0, r, files, cores, 0, q) && Steady(t0, r) && q < |r|
    requires FlagsAt(t0, r, q).sixty && Sixties(t0, r, q) == 0
    ensures var cs := Collections(t0, r, files, |r|); var c := Fives(t0, r, q);
            && c == 11 && c < |cs| && IsLargestMean(cs, cores, 1, c + 1, best)
            && After(cs, c + 1).published == After(cs, c).published + [TotalOver12(best, c)]
  {
    hide At, IsLargestMean, Uniform, After, TotalOver12, Lag, WindowStart, Steady, Collections, AllCoresRead;
    SteadyWindowsHoldTwelve(t0, r, q);
    SixtyPassIsFivePass(t0, r, q);
    FirstWindowIsUniform(t0, r, files, cores, q);
    best := SixtyPassPublishes(Collections(t0, r, files, |r|), cores, Fives(t0, r, q));
  }

  /** What an agent publishes after a fully busy window, for any clock: off from 100 by the change of lag,
      in twelfths. */
  lemma BusyAgentPublishes(t0: int, r: seq<Pass>, files: seq<seq<Line>>, cores: set<string>, p: nat, q: nat)
    requires |files| == |r| && p < q < |r|
    requires FullyBusy(Collections(t0, r, files, |r|), cores, Fives(t0, r, p + 1), Fives(t0, r, q + 1))
    requires FlagsAt(t0, r, p).sixty && FlagsAt(t0, r, q).sixty && Sixties(t0, r, q) == Sixties(t0, r, p) + 1
    ensures PublishesOne(Collections(t0, r, files, |r|), Fives(t0, r, q))
    ensures PublishedBy(Collections(t0, r, files, |r|), Fives(t0, r, q))
            == 100.0 * (Fives(t0, r, q + 1) - Fives(t0, r, p + 1)) as real / 12.0
            == 100.0 * (12 + Lag(At(t0, r, p)) - Lag(At(t0, r, q))) as real / 12.0
  {
    hide At, FlagsAt, Fives, Sixties, Collections, WindowStart, FullyBusy, PublishesOne, PublishedBy, Lag;
    WindowHoldsTwelveIff(t0, r, p, q);
    SixtyPassIsFivePass(t0, r, q);
    OnePassCounts(t0, r, q);
    WindowOfPass(t0, r, files, p, q);
    CollectionOfPass(t0, r, files, |r|, q);
    FullyBusyPublishes(Collections(t0, r, files, |r|), cores, Fives(t0, r, q));
  }

  // ---------- a run that shows it ----------

  /** Reading i of a machine with one core that has spent i + 1 ticks, all of them in user mode. */
  function BusyTimes(i: nat): CpuTimes
    requires i < U64 - 1
  {
    CpuTimes(i + 1, 0, 0, 0, 0, 0, 0, 0, 0, 0)
  }

  lemma BusyUsage(i: nat, j: nat)
    requires i < j < U64 - 1
    ensures Usage(BusyTimes(i), BusyTimes(j)) == 100.0
  {
    hide Usage;
    assert DeltasOf(BusyTimes(i), BusyTimes(j)) == Deltas(j - i, 0, 0, 0, 0, 0, 0);
    SharesAddUp(BusyTimes(i), BusyTimes(j));
    ShareBound(j - i, j - i);
    assert Usage(BusyTimes(i), BusyTimes(j)) == ComputeGaugeValues(BusyTimes(i), BusyTimes(j)).Busy()
      by { UsageIsBusy(BusyTimes(i), BusyTimes(j)); }
  }

  /** The /proc/stat of that machine. */
  function BusyFile(i: nat): (stat: seq<Line>)
    requires i < U64 - 1
    ensures |stat| == 2
  {
    [CpuLine("cpu", BusyTimes(i)), CpuLine("cpu0", BusyTimes(i))]
  }

  function BusyFiles(n: nat): (files: seq<seq<Line>>)
    requires n < U64
    ensures |files| == n && forall i :: 0 <= i < n ==> files[i] == BusyFile(i)
  {
    seq(n, i requires 0 <= i < n => BusyFile(i))
  }

  lemma BusyFileParses(i: nat)
    requires i < U64 - 1
    ensures var lines := StatLines(BusyFile(i));
            && lines == BusyFile(i) && WellSized(lines) && Clean(lines)
            && (forall k :: k in {"cpu0"} <==> Lists(lines, k))
            && ReadingOf(lines, "cpu0") == BusyTimes(i)
  {
    hide TimesOf, CpuLine;
    var a, b := CpuLine("cpu", BusyTimes(i)), CpuLine("cpu0", BusyTimes(i));
    PrintedLineReadsBack("cpu0", BusyTimes(i));
    TwoCpuLines(a, b);
    assert BusyFile(i)[1] == b && b in BusyFile(i);
  }

  lemma TwoCpuLines(a: Line, b: Line)
    requires |a| == |b| == CPU_FIELDS && a[0] == "cpu" && b[0] == "cpu0"
    ensures StatLines([a, b]) == [a, b]
  {
    assert IsCpuLine(a) && IsCpuLine(b);
    assert [a, b][..1] == [a] && [a][..0] == [];
    assert CpuLinesOf([a]) == [a];
  }

  /** Every collection such a machine's agent makes after the first counts a usage of 100%. */
  lemma BusyFilesAreFullyBusy(t0: int, r: seq<Pass>, lo: nat, hi: nat)
    requires 0 < |r| < U64 && 1 <= lo <= hi <= Fives(t0, r, |r|)
    ensures FullyBusy(Collections(t0, r, BusyFiles(|r|), |r|), {"cpu0"}, lo, hi)
  {
    hide At, FlagsAt, StatLines, Clean, Lists, ReadingOf, Usage, BusyFile, BusyTimes;
    var files, cores := BusyFiles(|r|), {"cpu0"};
    var cs := Collections(t0, r, files, |r|);
    forall i | 0 <= i < |r|
      ensures WellSized(StatLines(files[i])) && Clean(StatLines(files[i]))
      ensures forall k :: k in cores <==> Lists(StatLines(files[i]), k)
    {
      BusyFileParses(i);
    }
    UniformCollections(t0, r, files, cores, 0, |r| - 1);
    UniformPart(cs, cores, 0, |cs|, lo - 1, hi);
    forall k, x | k in cores && lo <= x < hi ensures UsageAt(cs, cores, k, x) == 100.0 {
      var i := PassOfCollection(t0, r, |r|, x - 1);
      var j := PassOfCollection(t0, r, |r|, x);
      if j <= i {
        CountsGrow(t0, r, j, i);
      }
      CollectionOfPass(t0, r, files, |r|, i);
      CollectionOfPass(t0, r, files, |r|, j);
      BusyFileParses(i);
      BusyFileParses(j);
      BusyUsage(i, j);
    }
  }

  /** After the stalled run any fully busy agent publishes a "mean" of 2300 / 12, about 192%. */
  lemma StalledAgentOverstates(t0: int, r: seq<Pass>, files: seq<seq<Line>>, cores: set<string>)
    requires r == StalledRun(t0) && |files| == |r|
    requires FullyBusy(Collections(t0, r, files, |r|), cores, Fives(t0, r, 1), Fives(t0, r, |r|))
    ensures var cs := Collections(t0, r, files, |r|); var c := Fives(t0, r, |r| - 1);
            PublishesOne(cs, c) && PublishedBy(cs, c) == 2300.0 / 12.0 > 100.0
  {
    hide At, StatLines, StalledRun, FullyBusy, PublishesOne, PublishedBy, Fives, Sixties, Collections;
    StalledWindowHoldsTwentyThree(t0);
    BusyAgentPublishes(t0, r, files, cores, 0, |r| - 1);
  }

  /** The failing input in full: a faithful clock, and the files of the one-core machine. */
  lemma StalledOneCoreAgent(t0: int)
    ensures Faithful(t0, StalledRun(t0))
    ensures var r := StalledRun(t0); var cs := Collections(t0, r, BusyFiles(24), 24); var c := Fives(t0, r, 23);
            PublishesOne(cs, c) && PublishedBy(cs, c) == 2300.0 / 12.0
  {
    hide At, StatLines, StalledRun, FullyBusy, PublishesOne, PublishedBy, Fives, Sixties, Collections, BusyFiles;
    StalledRunIsFaithful(t0);
    StalledWindowHoldsTwentyThree(t0);
    StalledRunCatchesUp(t0, 1);
    BusyFilesAreFullyBusy(t0, StalledRun(t0), Fives(t0, StalledRun(t0), 1), Fives(t0, StalledRun(t0), 24));
    StalledAgentOverstates(t0, StalledRun(t0), BusyFiles(24), {"cpu0"});
  }
}
