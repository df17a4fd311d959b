/** Windows of any run at all: cores that come and go, aborted passes, windows that were not cleared. */
module AnyWindow {
  import opened Text
  import opened Reals
  import opened CpuShares
  import opened CoreUtilization
  import opened CoreWindow

  // ---------- the usages each core has counted ----------

  /** The usage one line gives core k, if any: readable, of this core, and not its first reading. */
  ghost function UsageOfLine(p: Progress, line: Line, k: string): seq<real>
    requires |line| == CPU_FIELDS
  {
    if p.ok && TimesOf(line).Some? && line[0] == k && k in p.state.prev then
      [Usage(p.state.prev[k], TimesOf(line).value)]
    else []
  }

  /** The usages the first n lines of a collection give core k. */
  ghost function LineUsages(s: CoreState, lines: seq<Line>, n: nat, k: string): seq<real>
    requires n <= |lines| && WellSized(lines)
  {
    if n <= 1 then []
    else
      assert lines[n - 1] in lines;
      LineUsages(s, lines, n - 1, k) + UsageOfLine(AfterLines(s, lines, n - 1), lines[n - 1], k)
  }

  /** Collection c reads all its lines on a sixty-second pass, so it publishes and clears the window. */
  ghost predicate Closes(cs: seq<Collection>, c: nat)
    requires WellFormed(cs) && c < |cs|
  {
    cs[c].lines != [] && cs[c].sixty && AfterLines(After(cs, c), cs[c].lines, |cs[c].lines|).ok
  }

  /** What core k has counted since the last collection that closed, up to and with collection c. */
  ghost function Counted(cs: seq<Collection>, c: nat, k: string): seq<real>
    requires WellFormed(cs) && c < |cs|
    decreases c, 1
  {
    CountedBefore(cs, c, k) + LineUsages(After(cs, c), cs[c].lines, |cs[c].lines|, k)
  }

  ghost function CountedBefore(cs: seq<Collection>, n: nat, k: string): seq<real>
    requires WellFormed(cs) && n <= |cs|
    decreases n, 0
  {
    if n == 0 || Closes(cs, n - 1) then [] else Counted(cs, n - 1, k)
  }

  /** What the first n lines add to the distribution summary: the usage of each, for whatever core. */
  ghost function AllUsages(s: CoreState, lines: seq<Line>, n: nat): seq<real>
    requires n <= |lines| && WellSized(lines)
  {
    if n <= 1 then []
    else
      assert lines[n - 1] in lines;
      AllUsages(s, lines, n - 1) + UsageOfLine(AfterLines(s, lines, n - 1), lines[n - 1], lines[n - 1][0])
  }

  lemma LineCounts(p: Progress, line: Line)
    requires |line| == CPU_FIELDS
    ensures p.ok && TimesOf(line).Some? ==>
        AfterLine(p.state, line[0], TimesOf(line).value).usages == p.state.usages + UsageOfLine(p, line, line[0])
    ensures !(p.ok && TimesOf(line).Some?) ==> p.state.usages == p.state.usages + UsageOfLine(p, line, line[0])
  {
    hide Usage, TimesOf;
  }

  /** For any collection, aborted ones included, the summary counts exactly the usages of its lines between
      their cores' readings, each once. */
  lemma {:induction false} SummaryCountsTheUsages(s: CoreState, lines: seq<Line>, n: nat)
    requires WellSized(lines) && n <= |lines|
    ensures AfterLines(s, lines, n).state.usages == s.usages + AllUsages(s, lines, n)
  {
    hide TimesOf, AfterLine, UsageOfLine;
    if n > 1 {
      SummaryCountsTheUsages(s, lines, n - 1);
      assert lines[n - 1] in lines;
      LineCounts(AfterLines(s, lines, n - 1), lines[n - 1]);
    }
  }

  /** The state holds the sum of the usages u of core k, and nothing when there are none. */
  ghost predicate HoldsSum(s: CoreState, k: string, u: seq<real>) {
    (k in s.acc <==> u != []) && (k in s.acc ==> s.acc[k] == Sum(u))
  }

  lemma LineHoldsSum(p: Progress, line: Line, k: string, u: seq<real>)
    requires |line| == CPU_FIELDS && p.ok && TimesOf(line).Some? && HoldsSum(p.state, k, u)
    ensures HoldsSum(AfterLine(p.state, line[0], TimesOf(line).value), k, u + UsageOfLine(p, line, k))
  {
    hide Usage, TimesOf;
    var cur := TimesOf(line).value;
    if line[0] == k && k in p.state.prev {
      SumAppend(u, Usage(p.state.prev[k], cur));
    } else {
      assert u + [] == u;
    }
  }

  lemma {:induction false} LinesHoldSum(s: CoreState, lines: seq<Line>, n: nat, k: string, u: seq<real>)
    requires WellSized(lines) && n <= |lines| && HoldsSum(s, k, u)
    ensures HoldsSum(AfterLines(s, lines, n).state, k, u + LineUsages(s, lines, n, k))
  {
    hide TimesOf, AfterLine, HoldsSum;
    if n > 1 {
      LinesHoldSum(s, lines, n - 1, k, u);
      var p, line := AfterLines(s, lines, n - 1), lines[n - 1];
      assert line in lines;
      var before := u + LineUsages(s, lines, n - 1, k);
      assert u + LineUsages(s, lines, n, k) == before + UsageOfLine(p, line, k);
      if p.ok && TimesOf(line).Some? {
        LineHoldsSum(p, line, k, before);
      } else {
        assert before + [] == before;
      }
    } else {
      assert u + [] == u;
    }
  }

  /** For any run whatever, each core holds the sum of the usages it has counted since the last collection
      that closed. */
  lemma {:induction false} HoldsCounted(cs: seq<Collection>, n: nat, k: string)
    requires WellFormed(cs) && n <= |cs|
    ensures HoldsSum(After(cs, n), k, CountedBefore(cs, n, k))
    decreases n, 0
  {
    hide TimesOf, AfterLines, LineUsages, WindowMax;
    if n > 0 {
      HoldsCountedNow(cs, n - 1, k);
    }
  }

  lemma {:induction false} HoldsCountedNow(cs: seq<Collection>, c: nat, k: string)
    requires WellFormed(cs) && c < |cs|
    ensures HoldsSum(AfterLines(After(cs, c), cs[c].lines, |cs[c].lines|).state, k, Counted(cs, c, k))
    ensures cs[c].lines == [] ==> HoldsSum(After(cs, c), k, Counted(cs, c, k))
    decreases c, 1
  {
    hide TimesOf, After, CountedBefore, HoldsSum, AfterLine;
    HoldsCounted(cs, c, k);
    LinesHoldSum(After(cs, c), cs[c].lines, |cs[c].lines|, k, CountedBefore(cs, c, k));
  }

  // ---------- what is published ----------

  /** Core k has counted a usage, and no core has counted more in all. */
  ghost predicate Busiest(cs: seq<Collection>, c: nat, k: string)
    requires WellFormed(cs) && c < |cs|
  {
    Counted(cs, c, k) != [] && forall j :: Counted(cs, c, j) != [] ==> Sum(Counted(cs, c, j)) <= Sum(Counted(cs, c, k))
  }

  ghost predicate NoneCounted(cs: seq<Collection>, c: nat)
    requires WellFormed(cs) && c < |cs|
  {
    forall k :: Counted(cs, c, k) == []
  }

  ghost predicate NonNegative(u: seq<real>) {
    forall i :: 0 <= i < |u| ==> u[i] >= 0.0
  }

  lemma {:induction false} SumNonNegative(u: seq<real>)
    requires NonNegative(u)
    ensures Sum(u) >= 0.0
  {
    if u != [] {
      SumNonNegative(u[..|u| - 1]);
    }
  }

  lemma {:induction false} LineUsagesNonNegative(s: CoreState, lines: seq<Line>, n: nat, k: string)
    requires WellSized(lines) && n <= |lines|
    ensures NonNegative(LineUsages(s, lines, n, k))
  {
    hide TimesOf, AfterLines;
    if n > 1 {
      LineUsagesNonNegative(s, lines, n - 1, k);
      assert lines[n - 1] in lines;
      UsageOfLineNonNegative(AfterLines(s, lines, n - 1), lines[n - 1], k);
    }
  }

  lemma UsageOfLineNonNegative(p: Progress, line: Line, k: string)
    requires |line| == CPU_FIELDS
    ensures NonNegative(UsageOfLine(p, line, k)) && |UsageOfLine(p, line, k)| <= 1
  {
    hide TimesOf, Usage;
  }

  lemma {:induction false} CountedNonNegative(cs: seq<Collection>, c: nat, k: string)
    requires WellFormed(cs) && c < |cs|
    ensures NonNegative(Counted(cs, c, k))
  {
    hide After, LineUsages, Closes;
    LineUsagesNonNegative(After(cs, c), cs[c].lines, |cs[c].lines|, k);
    if c > 0 && !Closes(cs, c - 1) {
      CountedNonNegative(cs, c - 1, k);
    }
  }

  /** A collection publishes at most one value, and only when it closes a window in which something was
      counted: a twelfth of the total of the busiest core. */
  lemma AnyWindowPublishes(cs: seq<Collection>, c: nat) returns (top: string)
    requires WellFormed(cs) && c < |cs|
    ensures !Closes(cs, c) || NoneCounted(cs, c) ==> After(cs, c + 1).published == After(cs, c).published
    ensures Closes(cs, c) && !NoneCounted(cs, c) ==>
        && Busiest(cs, c, top)
        && After(cs, c + 1).published == After(cs, c).published + [Sum(Counted(cs, c, top)) / 12.0]
  {
    hide TimesOf, AfterLines, Counted, WindowMax;
    var acc := AfterLines(After(cs, c), cs[c].lines, |cs[c].lines|).state.acc;
    PublishedGrowsOnlyByPublish(After(cs, c), cs[c].lines, |cs[c].lines|);
    forall k
      ensures k in acc <==> Counted(cs, c, k) != []
      ensures k in acc ==> 0.0 <= acc[k] == Sum(Counted(cs, c, k))
    {
      HoldsCountedNow(cs, c, k);
      CountedNonNegative(cs, c, k);
      SumNonNegative(Counted(cs, c, k));
    }
    top := "";
    if Closes(cs, c) && !NoneCounted(cs, c) {
      top :| Counted(cs, c, top) != [];
      assert top in acc;
      if WindowMax(acc) != 0.0 {
        top :| top in acc && acc[top] == WindowMax(acc);
      }
      assert acc[top] == WindowMax(acc);
    } else if Closes(cs, c) {
      assert acc == map[];
    }
  }

  ghost predicate CountsTheUsages(cs: seq<Collection>, cores: set<string>, lo: nat, c: nat, k: string) {
    && lo <= c && k in cores && Uniform(cs, cores, lo - 1, c + 1)
    && Sum(Counted(cs, c, k)) == UsageSum(cs, cores, k, lo, c + 1)
  }

  /** In a window over a fixed set of cores, what core k has counted are its usages from collection to
      collection. */
  lemma CountedInUniformWindow(cs: seq<Collection>, cores: set<string>, c: nat, k: string)
    requires 1 <= c < |cs| && Uniform(cs, cores, WindowStart(cs, c) - 1, c + 1) && k in cores
    ensures CountsTheUsages(cs, cores, WindowStart(cs, c), c, k)
  {
    hide After, AfterLines, Counted, Uniform, UsageSum;
    UniformIsWellFormed(cs, cores, WindowStart(cs, c) - 1, c + 1);
    HoldsCountedNow(cs, c, k);
    BeforePublishing(cs, cores, c, k);
  }

  function MeanOf(u: seq<real>): real
    requires u != []
  {
    Sum(u) / |u| as real
  }

  /** So for any run the value is the mean of the busiest core if and only if that core counted twelve
      usages, or nothing but idle time was counted. */
  lemma BusiestMeanIff(cs: seq<Collection>, c: nat, top: string)
    requires WellFormed(cs) && c < |cs| && Closes(cs, c) && Busiest(cs, c, top)
    ensures PublishesOne(cs, c)
    ensures PublishedBy(cs, c) == MeanOf(Counted(cs, c, top))
            <==> |Counted(cs, c, top)| == 12 || Sum(Counted(cs, c, top)) == 0.0
  {
    hide Closes, After, Counted, Sum;
    var busiest := AnyWindowPublishes(cs, c);
    var u := Counted(cs, c, top);
    assert Sum(Counted(cs, c, busiest)) == Sum(u);
    TwelfthIsMeanIff(Sum(u), |u|);
  }

  lemma TwelfthIsMeanIff(total: real, n: nat)
    requires n > 0
    ensures total / 12.0 == total / n as real <==> n == 12 || total == 0.0
  {
    var mean := total / n as real;
    QuotientTimes(total, n as real);
    TotalOver12OfMean(total, n);
    ScaledEqualIff(mean, n);
    if mean == 0.0 {
      assert total == 0.0;
    }
    if total == 0.0 {
      SignOfProduct(mean, n as real);
    }
  }

  // ---------- bounds ----------

  predicate AtMost100(usages: seq<real>) {
    forall i :: 0 <= i < |usages| ==> usages[i] <= 100.0
  }

  /** No line that is counted goes back behind the reading stored for its core (iowait may). */
  ghost predicate LinesAdvance(s: CoreState, lines: seq<Line>, n: nat)
    requires WellSized(lines) && n <= |lines|
  {
    forall i :: 1 <= i < n ==> LineAdvances(AfterLines(s, lines, i), lines[i])
  }

  ghost predicate LineAdvances(p: Progress, line: Line) {
    |line| == CPU_FIELDS && p.ok && TimesOf(line).Some? && line[0] in p.state.prev ==>
      Advances(p.state.prev[line[0]], TimesOf(line).value)
  }

  ghost predicate CountersAdvance(cs: seq<Collection>, n: nat)
    requires WellFormed(cs) && n <= |cs|
  {
    forall c :: 0 <= c < n ==> LinesAdvance(After(cs, c), cs[c].lines, |cs[c].lines|)
  }

  lemma AdvancingLineCounts(p: Progress, line: Line)
    requires |line| == CPU_FIELDS && p.ok && TimesOf(line).Some? && LineAdvances(p, line)
    requires AtMost100(p.state.usages)
    ensures AtMost100(AfterLine(p.state, line[0], TimesOf(line).value).usages)
  {
    hide Usage, Advances, TimesOf;
    var key, cur := line[0], TimesOf(line).value;
    if key in p.state.prev {
      AdvancingUsageWithinBounds(p.state.prev[key], cur);
    }
  }

  lemma {:induction false} AdvancingLinesCount(s: CoreState, lines: seq<Line>, n: nat)
    requires WellSized(lines) && n <= |lines| && LinesAdvance(s, lines, n) && AtMost100(s.usages)
    ensures AtMost100(AfterLines(s, lines, n).state.usages)
  {
    hide AtMost100, AfterLine, TimesOf, LineAdvances;
    if n > 1 {
      AdvancingLinesCount(s, lines, n - 1);
      var p := AfterLines(s, lines, n - 1);
      assert lines[n - 1] in lines;
      if p.ok && TimesOf(lines[n - 1]).Some? {
        AdvancingLineCounts(p, lines[n - 1]);
      }
    }
  }

  lemma CollectKeepsUsages(s: CoreState, lines: seq<Line>, sixty: bool)
    requires WellSized(lines)
    ensures Collect(s, lines, sixty).usages == AfterLines(s, lines, |lines|).state.usages
  {
    hide TimesOf, AfterLine, WindowMax;
  }

  /** So no usage ever counted exceeds 100, whatever cores come and go and whichever passes abort. */
  lemma {:induction false} UsagesAtMost100(cs: seq<Collection>, n: nat)
    requires WellFormed(cs) && n <= |cs| && CountersAdvance(cs, n)
    ensures AtMost100(After(cs, n).usages)
  {
    hide Collect, LinesAdvance;
    if n > 0 {
      UsagesAtMost100(cs, n - 1);
      AdvancingLinesCount(After(cs, n - 1), cs[n - 1].lines, |cs[n - 1].lines|);
      CollectKeepsUsages(After(cs, n - 1), cs[n - 1].lines, cs[n - 1].sixty);
    }
  }

  lemma {:induction false} LineUsagesAtMost100(s: CoreState, lines: seq<Line>, n: nat, k: string)
    requires WellSized(lines) && n <= |lines| && LinesAdvance(s, lines, n)
    ensures AtMost100(LineUsages(s, lines, n, k))
  {
    hide TimesOf, AfterLines, LineAdvances;
    if n > 1 {
      LineUsagesAtMost100(s, lines, n - 1, k);
      assert lines[n - 1] in lines;
      UsageOfLineAtMost100(AfterLines(s, lines, n - 1), lines[n - 1], k);
    }
  }

  lemma UsageOfLineAtMost100(p: Progress, line: Line, k: string)
    requires |line| == CPU_FIELDS && LineAdvances(p, line)
    ensures AtMost100(UsageOfLine(p, line, k))
  {
    hide TimesOf, Usage, Advances;
    if p.ok && TimesOf(line).Some? && line[0] in p.state.prev {
      AdvancingUsageWithinBounds(p.state.prev[line[0]], TimesOf(line).value);
    }
  }

  lemma {:induction false} CountedAtMost100(cs: seq<Collection>, c: nat, k: string)
    requires WellFormed(cs) && c < |cs| && CountersAdvance(cs, c + 1)
    ensures AtMost100(Counted(cs, c, k))
  {
    hide After, LineUsages, Closes, LinesAdvance;
    LineUsagesAtMost100(After(cs, c), cs[c].lines, |cs[c].lines|, k);
    if c > 0 && !Closes(cs, c - 1) {
      CountedAtMost100(cs, c - 1, k);
    }
  }

  lemma {:induction false} SumAtMost(u: seq<real>)
    requires AtMost100(u)
    ensures Sum(u) <= 100.0 * |u| as real
  {
    if u != [] {
      SumAtMost(u[..|u| - 1]);
    }
  }

  /** Counters that do not go back keep what any collection publishes in [0, 100 n / 12] when no core has
      counted more than n usages in the window, and so in [0, 100] for at most twelve. */
  lemma PublishedWithinBounds(cs: seq<Collection>, c: nat, n: nat)
    requires WellFormed(cs) && c < |cs| && CountersAdvance(cs, c + 1)
    requires forall k :: |Counted(cs, c, k)| <= n
    ensures var before := After(cs, c).published; var after := After(cs, c + 1).published;
            after == before || exists m :: after == before + [m] && 0.0 <= m <= TotalOver12(100.0, n)
                                           && (n <= 12 ==> m <= 100.0)
  {
    hide After, Counted, Closes, CountersAdvance, Sum;
    var top := AnyWindowPublishes(cs, c);
    if Closes(cs, c) && !NoneCounted(cs, c) {
      var u := Counted(cs, c, top);
      CountedNonNegative(cs, c, top);
      SumNonNegative(u);
      CountedAtMost100(cs, c, top);
      SumAtMost(u);
      assert 0.0 <= Sum(u) / 12.0 <= TotalOver12(100.0, n);
    }
  }

  // ---------- how many usages a window can hold ----------

  /** How many collections the current window has lasted: one that fails on a sixty-second pass goes on. */
  ghost function SinceClear(cs: seq<Collection>, n: nat): nat
    requires n <= |cs| && WellFormed(cs)
  {
    if n == 0 || After(cs, n).acc == map[] then 0 else SinceClear(cs, n - 1) + 1
  }

  lemma {:induction false} OneUsagePerCollection(s: CoreState, lines: seq<Line>, n: nat, k: string)
    requires WellSized(lines) && Distinct(lines) && n <= |lines|
    ensures |LineUsages(s, lines, n, k)| <= if ListedBefore(lines, n, k) then 1 else 0
  {
    hide TimesOf, AfterLines;
    if n > 1 {
      OneUsagePerCollection(s, lines, n - 1, k);
      assert lines[n - 1] in lines;
      UsageOfLineNonNegative(AfterLines(s, lines, n - 1), lines[n - 1], k);
    }
  }

  /** When no file lists a core twice, no core counts more usages than its window has collections. */
  lemma {:induction false} CountedPerCollection(cs: seq<Collection>, c: nat, k: string)
    requires WellFormed(cs) && c < |cs| && forall i :: 0 <= i <= c ==> Distinct(cs[i].lines)
    ensures |Counted(cs, c, k)| <= SinceClear(cs, c) + 1
  {
    hide After, LineUsages, Closes, Distinct;
    OneUsagePerCollection(After(cs, c), cs[c].lines, |cs[c].lines|, k);
    if c > 0 {
      if After(cs, c).acc == map[] {
        ClearedIsNotCounted(cs, c, k);
      } else {
        CountedPerCollection(cs, c - 1, k);
      }
    }
  }

  lemma ClearedIsNotCounted(cs: seq<Collection>, n: nat, k: string)
    requires WellFormed(cs) && n <= |cs| && After(cs, n).acc == map[]
    ensures CountedBefore(cs, n, k) == []
  {
    hide After, CountedBefore;
    HoldsCounted(cs, n, k);
  }

  /** So a window of at most twelve collections publishes within [0, 100], whatever cores come and go. */
  lemma TwelveCollectionsWithinBounds(cs: seq<Collection>, c: nat)
    requires WellFormed(cs) && c < |cs| && CountersAdvance(cs, c + 1) && SinceClear(cs, c) < 12
    requires forall i :: 0 <= i <= c ==> Distinct(cs[i].lines)
    ensures var before := After(cs, c).published; var after := After(cs, c + 1).published;
            after == before || exists m :: after == before + [m] && 0.0 <= m <= 100.0
  {
    hide After, Counted, CountersAdvance, Distinct, SinceClear;
    forall k ensures |Counted(cs, c, k)| <= 12 {
      CountedPerCollection(cs, c, k);
    }
    PublishedWithinBounds(cs, c, 12);
  }
}
