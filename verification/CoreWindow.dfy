/** What the sixty-second maximum means: runs of collections, core by core. */
module CoreWindow {
  import opened Text
  import opened Reals
  import opened CpuShares
  import opened CoreUtilization

  /** One five-second collection: the parsed cpu lines, and whether it is a sixty-second pass too. */
  datatype Collection = Collection(lines: seq<Line>, sixty: bool)

  ghost predicate WellFormed(cs: seq<Collection>) {
    forall i :: 0 <= i < |cs| ==> WellSized(cs[i].lines)
  }

  /** The state after the first n collections of an agent. */
  ghost function After(cs: seq<Collection>, n: nat): CoreState
    requires n <= |cs| && WellFormed(cs)
  {
    if n == 0 then INITIAL else Collect(After(cs, n - 1), cs[n - 1].lines, cs[n - 1].sixty)
  }

  // ---------- one core at a time ----------

  /** What the state holds about one core. */
  datatype View = View(prev: Option<CpuTimes>, acc: Option<real>)

  function ViewOf(s: CoreState, k: string): View {
    View(if k in s.prev then Some(s.prev[k]) else None, if k in s.acc then Some(s.acc[k]) else None)
  }

  /** A core's own step: the first reading is a baseline, every later one adds a usage. */
  function Sampled(v: View, cur: CpuTimes): View {
    View(Some(cur),
         if v.prev.None? then v.acc
         else Some((if v.acc.Some? then v.acc.value else 0.0) + Usage(v.prev.value, cur)))
  }

  lemma AfterLinePerCore(s: CoreState, key: string, cur: CpuTimes, k: string)
    ensures ViewOf(AfterLine(s, key, cur), k) == if k == key then Sampled(ViewOf(s, k), cur) else ViewOf(s, k)
    ensures AfterLine(s, key, cur).published == s.published
  {
    hide Usage;
  }

  /** Every core line readable, no core listed twice. */
  ghost predicate Clean(lines: seq<Line>) {
    && lines != [] && WellSized(lines)
    && (forall i :: 1 <= i < |lines| ==> lines[i] in lines && TimesOf(lines[i]).Some?)
    && forall i, j :: 1 <= i < j < |lines| ==> lines[i][0] != lines[j][0]
  }

  predicate Lists(lines: seq<Line>, k: string)
    requires WellSized(lines)
  {
    exists i :: 1 <= i < |lines| && lines[i] in lines && lines[i][0] == k
  }

  ghost function ReadingOf(lines: seq<Line>, k: string): CpuTimes
    requires Clean(lines) && Lists(lines, k)
  {
    var i :| 1 <= i < |lines| && lines[i] in lines && lines[i][0] == k;
    TimesOf(lines[i]).value
  }

  lemma {:induction false} UnlistedUntouched(s: CoreState, lines: seq<Line>, n: nat, k: string)
    requires Clean(lines) && n <= |lines|
    requires forall i :: 1 <= i < n ==> lines[i] in lines && lines[i][0] != k
    ensures AfterLines(s, lines, n).ok && AfterLines(s, lines, n).state.published == s.published
    ensures ViewOf(AfterLines(s, lines, n).state, k) == ViewOf(s, k)
  {
    hide Usage, TimesOf;
    if n > 1 {
      UnlistedUntouched(s, lines, n - 1, k);
      assert lines[n - 1] in lines;
      AfterLinePerCore(AfterLines(s, lines, n - 1).state, lines[n - 1][0], TimesOf(lines[n - 1]).value, k);
    }
  }

  lemma {:induction false} ListedSampled(s: CoreState, lines: seq<Line>, n: nat, i: nat)
    requires Clean(lines) && 1 <= i < n <= |lines| && lines[i] in lines
    ensures AfterLines(s, lines, n).ok && AfterLines(s, lines, n).state.published == s.published
    ensures ViewOf(AfterLines(s, lines, n).state, lines[i][0])
            == Sampled(ViewOf(s, lines[i][0]), TimesOf(lines[i]).value)
  {
    hide Usage, TimesOf;
    assert lines[n - 1] in lines;
    var p := AfterLines(s, lines, n - 1);
    if i == n - 1 {
      UnlistedUntouched(s, lines, n - 1, lines[i][0]);
    } else {
      ListedSampled(s, lines, n - 1, i);
    }
    AfterLinePerCore(p.state, lines[n - 1][0], TimesOf(lines[n - 1]).value, lines[i][0]);
  }

  /** A clean collection steps each listed core by its own reading and leaves every other core alone. */
  lemma CleanLinesPerCore(s: CoreState, lines: seq<Line>, k: string)
    requires Clean(lines)
    ensures var p := AfterLines(s, lines, |lines|);
            && p.ok && p.state.published == s.published
            && ViewOf(p.state, k)
               == if Lists(lines, k) then Sampled(ViewOf(s, k), ReadingOf(lines, k)) else ViewOf(s, k)
  {
    hide Usage, TimesOf;
    if Lists(lines, k) {
      var i :| 1 <= i < |lines| && lines[i] in lines && lines[i][0] == k
               && TimesOf(lines[i]).value == ReadingOf(lines, k);
      ListedSampled(s, lines, |lines|, i);
    } else {
      UnlistedUntouched(s, lines, |lines|, k);
    }
  }

  // ---------- windows over a fixed set of cores ----------

  /** The collections from a to b - 1 read every core of `cores` (and no other) successfully. */
  ghost predicate Uniform(cs: seq<Collection>, cores: set<string>, a: int, b: int) {
    && cores != {} && WellFormed(cs) && 0 <= a <= b <= |cs|
    && forall i :: a <= i < b ==>
        Clean(cs[i].lines) && forall k :: k in cores <==> Lists(cs[i].lines, k)
  }

  lemma UniformPart(cs: seq<Collection>, cores: set<string>, a: int, b: int, c: int, d: int)
    requires Uniform(cs, cores, a, b) && a <= c <= d <= b
    ensures Uniform(cs, cores, c, d)
  {
  }

  lemma UniformIsWellFormed(cs: seq<Collection>, cores: set<string>, a: int, b: int)
    requires Uniform(cs, cores, a, b)
    ensures WellFormed(cs) && cores != {}
  {
  }

  lemma UniformAt(cs: seq<Collection>, cores: set<string>, a: int, b: int, i: int)
    requires Uniform(cs, cores, a, b) && a <= i < b
    ensures 0 <= i < |cs| && Clean(cs[i].lines) && forall k :: k in cores <==> Lists(cs[i].lines, k)
  {
  }

  /** Usage of core k between collections i - 1 and i. */
  ghost function UsageAt(cs: seq<Collection>, cores: set<string>, k: string, i: nat): (usage: real)
    requires Uniform(cs, cores, i - 1, i + 1) && k in cores
    ensures usage >= 0.0
  {
    Usage(ReadingOf(cs[i - 1].lines, k), ReadingOf(cs[i].lines, k))
  }

  /** No counter of core k but iowait goes back between collections i - 1 and i. */
  ghost predicate CoreAdvances(cs: seq<Collection>, cores: set<string>, k: string, i: nat)
    requires Uniform(cs, cores, i - 1, i + 1) && k in cores
  {
    Advances(ReadingOf(cs[i - 1].lines, k), ReadingOf(cs[i].lines, k))
  }

  lemma AdvancingCoreUsage(cs: seq<Collection>, cores: set<string>, k: string, i: nat)
    requires Uniform(cs, cores, i - 1, i + 1) && k in cores && CoreAdvances(cs, cores, k, i)
    ensures UsageAt(cs, cores, k, i) <= 100.0
  {
    hide Usage, Advances, ReadingOf;
    AdvancingUsageWithinBounds(ReadingOf(cs[i - 1].lines, k), ReadingOf(cs[i].lines, k));
  }

  ghost function UsageSum(cs: seq<Collection>, cores: set<string>, k: string, lo: nat, hi: nat): real
    requires Uniform(cs, cores, lo - 1, hi) && k in cores && lo <= hi
  {
    if lo == hi then 0.0 else UsageSum(cs, cores, k, lo, hi - 1) + UsageAt(cs, cores, k, hi - 1)
  }

  /** The first collection of the window the n-th collection falls in; collection 0 only sets baselines. */
  function WindowStart(cs: seq<Collection>, n: nat): (lo: nat)
    requires n <= |cs|
    ensures 1 <= lo && (lo <= n || n == 0)
  {
    if n <= 1 then 1 else if cs[n - 1].sixty then n else WindowStart(cs, n - 1)
  }

  /** Core k has its last reading and the sum of its usages lo .. hi - 1; no other core has a sum. */
  ghost predicate HoldsWindow(v: View, cs: seq<Collection>, cores: set<string>, k: string, lo: nat, hi: nat) {
    && Uniform(cs, cores, lo - 1, hi) && lo <= hi
    && if k in cores then
         v == View(Some(ReadingOf(cs[hi - 1].lines, k)),
                   if lo == hi then None else Some(UsageSum(cs, cores, k, lo, hi)))
       else v.acc == None
  }

  /** Whatever came before the window: between two of its collections each core holds its last reading and
      the sum of its usages in the window, and no other core holds anything. */
  lemma {:induction false} WindowAccumulates(cs: seq<Collection>, cores: set<string>, n: nat, k: string)
    requires 1 <= n <= |cs| && Uniform(cs, cores, WindowStart(cs, n) - 1, n)
    ensures HoldsWindow(ViewOf(After(cs, n), k), cs, cores, k, WindowStart(cs, n), n)
    decreases n, 1
  {
    hide Usage, TimesOf, AfterLines, ReadingOf, Lists, WindowMax;
    CleanLinesPerCore(After(cs, n - 1), cs[n - 1].lines, k);
    if WindowStart(cs, n) < n {
      BeforePublishing(cs, cores, n - 1, k);
    }
  }

  /** The same within collection c, before it publishes. */
  lemma {:induction false} BeforePublishing(cs: seq<Collection>, cores: set<string>, c: nat, k: string)
    requires 1 <= c < |cs| && Uniform(cs, cores, WindowStart(cs, c) - 1, c + 1)
    ensures HoldsWindow(ViewOf(AfterLines(After(cs, c), cs[c].lines, |cs[c].lines|).state, k), cs, cores, k,
                        WindowStart(cs, c), c + 1)
    decreases c, 2
  {
    hide Usage, TimesOf, AfterLines, After, Clean, Lists, ReadingOf, WindowStart, Uniform;
    var lo := WindowStart(cs, c);
    UniformAt(cs, cores, lo - 1, c + 1, c - 1);
    UniformAt(cs, cores, lo - 1, c + 1, c);
    UniformPart(cs, cores, lo - 1, c + 1, lo - 1, c);
    UniformPart(cs, cores, lo - 1, c + 1, c - 1, c + 1);
    CleanLinesPerCore(After(cs, c), cs[c].lines, k);
    WindowAccumulates(cs, cores, c, k);
    if k in cores {
      assert UsageSum(cs, cores, k, lo, c + 1) == UsageSum(cs, cores, k, lo, c) + UsageAt(cs, cores, k, c);
      assert lo == c ==> UsageSum(cs, cores, k, lo, c) == 0.0;
    }
  }

  // ---------- what is published ----------

  /** The true mean usage of core k over the usages lo .. hi. */
  ghost function Mean(cs: seq<Collection>, cores: set<string>, k: string, lo: nat, hi: nat): real
    requires Uniform(cs, cores, lo - 1, hi) && k in cores && lo < hi
  {
    UsageSum(cs, cores, k, lo, hi) / (hi - lo) as real
  }

  ghost predicate IsLargestMean(cs: seq<Collection>, cores: set<string>, lo: nat, hi: nat, m: real) {
    && Uniform(cs, cores, lo - 1, hi) && lo < hi
    && (forall k :: k in cores ==> Mean(cs, cores, k, lo, hi) <= m)
    && exists k :: k in cores && Mean(cs, cores, k, lo, hi) == m
  }

  lemma {:induction false} UsageSumBounds(cs: seq<Collection>, cores: set<string>, k: string, lo: nat, hi: nat)
    requires Uniform(cs, cores, lo - 1, hi) && k in cores && lo <= hi
    requires forall i :: lo <= i < hi ==> UsageAt(cs, cores, k, i) <= 100.0
    ensures 0.0 <= UsageSum(cs, cores, k, lo, hi) <= 100.0 * (hi - lo) as real
  {
    hide UsageAt, Clean, Lists;
    if lo < hi {
      UsageSumBounds(cs, cores, k, lo, hi - 1);
    }
  }

  lemma MeanBounds(cs: seq<Collection>, cores: set<string>, k: string, lo: nat, hi: nat)
    requires Uniform(cs, cores, lo - 1, hi) && k in cores && lo < hi
    requires forall i :: lo <= i < hi ==> UsageAt(cs, cores, k, i) <= 100.0
    ensures 0.0 <= Mean(cs, cores, k, lo, hi) <= 100.0
  {
    hide UsageAt, UsageSum, Uniform;
    UsageSumBounds(cs, cores, k, lo, hi);
    var n, sum := (hi - lo) as real, UsageSum(cs, cores, k, lo, hi);
    QuotientNonNegative(sum, n);
    QuotientOrder(sum, 100.0 * n, n);
    QuotientUnique(100.0, 100.0 * n, n);
  }

  lemma {:induction false} FullyBusyMean(cs: seq<Collection>, cores: set<string>, k: string, lo: nat, hi: nat)
    requires Uniform(cs, cores, lo - 1, hi) && k in cores && lo < hi
    requires forall i :: lo <= i < hi ==> UsageAt(cs, cores, k, i) == 100.0
    ensures UsageSum(cs, cores, k, lo, hi) == 100.0 * (hi - lo) as real
    ensures Mean(cs, cores, k, lo, hi) == 100.0
  {
    hide UsageAt, Clean, Lists;
    if lo < hi - 1 {
      FullyBusyMean(cs, cores, k, lo, hi - 1);
    } else {
      assert UsageSum(cs, cores, k, lo, lo) == 0.0;
    }
    QuotientUnique(100.0, 100.0 * (hi - lo) as real, (hi - lo) as real);
  }

  lemma {:induction false} UsageSumNonNegative(cs: seq<Collection>, cores: set<string>, k: string, lo: nat, hi: nat)
    requires Uniform(cs, cores, lo - 1, hi) && k in cores && lo <= hi
    ensures UsageSum(cs, cores, k, lo, hi) >= 0.0
  {
    hide UsageAt, Clean, Lists;
    if lo < hi {
      UsageSumNonNegative(cs, cores, k, lo, hi - 1);
    }
  }

  /** No core is listed twice. */
  ghost predicate Distinct(lines: seq<Line>)
    requires WellSized(lines)
  {
    forall i, j :: 1 <= i < j < |lines| ==> lines[i] in lines && lines[j] in lines && lines[i][0] != lines[j][0]
  }

  predicate ListedBefore(lines: seq<Line>, n: nat, k: string)
    requires n <= |lines| && WellSized(lines)
  {
    exists i :: 1 <= i < n && lines[i] in lines && lines[i][0] == k
  }

  lemma {:induction false} PublishedGrowsOnlyByPublish(s: CoreState, lines: seq<Line>, n: nat)
    requires WellSized(lines) && n <= |lines|
    ensures AfterLines(s, lines, n).state.published == s.published
  {
    hide TimesOf, Usage;
    if n > 1 {
      PublishedGrowsOnlyByPublish(s, lines, n - 1);
    }
  }

  /** A collection that is not a sixty-second pass publishes nothing, nor does the very first one unless it
      lists a core twice. */
  lemma QuietCollection(cs: seq<Collection>, c: nat)
    requires WellFormed(cs) && c < |cs| && (!cs[c].sixty || (c == 0 && Distinct(cs[c].lines)))
    ensures After(cs, c + 1).published == After(cs, c).published
  {
    hide TimesOf, AfterLines, Distinct, WindowMax;
    PublishedGrowsOnlyByPublish(After(cs, c), cs[c].lines, |cs[c].lines|);
    if c == 0 && Distinct(cs[c].lines) {
      BaselinesOnly(cs[c].lines, |cs[c].lines|);
    }
  }

  /** The first collection has nothing to compare with. */
  lemma {:induction false} BaselinesOnly(lines: seq<Line>, n: nat)
    requires WellSized(lines) && Distinct(lines) && n <= |lines|
    ensures var s := AfterLines(INITIAL, lines, n).state;
            s.acc == map[] && forall k :: k in s.prev ==> ListedBefore(lines, n, k)
  {
    hide TimesOf, Usage;
    if n > 1 {
      BaselinesOnly(lines, n - 1);
      assert lines[n - 1] in lines;
    }
  }

  ghost predicate HoldsSums(acc: map<string, real>, cs: seq<Collection>, cores: set<string>, lo: nat, hi: nat) {
    && Uniform(cs, cores, lo - 1, hi) && lo <= hi
    && acc.Keys == cores && forall k :: k in cores ==> acc[k] == UsageSum(cs, cores, k, lo, hi)
  }

  lemma WindowAtSixtyPass(cs: seq<Collection>, cores: set<string>, c: nat) returns (acc: map<string, real>)
    requires 1 <= c < |cs| && cs[c].sixty && Uniform(cs, cores, WindowStart(cs, c) - 1, c + 1)
    ensures HoldsSums(acc, cs, cores, WindowStart(cs, c), c + 1)
    ensures After(cs, c + 1).published == After(cs, c).published + [WindowMax(acc) / 12.0]
  {
    hide Usage, TimesOf, ReadingOf, Lists, Clean, Uniform, AfterLines, UsageSum, WindowMax, WindowStart;
    UniformAt(cs, cores, WindowStart(cs, c) - 1, c + 1, c);
    UniformIsWellFormed(cs, cores, WindowStart(cs, c) - 1, c + 1);
    acc := AfterLines(After(cs, c), cs[c].lines, |cs[c].lines|).state.acc;
    forall k
      ensures k in acc <==> k in cores
      ensures k in cores ==> acc[k] == UsageSum(cs, cores, k, WindowStart(cs, c), c + 1)
    {
      BeforePublishing(cs, cores, c, k);
    }
    CleanLinesPerCore(After(cs, c), cs[c].lines, "");
  }

  /** What the code divides by twelve: the total of n usages of the given mean. */
  function TotalOver12(mean: real, n: nat): real {
    mean * n as real / 12.0
  }

  lemma TotalOver12OfMean(total: real, n: nat)
    requires n > 0
    ensures TotalOver12(total / n as real, n) == total / 12.0
  {
    QuotientTimes(total, n as real);
  }

  /** A sixty-second pass publishes the largest true mean of its window scaled by (usages / 12). */
  lemma SixtyPassPublishes(cs: seq<Collection>, cores: set<string>, c: nat) returns (best: real)
    requires 1 <= c < |cs| && cs[c].sixty && Uniform(cs, cores, WindowStart(cs, c) - 1, c + 1)
    ensures var lo := WindowStart(cs, c);
            && IsLargestMean(cs, cores, lo, c + 1, best)
            && After(cs, c + 1).published == After(cs, c).published + [TotalOver12(best, c + 1 - lo)]
  {
    hide Usage, UsageAt, UsageSum, Clean, Lists, After, WindowStart, TotalOver12;
    var lo := WindowStart(cs, c);
    var acc := WindowAtSixtyPass(cs, cores, c);
    var n, max := (c + 1 - lo) as real, WindowMax(acc);
    best := max / n;
    TotalOver12OfMean(max, c + 1 - lo);
    forall k | k in cores ensures Mean(cs, cores, k, lo, c + 1) <= best {
      QuotientOrder(acc[k], max, n);
    }
    var top :| top in cores;
    UsageSumNonNegative(cs, cores, top, lo, c + 1);
    if max != 0.0 {
      top :| top in acc && acc[top] == max;
    }
    assert Mean(cs, cores, top, lo, c + 1) == best;
  }

  /** Collection c adds exactly one value to what was published before. */
  ghost predicate PublishesOne(cs: seq<Collection>, c: nat) {
    && WellFormed(cs) && c < |cs|
    && var before, after := After(cs, c).published, After(cs, c + 1).published;
       |after| == |before| + 1 && after[..|before|] == before
  }

  ghost function PublishedBy(cs: seq<Collection>, c: nat): real
    requires PublishesOne(cs, c)
  {
    After(cs, c + 1).published[|After(cs, c).published|]
  }

  /** Collection c publishes the largest true mean of the usages lo .. c. */
  ghost predicate PublishesMean(cs: seq<Collection>, cores: set<string>, lo: nat, c: nat) {
    && PublishesOne(cs, c)
    && IsLargestMean(cs, cores, lo, c + 1, PublishedBy(cs, c))
  }

  ghost predicate AllIdle(cs: seq<Collection>, cores: set<string>, lo: nat, hi: nat) {
    && Uniform(cs, cores, lo - 1, hi) && lo <= hi
    && forall k :: k in cores ==> UsageSum(cs, cores, k, lo, hi) == 0.0
  }

  /** So the published value is the largest true mean exactly when the window holds twelve usages, or
      every core was idle throughout. */
  lemma PublishedIsTheMeanIff(cs: seq<Collection>, cores: set<string>, c: nat)
    requires 1 <= c < |cs| && cs[c].sixty && Uniform(cs, cores, WindowStart(cs, c) - 1, c + 1)
    ensures PublishesOne(cs, c)
    ensures var lo := WindowStart(cs, c);
            PublishesMean(cs, cores, lo, c) <==> c + 1 - lo == 12 || AllIdle(cs, cores, lo, c + 1)
  {
    hide Usage, UsageAt, AllIdle, Mean, IsLargestMean, Clean, Lists, After, WindowStart, TotalOver12, Uniform;
    var lo := WindowStart(cs, c);
    UniformIsWellFormed(cs, cores, lo - 1, c + 1);
    var best := SixtyPassPublishes(cs, cores, c);
    LargestMeanUnique(cs, cores, lo, c + 1, best);
    MeanZeroIff(cs, cores, lo, c + 1, best);
    ScaledEqualIff(best, c + 1 - lo);
  }

  lemma LargestMeanUnique(cs: seq<Collection>, cores: set<string>, lo: nat, hi: nat, best: real)
    requires IsLargestMean(cs, cores, lo, hi, best)
    ensures forall m :: IsLargestMean(cs, cores, lo, hi, m) <==> m == best
  {
    hide Mean;
  }

  ghost predicate WindowAdvances(cs: seq<Collection>, cores: set<string>, lo: nat, hi: nat) {
    && Uniform(cs, cores, lo - 1, hi)
    && forall k, i :: k in cores && lo <= i < hi ==> CoreAdvances(cs, cores, k, i)
  }

  /** When no CPU counter but iowait goes back, every mean so published lies in [0, 100]. */
  lemma PublishedMeanWithinBounds(cs: seq<Collection>, cores: set<string>, lo: nat, c: nat)
    requires PublishesMean(cs, cores, lo, c) && WindowAdvances(cs, cores, lo, c + 1)
    ensures 0.0 <= PublishedBy(cs, c) <= 100.0
  {
    hide Clean, Lists, Mean, After, UsageAt, CoreAdvances, Uniform;
    var k :| k in cores && Mean(cs, cores, k, lo, c + 1) == PublishedBy(cs, c);
    forall i | lo <= i < c + 1
      ensures Uniform(cs, cores, i - 1, i + 1) && UsageAt(cs, cores, k, i) <= 100.0
    {
      UniformPart(cs, cores, lo - 1, c + 1, i - 1, i + 1);
      AdvancingCoreUsage(cs, cores, k, i);
    }
    MeanBounds(cs, cores, k, lo, c + 1);
  }

  /** Every usage from lo to hi - 1 is 100%. */
  ghost predicate FullyBusy(cs: seq<Collection>, cores: set<string>, lo: nat, hi: nat) {
    && Uniform(cs, cores, lo - 1, hi) && lo <= hi
    && forall k, i :: k in cores && lo <= i < hi ==> UsageAt(cs, cores, k, i) == 100.0
  }

  lemma FullyBusyPublishes(cs: seq<Collection>, cores: set<string>, c: nat)
    requires 1 <= c < |cs| && cs[c].sixty && FullyBusy(cs, cores, WindowStart(cs, c), c + 1)
    ensures PublishesOne(cs, c) && PublishedBy(cs, c) == 100.0 * (c + 1 - WindowStart(cs, c)) as real / 12.0
  {
    hide Clean, Lists, Mean, After, UsageAt, WindowStart, UsageSum;
    var best := SixtyPassPublishes(cs, cores, c);
    var k :| k in cores && Mean(cs, cores, k, WindowStart(cs, c), c + 1) == best;
    FullyBusyMean(cs, cores, k, WindowStart(cs, c), c + 1);
  }

  lemma ScaledEqualIff(x: real, n: nat)
    ensures TotalOver12(x, n) == x <==> x == 0.0 || n == 12
  {
    var y := n as real - 12.0;
    assert x * n as real == x * y + 12.0 * x;
    if y != 0.0 && x != 0.0 {
      NonZeroProduct(x, y);
    }
  }

  lemma MeanZeroIff(cs: seq<Collection>, cores: set<string>, lo: nat, hi: nat, best: real)
    requires IsLargestMean(cs, cores, lo, hi, best)
    ensures best == 0.0 <==> AllIdle(cs, cores, lo, hi)
  {
    hide UsageAt, UsageSum, Clean, Lists;
    var n := (hi - lo) as real;
    forall k | k in cores
      ensures Mean(cs, cores, k, lo, hi) >= 0.0
      ensures Mean(cs, cores, k, lo, hi) == 0.0 <==> UsageSum(cs, cores, k, lo, hi) == 0.0
    {
      UsageSumNonNegative(cs, cores, k, lo, hi);
      QuotientNonNegative(UsageSum(cs, cores, k, lo, hi), n);
      QuotientTimes(UsageSum(cs, cores, k, lo, hi), n);
    }
  }
}
