/** The per-core utilization window: a hand-built distribution summary and a sixty-second maximum. */
module CoreUtilization {
  import opened Text
  import opened CpuShares
  import opened AggregateGauges

  type Line = seq<string>

  // ---------- reading /proc/stat ----------

  predicate IsCpuLine(fields: Line) {
    fields != [] && "cpu" <= fields[0]
  }

  predicate Malformed(fields: Line) {
    IsCpuLine(fields) && |fields| != CPU_FIELDS
  }

  function CpuLinesOf(stat: seq<Line>): (lines: seq<Line>)
    ensures forall l :: l in lines <==> l in stat && IsCpuLine(l)
  {
    if stat == [] then []
    else
      var n := |stat| - 1;
      CpuLinesOf(stat[..n]) + if IsCpuLine(stat[n]) then [stat[n]] else []
  }

  /** All cpu lines in file order, or nothing when one of them is malformed. */
  ghost function StatLines(stat: seq<Line>): seq<Line> {
    if exists l :: l in stat && Malformed(l) then [] else CpuLinesOf(stat)
  }

  lemma OneMoreStatLine(stat: seq<Line>, l: Line)
    ensures CpuLinesOf([]) == []
    ensures CpuLinesOf(stat + [l]) == CpuLinesOf(stat) + if IsCpuLine(l) then [l] else []
  {
    hide IsCpuLine;
    assert (stat + [l])[..|stat|] == stat;
  }

  lemma {:induction false} CpuLinesOfConcat(a: seq<Line>, b: seq<Line>)
    ensures CpuLinesOf(a + b) == CpuLinesOf(a) + CpuLinesOf(b)
  {
    hide IsCpuLine, CpuLinesOf;
    if b == [] {
      OneMoreStatLine([], []);
      assert a + b == a;
    } else {
      var init, l := b[..|b| - 1], b[|b| - 1];
      CpuLinesOfConcat(a, init);
      OneMoreStatLine(a + init, l);
      OneMoreStatLine(init, l);
      assert b == init + [l] && a + b == a + init + [l];
    }
  }

  lemma {:induction false} AllOrNoCpuLines(lines: seq<Line>, all: bool)
    requires forall i :: 0 <= i < |lines| ==> IsCpuLine(lines[i]) == all
    ensures CpuLinesOf(lines) == if all then lines else []
  {
    hide IsCpuLine, CpuLinesOf;
    if lines == [] {
      OneMoreStatLine([], []);
    } else {
      var init, l := lines[..|lines| - 1], lines[|lines| - 1];
      AllOrNoCpuLines(init, all);
      OneMoreStatLine(init, l);
      assert lines == init + [l];
    }
  }

  /** What decides: whether the first field begins with "cpu". */
  predicate BeginsWithCpu(l: Line) {
    |l| >= 1 && |l[0]| >= 3 && l[0][0] == 'c' && l[0][1] == 'p' && l[0][2] == 'u'
  }

  lemma CpuLineIff(l: Line)
    ensures IsCpuLine(l) <==> BeginsWithCpu(l)
    ensures Malformed(l) <==> BeginsWithCpu(l) && |l| != 11
  {
  }

  /** The lines of a file that begin with "cpu" are kept in their order wherever the others stand; one of
      them without eleven fields empties the result. */
  lemma OnlyCpuLinesCount(before: seq<Line>, cpus: seq<Line>, after: seq<Line>)
    requires forall i :: 0 <= i < |before| ==> !BeginsWithCpu(before[i])
    requires forall i :: 0 <= i < |cpus| ==> BeginsWithCpu(cpus[i])
    requires forall i :: 0 <= i < |after| ==> !BeginsWithCpu(after[i])
    ensures StatLines(before + cpus + after) == if exists l :: l in cpus && |l| != 11 then [] else cpus
  {
    hide IsCpuLine, Malformed, BeginsWithCpu, CpuLinesOf;
    forall l ensures IsCpuLine(l) <==> BeginsWithCpu(l) ensures Malformed(l) <==> BeginsWithCpu(l) && |l| != 11 {
      CpuLineIff(l);
    }
    CpuLinesOfConcat(before + cpus, after);
    CpuLinesOfConcat(before, cpus);
    AllOrNoCpuLines(before, false);
    AllOrNoCpuLines(cpus, true);
    AllOrNoCpuLines(after, false);
    assert [] + cpus + [] == cpus;
  }

  method ParseProcStatFile(stat: seq<Line>) returns (cpuLines: seq<Line>)
    ensures cpuLines == StatLines(stat)
    ensures forall l :: l in cpuLines ==> |l| == CPU_FIELDS
  {
    cpuLines := [];
    for i := 0 to |stat|
      invariant cpuLines == CpuLinesOf(stat[..i])
      invariant forall j :: 0 <= j < i ==> !Malformed(stat[j])
    {
      assert stat[..i + 1][..i] == stat[..i];
      var fields := stat[i];
      if IsCpuLine(fields) {
        if |fields| != CPU_FIELDS {
          return [];
        }
        cpuLines := cpuLines + [fields];
      }
    }
    assert stat[..|stat|] == stat;
  }

  // ---------- the distribution summary ----------

  function Sum(u: seq<real>): real {
    if u == [] then 0.0 else Sum(u[..|u| - 1]) + u[|u| - 1]
  }

  function SumOfSquares(u: seq<real>): real {
    if u == [] then 0.0 else SumOfSquares(u[..|u| - 1]) + u[|u| - 1] * u[|u| - 1]
  }

  lemma SumAppend(u: seq<real>, x: real)
    ensures Sum(u + [x]) == Sum(u) + x && SumOfSquares(u + [x]) == SumOfSquares(u) + x * x
  {
    assert (u + [x])[..|u|] == u;
  }

  lemma AddTerm(n: nat, t: real, s: real, x: real)
    requires t * t <= n as real * s && n > 0
    ensures (t + x) * (t + x) <= (n + 1) as real * (s + x * x)
  {
    var m := n as real;
    var gap := m * x - t;
    assert gap * gap >= 0.0;
    assert m * (2.0 * t * x) <= m * (m * x * x + s);
    assert 2.0 * t * x <= m * x * x + s;
  }

  lemma {:induction false} CauchySchwarz(u: seq<real>)
    ensures SumOfSquares(u) >= 0.0
    ensures Sum(u) * Sum(u) <= |u| as real * SumOfSquares(u)
  {
    if u != [] {
      var n := |u| - 1;
      CauchySchwarz(u[..n]);
      if n > 0 {
        AddTerm(n, Sum(u[..n]), SumOfSquares(u[..n]), u[n]);
      }
    }
  }

  // ---------- one five-second collection ----------

  /** Last reading of each core, usage accumulated in this window, every usage counted so far, and every
      value set on the max gauge. */
  datatype CoreState = CoreState(prev: map<string, CpuTimes>, acc: map<string, real>,
                                 usages: seq<real>, published: seq<real>)

  const INITIAL := CoreState(map[], map[], [], [])

  function Accumulated(acc: map<string, real>, key: string): real {
    if key in acc then acc[key] else 0.0
  }

  function AfterLine(s: CoreState, key: string, cur: CpuTimes): CoreState {
    if key in s.prev then
      var u := Usage(s.prev[key], cur);
      CoreState(s.prev[key := cur], s.acc[key := Accumulated(s.acc, key) + u], s.usages + [u], s.published)
    else
      s.(prev := s.prev[key := cur])
  }

  predicate WellSized(lines: seq<Line>) {
    forall l :: l in lines ==> |l| == CPU_FIELDS
  }

  /** The state once the first n lines are done; `ok` is false when a bad number threw and ended the pass. */
  datatype Progress = Progress(state: CoreState, ok: bool)

  ghost function AfterLines(s: CoreState, lines: seq<Line>, n: nat): Progress
    requires n <= |lines| && WellSized(lines)
  {
    if n <= 1 then Progress(s, true)  // the first line is the aggregate
    else
      var p := AfterLines(s, lines, n - 1);
      if !p.ok || TimesOf(lines[n - 1]).None? then Progress(p.state, false)
      else Progress(AfterLine(p.state, lines[n - 1][0], TimesOf(lines[n - 1]).value), true)
  }

  /** The largest accumulated usage, or 0 when there is none above it. */
  ghost predicate IsWindowMax(acc: map<string, real>, m: real) {
    && m >= 0.0
    && (forall k :: k in acc ==> acc[k] <= m)
    && (m == 0.0 || exists k :: k in acc && acc[k] == m)
  }

  lemma {:induction false} WindowMaxExists(acc: map<string, real>) returns (m: real)
    ensures IsWindowMax(acc, m)
    decreases |acc|
  {
    if acc == map[] {
      m := 0.0;
    } else {
      var k :| k in acc;
      var rest := acc - {k};
      assert rest.Keys == acc.Keys - {k};
      m := WindowMaxExists(rest);
      assert forall j :: j in rest ==> j in acc && acc[j] == rest[j];
      m := if acc[k] > m then acc[k] else m;
    }
  }

  ghost function WindowMax(acc: map<string, real>): (m: real)
    ensures IsWindowMax(acc, m)
  {
    assert exists m :: IsWindowMax(acc, m) by { var m := WindowMaxExists(acc); }
    var m :| IsWindowMax(acc, m);
    m
  }

  ghost function Collect(s: CoreState, lines: seq<Line>, sixty: bool): CoreState
    requires WellSized(lines)
  {
    var p := AfterLines(s, lines, |lines|);
    if lines == [] then s else if p.ok && sixty then Publish(p.state) else p.state
  }

  ghost function Publish(s: CoreState): CoreState {
    if s.acc == map[] then s
    else s.(acc := map[], published := s.published + [WindowMax(s.acc) / 12.0])
  }

  /** The static state of the collector. The counters are the published distribution summary. */
  class Proc {
    const utilization: GaugeSeries  // set every sixty seconds
    const peak: GaugeSeries  // set every second
    var numProcessors: Option<nat>  // set every sixty seconds
    var previousCpuStats: map<string, CpuTimes>
    var previousCoreUsages: map<string, real>
    var counterCount: nat
    var counterTotal: real
    var counterTotalSquares: real
    ghost var usages: seq<real>
    ghost var published: seq<real>

    ghost function State(): CoreState
      reads this
    {
      CoreState(previousCpuStats, previousCoreUsages, usages, published)
    }

    /** The three counters are those of the usages counted so far. */
    ghost predicate Valid()
      reads this
    {
      && utilization != peak
      && counterCount == |usages| && counterTotal == Sum(usages) && counterTotalSquares == SumOfSquares(usages)
    }

    constructor ()
      ensures Valid() && State() == INITIAL && numProcessors == None && fresh(utilization) && fresh(peak)
      ensures utilization.State() == EMPTY && peak.State() == EMPTY
    {
      utilization := new GaugeSeries();
      peak := new GaugeSeries();
      numProcessors, previousCpuStats, previousCoreUsages := None, map[], map[];
      counterCount, counterTotal, counterTotalSquares := 0, 0.0, 0.0;
      usages, published := [], [];
    }

    method FindMaxUsage() returns (maxUsage: real)
      ensures maxUsage == WindowMax(previousCoreUsages)
    {
      maxUsage := 0.0;
      var rest := previousCoreUsages.Keys;
      while rest != {}
        invariant rest <= previousCoreUsages.Keys && maxUsage >= 0.0
        invariant forall k :: k in previousCoreUsages && k !in rest ==> previousCoreUsages[k] <= maxUsage
        invariant maxUsage == 0.0 || exists k :: k in previousCoreUsages && previousCoreUsages[k] == maxUsage
      {
        var key :| key in rest;
        if previousCoreUsages[key] > maxUsage {
          maxUsage := previousCoreUsages[key];
        }
        rest := rest - {key};
      }
      assert IsWindowMax(previousCoreUsages, maxUsage);
    }

    method CountCore(key: string, currentStats: CpuTimes)
      requires Valid()
      modifies this
      ensures Valid() && numProcessors == old(numProcessors) && State() == AfterLine(old(State()), key, currentStats)
    {
      hide Usage;
      if key in previousCpuStats {
        var usage := Usage(previousCpuStats[key], currentStats);
        SumAppend(usages, usage);
        counterCount := counterCount + 1;
        counterTotal := counterTotal + usage;
        counterTotalSquares := counterTotalSquares + usage * usage;
        usages := usages + [usage];
        previousCoreUsages := previousCoreUsages[key := Accumulated(previousCoreUsages, key) + usage];
      }
      previousCpuStats := previousCpuStats[key := currentStats];
    }

    method PublishMax()
      requires Valid()
      modifies this
      ensures Valid() && numProcessors == old(numProcessors) && State() == Publish(old(State()))
    {
      if previousCoreUsages != map[] {
        var maxUsage := FindMaxUsage();
        published := published + [maxUsage / 12.0];
        previousCoreUsages := map[];
      }
    }

    /** The loop over the cores; a bad number throws out of it (ok is false) and the cores before it stay
        counted. */
    method CountCores(cpuLines: seq<Line>) returns (ok: bool)
      requires Valid() && cpuLines != [] && WellSized(cpuLines)
      modifies this
      ensures Valid() && Progress(State(), ok) == AfterLines(old(State()), cpuLines, |cpuLines|)
      ensures numProcessors == old(numProcessors)
    {
      hide Usage, TimesOf;
      ghost var before := State();
      for i := 1 to |cpuLines|
        invariant Valid() && numProcessors == old(numProcessors)
        invariant Progress(State(), true) == AfterLines(before, cpuLines, i)
      {
        var fields := cpuLines[i];
        assert |fields| == CPU_FIELDS;
        var parsed := CpuStatFields(fields);
        if parsed.None? {
          AbortKeepsState(before, cpuLines, i + 1, |cpuLines|);
          return false;
        }
        CountCore(fields[0], parsed.value);
      }
      ok := true;
    }

    /** After a throw nothing is published and the window is not cleared. */
    method UpdateCoreUtilization(cpuLines: seq<Line>, sixtySecondMetricsEnabled: bool)
      requires Valid() && cpuLines != [] && WellSized(cpuLines)
      modifies this
      ensures Valid() && State() == Collect(old(State()), cpuLines, sixtySecondMetricsEnabled)
      ensures numProcessors == old(numProcessors)
    {
      var ok := CountCores(cpuLines);
      if ok && sixtySecondMetricsEnabled {
        PublishMax();
      }
    }

    method UpdateNumProcs(numberProcessors: nat)
      modifies this`numProcessors
      ensures numProcessors == Some(numberProcessors)
    {
      numProcessors := Some(numberProcessors);
    }

    /** Without cpu lines nothing happens; else the aggregate line feeds the utilization gauges on a
        sixty-second pass (which counts the cores, too) and the peak gauges on every pass, and the cores
        feed the window. */
    method CpuStats(stat: seq<Line>, fiveSecondMetrics: bool, sixtySecondMetricsEnabled: bool)
      requires Valid()
      modifies this, utilization, peak
      ensures Valid()
      ensures State() == if fiveSecondMetrics then Collect(old(State()), StatLines(stat), sixtySecondMetricsEnabled)
                         else old(State())
      ensures StatLines(stat) == [] ==>
          && utilization.State() == old(utilization.State()) && peak.State() == old(peak.State())
          && numProcessors == old(numProcessors)
      ensures StatLines(stat) != [] ==>
          && |StatLines(stat)[0]| == CPU_FIELDS
          && peak.State() == GaugeStep(old(peak.State()), StatLines(stat)[0])
          && numProcessors == (if sixtySecondMetricsEnabled then Some(|StatLines(stat)| - 1) else old(numProcessors))
          && utilization.State()
             == if sixtySecondMetricsEnabled then GaugeStep(old(utilization.State()), StatLines(stat)[0])
                else old(utilization.State())
    {
      hide AfterLines, Publish, GaugeStep, StatLines;
      var cpuLines := ParseProcStatFile(stat);
      if cpuLines == [] {
        return;
      }
      assert cpuLines[0] in cpuLines;
      if sixtySecondMetricsEnabled {
        utilization.Update(cpuLines[0]);
        UpdateNumProcs(|cpuLines| - 1);
      }
      if fiveSecondMetrics {
        UpdateCoreUtilization(cpuLines, sixtySecondMetricsEnabled);
      }
      peak.Update(cpuLines[0]);
    }
  }

  /** After every call, aborted ones included, the published counters satisfy Cauchy-Schwarz. */
  lemma SummaryIsConsistent(p: Proc)
    requires p.Valid()
    ensures p.counterTotal * p.counterTotal <= p.counterCount as real * p.counterTotalSquares
  {
    CauchySchwarz(p.usages);
  }

  lemma {:induction false} AbortKeepsState(s: CoreState, lines: seq<Line>, n: nat, m: nat)
    requires n <= m <= |lines| && WellSized(lines) && !AfterLines(s, lines, n).ok
    ensures AfterLines(s, lines, m) == AfterLines(s, lines, n)
  {
    hide Usage, TimesOf, AfterLine;
    if n < m {
      AbortKeepsState(s, lines, n, m - 1);
    }
  }
}
