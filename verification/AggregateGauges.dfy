/** The whole-machine utilization and peak gauges: shares between consecutive aggregate lines. */
module AggregateGauges {
  import opened Text
  import opened CpuShares

  /** The baseline, and everything set on the six gauges. */
  datatype GaugeState = GaugeState(previous: Option<CpuTimes>, published: seq<Shares>)

  const EMPTY := GaugeState(None, [])

  /** One aggregate line; a bad number throws before anything changes. */
  ghost function GaugeStep(s: GaugeState, line: seq<string>): GaugeState
    requires |line| == CPU_FIELDS
  {
    var current := TimesOf(line);
    if current.None? then s
    else GaugeState(current, s.published + if s.previous.None? then []
                                           else [ComputeGaugeValues(s.previous.value, current.value)])
  }

  class GaugeSeries {
    var previousAggregateStats: Option<CpuTimes>
    ghost var published: seq<Shares>

    ghost function State(): GaugeState
      reads this
    {
      GaugeState(previousAggregateStats, published)
    }

    constructor ()
      ensures State() == EMPTY
    {
      previousAggregateStats, published := None, [];
    }

    method Update(aggregateLine: seq<string>)
      requires |aggregateLine| == CPU_FIELDS
      modifies this
      ensures State() == GaugeStep(old(State()), aggregateLine)
    {
      hide TimesOf;
      var parsed := CpuStatFields(aggregateLine);
      if parsed.None? {
        return;
      }
      if previousAggregateStats.Some? {
        published := published + [ComputeGaugeValues(previousAggregateStats.value, parsed.value)];
      }
      previousAggregateStats := parsed;
    }
  }

  // ---------- any sequence of lines ----------

  ghost predicate AllSized(lines: seq<seq<string>>) {
    forall i :: 0 <= i < |lines| ==> |lines[i]| == CPU_FIELDS
  }

  ghost function GaugeAfter(lines: seq<seq<string>>, n: nat): GaugeState
    requires n <= |lines| && AllSized(lines)
  {
    if n == 0 then EMPTY else GaugeStep(GaugeAfter(lines, n - 1), lines[n - 1])
  }

  lemma {:induction false} GaugePrefix(lines: seq<seq<string>>, more: seq<seq<string>>, n: nat)
    requires AllSized(lines) && AllSized(lines + more) && n <= |lines|
    ensures GaugeAfter(lines + more, n) == GaugeAfter(lines, n)
  {
    hide GaugeStep;
    if n > 0 {
      GaugePrefix(lines, more, n - 1);
      assert (lines + more)[n - 1] == lines[n - 1];
    }
  }

  lemma OneMoreLine(lines: seq<seq<string>>, line: seq<string>)
    requires AllSized(lines) && |line| == CPU_FIELDS
    ensures AllSized(lines + [line])
    ensures GaugeAfter(lines + [line], |lines| + 1) == GaugeStep(GaugeAfter(lines, |lines|), line)
  {
    hide GaugeStep;
    GaugePrefix(lines, [line], |lines|);
  }

  /** The readings of the first n lines that could be read. */
  ghost function Readable(lines: seq<seq<string>>, n: nat): seq<CpuTimes>
    requires n <= |lines| && AllSized(lines)
  {
    if n == 0 then []
    else Readable(lines, n - 1) + if TimesOf(lines[n - 1]).None? then [] else [TimesOf(lines[n - 1]).value]
  }

  /** The shares between consecutive readings. */
  function PairShares(ts: seq<CpuTimes>): seq<Shares> {
    if |ts| <= 1 then []
    else PairShares(ts[..|ts| - 1]) + [ComputeGaugeValues(ts[|ts| - 2], ts[|ts| - 1])]
  }

  lemma NoPairs()
    ensures PairShares([]) == []
  {
  }

  lemma PairSharesAppend(ts: seq<CpuTimes>, t: CpuTimes)
    ensures PairShares(ts + [t])
            == PairShares(ts) + if ts == [] then [] else [ComputeGaugeValues(ts[|ts| - 1], t)]
  {
    hide ComputeGaugeValues;
    assert (ts + [t])[..|ts|] == ts;
  }

  /** One value for each two consecutive readings, every share of it from the counter of its name. */
  ghost predicate SharesBetween(published: seq<Shares>, ts: seq<CpuTimes>) {
    && |published| == (if ts == [] then 0 else |ts| - 1)
    && forall k :: 0 <= k < |published| ==> AreShares(published[k], ts[k], ts[k + 1])
  }

  lemma {:induction false} PairSharesByName(ts: seq<CpuTimes>)
    ensures SharesBetween(PairShares(ts), ts)
  {
    hide AreShares, ComputeGaugeValues;
    if |ts| > 1 {
      PairSharesByName(ts[..|ts| - 1]);
      SharesByName(ts[|ts| - 2], ts[|ts| - 1]);
    }
  }

  /** Lines that cannot be read leave no trace: what is published are the shares between consecutive
      readable lines, and the baseline is the last readable one. */
  lemma {:induction false} GaugesArePairwise(lines: seq<seq<string>>, n: nat)
    requires n <= |lines| && AllSized(lines)
    ensures var s := GaugeAfter(lines, n); var ts := Readable(lines, n);
            && s.published == PairShares(ts)
            && (s.previous == if ts == [] then None else Some(ts[|ts| - 1]))
            && SharesBetween(s.published, ts)
  {
    hide TimesOf, ComputeGaugeValues, PairShares, SharesBetween;
    PairSharesByName(Readable(lines, n));
    if n == 0 {
      assert PairShares([]) == [] by { NoPairs(); }
    } else {
      GaugesArePairwise(lines, n - 1);
      var ts := Readable(lines, n - 1);
      if TimesOf(lines[n - 1]).Some? {
        PairSharesAppend(ts, TimesOf(lines[n - 1]).value);
      } else {
        assert ts + [] == ts;
      }
    }
  }

  /** If no counter but iowait goes back between readable lines, every gauge ever set lies in [0, 100]. */
  lemma {:induction false} GaugesWithinBounds(ts: seq<CpuTimes>, k: nat)
    requires forall i :: 0 < i < |ts| ==> Advances(ts[i - 1], ts[i])
    requires k < |PairShares(ts)|
    ensures PairShares(ts)[k].Within(0.0, 100.0)
  {
    hide ComputeGaugeValues, Advances;
    var n := |ts| - 1;
    if k < |PairShares(ts[..n])| {
      GaugesWithinBounds(ts[..n], k);
    } else {
      AdvancingUsageWithinBounds(ts[n - 1], ts[n]);
    }
  }
}
