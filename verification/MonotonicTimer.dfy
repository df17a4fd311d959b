/** A timer fed with the kernel's running totals of time and operations. */
module MonotonicTimers {

  /** One reading of the two totals; the time is in seconds. */
  datatype Reading = Reading(time: real, count: int)

  datatype Totals = Totals(time: real, count: int)

  /** What one update adds, given the previous reading (count 0 before the first). */
  function Added(prev: Reading, cur: Reading): Totals {
    if prev.count > 0 && cur.count > prev.count && cur.time >= prev.time
    then Totals(cur.time - prev.time, cur.count - prev.count)
    else Totals(0.0, 0)
  }

  class MonotonicTimer {
    var prevTime: real
    var prevCount: int
    var totalTime: real
    var count: int

    constructor ()
      ensures prevCount == 0 && prevTime == 0.0 && totalTime == 0.0 && count == 0
    {
      prevTime, prevCount, totalTime, count := 0.0, 0, 0.0, 0;
    }

    method Update(monotonicTime: real, monotonicCount: int)
      modifies this
      ensures prevTime == monotonicTime && prevCount == monotonicCount
      ensures var added := Added(Reading(old(prevTime), old(prevCount)), Reading(monotonicTime, monotonicCount));
              totalTime == old(totalTime) + added.time && count == old(count) + added.count
    {
      if prevCount > 0 {
        var deltaCount := monotonicCount - prevCount;
        if deltaCount > 0 {
          var seconds := monotonicTime - prevTime;
          if seconds >= 0.0 {
            totalTime := totalTime + seconds;
            count := count + deltaCount;
          }
        }
      }
      prevTime := monotonicTime;
      prevCount := monotonicCount;
    }
  }

  /** The reading before update i; none yet is a count of 0. */
  function Before(s: seq<Reading>, i: nat): Reading
    requires i <= |s|
  {
    if i == 0 then Reading(0.0, 0) else s[i - 1]
  }

  /** Everything published by the first n updates. */
  function Published(s: seq<Reading>, n: nat): Totals
    requires n <= |s|
  {
    if n == 0 then Totals(0.0, 0)
    else
      var t, a := Published(s, n - 1), Added(Before(s, n - 1), s[n - 1]);
      Totals(t.time + a.time, t.count + a.count)
  }

  /** Over any updates the two counters move together or not at all, and never back. */
  lemma {:induction false} CountersMoveTogether(s: seq<Reading>, m: nat, n: nat)
    requires m <= n <= |s|
    ensures var a, b := Published(s, m), Published(s, n);
            a.time <= b.time && a.count <= b.count && (a.time < b.time ==> a.count < b.count)
  {
    if m < n {
      CountersMoveTogether(s, m, n - 1);
    }
  }

  /** Totals as a kernel reports them: neither goes back, no count is negative. */
  ghost predicate Monotonic(s: seq<Reading>) {
    && (forall i :: 0 <= i < |s| ==> s[i].count >= 0)
    && forall i :: 0 < i < |s| ==> s[i - 1].time <= s[i].time && s[i - 1].count <= s[i].count
  }

  /** The first positive count among the first n readings (the last count when there is none). */
  function FirstPositive(s: seq<Reading>, n: nat): int
    requires 0 < n <= |s|
  {
    if n == 1 || FirstPositive(s, n - 1) <= 0 then s[n - 1].count else FirstPositive(s, n - 1)
  }

  /** The published count is the last count minus the first positive one: the operations up to there are
      lost. It is last minus first exactly when the first count is positive or no count is. */
  lemma {:induction false} CountTelescopes(s: seq<Reading>, n: nat)
    requires Monotonic(s) && 0 < n <= |s|
    ensures 0 <= FirstPositive(s, n) <= s[n - 1].count && s[0].count <= FirstPositive(s, n)
    ensures FirstPositive(s, n) == 0 <==> s[n - 1].count == 0
    ensures s[0].count > 0 ==> FirstPositive(s, n) == s[0].count
    ensures Published(s, n).count == s[n - 1].count - FirstPositive(s, n)
    ensures Published(s, n).count == s[n - 1].count - s[0].count <==> s[0].count > 0 || s[n - 1].count == 0
  {
    if n > 1 {
      CountTelescopes(s, n - 1);
      assert Published(s, n).count == Published(s, n - 1).count + Added(s[n - 2], s[n - 1]).count;
    } else {
      assert Published(s, 0) == Totals(0.0, 0);
    }
  }

  /** The time that passed between readings of the same count. */
  function FlatTime(s: seq<Reading>, n: nat): real
    requires n <= |s|
  {
    if n <= 1 then 0.0
    else FlatTime(s, n - 1) + if s[n - 1].count == s[n - 2].count then s[n - 1].time - s[n - 2].time else 0.0
  }

  /** With positive counts the published time is the last minus the first, less the time that passed while
      the count stood still: at most last minus first, and equal when the count rises at every step. */
  lemma {:induction false} TimeTelescopes(s: seq<Reading>, n: nat)
    requires Monotonic(s) && 0 < n <= |s| && s[0].count > 0
    ensures Published(s, n).time == s[n - 1].time - s[0].time - FlatTime(s, n)
    ensures FlatTime(s, n) >= 0.0 && s[n - 1].count > 0
    ensures (forall i :: 0 < i < n ==> s[i - 1].count < s[i].count) ==> FlatTime(s, n) == 0.0
  {
    if n > 1 {
      TimeTelescopes(s, n - 1);
      assert Published(s, n).time == Published(s, n - 1).time + Added(s[n - 2], s[n - 1]).time;
    } else {
      assert Published(s, 0) == Totals(0.0, 0);
    }
  }
}
