/** CPU time against wall time: one tracker turns one counter into percentages. */
module CpuRateTrackers {
  import opened Text
  import opened Reals

  /** A counter value as read: whose it is, its microseconds, and the steady clock in nanoseconds. */
  datatype Sample<Id> = Sample(id: Id, counterUs: u64, at: int)

  /** duration_cast to microseconds drops the remainder toward zero. */
  function WallUs(from: int, to: int): int {
    if to >= from then (to - from) / 1000 else -((from - to) / 1000)
  }

  /** The percentage two successive samples justify: same identity, no step back, time elapsed. */
  function Rate<Id(==)>(prev: Option<Sample<Id>>, cur: Sample<Id>): (pct: Option<real>)
    ensures pct.Some? ==> pct.value >= 0.0
  {
    if prev.None? || prev.value.id != cur.id || cur.counterUs < prev.value.counterUs then None
    else
      var wallUs := WallUs(prev.value.at, cur.at);
      var growth := (cur.counterUs - prev.value.counterUs) as real;
      if wallUs <= 0 then None
      else
        QuotientNonNegative(100.0 * growth, wallUs as real);
        Some(100.0 * growth / wallUs as real)
  }

  class CpuRateTracker<Id(==,0)> {
    var id: Id
    var counterUs: u64
    var at: int
    var valid: bool

    function Last(): Option<Sample<Id>>
      reads this
    {
      if valid then Some(Sample(id, counterUs, at)) else None
    }

    constructor ()
      ensures Last() == None
    {
      counterUs, at, valid := 0, 0, false;
    }

    method Update(newId: Id, newCounterUs: u64, now: int) returns (pct: Option<real>)
      modifies this
      ensures pct == Rate(old(Last()), Sample(newId, newCounterUs, now))
      ensures Last() == Some(Sample(newId, newCounterUs, now))
    {
      pct := None;
      if valid && newId == id && newCounterUs >= counterUs {
        var wallUs := WallUs(at, now);
        if wallUs > 0 {
          pct := Some(100.0 * (newCounterUs - counterUs) as real / wallUs as real);
        }
      }
      id, counterUs, at, valid := newId, newCounterUs, now, true;
    }
  }

  // ---------- whole runs of one tracker ----------

  /** What the tracker returns for sample i of a run. */
  function RateAt<Id(==)>(s: seq<Sample<Id>>, i: nat): Option<real>
    requires i < |s|
  {
    Rate(if i == 0 then None else Some(s[i - 1]), s[i])
  }

  /** CPU microseconds the first n published percentages stand for: percentage x wall / 100. */
  function PublishedWork<Id(==)>(s: seq<Sample<Id>>, n: nat): real
    requires n <= |s|
  {
    if n == 0 then 0.0
    else PublishedWork(s, n - 1)
         + if RateAt(s, n - 1).None? then 0.0
           else RateAt(s, n - 1).value * WallUs(s[n - 2].at, s[n - 1].at) as real / 100.0
  }

  /** How far the counter grew over the intervals that were published. */
  function PublishedGrowth<Id(==)>(s: seq<Sample<Id>>, n: nat): int
    requires n <= |s|
  {
    if n == 0 then 0
    else PublishedGrowth(s, n - 1)
         + if RateAt(s, n - 1).None? then 0 else s[n - 1].counterUs - s[n - 2].counterUs
  }

  lemma RateTimesWall<Id>(prev: Sample<Id>, cur: Sample<Id>)
    requires Rate(Some(prev), cur).Some?
    ensures Rate(Some(prev), cur).value * WallUs(prev.at, cur.at) as real
            == 100.0 * (cur.counterUs - prev.counterUs) as real
  {
    QuotientTimes(100.0 * (cur.counterUs - prev.counterUs) as real, WallUs(prev.at, cur.at) as real);
  }

  lemma RateDefinedIff<Id>(prev: Sample<Id>, cur: Sample<Id>)
    ensures Rate(Some(prev), cur).Some?
            <==> prev.id == cur.id && prev.counterUs <= cur.counterUs && WallUs(prev.at, cur.at) > 0
  {
  }

  /** In nanoseconds of the clock: a percentage exists when the owner is the same, the counter did not step
      back and a microsecond has passed, and it is the growth per whole microseconds of that time. */
  lemma RateInNanoseconds<Id>(prev: Sample<Id>, cur: Sample<Id>)
    ensures Rate(Some(prev), cur).Some?
            <==> prev.id == cur.id && prev.counterUs <= cur.counterUs && cur.at - prev.at >= 1_000
    ensures Rate(Some(prev), cur).Some? ==>
        Rate(Some(prev), cur).value
        == 100.0 * (cur.counterUs - prev.counterUs) as real / ((cur.at - prev.at) / 1_000) as real
  {
  }

  /** Conservation over any run: restarts, resets, clock jumps and all. */
  lemma {:induction false} WorkIsGrowth<Id>(s: seq<Sample<Id>>, n: nat)
    requires n <= |s|
    ensures PublishedWork(s, n) == PublishedGrowth(s, n) as real
  {
    hide Rate, WallUs;
    if n > 0 {
      WorkIsGrowth(s, n - 1);
      if RateAt(s, n - 1).Some? {
        assert n > 1 by { FirstSampleIsQuiet(s); }
        RateTimesWall(s[n - 2], s[n - 1]);
      }
    }
  }

  lemma FirstSampleIsQuiet<Id>(s: seq<Sample<Id>>)
    requires |s| > 0
    ensures RateAt(s, 0) == None
  {
  }

  /** One identity, a counter that does not step back, timestamps that advance by whole microseconds. */
  ghost predicate OneGeneration<Id>(s: seq<Sample<Id>>) {
    forall i :: 0 < i < |s| ==>
      s[i].id == s[i - 1].id && s[i - 1].counterUs <= s[i].counterUs && WallUs(s[i - 1].at, s[i].at) > 0
  }

  /** Within a generation every sample after the first is published and the work telescopes. */
  lemma {:induction false} GenerationTelescopes<Id>(s: seq<Sample<Id>>, n: nat)
    requires OneGeneration(s) && 0 < n <= |s|
    ensures forall i :: 0 < i < n ==> RateAt(s, i).Some?
    ensures PublishedWork(s, n) == (s[n - 1].counterUs - s[0].counterUs) as real
  {
    hide PublishedWork;
    WorkIsGrowth(s, n);
    if n > 1 {
      GenerationTelescopes(s, n - 1);
      WorkIsGrowth(s, n - 1);
    } else {
      FirstSampleIsQuiet(s);
      assert PublishedGrowth(s, n - 1) == 0;
    }
  }

  /** Sum of the wall times of the intervals a + 1 .. b. */
  function WallSum<Id>(s: seq<Sample<Id>>, a: nat, b: nat): int
    requires a <= b < |s|
  {
    if a == b then 0 else WallSum(s, a, b - 1) + WallUs(s[b - 1].at, s[b].at)
  }

  /** Sum of percentage x wall over the intervals a + 1 .. b. */
  function WeightedRates<Id(==)>(s: seq<Sample<Id>>, a: nat, b: nat): real
    requires a <= b < |s| && forall i :: 0 < i < |s| ==> RateAt(s, i).Some?
  {
    if a == b then 0.0
    else WeightedRates(s, a, b - 1) + RateAt(s, b).value * WallUs(s[b - 1].at, s[b].at) as real
  }

  /** The wall time of a gap is the sum of its intervals, up to the fractions of microseconds dropped. */
  lemma {:induction false} WallOfGap<Id>(s: seq<Sample<Id>>, a: nat, b: nat)
    requires OneGeneration(s) && a < b < |s|
    ensures s[a].at < s[b].at && s[a].id == s[b].id && s[a].counterUs <= s[b].counterUs
    ensures 0 < WallSum(s, a, b) <= WallUs(s[a].at, s[b].at) < WallSum(s, a, b) + (b - a)
  {
    if a < b - 1 {
      WallOfGap(s, a, b - 1);
    }
  }

  lemma {:induction false} WallOfAlignedGap<Id>(s: seq<Sample<Id>>, a: nat, b: nat)
    requires OneGeneration(s) && a < b < |s| && forall i :: 0 <= i < |s| ==> s[i].at % 1000 == 0
    ensures s[a].at < s[b].at && WallSum(s, a, b) == WallUs(s[a].at, s[b].at)
  {
    WallOfGap(s, a, b);
    WallOfGap(s, b - 1, b);
    if a < b - 1 {
      hide WallUs;
      WallOfAlignedGap(s, a, b - 1);
      AlignedWallsAdd(s[a].at, s[b - 1].at, s[b].at);
    }
  }

  lemma AlignedWallsAdd(x: int, y: int, z: int)
    requires x <= y <= z && x % 1000 == 0 && y % 1000 == 0 && z % 1000 == 0
    ensures WallUs(x, y) + WallUs(y, z) == WallUs(x, z)
  {
  }

  lemma {:induction false} WeightedRatesAreGrowth<Id>(s: seq<Sample<Id>>, a: nat, b: nat)
    requires OneGeneration(s) && a <= b < |s| && forall i :: 0 < i < |s| ==> RateAt(s, i).Some?
    ensures WeightedRates(s, a, b) == 100.0 * (s[b].counterUs - s[a].counterUs) as real
  {
    hide Rate, WallUs;
    if a < b {
      WeightedRatesAreGrowth(s, a, b - 1);
      assert RateAt(s, b) == Rate(Some(s[b - 1]), s[b]);
      RateTimesWall(s[b - 1], s[b]);
    }
  }

  /** A tracker that skips the samples between a and b reports one percentage for the gap, and over the
      gap it weighs exactly what the finer percentages weigh together. */
  lemma SkippingWeighsTheSame<Id>(s: seq<Sample<Id>>, a: nat, b: nat)
    requires OneGeneration(s) && a < b < |s|
    ensures forall i :: 0 < i < |s| ==> RateAt(s, i).Some?
    ensures Rate(Some(s[a]), s[b]).Some?
    ensures Rate(Some(s[a]), s[b]).value * WallUs(s[a].at, s[b].at) as real == WeightedRates(s, a, b)
  {
    hide PublishedWork, PublishedGrowth, WeightedRates, OneGeneration, Rate, RateAt, WallUs, WallSum;
    RateDefinedIff(s[a], s[b]);
    GenerationTelescopes(s, |s|);
    WallOfGap(s, a, b);
    WeightedRatesAreGrowth(s, a, b);
    RateTimesWall(s[a], s[b]);
  }

  /** It is their wall-weighted mean if and only if no fraction of a microsecond was dropped on the way, or
      the counter stood still. */
  lemma SkippingAveragesIff<Id>(s: seq<Sample<Id>>, a: nat, b: nat)
    requires OneGeneration(s) && a < b < |s|
    ensures forall i :: 0 < i < |s| ==> RateAt(s, i).Some?
    ensures WallSum(s, a, b) > 0
    ensures Rate(Some(s[a]), s[b]) == Some(WeightedRates(s, a, b) / WallSum(s, a, b) as real)
            <==> WallSum(s, a, b) == WallUs(s[a].at, s[b].at) || s[a].counterUs == s[b].counterUs
  {
    hide Rate, WallUs, RateAt, WallSum, WeightedRates, OneGeneration;
    SkippingWeighsTheSame(s, a, b);
    WallOfGap(s, a, b);
    WeightedRatesAreGrowth(s, a, b);
    SameQuotient(WeightedRates(s, a, b), Rate(Some(s[a]), s[b]).value, WallUs(s[a].at, s[b].at), WallSum(s, a, b));
  }

  lemma SameQuotient(w: real, q: real, x: int, y: int)
    requires x > 0 && y > 0 && q * x as real == w
    ensures q == w / y as real <==> x == y || w == 0.0
  {
    var p := w / y as real;
    QuotientTimes(w, y as real);
    if q == p {
      assert q * (x - y) as real == q * x as real - q * y as real == 0.0;
      if q != 0.0 && x != y {
        NonZeroProduct(q, (x - y) as real);
      }
    }
    if x == y {
      QuotientUnique(q, w, y as real);
    }
    if w == 0.0 {
      SignOfProduct(q, x as real);
      SignOfProduct(p, y as real);
    }
  }

  /** So it is with timestamps in whole microseconds. */
  lemma SkippingAverages<Id>(s: seq<Sample<Id>>, a: nat, b: nat)
    requires OneGeneration(s) && a < b < |s| && forall i :: 0 <= i < |s| ==> s[i].at % 1000 == 0
    ensures forall i :: 0 < i < |s| ==> RateAt(s, i).Some?
    ensures WallSum(s, a, b) > 0
    ensures Rate(Some(s[a]), s[b]) == Some(WeightedRates(s, a, b) / WallSum(s, a, b) as real)
  {
    hide Rate, WallUs, RateAt, WallSum, WeightedRates, OneGeneration;
    WallOfAlignedGap(s, a, b);
    SkippingAveragesIff(s, a, b);
  }

  // ---------- jiffies to microseconds ----------

  /** (uTime + sTime) * 1'000'000 / clkTck in 64-bit unsigned arithmetic. */
  function ToMicros(uTime: u64, sTime: u64, clkTck: u64): u64
    requires clkTck > 0
  {
    ((uTime + sTime) % U64 * 1_000_000 % U64) / clkTck
  }

  lemma WrappedProduct(j: nat)
    ensures j % U64 * 1_000_000 % U64 == j * 1_000_000 % U64
  {
    var q := j / U64;
    assert j * 1_000_000 == j % U64 * 1_000_000 + q * 1_000_000 * U64;
    AddMultiple(j % U64 * 1_000_000, q * 1_000_000);
  }

  lemma {:induction false} AddMultiple(x: nat, k: nat)
    ensures (x + k * U64) % U64 == x % U64
  {
    if k > 0 {
      AddMultiple(x, k - 1);
      assert x + k * U64 == (x + (k - 1) * U64) + U64;
    }
  }

  lemma RemainderFalls(x: nat)
    ensures x < U64 ==> x % U64 == x
    ensures x >= U64 ==> x % U64 + U64 <= x
  {
  }

  lemma SameQuotientIff(x: nat, y: nat, c: nat)
    requires c > 0 && (x == y || x + c <= y)
    ensures x / c == y / c <==> x == y
  {
    if x < y {
      QuotientGrows(x, y, c);
    }
  }

  lemma MicrosOf(uTime: u64, sTime: u64, clkTck: u64)
    requires clkTck > 0
    ensures ToMicros(uTime, sTime, clkTck) == (uTime + sTime) * 1_000_000 % U64 / clkTck
  {
    WrappedProduct(uTime + sTime);
  }

  /** The conversion is exact (up to the floor) if and only if the product fits 64 bits. */
  lemma MicrosExactIff(uTime: u64, sTime: u64, clkTck: u64)
    requires clkTck > 0
    ensures ToMicros(uTime, sTime, clkTck) == (uTime + sTime) * 1_000_000 / clkTck
            <==> (uTime + sTime) * 1_000_000 < U64
  {
    hide ToMicros;
    var x := (uTime + sTime) * 1_000_000;
    MicrosOf(uTime, sTime, clkTck);
    RemainderFalls(x);
    SameQuotientIff(x % U64, x, clkTck);
  }

  lemma FlooredDifference(x: nat, y: nat, c: nat)
    requires c > 0 && x <= y
    ensures x / c <= y / c
    ensures -1.0 < (y / c - x / c) as real - (y - x) as real / c as real < 1.0
  {
    FloorOfQuotient(x, c);
    FloorOfQuotient(y, c);
    QuotientDifference(x as real, y as real, c as real);
    QuotientOrder(x as real, y as real, c as real);
  }

  /** Within 64 bits the conversion never steps back, and however many samples a generation has, its
      total growth in microseconds is off the exact one by less than 1 us. */
  lemma MicrosDriftUnderOne(u0: u64, s0: u64, u1: u64, s1: u64, clkTck: u64)
    requires clkTck > 0 && u0 + s0 <= u1 + s1 && (u1 + s1) * 1_000_000 < U64
    ensures ToMicros(u0, s0, clkTck) <= ToMicros(u1, s1, clkTck)
    ensures var drift := (ToMicros(u1, s1, clkTck) - ToMicros(u0, s0, clkTck)) as real
                         - ((u1 + s1 - u0 - s0) * 1_000_000) as real / clkTck as real;
            -1.0 < drift < 1.0
  {
    hide ToMicros;
    MicrosExactIff(u0, s0, clkTck);
    MicrosExactIff(u1, s1, clkTck);
    FlooredDifference((u0 + s0) * 1_000_000, (u1 + s1) * 1_000_000, clkTck);
  }
}
