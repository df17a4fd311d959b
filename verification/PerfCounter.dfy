/** Hardware counters read per core, scaled by the time each was running. */
module PerfCounters {
  import opened Text
  import opened Reals

  datatype PerfCount = PerfCount(rawValue: u64, timeEnabled: u64, timeRunning: u64)

  const ZERO := PerfCount(0, 0, 0)

  /** static_cast<uint64_t> drops the fraction; a quotient of 2^64 or more is outside the model. */
  function Scaled(raw: u64, enabled: u64, running: u64): int {
    (raw as real * enabled as real / (running as real + 0.5)).Floor
  }

  function DeltaFrom(cur: PerfCount, prev: PerfCount): int {
    if cur.timeRunning == 0 then 0
    else
      Scaled((cur.rawValue - prev.rawValue) % U64, (cur.timeEnabled - prev.timeEnabled) % U64,
             (cur.timeRunning - prev.timeRunning) % U64)
  }

  /** The values of one pass over the file descriptors; a closed one (negative) reads as zero. */
  function NewVals(fds: seq<int>, replies: seq<Option<PerfCount>>): (vals: seq<PerfCount>)
    requires |fds| == |replies| && forall i :: 0 <= i < |fds| && fds[i] >= 0 ==> replies[i].Some?
    ensures |vals| == |fds|
  {
    seq(|fds|, i requires 0 <= i < |fds| => if fds[i] >= 0 then replies[i].value else ZERO)
  }

  ghost predicate AnyFails(fds: seq<int>, replies: seq<Option<PerfCount>>)
    requires |fds| == |replies|
  {
    exists i :: 0 <= i < |fds| && fds[i] >= 0 && replies[i].None?
  }

  class PerfCounter {
    const fds: seq<int>
    var prevVals: seq<PerfCount>

    ghost predicate Valid()
      reads this
    {
      |prevVals| == |fds|
    }

    /** After open_events, for events opened the first time. */
    constructor (openFds: seq<int>)
      ensures fds == openFds && Valid() && forall i :: 0 <= i < |fds| ==> prevVals[i] == ZERO
    {
      fds := openFds;
      prevVals := seq(|openFds|, _ => ZERO);
    }

    /** A failed read publishes nothing and keeps every core's baseline. */
    method ReadDelta(replies: seq<Option<PerfCount>>) returns (res: seq<int>)
      requires Valid() && |replies| == |fds|
      modifies this
      ensures Valid()
      ensures AnyFails(fds, replies) ==> res == [] && prevVals == old(prevVals)
      ensures !AnyFails(fds, replies) ==>
          && |res| == |fds| && prevVals == NewVals(fds, replies)
          && (forall i :: 0 <= i < |fds| ==>
              prevVals[i] == if fds[i] >= 0 then replies[i].value else PerfCount(0, 0, 0))
          && forall i :: 0 <= i < |fds| ==> res[i] == DeltaFrom(prevVals[i], old(prevVals)[i])
    {
      hide DeltaFrom;
      var newVals: seq<PerfCount> := [];
      for i := 0 to |fds|
        invariant |newVals| == i
        invariant forall j :: 0 <= j < i && fds[j] >= 0 ==> replies[j].Some?
        invariant forall j :: 0 <= j < i ==> newVals[j] == if fds[j] >= 0 then replies[j].value else ZERO
      {
        if fds[i] >= 0 {
          if replies[i].None? {
            return [];
          }
          newVals := newVals + [replies[i].value];
        } else {
          newVals := newVals + [ZERO];
        }
      }
      res := [];
      for i := 0 to |fds|
        invariant |res| == i
        invariant forall j :: 0 <= j < i ==> res[j] == DeltaFrom(newVals[j], prevVals[j])
      {
        res := res + [DeltaFrom(newVals[i], prevVals[i])];
      }
      prevVals := newVals;
      assert newVals == NewVals(fds, replies);
    }
  }

  // ---------- one core over any run of attempts ----------

  /** The core's baseline after the first n attempts; None is an attempt in which some read failed. */
  function Baseline(first: PerfCount, attempts: seq<Option<PerfCount>>, n: nat): PerfCount
    requires n <= |attempts|
  {
    if n == 0 then first
    else if attempts[n - 1].None? then Baseline(first, attempts, n - 1)
    else attempts[n - 1].value
  }

  /** Everything published for the core, and the raw growth of the gaps covered. */
  function PublishedBy(first: PerfCount, attempts: seq<Option<PerfCount>>, n: nat): int
    requires n <= |attempts|
  {
    if n == 0 then 0
    else PublishedBy(first, attempts, n - 1)
         + if attempts[n - 1].None? then 0 else DeltaFrom(attempts[n - 1].value, Baseline(first, attempts, n - 1))
  }

  /** The bound on what the half unit in the divisor and the floor may lose in one success. */
  function MayLose(prev: PerfCount, cur: PerfCount): real {
    Loss(cur.rawValue - prev.rawValue, cur.timeEnabled - prev.timeEnabled) + 1.0
  }

  /** A raw counter that does not step back, running all the time it was enabled. */
  predicate FullyScheduled(prev: PerfCount, cur: PerfCount) {
    && prev.rawValue <= cur.rawValue && prev.timeEnabled < cur.timeEnabled
    && cur.timeEnabled - prev.timeEnabled == cur.timeRunning - prev.timeRunning
  }

  /** What the half unit in the divisor takes from a delta d over e time units, all of them running. */
  function Loss(d: int, e: int): (loss: real) {
    d as real / (2 * e + 1) as real
  }

  lemma ShortByTheLoss(d: nat, e: nat)
    ensures Loss(d, e) >= 0.0
    ensures (d as real - Loss(d, e)) * (e as real + 0.5) == d as real * e as real
  {
    var x, y, loss := d as real, e as real, Loss(d, e);
    QuotientTimes(x, (2 * e + 1) as real);
    QuotientNonNegative(x, (2 * e + 1) as real);
    hide Loss;
    assert loss * (2.0 * y + 1.0) == x;
    assert loss * (y + 0.5) == 0.5 * x;
    assert (x - loss) * (y + 0.5) == x * (y + 0.5) - loss * (y + 0.5);
    assert x * (y + 0.5) == x * y + 0.5 * x;
  }

  lemma HalfUnit(d: u64, e: u64)
    requires e > 0
    ensures Scaled(d, e, e) == (d as real - Loss(d, e)).Floor && Loss(d, e) >= 0.0
  {
    hide Loss;
    ShortByTheLoss(d, e);
    QuotientUnique(d as real - Loss(d, e), d as real * e as real, e as real + 0.5);
  }

  lemma ScaledExactly(prev: PerfCount, cur: PerfCount)
    requires FullyScheduled(prev, cur)
    ensures var d := cur.rawValue - prev.rawValue; var e := cur.timeEnabled - prev.timeEnabled;
            DeltaFrom(cur, prev) == Scaled(d, e, e)
  {
  }

  /** The published value never exceeds the raw delta and is short of it by less than d / (2e + 1) + 1. */
  lemma ScaledWithinBounds(prev: PerfCount, cur: PerfCount)
    requires FullyScheduled(prev, cur)
    ensures var v := DeltaFrom(cur, prev); var d := cur.rawValue - prev.rawValue;
            v <= d && (d - v) as real < MayLose(prev, cur)
  {
    hide DeltaFrom;
    var d, e := cur.rawValue - prev.rawValue, cur.timeEnabled - prev.timeEnabled;
    ScaledExactly(prev, cur);
    HalfUnit(d, e);
    FloorIsClose(d, Loss(d, e), Scaled(d, e, e));
  }

  /** What the counter would have shown had it run all the time it was enabled, by the code's formula: raw
      delta times enabled over running time plus a half, differences modulo 2^64; 0 for a counter that
      has never run. */
  function Estimate(prev: PerfCount, cur: PerfCount): real {
    if cur.timeRunning == 0 then 0.0
    else
      var raw, enabled := (cur.rawValue - prev.rawValue) % U64, (cur.timeEnabled - prev.timeEnabled) % U64;
      var running := (cur.timeRunning - prev.timeRunning) % U64;
      raw as real * enabled as real / (running as real + 0.5)
  }

  lemma ProductOrder(x: real, y: real, n: real)
    requires n > 0.0
    ensures x <= y ==> x * n <= y * n
    ensures x < y ==> x * n < y * n
  {
    assert (y - x) * n == y * n - x * n;
    SignOfProduct(y - x, n);
  }

  lemma ProductBetween(lo: real, q: real, hi: real, n: real, a: real)
    requires n > 0.0 && lo <= q < hi && q * n == a
    ensures lo * n <= a < hi * n
  {
    ProductOrder(lo, q, n);
    ProductOrder(q, hi, n);
  }

  lemma ScaledBetween(raw: u64, enabled: u64, running: u64)
    ensures var v := Scaled(raw, enabled, running); var half := running as real + 0.5;
            v as real * half <= (raw * enabled) as real < (v + 1) as real * half
  {
    var a, n := raw as real * enabled as real, running as real + 0.5;
    assert (raw * enabled) as real == a;
    QuotientTimes(a, n);
    var v := (a / n).Floor;
    ProductBetween(v as real, a / n, (v + 1) as real, n, a);
  }

  /** For any two readings, multiplexed or not, the published value is the floor of the estimate. */
  lemma PublishedIsTheEstimate(prev: PerfCount, cur: PerfCount)
    ensures DeltaFrom(cur, prev) as real <= Estimate(prev, cur) < (DeltaFrom(cur, prev) + 1) as real
  {
  }

  /** For counters that do not go back, by products of the plain differences alone; a counter that has never
      run publishes 0. */
  lemma PublishedByProducts(prev: PerfCount, cur: PerfCount)
    requires prev.rawValue <= cur.rawValue && prev.timeEnabled <= cur.timeEnabled && prev.timeRunning <= cur.timeRunning
    ensures cur.timeRunning == 0 ==> DeltaFrom(cur, prev) == 0
    ensures cur.timeRunning > 0 ==>
        var v := DeltaFrom(cur, prev); var half := (cur.timeRunning - prev.timeRunning) as real + 0.5;
        v as real * half
        <= ((cur.rawValue - prev.rawValue) * (cur.timeEnabled - prev.timeEnabled)) as real
        < (v + 1) as real * half
  {
    hide Scaled;
    PlainModulo(cur.rawValue, prev.rawValue);
    PlainModulo(cur.timeEnabled, prev.timeEnabled);
    PlainModulo(cur.timeRunning, prev.timeRunning);
    ScaledBetween(cur.rawValue - prev.rawValue, cur.timeEnabled - prev.timeEnabled,
                  cur.timeRunning - prev.timeRunning);
  }

  lemma PlainModulo(a: u64, b: u64)
    requires b <= a
    ensures (a - b) % U64 == a - b
  {
  }

  /** All estimates of the successes among the first n attempts, each over the gap since the last success. */
  function TotalEstimate(first: PerfCount, attempts: seq<Option<PerfCount>>, n: nat): real
    requires n <= |attempts|
  {
    if n == 0 then 0.0
    else TotalEstimate(first, attempts, n - 1)
         + if attempts[n - 1].None? then 0.0 else Estimate(Baseline(first, attempts, n - 1), attempts[n - 1].value)
  }

  function Successes(attempts: seq<Option<PerfCount>>, n: nat): nat
    requires n <= |attempts|
  {
    if n == 0 then 0 else Successes(attempts, n - 1) + if attempts[n - 1].None? then 0 else 1
  }

  /** Over any run between reopenings, multiplexed or not, with failed reads and whatever the counters do: what
      is published falls short of the estimates by less than one for each success. */
  lemma {:induction false} PublishedCoversEstimates(first: PerfCount, attempts: seq<Option<PerfCount>>, n: nat)
    requires n <= |attempts|
    ensures var short := TotalEstimate(first, attempts, n) - PublishedBy(first, attempts, n) as real;
            if Successes(attempts, n) == 0 then short == 0.0 else 0.0 <= short < Successes(attempts, n) as real
  {
    hide DeltaFrom, Estimate;
    if n > 0 {
      PublishedCoversEstimates(first, attempts, n - 1);
      if attempts[n - 1].Some? {
        PublishedIsTheEstimate(Baseline(first, attempts, n - 1), attempts[n - 1].value);
      }
    }
  }

  lemma FloorIsClose(d: int, loss: real, v: int)
    requires loss >= 0.0 && v == (d as real - loss).Floor
    ensures v <= d && (d - v) as real < loss + 1.0
  {
  }

  function TotalMayLose(first: PerfCount, attempts: seq<Option<PerfCount>>, n: nat): real
    requires n <= |attempts|
  {
    if n == 0 then 0.0
    else TotalMayLose(first, attempts, n - 1)
         + if attempts[n - 1].None? then 0.0 else MayLose(Baseline(first, attempts, n - 1), attempts[n - 1].value)
  }

  /** Over any run between reopenings, failures included, the successes together cover the whole raw
      growth: what was published stays below it, by no more than the roundings of the successes. */
  lemma {:induction false} PublishedCoversGaps(first: PerfCount, attempts: seq<Option<PerfCount>>, n: nat)
    requires n <= |attempts|
    requires forall i :: 0 <= i < n && attempts[i].Some? ==>
        FullyScheduled(Baseline(first, attempts, i), attempts[i].value)
    ensures var growth := Baseline(first, attempts, n).rawValue - first.rawValue;
            && PublishedBy(first, attempts, n) <= growth
            && (growth - PublishedBy(first, attempts, n)) as real <= TotalMayLose(first, attempts, n)
  {
    hide DeltaFrom, MayLose, FullyScheduled;
    if n > 0 {
      PublishedCoversGaps(first, attempts, n - 1);
      if attempts[n - 1].Some? {
        ScaledWithinBounds(Baseline(first, attempts, n - 1), attempts[n - 1].value);
      }
    }
  }
}
