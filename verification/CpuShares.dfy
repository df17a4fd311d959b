/** One cpu line of /proc/stat and the share of time each state took between two readings. */
module CpuShares {
  import opened Text
  import opened Reals

  datatype CpuTimes = CpuTimes(user: u64, nice: u64, system: u64, idle: u64, iowait: u64,
                               irq: u64, softirq: u64, steal: u64, guest: u64, guestNice: u64)

  const CPU_FIELDS := 11

  ghost predicate AllParse(fields: seq<string>)
    requires |fields| == CPU_FIELDS
  {
    forall i :: 1 <= i < CPU_FIELDS ==> FromChars(fields[i]).Some?
  }

  ghost function Field(fields: seq<string>, i: nat): u64
    requires |fields| == CPU_FIELDS && 1 <= i < CPU_FIELDS && AllParse(fields)
  {
    FromChars(fields[i]).value
  }

  /** What a cpu line says, or None when any of its ten numbers cannot be read. */
  ghost function TimesOf(fields: seq<string>): Option<CpuTimes>
    requires |fields| == CPU_FIELDS
  {
    if !AllParse(fields) then None
    else Some(CpuTimes(Field(fields, 1), Field(fields, 2), Field(fields, 3), Field(fields, 4), Field(fields, 5),
                       Field(fields, 6), Field(fields, 7), Field(fields, 8), Field(fields, 9), Field(fields, 10)))
  }

  /** The constructor fills its fields in order and throws (here: None) on the first bad one. */
  method CpuStatFields(fields: seq<string>) returns (r: Option<CpuTimes>)
    requires |fields| == CPU_FIELDS
    ensures r == TimesOf(fields)
  {
    var values: seq<u64> := [];
    for i := 0 to 10
      invariant |values| == i
      invariant forall j :: 0 <= j < i ==> FromChars(fields[j + 1]) == Some(values[j])
    {
      var result := FromChars(fields[i + 1]);
      if result.None? {
        return None;
      }
      values := values + [result.value];
    }
    assert forall i :: 1 <= i < CPU_FIELDS ==> FromChars(fields[i]) == Some(values[i - 1]);
    r := Some(CpuTimes(values[0], values[1], values[2], values[3], values[4],
                       values[5], values[6], values[7], values[8], values[9]));
  }

  /** The line the kernel prints for a cpu. */
  function CpuLine(key: string, t: CpuTimes): (fields: seq<string>)
    ensures |fields| == CPU_FIELDS && fields[0] == key
  {
    [key, Decimal(t.user), Decimal(t.nice), Decimal(t.system), Decimal(t.idle), Decimal(t.iowait), Decimal(t.irq),
     Decimal(t.softirq), Decimal(t.steal), Decimal(t.guest), Decimal(t.guestNice)]
  }

  lemma PrintedLineReadsBack(key: string, t: CpuTimes)
    ensures TimesOf(CpuLine(key, t)) == Some(t)
  {
    hide FromChars, Decimal;
    FromCharsOfDecimal(t.user);
    FromCharsOfDecimal(t.nice);
    FromCharsOfDecimal(t.system);
    FromCharsOfDecimal(t.idle);
    FromCharsOfDecimal(t.iowait);
    FromCharsOfDecimal(t.irq);
    FromCharsOfDecimal(t.softirq);
    FromCharsOfDecimal(t.steal);
    FromCharsOfDecimal(t.guest);
    FromCharsOfDecimal(t.guestNice);
  }

  /** uint64_t subtraction and addition wrap around. */
  function Sub64(a: u64, b: u64): u64 {
    (a - b) % U64
  }

  function Add64(a: u64, b: u64): u64 {
    (a + b) % U64
  }

  lemma AddModulo(a: nat, b: u64)
    ensures Add64(a % U64, b) == (a + b) % U64
  {
  }

  /** The seven unsigned deltas of two readings, and their unsigned total. */
  datatype Deltas = Deltas(user: u64, nice: u64, system: u64, idle: u64, wait: u64, interrupt: u64, stolen: u64) {
    function Total(): u64 {
      Add64(Add64(Add64(Add64(Add64(Add64(user, nice), system), idle), wait), interrupt), stolen)
    }

    /** The same total without wrap-around. */
    function Sum(): nat {
      user + nice + system + idle + wait + interrupt + stolen
    }

    /** No delta but idle exceeds t. */
    predicate BusyAtMost(t: nat) {
      user <= t && nice <= t && system <= t && wait <= t && interrupt <= t && stolen <= t
    }

    lemma TotalIsSumModulo()
      ensures Total() == Sum() % U64
    {
      hide Add64;
      SmallModulo(user);
      AddModulo(user, nice);
      AddModulo(user + nice, system);
      AddModulo(user + nice + system, idle);
      AddModulo(user + nice + system + idle, wait);
      AddModulo(user + nice + system + idle + wait, interrupt);
      AddModulo(user + nice + system + idle + wait + interrupt, stolen);
    }
  }

  function DeltasOf(prev: CpuTimes, cur: CpuTimes): Deltas {
    Deltas(Sub64(cur.user, prev.user), Sub64(cur.nice, prev.nice), Sub64(cur.system, prev.system),
           Sub64(cur.idle, prev.idle), if cur.iowait > prev.iowait then cur.iowait - prev.iowait else 0,
           Sub64(Add64(cur.irq, cur.softirq), Add64(prev.irq, prev.softirq)), Sub64(cur.steal, prev.steal))
  }

  datatype Shares = Shares(user: real, system: real, stolen: real, nice: real, wait: real, interrupt: real) {
    function Busy(): real {
      user + system + stolen + nice + wait + interrupt
    }

    predicate Within(lo: real, hi: real) {
      && lo <= user <= hi && lo <= system <= hi && lo <= stolen <= hi
      && lo <= nice <= hi && lo <= wait <= hi && lo <= interrupt <= hi
    }
  }

  function Share(delta: nat, total: nat): (share: real)
    requires total > 0
    ensures share >= 0.0
  {
    var part := 100.0 * delta as real;
    QuotientNonNegative(part, total as real);
    part / total as real
  }

  lemma SharesAdd(a: nat, b: nat, total: nat)
    requires total > 0
    ensures Share(a, total) + Share(b, total) == Share(a + b, total)
  {
  }

  lemma ShareBound(delta: nat, total: nat)
    requires total > 0
    ensures Share(delta, total) <= 100.0 <==> delta <= total
    ensures Share(delta, total) == 100.0 <==> delta == total
  {
    QuotientAgainst(100.0 * delta as real, total as real, 100.0);
  }

  function ComputeGaugeValues(prev: CpuTimes, cur: CpuTimes): Shares {
    var d := DeltasOf(prev, cur);
    var total := d.Total();
    if total > 0 then
      Shares(Share(d.user, total), Share(d.system, total), Share(d.stolen, total),
             Share(d.nice, total), Share(d.wait, total), Share(d.interrupt, total))
    else Shares(0.0, 0.0, 0.0, 0.0, 0.0, 0.0)
  }

  /** The share nobody publishes. */
  function IdleShare(prev: CpuTimes, cur: CpuTimes): real {
    var d := DeltasOf(prev, cur);
    if d.Total() > 0 then Share(d.idle, d.Total()) else 0.0
  }

  /** Usage of a core between two readings: everything but idle. */
  function Usage(prev: CpuTimes, cur: CpuTimes): (u: real)
    ensures u >= 0.0
  {
    var s := ComputeGaugeValues(prev, cur);
    s.Busy()
  }

  /** The published shares add up to the share of the busy deltas, and with the idle one to all seven. */
  lemma SharesAddUp(prev: CpuTimes, cur: CpuTimes)
    requires DeltasOf(prev, cur).Total() > 0
    ensures var d := DeltasOf(prev, cur);
            && ComputeGaugeValues(prev, cur).Busy() == Share(d.Sum() - d.idle, d.Total())
            && ComputeGaugeValues(prev, cur).Busy() + IdleShare(prev, cur) == Share(d.Sum(), d.Total())
  {
    hide Share, DeltasOf, Add64;
    var d := DeltasOf(prev, cur);
    var t := d.Total();
    SharesAdd(d.user, d.system, t);
    SharesAdd(d.user + d.system, d.stolen, t);
    SharesAdd(d.user + d.system + d.stolen, d.nice, t);
    SharesAdd(d.user + d.system + d.stolen + d.nice, d.wait, t);
    SharesAdd(d.user + d.system + d.stolen + d.nice + d.wait, d.interrupt, t);
    SharesAdd(d.Sum() - d.idle, d.idle, t);
  }

  /** All of the published time and the idle time, as a share of the wrapped total. */
  function WrappedShare(sum: nat): real {
    if sum % U64 > 0 then Share(sum, sum % U64) else 0.0
  }

  lemma WrappedShareIsFullIff(sum: nat)
    ensures WrappedShare(sum) == 100.0 <==> 0 < sum < U64
  {
    if sum % U64 > 0 {
      ShareBound(sum, sum % U64);
    }
  }

  lemma PublishedAndIdle(prev: CpuTimes, cur: CpuTimes)
    ensures ComputeGaugeValues(prev, cur).Busy() + IdleShare(prev, cur) == WrappedShare(DeltasOf(prev, cur).Sum())
  {
    hide Share, DeltasOf, Add64;
    DeltasOf(prev, cur).TotalIsSumModulo();
    if DeltasOf(prev, cur).Total() > 0 {
      SharesAddUp(prev, cur);
    }
  }

  /** For any two readings, the six shares and the idle share sum to exactly 100 if and only if some
      time passed and the seven deltas fit 64 bits together. */
  lemma SharesSumTo100Iff(prev: CpuTimes, cur: CpuTimes)
    ensures ComputeGaugeValues(prev, cur).Busy() + IdleShare(prev, cur) == 100.0
            <==> 0 < DeltasOf(prev, cur).Sum() < U64
  {
    PublishedAndIdle(prev, cur);
    WrappedShareIsFullIff(DeltasOf(prev, cur).Sum());
  }

  /** The shares lie in [0, 100] if and only if none of the six published deltas exceeds the wrapped total. */
  lemma SharesWithinIff(prev: CpuTimes, cur: CpuTimes)
    ensures ComputeGaugeValues(prev, cur).Within(0.0, 100.0)
            <==> DeltasOf(prev, cur).Total() == 0 || DeltasOf(prev, cur).BusyAtMost(DeltasOf(prev, cur).Total())
  {
    hide Share, DeltasOf, Add64;
    var d := DeltasOf(prev, cur);
    var t := d.Total();
    if t > 0 {
      ShareBound(d.user, t);
      ShareBound(d.nice, t);
      ShareBound(d.system, t);
      ShareBound(d.wait, t);
      ShareBound(d.interrupt, t);
      ShareBound(d.stolen, t);
    }
  }

  /** The usage lies in [0, 100] if and only if the seven deltas fit 64 bits together, or wrap to exactly
      nothing: any other overflow shrinks the total below the busy time. */
  lemma UsageWithinIff(prev: CpuTimes, cur: CpuTimes)
    ensures 0.0 <= Usage(prev, cur) <= 100.0
            <==> DeltasOf(prev, cur).Sum() < U64 || DeltasOf(prev, cur).Sum() % U64 == 0
  {
    hide Share, DeltasOf, Add64;
    var d := DeltasOf(prev, cur);
    d.TotalIsSumModulo();
    if d.Total() > 0 {
      SharesAddUp(prev, cur);
      ShareBound(d.Sum() - d.idle, d.Total());
    }
  }

  /** Counters that did not go back (iowait may), and a true total below 2^64. */
  predicate Advances(prev: CpuTimes, cur: CpuTimes) {
    && prev.user <= cur.user && prev.nice <= cur.nice && prev.system <= cur.system && prev.idle <= cur.idle
    && prev.irq <= cur.irq && prev.softirq <= cur.softirq && prev.steal <= cur.steal
    && TrueTotal(prev, cur) < U64
  }

  function TrueTotal(prev: CpuTimes, cur: CpuTimes): int {
    cur.user - prev.user + cur.nice - prev.nice + cur.system - prev.system + cur.idle - prev.idle
    + (if cur.iowait > prev.iowait then cur.iowait - prev.iowait else 0)
    + (cur.irq - prev.irq) + (cur.softirq - prev.softirq) + cur.steal - prev.steal
  }

  lemma ExactDifference(a: u64, b: u64)
    requires b <= a
    ensures Sub64(a, b) == a - b
  {
  }

  lemma SmallModulo(x: int)
    requires 0 <= x < U64
    ensures x % U64 == x
  {
  }

  lemma ShiftModulo(x: int)
    ensures (x + U64) % U64 == x % U64
  {
  }

  lemma WrapOnce(x: int)
    requires 0 <= x < 2 * U64
    ensures x % U64 == if x < U64 then x else x - U64
  {
  }

  lemma WrappedSumsDiffer(a: u64, b: u64, c: u64, d: u64)
    ensures Sub64(Add64(a, b), Add64(c, d)) == (a + b - c - d) % U64
  {
    WrapOnce(a + b);
    WrapOnce(c + d);
    var x: int := a + b - c - d;
    var y: int, z: int := Add64(a, b), Add64(c, d);
    hide Add64;
    ShiftModulo(x);
    ShiftModulo(x - U64);
    assert y - z == x || y - z == x + U64 || y - z == x - U64;
  }

  lemma ExactWrappedSum(a: u64, b: u64, c: u64, d: u64)
    requires a <= c && b <= d && c - a + d - b < U64
    ensures Sub64(Add64(c, d), Add64(a, b)) == c - a + d - b
  {
    hide Sub64, Add64;
    WrappedSumsDiffer(c, d, a, b);
    SmallModulo(c + d - a - b);
  }

  /** Such readings keep the deltas exact, even where irq + softirq wraps around. */
  lemma AdvancingCountersAreExact(prev: CpuTimes, cur: CpuTimes)
    requires Advances(prev, cur)
    ensures DeltasOf(prev, cur).Sum() == TrueTotal(prev, cur) < U64
  {
    hide Sub64, Add64;
    ExactDifference(cur.user, prev.user);
    ExactDifference(cur.nice, prev.nice);
    ExactDifference(cur.system, prev.system);
    ExactDifference(cur.idle, prev.idle);
    ExactDifference(cur.steal, prev.steal);
    ExactWrappedSum(prev.irq, prev.softirq, cur.irq, cur.softirq);
  }

  lemma AdvancingUsageWithinBounds(prev: CpuTimes, cur: CpuTimes)
    requires Advances(prev, cur)
    ensures ComputeGaugeValues(prev, cur).Within(0.0, 100.0) && 0.0 <= Usage(prev, cur) <= 100.0
    ensures TrueTotal(prev, cur) > 0 ==> ComputeGaugeValues(prev, cur).Busy() + IdleShare(prev, cur) == 100.0
  {
    hide Share, DeltasOf, IdleShare;
    AdvancingCountersAreExact(prev, cur);
    DeltasOf(prev, cur).TotalIsSumModulo();
    SharesWithinIff(prev, cur);
    UsageWithinIff(prev, cur);
    SharesSumTo100Iff(prev, cur);
  }

  // ---------- each share by its name ----------

  /** `share` is the part of `total` ticks that took `delta` of them, in percent; 0 when no tick passed. */
  predicate IsShare(share: real, delta: nat, total: nat) {
    if total == 0 then share == 0.0 else share * total as real == 100.0 * delta as real
  }

  /** The six shares, each of its own delta. */
  predicate AreSharesOf(s: Shares, user: nat, system: nat, steal: nat, nice: nat, iowait: nat, interrupt: nat,
                        total: nat) {
    && IsShare(s.user, user, total) && IsShare(s.system, system, total) && IsShare(s.stolen, steal, total)
    && IsShare(s.nice, nice, total) && IsShare(s.wait, iowait, total) && IsShare(s.interrupt, interrupt, total)
  }

  function IowaitDelta(prev: CpuTimes, cur: CpuTimes): nat {
    if cur.iowait > prev.iowait then cur.iowait - prev.iowait else 0
  }

  /** How far a counter has moved, modulo 2^64. */
  function Moved(from: int, to: int): nat {
    (to - from) % U64
  }

  /** The shares between two readings, from the raw counters alone: unsigned differences modulo 2^64,
      iowait clamped at no progress, interrupts from irq and softirq together. */
  predicate AreShares(s: Shares, prev: CpuTimes, cur: CpuTimes) {
    var user, nice := Moved(prev.user, cur.user), Moved(prev.nice, cur.nice);
    var system, steal := Moved(prev.system, cur.system), Moved(prev.steal, cur.steal);
    var idle, iowait := Moved(prev.idle, cur.idle), IowaitDelta(prev, cur);
    var interrupt := Moved(prev.irq + prev.softirq, cur.irq + cur.softirq);
    var total := (user + nice + system + idle + iowait + interrupt + steal) % U64;
    AreSharesOf(s, user, system, steal, nice, iowait, interrupt, total)
  }

  lemma ShareIsShare(delta: nat, total: nat)
    requires total > 0
    ensures IsShare(Share(delta, total), delta, total)
  {
    QuotientTimes(100.0 * delta as real, total as real);
  }

  /** The seven deltas, from the raw counters. */
  lemma DeltasByName(prev: CpuTimes, cur: CpuTimes)
    ensures DeltasOf(prev, cur)
            == Deltas(Moved(prev.user, cur.user), Moved(prev.nice, cur.nice), Moved(prev.system, cur.system),
                      Moved(prev.idle, cur.idle), IowaitDelta(prev, cur),
                      Moved(prev.irq + prev.softirq, cur.irq + cur.softirq), Moved(prev.steal, cur.steal))
  {
    hide Add64;
    WrappedSumsDiffer(cur.irq, cur.softirq, prev.irq, prev.softirq);
  }

  lemma SharesOfDeltas(prev: CpuTimes, cur: CpuTimes)
    ensures var d := DeltasOf(prev, cur);
            AreSharesOf(ComputeGaugeValues(prev, cur), d.user, d.system, d.stolen, d.nice, d.wait, d.interrupt,
                        d.Sum() % U64)
  {
    hide Share, IsShare, Add64, DeltasOf;
    var d := DeltasOf(prev, cur);
    var t := d.Total();
    d.TotalIsSumModulo();
    if t > 0 {
      ShareIsShare(d.user, t);
      ShareIsShare(d.system, t);
      ShareIsShare(d.stolen, t);
      ShareIsShare(d.nice, t);
      ShareIsShare(d.wait, t);
      ShareIsShare(d.interrupt, t);
    } else {
      assert forall delta :: IsShare(0.0, delta, 0) by { NoShare(); }
    }
  }

  /** For any two readings, every gauge is given the share of its own counter. */
  lemma SharesByName(prev: CpuTimes, cur: CpuTimes)
    ensures AreShares(ComputeGaugeValues(prev, cur), prev, cur)
  {
    hide AreSharesOf, ComputeGaugeValues, DeltasOf, IowaitDelta, Moved;
    DeltasByName(prev, cur);
    SharesOfDeltas(prev, cur);
  }

  lemma NoShare()
    ensures forall delta :: IsShare(0.0, delta, 0)
  {
  }

  lemma PlainDifferences(prev: CpuTimes, cur: CpuTimes)
    requires Advances(prev, cur)
    ensures Moved(prev.user, cur.user) == cur.user - prev.user && Moved(prev.nice, cur.nice) == cur.nice - prev.nice
    ensures Moved(prev.system, cur.system) == cur.system - prev.system
    ensures Moved(prev.idle, cur.idle) == cur.idle - prev.idle >= 0
    ensures Moved(prev.steal, cur.steal) == cur.steal - prev.steal
    ensures Moved(prev.irq + prev.softirq, cur.irq + cur.softirq) == cur.irq - prev.irq + cur.softirq - prev.softirq
    ensures (cur.user - prev.user + (cur.nice - prev.nice) + (cur.system - prev.system) + (cur.idle - prev.idle)
             + IowaitDelta(prev, cur) + (cur.irq - prev.irq + cur.softirq - prev.softirq)
             + (cur.steal - prev.steal)) % U64
            == TrueTotal(prev, cur)
  {
    SmallModulo(cur.user - prev.user);
    SmallModulo(cur.nice - prev.nice);
    SmallModulo(cur.system - prev.system);
    SmallModulo(cur.idle - prev.idle);
    SmallModulo(cur.steal - prev.steal);
    SmallModulo(cur.irq + cur.softirq - prev.irq - prev.softirq);
    SmallModulo(TrueTotal(prev, cur));
  }

  /** When no counter but iowait goes back, that is the plain difference of the counter. */
  lemma AdvancingSharesByName(prev: CpuTimes, cur: CpuTimes)
    requires Advances(prev, cur)
    ensures var s := ComputeGaugeValues(prev, cur); var total := TrueTotal(prev, cur);
            && AreSharesOf(s, cur.user - prev.user, cur.system - prev.system, cur.steal - prev.steal,
                           cur.nice - prev.nice, IowaitDelta(prev, cur),
                           cur.irq - prev.irq + cur.softirq - prev.softirq, total)
            && IsShare(Usage(prev, cur), total - (cur.idle - prev.idle), total)
  {
    hide AreSharesOf, IsShare, ComputeGaugeValues, Usage, Advances, TrueTotal, IowaitDelta, Moved;
    PlainDifferences(prev, cur);
    SharesByName(prev, cur);
    UsageIsShare(prev, cur);
  }

  lemma UsageIsBusy(prev: CpuTimes, cur: CpuTimes)
    ensures Usage(prev, cur) == ComputeGaugeValues(prev, cur).Busy()
  {
    hide ComputeGaugeValues;
  }

  lemma NoTimeNoUsage(prev: CpuTimes, cur: CpuTimes)
    requires DeltasOf(prev, cur).Total() == 0
    ensures Usage(prev, cur) == 0.0
  {
    hide DeltasOf;
  }

  lemma UsageIsShare(prev: CpuTimes, cur: CpuTimes)
    requires Advances(prev, cur) && prev.idle <= cur.idle
    ensures cur.idle - prev.idle <= TrueTotal(prev, cur)
    ensures IsShare(Usage(prev, cur), TrueTotal(prev, cur) - (cur.idle - prev.idle), TrueTotal(prev, cur))
  {
    hide Share, DeltasOf, Add64, Usage, ComputeGaugeValues, IsShare, TrueTotal, Advances;
    AdvancingCountersAreExact(prev, cur);
    ExactIdle(prev, cur);
    var d := DeltasOf(prev, cur);
    d.TotalIsSumModulo();
    if d.Total() > 0 {
      SharesAddUp(prev, cur);
      UsageIsBusy(prev, cur);
      ShareIsShare(d.Sum() - d.idle, d.Total());
    } else {
      NoTimeNoUsage(prev, cur);
      assert IsShare(0.0, 0, 0) by { NoShare(); }
    }
  }

  lemma ExactIdle(prev: CpuTimes, cur: CpuTimes)
    requires prev.idle <= cur.idle
    ensures DeltasOf(prev, cur).idle == cur.idle - prev.idle >= 0
  {
  }

  // ---------- counters that step back ----------

  /** When the user counter steps back by k ticks and the others advance by n in all, the usage stays in
      bounds if and only if n <= k. */
  lemma DecreaseBreaksUsageIff(prev: CpuTimes, cur: CpuTimes)
    requires cur.user < prev.user && Advances(prev, cur.(user := prev.user))
    ensures 0.0 <= Usage(prev, cur) <= 100.0
            <==> TrueTotal(prev, cur.(user := prev.user)) <= prev.user - cur.user
  {
    hide Usage, DeltasOf, TrueTotal;
    var still := cur.(user := prev.user);
    AdvancingCountersAreExact(prev, still);
    UsageWithinIff(prev, cur);
    SteppedBack(prev, cur);
  }

  lemma SteppedBack(prev: CpuTimes, cur: CpuTimes)
    requires cur.user < prev.user
    ensures DeltasOf(prev, cur).Sum()
            == DeltasOf(prev, cur.(user := prev.user)).Sum() + U64 - (prev.user - cur.user)
  {
  }

  /** A user counter that steps back by one tick: the wrapped delta swamps the total. */
  lemma DecreaseBreaksShares()
    ensures var prev := CpuTimes(1, 0, 0, 0, 0, 0, 0, 0, 0, 0);
            var cur := CpuTimes(0, 0, 0, 2, 0, 0, 0, 0, 0, 0);
            Usage(prev, cur) == 100.0 * (U64 - 1) as real
  {
  }
}
