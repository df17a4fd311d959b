/** Turning successive io.stat snapshots into counter increments. */
module IoMetrics {
  import opened Text
  import opened IoStat

  /** What has been added to the four counters of one device: bytes and operations, read and written. */
  datatype Growth = Growth(readBytes: real, writeBytes: real, readOps: real, writeOps: real)

  const NO_GROWTH := Growth(0.0, 0.0, 0.0, 0.0)

  function Plus(a: Growth, b: Growth): Growth {
    Growth(a.readBytes + b.readBytes, a.writeBytes + b.writeBytes, a.readOps + b.readOps, a.writeOps + b.writeOps)
  }

  function Minus(a: Growth, b: Growth): Growth {
    Growth(a.readBytes - b.readBytes, a.writeBytes - b.writeBytes, a.readOps - b.readOps, a.writeOps - b.writeOps)
  }

  lemma GrowthTelescopes(a: Growth, b: Growth, c: Growth)
    ensures Plus(Minus(b, a), Minus(c, b)) == Minus(c, a)
    ensures Minus(a, a) == NO_GROWTH && Plus(a, NO_GROWTH) == a && Plus(NO_GROWTH, a) == a
  {
  }

  /** The four totals a device line gives. */
  function Totals(s: IOStats): Growth
    requires s.Complete()
  {
    Growth(s.rBytes.value, s.wBytes.value, s.rOperations.value, s.wOperations.value)
  }

  type DeviceStats = s: IOStats | s.Complete()
    witness IoStat.IOStats("unknown", "", Some(0.0), Some(0.0), Some(0.0), Some(0.0), Some(0.0), Some(0.0))

  type Snapshot = map<string, DeviceStats>

  function Added(added: map<string, Growth>, k: string): Growth {
    if k in added then added[k] else NO_GROWTH
  }

  /** The increments one snapshot gives device k. */
  function Increment(previous: Snapshot, cur: Snapshot, k: string): Growth {
    if k in cur && k in previous then Minus(Totals(cur[k]), Totals(previous[k])) else NO_GROWTH
  }

  lemma NoDevices(added: map<string, Growth>, previous: Snapshot)
    ensures forall k :: Added(added, k) == Plus(Added(added, k), Increment(previous, map[], k))
  {
  }

  /** One more device leaves the increments of the others alone. */
  lemma OneMoreDevice(previous: Snapshot, before: Snapshot, key: string, stat: DeviceStats, k: string, a: Growth)
    requires key !in before
    ensures Plus(Plus(a, Increment(previous, before, k)), Increment(previous + before, map[key := stat], k))
            == Plus(a, Increment(previous, before[key := stat], k))
  {
  }

  class IoCollector {
    var previousStats: Snapshot
    var added: map<string, Growth>

    constructor ()
      ensures previousStats == map[] && added == map[]
    {
      previousStats, added := map[], map[];
    }

    method UpdateDevice(deviceKey: string, currentStat: DeviceStats)
      modifies this
      ensures previousStats == old(previousStats)[deviceKey := currentStat]
      ensures forall k :: Added(added, k) == Plus(Added(old(added), k),
                                                  Increment(old(previousStats), map[deviceKey := currentStat], k))
    {
      if deviceKey in previousStats {
        var delta := Minus(Totals(currentStat), Totals(previousStats[deviceKey]));
        added := added[deviceKey := Plus(Added(added, deviceKey), delta)];
      }
      previousStats := previousStats[deviceKey := currentStat];
    }

    /** The loop visits the devices in any order. */
    method UpdateIOMetrics(ioStats: Snapshot)
      modifies this
      ensures previousStats == old(previousStats) + ioStats
      ensures forall k :: Added(added, k) == Plus(Added(old(added), k), Increment(old(previousStats), ioStats, k))
    {
      hide Totals, Plus, Minus, Increment, Added;
      var todo := ioStats.Keys;
      NoDevices(added, previousStats);
      assert ioStats - todo == map[];
      while todo != {}
        invariant todo <= ioStats.Keys
        invariant previousStats == old(previousStats) + (ioStats - todo)
        invariant forall k ::
            Added(added, k) == Plus(Added(old(added), k), Increment(old(previousStats), ioStats - todo, k))
      {
        var deviceKey :| deviceKey in todo;
        ghost var before := ioStats - todo;
        UpdateDevice(deviceKey, ioStats[deviceKey]);
        todo := todo - {deviceKey};
        assert ioStats - todo == before[deviceKey := ioStats[deviceKey]];
        forall k
          ensures Added(added, k) == Plus(Added(old(added), k), Increment(old(previousStats), ioStats - todo, k))
        {
          OneMoreDevice(old(previousStats), before, deviceKey, ioStats[deviceKey], k, Added(old(added), k));
        }
      }
      assert ioStats - todo == ioStats;
    }

    /** One cycle: a file that does not parse, or has no device, changes nothing. */
    method IOStats(lines: seq<seq<string>>, devMap: map<string, string>, num: Number) returns (ghost snapshot: Snapshot)
      modifies this
      ensures (exists l :: l in lines && BadLine(l, devMap, num)) ==> snapshot == map[]
      ensures (forall l :: l in lines ==> !BadLine(l, devMap, num)) ==> snapshot == Devices(lines, devMap, num, |lines|)
      ensures previousStats == old(previousStats) + snapshot
      ensures forall k :: Added(added, k) == Plus(Added(old(added), k), Increment(old(previousStats), snapshot, k))
    {
      hide LineSpec, Totals, Minus;
      var ioStats := ParseIOLines(lines, devMap, num);
      snapshot := ioStats;
      if ioStats == map[] {
        return;
      }
      UpdateIOMetrics(ioStats);
    }
  }

  // ---------- any sequence of snapshots ----------

  function PreviousAfter(ss: seq<Snapshot>, n: nat): Snapshot
    requires n <= |ss|
  {
    if n == 0 then map[] else PreviousAfter(ss, n - 1) + ss[n - 1]
  }

  /** Everything added to the counters of device k by the first n snapshots. */
  function AddedAfter(ss: seq<Snapshot>, n: nat, k: string): Growth
    requires n <= |ss|
  {
    if n == 0 then NO_GROWTH
    else Plus(AddedAfter(ss, n - 1, k), Increment(PreviousAfter(ss, n - 1), ss[n - 1], k))
  }

  /** The first and the last of the first n snapshots that show the device. */
  function FirstSeen(ss: seq<Snapshot>, n: nat, k: string): Option<DeviceStats>
    requires n <= |ss|
  {
    if n == 0 then None
    else if FirstSeen(ss, n - 1, k).Some? then FirstSeen(ss, n - 1, k)
    else if k in ss[n - 1] then Some(ss[n - 1][k]) else None
  }

  function LastSeen(ss: seq<Snapshot>, n: nat, k: string): Option<DeviceStats>
    requires n <= |ss|
  {
    if n == 0 then None
    else if k in ss[n - 1] then Some(ss[n - 1][k])
    else LastSeen(ss, n - 1, k)
  }

  /** For every device and every sequence of snapshots, absences and failed parses included: what was
      added to each counter is its last value seen minus its first value seen. */
  lemma {:induction false} AddedIsLastMinusFirst(ss: seq<Snapshot>, n: nat, k: string)
    requires n <= |ss|
    ensures var first, last := FirstSeen(ss, n, k), LastSeen(ss, n, k);
            && first.Some? == last.Some? == (k in PreviousAfter(ss, n))
            && (last.Some? ==> PreviousAfter(ss, n)[k] == last.value)
            && AddedAfter(ss, n, k) == if last.None? then NO_GROWTH else Minus(Totals(last.value), Totals(first.value))
  {
    hide Totals, Plus, Minus;
    if n > 0 {
      AddedIsLastMinusFirst(ss, n - 1, k);
      var first, last := FirstSeen(ss, n - 1, k), LastSeen(ss, n - 1, k);
      GrowthTelescopes(AddedAfter(ss, n - 1, k), NO_GROWTH, NO_GROWTH);
      if k in ss[n - 1] {
        var now := Totals(ss[n - 1][k]);
        if last.Some? {
          GrowthTelescopes(Totals(first.value), Totals(last.value), now);
        } else {
          GrowthTelescopes(now, now, now);
        }
      }
    }
  }

  /** Counter by counter: what was added to bytes and operations, read and written. */
  lemma AddedByName(ss: seq<Snapshot>, n: nat, k: string)
    requires n <= |ss|
    ensures FirstSeen(ss, n, k).Some? == LastSeen(ss, n, k).Some?
    ensures var first, last, added := FirstSeen(ss, n, k), LastSeen(ss, n, k), AddedAfter(ss, n, k);
            last.Some? ==>
              && added.readBytes == last.value.rBytes.value - first.value.rBytes.value
              && added.writeBytes == last.value.wBytes.value - first.value.wBytes.value
              && added.readOps == last.value.rOperations.value - first.value.rOperations.value
              && added.writeOps == last.value.wOperations.value - first.value.wOperations.value
    ensures LastSeen(ss, n, k).None? ==> AddedAfter(ss, n, k) == Growth(0.0, 0.0, 0.0, 0.0)
  {
    hide FirstSeen, LastSeen, AddedAfter, PreviousAfter;
    AddedIsLastMinusFirst(ss, n, k);
  }
}
