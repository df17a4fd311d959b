/** Per-service CPU percentages: two trackers per systemd service, updated only by successful reads. */
module ServiceMonitoring {
  import opened Text
  import opened CpuRateTrackers
  import PidStat

  /** Whose counter a tracker follows: the main PID, or the control group. */
  datatype Identity = Pid(pid: nat) | ControlGroup(path: string)

  datatype Scope = Process | Service

  /** One published series. */
  datatype Key = Key(service: string, scope: Scope)

  type ProcessTimes = PidStat.ProcessTimes

  /** What D-Bus and the files under /proc and /sys/fs/cgroup answer for one service in one cycle. */
  datatype Properties = Properties(activeState: string, subState: string, mainPid: nat, controlGroup: string)
  datatype Reply = Reply(props: Option<Properties>,
                         rss: Option<u64>, fds: Option<nat>, times: Option<ProcessTimes>,
                         memory: Option<u64>, totalFds: Option<u64>, usage: Option<u64>)

  /** A value set on a gauge other than the CPU percentages. */
  datatype GaugeSet =
    | StateSet(service: string, state: string)
    | RssSet(service: string, bytes: nat)
    | MemorySet(service: string, bytes: nat)
    | FdsSet(service: string, scope: Scope, count: nat)

  datatype Published = Published(key: Key, pct: real)

  /** A counter read that succeeded, and the series it belongs to. */
  datatype Read = Read(key: Key, sample: Sample<Identity>)

  predicate Running(p: Properties) {
    p.activeState == "active" && p.subState == "running"
  }

  function ProcessReads(service: string, p: Properties, times: Option<ProcessTimes>, clkTck: u64, now: int): seq<Read>
    requires clkTck > 0
  {
    if times.None? then []
    else
      var us := ToMicros(times.value.uTime, times.value.sTime, clkTck);
      [Read(Key(service, Process), Sample(Pid(p.mainPid), us, now))]
  }

  function CgroupReads(service: string, p: Properties, usage: Option<u64>, now: int): seq<Read> {
    if usage.None? then []
    else [Read(Key(service, Service), Sample(ControlGroup(p.controlGroup), usage.value, now))]
  }

  /** The successful reads one service makes in one cycle, in the order they are made. */
  function ReadsOf(service: string, reply: Reply, clkTck: u64, now: int): seq<Read>
    requires clkTck > 0
  {
    if reply.props.None? || !Running(reply.props.value) then []
    else
      ProcessReads(service, reply.props.value, reply.times, clkTck, now)
      + CgroupReads(service, reply.props.value, reply.usage, now)
  }

  /** The reads of a whole cycle: the services in their order. */
  function ReadsOfCycle(services: seq<string>, replies: seq<Reply>, clkTck: u64, now: int, n: nat): seq<Read>
    requires clkTck > 0 && n <= |services| == |replies|
  {
    if n == 0 then []
    else ReadsOfCycle(services, replies, clkTck, now, n - 1) + ReadsOf(services[n - 1], replies[n - 1], clkTck, now)
  }

  // ---------- the plain gauges, and whether a cycle succeeded ----------

  function ProcessGauges(service: string, reply: Reply, pageSize: nat): seq<GaugeSet> {
    (if reply.rss.Some? then [RssSet(service, reply.rss.value * pageSize)] else [])
    + if reply.fds.Some? then [FdsSet(service, Process, reply.fds.value)] else []
  }

  function CgroupGauges(service: string, reply: Reply): seq<GaugeSet> {
    (if reply.memory.Some? then [MemorySet(service, reply.memory.value)] else [])
    + if reply.totalFds.Some? then [FdsSet(service, Service, reply.totalFds.value)] else []
  }

  /** What one service sets in one cycle: its state whenever it has properties, the rest when it runs. */
  function GaugesOf(service: string, reply: Reply, pageSize: nat): seq<GaugeSet> {
    if reply.props.None? then []
    else
      var p := reply.props.value;
      [StateSet(service, p.activeState + "." + p.subState)]
      + if Running(p) then ProcessGauges(service, reply, pageSize) + CgroupGauges(service, reply) else []
  }

  function GaugesOfCycle(services: seq<string>, replies: seq<Reply>, pageSize: nat, n: nat): seq<GaugeSet>
    requires n <= |services| == |replies|
  {
    if n == 0 then []
    else GaugesOfCycle(services, replies, pageSize, n - 1) + GaugesOf(services[n - 1], replies[n - 1], pageSize)
  }

  lemma NoServiceYet(services: seq<string>, replies: seq<Reply>, clkTck: u64, pageSize: nat, now: int)
    requires clkTck > 0 && |services| == |replies|
    ensures ReadsOfCycle(services, replies, clkTck, now, 0) == [] && GaugesOfCycle(services, replies, pageSize, 0) == []
  {
  }

  lemma OneServiceMore(services: seq<string>, replies: seq<Reply>, clkTck: u64, pageSize: nat, now: int, n: nat,
                       g: seq<GaugeSet>)
    requires clkTck > 0 && n < |services| == |replies|
    ensures ReadsOfCycle(services, replies, clkTck, now, n + 1)
            == ReadsOfCycle(services, replies, clkTck, now, n) + ReadsOf(services[n], replies[n], clkTck, now)
    ensures g + GaugesOfCycle(services, replies, pageSize, n + 1)
            == g + GaugesOfCycle(services, replies, pageSize, n) + GaugesOf(services[n], replies[n], pageSize)
  {
    hide ReadsOf, GaugesOf;
  }

  predicate ProcessReadsOk(reply: Reply) {
    reply.rss.Some? && reply.fds.Some? && reply.times.Some?
  }

  predicate CgroupReadsOk(reply: Reply) {
    reply.memory.Some? && reply.totalFds.Some? && reply.usage.Some?
  }

  /** A service that is not running cannot fail. */
  predicate Succeeds(reply: Reply) {
    reply.props.Some? && (Running(reply.props.value) ==> ProcessReadsOk(reply) && CgroupReadsOk(reply))
  }

  /** What a service reads and sets, by how it answers; g is what was set before. */
  lemma ServiceCases(service: string, reply: Reply, clkTck: u64, pageSize: nat, now: int, g: seq<GaugeSet>)
    requires clkTck > 0
    ensures reply.props.None? ==>
        ReadsOf(service, reply, clkTck, now) == [] && g + GaugesOf(service, reply, pageSize) == g && !Succeeds(reply)
    ensures reply.props.Some? ==>
        var p := reply.props.value;
        var state := [StateSet(service, p.activeState + "." + p.subState)];
        if !Running(p) then
          && ReadsOf(service, reply, clkTck, now) == []
          && g + GaugesOf(service, reply, pageSize) == g + state && Succeeds(reply)
        else
          && g + GaugesOf(service, reply, pageSize)
             == g + state + (ProcessGauges(service, reply, pageSize) + CgroupGauges(service, reply))
          && Succeeds(reply) == (ProcessReadsOk(reply) && CgroupReadsOk(reply))
  {
    hide ProcessGauges, CgroupGauges, ProcessReadsOk, CgroupReadsOk, Running;
  }

  // ---------- what the monitor does with a sequence of reads ----------

  datatype MonitorState = MonitorState(last: map<Key, Sample<Identity>>, log: seq<Published>)

  function LastOf(last: map<Key, Sample<Identity>>, k: Key): Option<Sample<Identity>> {
    if k in last then Some(last[k]) else None
  }

  function Step(s: MonitorState, r: Read): MonitorState {
    var pct := Rate(LastOf(s.last, r.key), r.sample);
    MonitorState(s.last[r.key := r.sample], s.log + if pct.Some? then [Published(r.key, pct.value)] else [])
  }

  function Steps(s: MonitorState, rs: seq<Read>): MonitorState {
    if rs == [] then s else Step(Steps(s, rs[..|rs| - 1]), rs[|rs| - 1])
  }

  lemma {:induction false} StepsConcat(s: MonitorState, a: seq<Read>, b: seq<Read>)
    ensures Steps(s, a + b) == Steps(Steps(s, a), b)
  {
    if b == [] {
      assert a + b == a;
    } else {
      StepsConcat(s, a, b[..|b| - 1]);
      assert (a + b)[..|a + b| - 1] == a + b[..|b| - 1];
    }
  }

  /** The reads of a service are those of its process, then those of its control group. */
  lemma ScopesAreReads(s: MonitorState, service: string, reply: Reply, clkTck: u64, now: int)
    requires clkTck > 0 && reply.props.Some? && Running(reply.props.value)
    ensures Steps(s, ReadsOf(service, reply, clkTck, now))
            == Steps(Steps(s, ProcessReads(service, reply.props.value, reply.times, clkTck, now)),
                     CgroupReads(service, reply.props.value, reply.usage, now))
  {
    hide Steps, ProcessReads, CgroupReads;
    StepsConcat(s, ProcessReads(service, reply.props.value, reply.times, clkTck, now),
                CgroupReads(service, reply.props.value, reply.usage, now));
  }

  lemma StepsOfOne(s: MonitorState, rs: seq<Read>)
    requires |rs| <= 1
    ensures Steps(s, rs) == if rs == [] then s else Step(s, rs[0])
  {
  }

  // ---------- the pairwise specification of one series ----------

  /** The samples of one series among a sequence of reads. */
  function SamplesOf(rs: seq<Read>, k: Key): seq<Sample<Identity>> {
    if rs == [] then []
    else
      var r := rs[|rs| - 1];
      SamplesOf(rs[..|rs| - 1], k) + if r.key == k then [r.sample] else []
  }

  /** The percentages that the consecutive pairs of one series justify. */
  function PairwiseRates(s: seq<Sample<Identity>>, n: nat): seq<real>
    requires n <= |s|
  {
    if n == 0 then []
    else PairwiseRates(s, n - 1) + if RateAt(s, n - 1).Some? then [RateAt(s, n - 1).value] else []
  }

  /** What was published for one series. */
  function PublishedFor(log: seq<Published>, k: Key): seq<real> {
    if log == [] then []
    else PublishedFor(log[..|log| - 1], k) + if log[|log| - 1].key == k then [log[|log| - 1].pct] else []
  }

  lemma PublishedForAppend(log: seq<Published>, p: Published, k: Key)
    ensures PublishedFor(log + [p], k) == PublishedFor(log, k) + if p.key == k then [p.pct] else []
  {
    assert (log + [p])[..|log|] == log;
  }

  lemma {:induction false} PairwiseRatesPrefix(s: seq<Sample<Identity>>, x: Sample<Identity>, n: nat)
    requires n <= |s|
    ensures PairwiseRates(s + [x], n) == PairwiseRates(s, n)
  {
    hide Rate;
    if n > 0 {
      PairwiseRatesPrefix(s, x, n - 1);
      assert RateAt(s + [x], n - 1) == RateAt(s, n - 1);
    }
  }

  lemma PairwiseRatesAppend(s: seq<Sample<Identity>>, x: Sample<Identity>)
    ensures var pct := Rate(if s == [] then None else Some(s[|s| - 1]), x);
            PairwiseRates(s + [x], |s + [x]|) == PairwiseRates(s, |s|) + if pct.Some? then [pct.value] else []
  {
    hide Rate;
    PairwiseRatesPrefix(s, x, |s|);
    assert RateAt(s + [x], |s|) == Rate(if s == [] then None else Some(s[|s| - 1]), x);
  }

  /** The monitor state agrees with series k having had exactly these samples. */
  ghost predicate Agrees(s: MonitorState, own: seq<Sample<Identity>>, k: Key) {
    && PublishedFor(s.log, k) == PairwiseRates(own, |own|)
    && LastOf(s.last, k) == if own == [] then None else Some(own[|own| - 1])
  }

  lemma StepAgrees(s: MonitorState, own: seq<Sample<Identity>>, r: Read, k: Key)
    requires Agrees(s, own, k)
    ensures Agrees(Step(s, r), own + if r.key == k then [r.sample] else [], k)
  {
    hide Rate, PublishedFor, PairwiseRates, RateAt;
    var pct := Rate(LastOf(s.last, r.key), r.sample);
    if pct.Some? {
      PublishedForAppend(s.log, Published(r.key, pct.value), k);
    } else {
      assert s.log + [] == s.log;
    }
    if r.key == k {
      PairwiseRatesAppend(own, r.sample);
    } else {
      assert own + [] == own;
    }
  }

  /** However the reads of the services interleave, each series publishes exactly the pairwise rates of
      its own successful samples, and keeps exactly its own last sample as baseline. */
  lemma {:induction false} EachSeriesIsPairwise(rs: seq<Read>, k: Key)
    ensures var s := Steps(MonitorState(map[], []), rs); var own := SamplesOf(rs, k);
            && PublishedFor(s.log, k) == PairwiseRates(own, |own|)
            && LastOf(s.last, k) == if own == [] then None else Some(own[|own| - 1])
  {
    if rs == [] {
    } else {
      hide Step, PublishedFor, PairwiseRates, LastOf;
      var before, r := rs[..|rs| - 1], rs[|rs| - 1];
      EachSeriesIsPairwise(before, k);
      StepAgrees(Steps(MonitorState(map[], []), before), SamplesOf(before, k), r, k);
    }
  }

  // ---------- the collector ----------

  /** Held in one map entry per service, created on its first active cycle. */
  datatype ServiceCpuState = ServiceCpuState(process: CpuRateTracker<Identity>, cgroup: CpuRateTracker<Identity>)

  class ServiceMonitor {
    const monitoredServices: seq<string>
    const clkTck: u64
    const pageSize: nat
    var cpuState: map<string, ServiceCpuState>
    ghost var log: seq<Published>
    ghost var gauges: seq<GaugeSet>
    ghost var trackers: set<CpuRateTracker<Identity>>

    /** Every tracker belongs to one service and one scope. */
    ghost predicate Valid()
      reads this
    {
      && clkTck > 0
      && (forall k :: k in cpuState ==> cpuState[k].process in trackers && cpuState[k].cgroup in trackers)
      && (forall k :: k in cpuState ==> cpuState[k].process != cpuState[k].cgroup)
      && forall j, k :: j in cpuState && k in cpuState && j != k ==>
          && cpuState[j].process != cpuState[k].process && cpuState[j].process != cpuState[k].cgroup
          && cpuState[j].cgroup != cpuState[k].cgroup
    }

    /** The tracker of a series that has one. */
    ghost function TrackerOf(k: Key): CpuRateTracker<Identity>
      requires k.service in cpuState
      reads this
    {
      if k.scope == Process then cpuState[k.service].process else cpuState[k.service].cgroup
    }

    /** The monitor holds the state of the specification: same baselines, same log. */
    ghost predicate Holds(s: MonitorState)
      requires Valid()
      reads this, trackers
    {
      && log == s.log
      && forall k: Key :: LastOf(s.last, k) == if k.service in cpuState then TrackerOf(k).Last() else None
    }

    constructor (services: seq<string>, ticks: u64, page: nat)
      requires ticks > 0
      ensures Valid() && fresh(trackers) && Holds(MonitorState(map[], [])) && gauges == []
      ensures monitoredServices == services && clkTck == ticks && pageSize == page
    {
      monitoredServices, clkTck, pageSize := services, ticks, page;
      cpuState, log, gauges, trackers := map[], [], [], {};
    }

    /** One successful read: the tracker is advanced and its percentage, if any, published. */
    method Publish(k: Key, id: Identity, counterUs: u64, now: int, ghost s: MonitorState)
      requires Valid() && Holds(s) && k.service in cpuState
      modifies this`log, TrackerOf(k)
      ensures Valid() && Holds(Step(s, Read(k, Sample(id, counterUs, now))))
    {
      hide Rate;
      var tracker := if k.scope == Process then cpuState[k.service].process else cpuState[k.service].cgroup;
      var pct := tracker.Update(id, counterUs, now);
      if pct.Some? {
        log := log + [Published(k, pct.value)];
      }
    }

    /** operator[] on the map: a service's first active cycle creates two trackers without a baseline. */
    method EnsureState(service: string, ghost s: MonitorState)
      requires Valid() && Holds(s)
      modifies this`cpuState, this`trackers
      ensures Valid() && Holds(s) && service in cpuState && fresh(trackers - old(trackers))
    {
      if service !in cpuState {
        var process := new CpuRateTracker<Identity>();
        var cgroup := new CpuRateTracker<Identity>();
        cpuState := cpuState[service := ServiceCpuState(process, cgroup)];
        trackers := trackers + {process, cgroup};
      }
    }

    /** A failed read sets no gauge; a failed read of the times is no sample: the tracker is not touched. */
    method CollectProcessMetrics(service: string, props: Properties, reply: Reply, now: int, ghost s: MonitorState)
      returns (success: bool)
      requires Valid() && Holds(s) && service in cpuState
      modifies this`log, this`gauges, trackers
      ensures Valid() && success == ProcessReadsOk(reply)
      ensures gauges == old(gauges) + ProcessGauges(service, reply, pageSize)
      ensures Holds(Steps(s, ProcessReads(service, props, reply.times, clkTck, now)))
    {
      hide Step, Steps, ToMicros;
      StepsOfOne(s, ProcessReads(service, props, reply.times, clkTck, now));
      success := true;
      if reply.rss.Some? {
        gauges := gauges + [RssSet(service, reply.rss.value * pageSize)];
      } else {
        success := false;
      }
      if reply.fds.Some? {
        gauges := gauges + [FdsSet(service, Process, reply.fds.value)];
      } else {
        success := false;
      }
      if reply.times.None? {
        return false;
      }
      var currUs := ToMicros(reply.times.value.uTime, reply.times.value.sTime, clkTck);
      Publish(Key(service, Process), Pid(props.mainPid), currUs, now, s);
    }

    method CollectCgroupMetrics(service: string, props: Properties, reply: Reply, now: int, ghost s: MonitorState)
      returns (success: bool)
      requires Valid() && Holds(s) && service in cpuState
      modifies this`log, this`gauges, trackers
      ensures Valid() && success == CgroupReadsOk(reply)
      ensures gauges == old(gauges) + CgroupGauges(service, reply)
      ensures Holds(Steps(s, CgroupReads(service, props, reply.usage, now)))
    {
      hide Step, Steps;
      StepsOfOne(s, CgroupReads(service, props, reply.usage, now));
      success := true;
      if reply.memory.Some? {
        gauges := gauges + [MemorySet(service, reply.memory.value)];
      } else {
        success := false;
      }
      if reply.totalFds.Some? {
        gauges := gauges + [FdsSet(service, Service, reply.totalFds.value)];
      } else {
        success := false;
      }
      if reply.usage.None? {
        return false;
      }
      Publish(Key(service, Service), ControlGroup(props.controlGroup), reply.usage.value, now, s);
    }

    /** Both scopes of a running service. */
    method CollectScopes(service: string, props: Properties, reply: Reply, now: int, ghost s: MonitorState)
      returns (success: bool)
      requires Valid() && Holds(s) && service in cpuState && reply.props == Some(props) && Running(props)
      modifies this`log, this`gauges, trackers
      ensures Valid() && Holds(Steps(s, ReadsOf(service, reply, clkTck, now)))
      ensures success == (ProcessReadsOk(reply) && CgroupReadsOk(reply))
      ensures gauges == old(gauges) + (ProcessGauges(service, reply, pageSize) + CgroupGauges(service, reply))
    {
      hide ProcessReads, CgroupReads, Steps, ReadsOf, ProcessGauges, CgroupGauges, ProcessReadsOk, CgroupReadsOk;
      ScopesAreReads(s, service, reply, clkTck, now);
      var processOk := CollectProcessMetrics(service, props, reply, now, s);
      var cgroupOk := CollectCgroupMetrics(service, props, reply, now,
                                           Steps(s, ProcessReads(service, props, reply.times, clkTck, now)));
      success := processOk && cgroupOk;
    }

    /** One service in one cycle: nothing without properties, only its state when not active and running. */
    method CollectService(service: string, reply: Reply, now: int, ghost s: MonitorState) returns (success: bool)
      requires Valid() && Holds(s)
      modifies this`cpuState, this`log, this`gauges, this`trackers, trackers
      ensures Valid() && Holds(Steps(s, ReadsOf(service, reply, clkTck, now))) && fresh(trackers - old(trackers))
      ensures success == Succeeds(reply) && gauges == old(gauges) + GaugesOf(service, reply, pageSize)
    {
      hide Step, Steps, ReadsOf, GaugesOf, Running, Succeeds;
      hide ProcessGauges, CgroupGauges, ProcessReadsOk, CgroupReadsOk;
      StepsOfOne(s, []);
      ServiceCases(service, reply, clkTck, pageSize, now, gauges);
      if reply.props.None? {
        return false;
      }
      var props := reply.props.value;
      gauges := gauges + [StateSet(service, props.activeState + "." + props.subState)];
      if !Running(props) {
        return true;
      }
      EnsureState(service, s);
      success := CollectScopes(service, props, reply, now, s);
    }

    /** One pass over the monitored services; it succeeds when every service does. */
    method UpdateMetrics(replies: seq<Reply>, now: int, ghost s: MonitorState) returns (success: bool)
      requires Valid() && Holds(s) && |replies| == |monitoredServices|
      modifies this`cpuState, this`log, this`gauges, this`trackers, trackers
      ensures Valid() && fresh(trackers - old(trackers))
      ensures Holds(Steps(s, ReadsOfCycle(monitoredServices, replies, clkTck, now, |replies|)))
      ensures gauges == old(gauges) + GaugesOfCycle(monitoredServices, replies, pageSize, |replies|)
      ensures success <==> forall i :: 0 <= i < |replies| ==> Succeeds(replies[i])
    {
      hide Step, Steps, ReadsOf, ReadsOfCycle, GaugesOf, GaugesOfCycle, Succeeds, Holds;
      success := true;
      NoServiceYet(monitoredServices, replies, clkTck, pageSize, now);
      assert gauges == gauges + [];
      StepsOfOne(s, []);
      for i := 0 to |monitoredServices|
        invariant Valid() && fresh(trackers - old(trackers))
        invariant Holds(Steps(s, ReadsOfCycle(monitoredServices, replies, clkTck, now, i)))
        invariant gauges == old(gauges) + GaugesOfCycle(monitoredServices, replies, pageSize, i)
        invariant success <==> forall j :: 0 <= j < i ==> Succeeds(replies[j])
      {
        ghost var before := ReadsOfCycle(monitoredServices, replies, clkTck, now, i);
        var ok := CollectService(monitoredServices[i], replies[i], now, Steps(s, before));
        success := success && ok;
        StepsConcat(s, before, ReadsOf(monitoredServices[i], replies[i], clkTck, now));
        OneServiceMore(monitoredServices, replies, clkTck, pageSize, now, i, old(gauges));
      }
    }
  }

  // ---------- the published percentages, from the answers alone ----------

  /** Percent of one CPU between two readings, in nanoseconds of the steady clock; none when the owner has
      changed, the counter has stepped back or no microsecond has passed. */
  function Percentage(prev: Sample<Identity>, cur: Sample<Identity>): seq<real> {
    if prev.id == cur.id && prev.counterUs <= cur.counterUs && cur.at - prev.at >= 1_000 then
      [100.0 * (cur.counterUs - prev.counterUs) as real / ((cur.at - prev.at) / 1_000) as real]
    else []
  }

  function Percentages(s: seq<Sample<Identity>>, n: nat): seq<real>
    requires n <= |s|
  {
    if n <= 1 then [] else Percentages(s, n - 1) + Percentage(s[n - 2], s[n - 1])
  }

  lemma {:induction false} PairwiseIsPercentages(s: seq<Sample<Identity>>, n: nat)
    requires n <= |s|
    ensures PairwiseRates(s, n) == Percentages(s, n)
  {
    hide Rate;
    if n > 1 {
      PairwiseIsPercentages(s, n - 1);
      RateInNanoseconds(s[n - 2], s[n - 1]);
      assert RateAt(s, n - 1) == Rate(Some(s[n - 2]), s[n - 1]);
    } else if n == 1 {
      FirstSampleIsQuiet(s);
      assert PairwiseRates(s, 0) == [];
    }
  }

  /** What one answer of service `name` tells about one scope: the CPU time of its main process (user and
      system time in jiffies, turned into microseconds) or of its control group. */
  function Told(service: string, reply: Reply, ticks: u64, now: int, k: Key): seq<Sample<Identity>>
    requires ticks > 0
  {
    if service != k.service || reply.props.None? || reply.props.value.activeState != "active"
       || reply.props.value.subState != "running" then []
    else
      match k.scope
      case Process =>
        if reply.times.None? then []
        else
          var us := (reply.times.value.uTime + reply.times.value.sTime) * 1_000_000 % U64 / ticks;
          [Sample(Pid(reply.props.value.mainPid), us, now)]
      case Service =>
        if reply.usage.None? then []
        else [Sample(ControlGroup(reply.props.value.controlGroup), reply.usage.value, now)]
  }

  function ToldInCycle(services: seq<string>, replies: seq<Reply>, ticks: u64, now: int, n: nat, k: Key)
    : seq<Sample<Identity>>
    requires ticks > 0 && n <= |services| == |replies|
  {
    if n == 0 then []
    else ToldInCycle(services, replies, ticks, now, n - 1, k) + Told(services[n - 1], replies[n - 1], ticks, now, k)
  }

  lemma {:induction false} SamplesOfConcat(a: seq<Read>, b: seq<Read>, k: Key)
    ensures SamplesOf(a + b, k) == SamplesOf(a, k) + SamplesOf(b, k)
  {
    if b == [] {
      assert a + b == a;
    } else {
      SamplesOfConcat(a, b[..|b| - 1], k);
      assert (a + b)[..|a + b| - 1] == a + b[..|b| - 1];
    }
  }

  lemma SamplesOfOne(rs: seq<Read>, k: Key)
    requires |rs| <= 1
    ensures SamplesOf(rs, k) == if rs == [] || rs[0].key != k then [] else [rs[0].sample]
  {
  }

  lemma ReadsAreTold(service: string, reply: Reply, ticks: u64, now: int, k: Key)
    requires ticks > 0
    ensures SamplesOf(ReadsOf(service, reply, ticks, now), k) == Told(service, reply, ticks, now, k)
  {
    hide SamplesOf, ToMicros;
    SamplesOfOne([], k);
    if reply.props.Some? {
      var p := reply.props.value;
      var process := ProcessReads(service, p, reply.times, ticks, now);
      var cgroup := CgroupReads(service, p, reply.usage, now);
      SamplesOfConcat(process, cgroup, k);
      SamplesOfOne(process, k);
      SamplesOfOne(cgroup, k);
      if reply.times.Some? {
        MicrosOf(reply.times.value.uTime, reply.times.value.sTime, ticks);
      }
    }
  }

  lemma {:induction false} CycleIsTold(services: seq<string>, replies: seq<Reply>, ticks: u64, now: int, n: nat, k: Key)
    requires ticks > 0 && n <= |services| == |replies|
    ensures SamplesOf(ReadsOfCycle(services, replies, ticks, now, n), k)
            == ToldInCycle(services, replies, ticks, now, n, k)
  {
    hide SamplesOf, ReadsOf, Told;
    if n == 0 {
      SamplesOfOne([], k);
    } else {
      CycleIsTold(services, replies, ticks, now, n - 1, k);
      ReadsAreTold(services[n - 1], replies[n - 1], ticks, now, k);
      SamplesOfConcat(ReadsOfCycle(services, replies, ticks, now, n - 1),
                      ReadsOf(services[n - 1], replies[n - 1], ticks, now), k);
    }
  }

  // ---------- the other gauges and the result, from the answers alone ----------

  predicate IsUp(reply: Reply) {
    reply.props.Some? && reply.props.value.activeState == "active" && reply.props.value.subState == "running"
  }

  /** Whether this answer of this service puts g on its gauge. */
  predicate Sets(service: string, reply: Reply, pageSize: nat, g: GaugeSet) {
    g.service == service
    && match g
       case StateSet(_, state) =>
         reply.props.Some? && state == reply.props.value.activeState + "." + reply.props.value.subState
       case RssSet(_, bytes) => IsUp(reply) && reply.rss.Some? && bytes == reply.rss.value * pageSize
       case MemorySet(_, bytes) => IsUp(reply) && reply.memory == Some(bytes)
       case FdsSet(_, scope, count) =>
         IsUp(reply) && (if scope == Process then reply.fds == Some(count) else reply.totalFds == Some(count))
  }

  lemma GaugesAreSets(service: string, reply: Reply, pageSize: nat, g: GaugeSet)
    ensures g in GaugesOf(service, reply, pageSize) <==> Sets(service, reply, pageSize, g)
  {
  }

  /** A cycle sets exactly these gauges. */
  lemma {:induction false} CycleSets(services: seq<string>, replies: seq<Reply>, pageSize: nat, n: nat, g: GaugeSet)
    requires n <= |services| == |replies|
    ensures g in GaugesOfCycle(services, replies, pageSize, n)
            <==> exists i :: 0 <= i < n && Sets(services[i], replies[i], pageSize, g)
  {
    hide GaugesOf, Sets;
    if n > 0 {
      CycleSets(services, replies, pageSize, n - 1, g);
      GaugesAreSets(services[n - 1], replies[n - 1], pageSize, g);
    }
  }

  /** A service fails its cycle exactly when its properties cannot be read, or when it is active and running
      and one of its six readings fails. */
  lemma FailsIff(reply: Reply)
    ensures !Succeeds(reply)
            <==> reply.props.None?
                 || (reply.props.value.activeState == "active" && reply.props.value.subState == "running"
                     && (reply.rss.None? || reply.fds.None? || reply.times.None?
                         || reply.memory.None? || reply.totalFds.None? || reply.usage.None?))
  {
  }

  // ---------- cycle after cycle ----------

  /** One call of update_metrics: what the services answer, and the clock. */
  datatype Cycle = Cycle(replies: seq<Reply>, now: int)

  ghost predicate Complete(cycles: seq<Cycle>, services: seq<string>) {
    forall i :: 0 <= i < |cycles| ==> |cycles[i].replies| == |services|
  }

  /** All successful reads of the first n cycles, in order. */
  ghost function ReadsOfRun(services: seq<string>, cycles: seq<Cycle>, clkTck: u64, n: nat): seq<Read>
    requires clkTck > 0 && n <= |cycles| && Complete(cycles, services)
  {
    if n == 0 then []
    else ReadsOfRun(services, cycles, clkTck, n - 1)
         + ReadsOfCycle(services, cycles[n - 1].replies, clkTck, cycles[n - 1].now, |services|)
  }

  /** All that the first n cycles tell about one service and scope. */
  ghost function ToldInRun(services: seq<string>, cycles: seq<Cycle>, ticks: u64, n: nat, k: Key)
    : seq<Sample<Identity>>
    requires ticks > 0 && n <= |cycles| && Complete(cycles, services)
  {
    if n == 0 then []
    else ToldInRun(services, cycles, ticks, n - 1, k)
         + ToldInCycle(services, cycles[n - 1].replies, ticks, cycles[n - 1].now, |services|, k)
  }

  lemma {:induction false} RunIsTold(services: seq<string>, cycles: seq<Cycle>, ticks: u64, n: nat, k: Key)
    requires ticks > 0 && n <= |cycles| && Complete(cycles, services)
    ensures SamplesOf(ReadsOfRun(services, cycles, ticks, n), k) == ToldInRun(services, cycles, ticks, n, k)
  {
    hide SamplesOf, ReadsOfCycle, ToldInCycle;
    if n == 0 {
      SamplesOfOne([], k);
    } else {
      RunIsTold(services, cycles, ticks, n - 1, k);
      var cycle := cycles[n - 1];
      CycleIsTold(services, cycle.replies, ticks, cycle.now, |services|, k);
      SamplesOfConcat(ReadsOfRun(services, cycles, ticks, n - 1),
                      ReadsOfCycle(services, cycle.replies, ticks, cycle.now, |services|), k);
    }
  }

  /** A monitor from its first cycle on: whatever the services answer, each service and scope publishes
      exactly the percentages between the consecutive readings it was told itself. */
  method GatherCycles(services: seq<string>, ticks: u64, page: nat, cycles: seq<Cycle>)
    returns (monitor: ServiceMonitor)
    requires ticks > 0 && Complete(cycles, services)
    ensures monitor.Valid()
    ensures forall k: Key ::
        var own := ToldInRun(services, cycles, ticks, |cycles|, k);
        PublishedFor(monitor.log, k) == Percentages(own, |own|)
  {
    hide Step, Steps, ReadsOfCycle, GaugesOfCycle, Succeeds, SamplesOf, PairwiseRates, PublishedFor, Percentages,
         ToldInRun;
    ghost var initial := MonitorState(map[], []);
    monitor := new ServiceMonitor(services, ticks, page);
    StepsOfOne(initial, []);
    for i := 0 to |cycles|
      invariant fresh(monitor) && fresh(monitor.trackers) && monitor.Valid()
      invariant monitor.monitoredServices == services && monitor.clkTck == ticks
      invariant monitor.Holds(Steps(initial, ReadsOfRun(services, cycles, ticks, i)))
    {
      ghost var before := ReadsOfRun(services, cycles, ticks, i);
      var success := monitor.UpdateMetrics(cycles[i].replies, cycles[i].now, Steps(initial, before));
      StepsConcat(initial, before, ReadsOfCycle(services, cycles[i].replies, ticks, cycles[i].now, |services|));
    }
    forall k: Key
      ensures var own := ToldInRun(services, cycles, ticks, |cycles|, k);
              PublishedFor(monitor.log, k) == Percentages(own, |own|)
    {
      EachSeriesIsPairwise(ReadsOfRun(services, cycles, ticks, |cycles|), k);
      RunIsTold(services, cycles, ticks, |cycles|, k);
      var own := ToldInRun(services, cycles, ticks, |cycles|, k);
      PairwiseIsPercentages(own, |own|);
    }
  }
}
