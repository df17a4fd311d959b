# Atlas system agent: verified model

The agent samples kernel counters that grow and publishes deltas, rates and windowed aggregates. This
project models the parts whose guarantees range over whole runs, and proves those guarantees for every
run: lost samples, restarts, stalls and clock jumps included. Check it with `dafny verify dfyconfig.toml`.

The project follows one pattern. State that the source changes in place is a class; each of its methods is
proved equal to a pure step on an abstract state. Clock readings, file contents, D-Bus answers, poll
results and firmware replies are arbitrary inputs. The step is then folded over sequences of inputs
(`At`, `After`, `Steps`, `Published` ...), and the theorems are lemmas about all such sequences.

| file | models |
|---|---|
| Scheduler.dfy | the collection loop, its three deadlines and the shutdown latch |
| CpuShares.dfy, AggregateGauges.dfy | one cpu line of /proc/stat, the share of time per state, and the whole-machine gauges |
| CoreUtilization.dfy | the per-core distribution summary, the accumulated usages and the published maximum |
| CoreWindow.dfy, AnyWindow.dfy | what the maximum means: windows that read every core, and any window at all |
| Agent.dfy | the loop driving that window: what is published, end to end |
| CpuRateTracker.dfy, ServiceMonitor.dfy | CPU percentages per service and scope |
| IoStat.dfy, IoMetrics.dfy | cgroup io.stat: line, file, per-device counters |
| CpuList.dfy, PidStat.dfy | CPU lists, /proc/[pid]/stat and cpu.stat |
| MountIndex.dfy, Perfspect.dfy | the shortest-mount index and the PerfSpect line stream |
| PerfCounter.dfy, MonotonicTimer.dfy, AmdGpu.dfy | hardware counters, disk timers, AMD SMI |
| Text.dfy, Reals.dfy, Clock.dfy | decimal text, small facts about real quotients, the clock's unit |

Conventions: `double` is `real`, `uint64_t` arithmetic is written out modulo 2^64, a cast to `uint64_t` is
a floor, a thrown exception is an early exit at the point where it occurs, and the unspecified order of an
unordered map is an arbitrary choice in a loop.

## Where the code does not keep what it promises

The comment at lib/collectors/proc/src/proc.cpp:628-639 promises the maximum average usage over a
60-second window. The code divides by a fixed 12. With every core read successfully in the window that is
the mean if and only if the loop was as far behind at this sixty-second pass as at the previous one
(`Agent.PublishedIsTheMeanIffLagKept`); after a stall a busy one-core machine reports about 192%
(`Agent.StalledOneCoreAgent`), and the first window holds at most eleven usages
(`Agent.FirstWindowIsTheMeanIff`). In any window at all, with cores lost or passes aborted, it is the mean of
the busiest core if and only if that core counted twelve usages or all was idle (`AnyWindow.BusiestMeanIff`).

A core usage leaves [0, 100] exactly when the unsigned deltas overflow 64 bits without wrapping to zero
(`CpuShares.UsageWithinIff`), as when a counter steps back by fewer ticks than the others advance
(`CpuShares.DecreaseBreaksUsageIff`). AMD xGMI conserves bytes only for gathers exactly a minute apart
(`AmdGpu.OnlyAMinuteConserves`), so the catch-up publishes sixty times the bytes (`AmdGpu.CatchUpBytes`). The
loop leaves only after a pass that ends within its own second (`Scheduler.ExitsIff`), so one whose passes take
a second or more never sees a shutdown request (`Scheduler.SlowPassesNeverExit`). A PerfSpect read error
survives the restart it causes and kills the new process too, until a poll completes a line without a further
error (`PerfspectStream.ErrorRestartsUntilALine`); and a data line is lost exactly when another line completes
before the next call, or that call finds the process exited, no longer readable or failing
(`PerfspectStream.NothingLostIff`, `PerfspectStream.ExitLosesALine`). A CPU list whose range ends below an
earlier one loses members unless a later range restores them (`CpuList.ParsesToItsMembersIff`). A disk timer
loses the operations before its first non-zero reading (`MonotonicTimers.CountTelescopes`).

## Model

| member | source | states |
|---|---|---|
| Agent.CollectSystemMetrics | AtlasAgent/src/system-agent.cpp:98-144 | The do/while loop over any clock readings: it makes exactly the five-second collections the deadlines call for, in order, feeds the peak gauges on every pass and the utilization gauges and core count on sixty-second passes, and leaves at the first pass that sleeps with the latch set and at no other. |
| Agent.GaugesHoldShares | lib/collectors/proc/src/proc.cpp:588-624 | Over any run of the loop the peak gauges were set to the shares between consecutive readable passes, every pass taken, and the utilization gauges to those between consecutive readable sixty-second passes, each gauge to the share of its own counter. |
| Agent.PublishedIsTheMeanIffLagKept | lib/collectors/proc/src/proc.cpp:626-701 | End to end, for any clock: when every core is read successfully from the previous sixty-second pass on (whatever was read before), each sixty-second pass after the first publishes one value, and that value is the largest true mean of a core over its window if and only if the pass found the same lag (five-second deadlines still due) as the previous one, or all cores were idle. |
| Agent.SteadyAgentPublishesMeans | AtlasAgent/src/system-agent.cpp:98-144 | On a clock that never goes back with passes at most 5 s apart, every window from the second on in which all cores are read holds exactly twelve usages and the published max is the largest true mean of twelve. |
| Agent.FirstWindowIsTheMeanIff | lib/collectors/proc/src/proc.cpp:655-693 | For any clock, when every core is read from the start: the first window holds at most eleven usages because the first collection only sets baselines, and its published value is the largest true mean if and only if all cores were idle. |
| Agent.SteadyFirstWindow | lib/collectors/proc/src/proc.cpp:655-693 | On a steady clock the first window holds exactly eleven usages; what is published is eleven twelfths of the largest true mean. |
| Agent.BusyAgentPublishes | lib/collectors/proc/src/proc.cpp:678-690 | What an agent publishes after a window with all cores exactly 100% busy, for any clock: 100 * (12 + change of lag) / 12. |
| Agent.StalledAgentOverstates | lib/collectors/proc/src/proc.cpp:687-690 | After a 119 s stall any fully busy agent publishes 2300 / 12, above 100%. |
| Agent.StalledOneCoreAgent | lib/collectors/proc/src/proc.cpp:687-690 | Concrete failing input in full: on a clock that never goes back, with waits as long as asked, and with the printed /proc/stat of a busy one-core machine, the agent publishes 2300 / 12. |
| Agent.BusyFilesAreFullyBusy | lib/collectors/proc/src/proc.cpp:660-672 | The printed files of that machine make every usage after the first collection exactly 100, for any clock readings. |
| Agent.WindowOfPass | lib/collectors/proc/src/proc.cpp:678-693 | The window a sixty-second pass closes starts at the collection after the previous such pass. |
| Agent.CollectionOfPass | AtlasAgent/src/system-agent.cpp:106-113 | A five-second pass i makes collection number (five-second passes before i), with its own file and sixty-second flag. |
| Scheduler.DeadlinesCountCollections | AtlasAgent/src/system-agent.cpp:98-142 | The three deadlines always equal t0 plus 1 s per pass, 5 s per five-second pass (plus 5 s) and 60 s per sixty-second pass (plus 60 s). |
| Scheduler.CollectsIffDue | AtlasAgent/src/system-agent.cpp:106-140 | A pass collects at five (sixty) seconds exactly when it starts at or after t0 plus five (sixty) seconds for each such collection so far and one more. |
| Scheduler.FiveNeverBehindSixty | AtlasAgent/src/system-agent.cpp:98-140 | For any clock readings the five-second deadline never overtakes the sixty-second one, and after j sixty-second collections at most 12j + 11 five-second ones have run. |
| Scheduler.SixtyPassIsFivePass | lib/collectors/proc/src/proc.cpp:781-791 | A sixty-second pass is always a five-second pass, so the guard on fiveSecondMetrics never skips a window. |
| Scheduler.WindowHoldsTwelveIff | AtlasAgent/src/system-agent.cpp:106-140 | For any clock, two consecutive sixty-second passes have exactly twelve five-second collections between them if and only if they found the same lag; otherwise off by the difference. |
| Scheduler.SteadyWindowsHoldTwelve | AtlasAgent/src/system-agent.cpp:106-140 | On a steady clock every sixty-second pass finds no lag and makes five-second collection number 12j. |
| Scheduler.StalledWindowHoldsTwentyThree | AtlasAgent/src/system-agent.cpp:106-140 | Concrete failing input: one pass 119 s late gives a window of twenty-three collections. |
| Scheduler.NoPassEarlyNoneLost | AtlasAgent/src/system-agent.cpp:142-144 | Pass i never starts before t0 + i seconds, and it waits exactly when i whole seconds have gone by at its end, so every missed second is made up by one pass. |
| Scheduler.KillStopsPromptLoop | AtlasAgent/src/atlas-agent.h:31-47 | After kill(), if each pass made without a wait takes at most d < 1 s, the loop exits within backlog / (1 s - d) + 1 passes. |
| Scheduler.ExitsIff | AtlasAgent/src/atlas-agent.h:31-47 | For any clock: the loop leaves after pass i if and only if the latch is set by then and the pass ended before t0 + (i + 1) seconds. |
| Scheduler.SlowPassesNeverExit | AtlasAgent/src/atlas-agent.h:33-37 | Failing family: passes of a second or more never wait, so kill() is never seen. |
| Scheduler.Terminator.WaitFor | AtlasAgent/src/atlas-agent.h:31-41 | Returns false exactly when it slept and the latch was set by the end of the wait; the latch is never reset. |
| CpuShares.CpuStatFields | lib/collectors/proc/src/proc_cpu.h:24-50 | The constructor loop yields the ten numbers of the line, or throws exactly when one of them cannot be read. |
| CpuShares.PrintedLineReadsBack | lib/collectors/proc/src/proc_cpu.h:36-49 | A cpu line printed from ten 64-bit numbers reads back as those numbers. |
| Text.FromCharsStops | lib/collectors/proc/src/proc_cpu.h:36-49 | A number is read up to the first other character; text that does not begin with a digit, or a number beyond 64 bits, is refused. |
| CpuShares.SharesByName | lib/collectors/proc/src/proc_cpu.h:64-94 | For any two readings each of the six gauges gets the share of its own counter, stated on the raw counters: share times the 64-bit total is 100 times the unsigned difference, with iowait clamped and irq and softirq together; all are 0 when no time passed. |
| CpuShares.AdvancingSharesByName | lib/collectors/proc/src/proc_cpu.h:64-94 | When no counter but iowait goes back these are plain differences, and the usage is the share of everything but idle. |
| CpuShares.SharesSumTo100Iff | lib/collectors/proc/src/proc_cpu.h:64-94 | For any two readings the six shares plus the idle share sum to exactly 100 if and only if some time passed and the seven unsigned deltas fit 64 bits together. |
| CpuShares.SharesWithinIff | lib/collectors/proc/src/proc_cpu.h:84-92 | For any two readings the six shares lie in [0, 100] if and only if no published delta exceeds the 64-bit total (or that total is zero). |
| CpuShares.UsageWithinIff | lib/collectors/proc/src/proc_cpu.h:67-92 | For any two readings the usage lies in [0, 100] if and only if the seven unsigned deltas fit 64 bits together or wrap to exactly zero. |
| CpuShares.AdvancingUsageWithinBounds | lib/collectors/proc/src/proc_cpu.h:67-92 | When no counter but iowait goes back and the true total fits 64 bits (irq + softirq may wrap), all shares and the usage lie in [0, 100], and they sum to 100 with idle if time passed. |
| CpuShares.DecreaseBreaksUsageIff | lib/collectors/proc/src/proc_cpu.h:67-92 | When user steps back by k ticks while the others advance by n, the usage stays in [0, 100] if and only if n <= k. |
| CpuShares.DecreaseBreaksShares | lib/collectors/proc/src/proc_cpu.h:67-92 | Concrete failing input (k = 1, n = 2): the usage is 100 * (2^64 - 1). |
| CoreUtilization.ParseProcStatFile | lib/collectors/proc/src/proc.cpp:710-731 | All cpu lines in file order, or nothing at all when one of them does not have 11 fields. |
| CoreUtilization.OnlyCpuLinesCount | lib/collectors/proc/src/proc.cpp:710-731 | The lines that begin with the letters cpu are kept in order wherever other lines stand; one of them without eleven fields empties the result. |
| CoreUtilization.Proc.CountCores | lib/collectors/proc/src/proc.cpp:649-673 | The loop over cores: new cores only set a baseline, others count a usage; a bad number ends it with the cores before it counted. |
| CoreUtilization.Proc.UpdateCoreUtilization | lib/collectors/proc/src/proc.cpp:626-701 | A collection is the loop, then (unless it threw) the publication of the window on a sixty-second pass; after a throw nothing is published and the window goes on. |
| CoreUtilization.Proc.FindMaxUsage | lib/collectors/proc/src/proc.cpp:681-685 | The largest accumulated usage over an unordered map, 0 as floor. |
| CoreUtilization.Proc.CpuStats | lib/collectors/proc/src/proc.cpp:772-795 | Without cpu lines nothing changes; otherwise the aggregate line feeds the peak gauges on every pass and the utilization gauges on sixty-second passes, which also set the number of core lines, and the cores feed the window on five-second passes only. |
| AggregateGauges.GaugeSeries.Update | lib/collectors/proc/src/proc.cpp:588-605 | An aggregate line that can be read publishes its shares since the last such line, if any, and becomes the baseline; one that cannot changes nothing. |
| AggregateGauges.GaugesArePairwise | lib/collectors/proc/src/proc.cpp:608-624 | For any sequence of aggregate lines there is one set of gauge values for each two consecutive readable lines and no other, and every value is the share of the counter of its name between these two. |
| AggregateGauges.GaugesWithinBounds | lib/collectors/proc/src/proc.cpp:588-624 | If no counter but iowait goes back between readable lines, every gauge ever set lies in [0, 100]. |
| CoreUtilization.CauchySchwarz | lib/collectors/proc/src/proc.cpp:665-667 | Sum squared is at most count times sum of squares, for any usages. |
| CoreUtilization.SummaryIsConsistent | lib/collectors/proc/src/proc.cpp:649-673 | The three published counters satisfy totalAmount^2 <= count * totalOfSquares whenever the collector is valid, which every method preserves, passes ended by a bad line included. |
| CoreWindow.CleanLinesPerCore | lib/collectors/proc/src/proc.cpp:649-673 | A readable collection steps each listed core by its own reading and leaves all other cores alone. |
| CoreWindow.WindowAccumulates | lib/collectors/proc/src/proc.cpp:655-693 | In a window whose collections, and the one before it, read every core: each core holds its last reading and exactly the sum of its usages since the last publication, whatever was read earlier. |
| CoreWindow.QuietCollection | lib/collectors/proc/src/proc.cpp:678-693 | For any run: only sixty-second passes publish, and the very first collection never does unless it lists a core twice. |
| CoreWindow.SixtyPassPublishes | lib/collectors/proc/src/proc.cpp:678-693 | When every core was read throughout the window, a sixty-second pass publishes the largest true mean of the window times (usages in the window) / 12. |
| CoreWindow.PublishedIsTheMeanIff | lib/collectors/proc/src/proc.cpp:687-690 | When every core was read throughout the window, the published value is the largest true mean exactly when the window holds twelve usages or every core was idle. |
| CoreWindow.PublishedMeanWithinBounds | lib/collectors/proc/src/proc.cpp:660-690 | If no counter but iowait goes back, every mean so published lies in [0, 100]. |
| AnyWindow.HoldsCounted | lib/collectors/proc/src/proc.cpp:649-693 | For any run whatever, with unreadable lines, aborted passes and cores that come and go: each core holds exactly the sum of the usages it has counted since the last pass that closed its window. |
| AnyWindow.SummaryCountsTheUsages | lib/collectors/proc/src/proc.cpp:649-673 | For any collection, aborted ones included, the distribution summary counts exactly the usages between each line and the stored reading of its core, each once. |
| AnyWindow.AnyWindowPublishes | lib/collectors/proc/src/proc.cpp:678-693 | For any run: only a sixty-second pass that read all its lines publishes, and only when something was counted; the value is a twelfth of the largest total of a core. |
| AnyWindow.BusiestMeanIff | lib/collectors/proc/src/proc.cpp:687-690 | For any run: that value is the mean of the busiest core if and only if this core counted exactly twelve usages or nothing but idle time was counted. |
| AnyWindow.CountedInUniformWindow | lib/collectors/proc/src/proc.cpp:655-672 | Where every core is read throughout the window, what a core has counted adds up to its usages from collection to collection. |
| AnyWindow.UsagesAtMost100 | lib/collectors/proc/src/proc.cpp:649-673 | For any run: if no counted line goes back behind the stored reading of its core (iowait may), no usage ever counted exceeds 100. |
| AnyWindow.PublishedWithinBounds | lib/collectors/proc/src/proc.cpp:649-693 | For such a run, when no core counted more than n usages in the window the published value lies in [0, 100 n / 12], so in [0, 100] for at most twelve. |
| AnyWindow.CountedPerCollection | lib/collectors/proc/src/proc.cpp:649-673 | If no file lists a core twice, no core counts more usages than its window has collections. |
| AnyWindow.TwelveCollectionsWithinBounds | lib/collectors/proc/src/proc.cpp:649-693 | So if no file lists a core twice, a window of at most twelve collections publishes within [0, 100]. |
| CpuRateTrackers.CpuRateTracker.Update | lib/collectors/service_monitor/src/cpu_rate_tracker.h:29-47 | Returns the rate the previous and the new sample justify and always takes the new sample as baseline. |
| CpuRateTrackers.Rate | lib/collectors/service_monitor/src/cpu_rate_tracker.h:33-40 | No percentage is negative, whatever the two samples. |
| CpuRateTrackers.RateInNanoseconds | lib/collectors/service_monitor/src/cpu_rate_tracker.h:33-40 | On clock readings in nanoseconds: a percentage exists exactly when the owner is the same, the counter did not step back and a microsecond has passed, and it is 100 times the growth over the whole microseconds. |
| CpuRateTrackers.WorkIsGrowth | lib/collectors/service_monitor/src/cpu_rate_tracker.h:29-47 | Over any run, the sum of percentage x wall / 100 over the published samples equals the counter growth over the published intervals. |
| CpuRateTrackers.GenerationTelescopes | lib/collectors/service_monitor/src/cpu_rate_tracker.h:29-47 | Within one identity, with a counter that does not step back and advancing microseconds, every sample after the first is published and the work is last minus first. |
| CpuRateTrackers.SkippingWeighsTheSame | lib/collectors/service_monitor/src/cpu_rate_tracker.h:14-18 | Skipping samples: the one percentage of a gap times its wall time equals the sum of the finer percentages times theirs. |
| CpuRateTrackers.SkippingAveragesIff | lib/collectors/service_monitor/src/cpu_rate_tracker.h:14-18 | The percentage of a gap is the wall-weighted mean of the finer ones if and only if no fraction of a microsecond was dropped on the way or the counter stood still. |
| CpuRateTrackers.SkippingAverages | lib/collectors/service_monitor/src/cpu_rate_tracker.h:14-18 | So it is with timestamps in whole microseconds. |
| CpuRateTrackers.WallOfGap | lib/collectors/service_monitor/src/cpu_rate_tracker.h:35-35 | duration_cast drops less than one microsecond per interval of a gap. |
| CpuRateTrackers.MicrosExactIff | lib/collectors/service_monitor/src/service_monitor.cpp:143-144 | The jiffies conversion is the floored quotient if and only if the product fits 64 bits. |
| CpuRateTrackers.MicrosDriftUnderOne | lib/collectors/service_monitor/src/service_monitor.cpp:143-144 | Within 64 bits, for any user and system times whose sum does not drop, the conversion is monotone and its growth over a whole generation is off the exact one by less than 1 us. |
| ServiceMonitoring.EachSeriesIsPairwise | lib/collectors/service_monitor/src/service_monitor.cpp:124-211 | For any interleaving of the successful reads of all services, each service and scope publishes exactly the pairwise rates of its own samples and keeps exactly its own last sample as baseline. |
| ServiceMonitoring.GatherCycles | lib/collectors/service_monitor/src/service_monitor.cpp:124-211 | Cycle after cycle from a new monitor, stated on the answers alone: the percentages of each service and scope are 100 times the growth over the wall microseconds between consecutive answers in which the service is active and running and the reading succeeded, for the same main PID (user plus system time, in microseconds by the clock ticks) or the same control group. |
| ServiceMonitoring.CycleIsTold | lib/collectors/service_monitor/src/service_monitor.cpp:134-173 | The reads of one cycle are exactly what its answers tell about each service and scope. |
| ServiceMonitoring.CycleSets | lib/collectors/service_monitor/src/service_monitor.cpp:124-208 | A cycle sets exactly the gauges its answers call for: the state of every service with properties, and RSS times page size, memory and both descriptor counts of each running one whose reading succeeded. |
| ServiceMonitoring.FailsIff | lib/collectors/service_monitor/src/service_monitor.cpp:126-208 | A service fails its cycle exactly when its properties cannot be read, or when it is active and running and one of its six readings fails. |
| ServiceMonitoring.ServiceMonitor.UpdateMetrics | lib/collectors/service_monitor/src/service_monitor.cpp:176-211 | One cycle over all services acts on the CPU trackers as the sequence of its successful reads, sets the other gauges of each service, and succeeds exactly when every service does. |
| ServiceMonitoring.ServiceMonitor.CollectService | lib/collectors/service_monitor/src/service_monitor.cpp:182-208 | One service: nothing without properties, only its state when not running, else process scope then service scope, with trackers created on the first active cycle; a service that is not running cannot fail. |
| ServiceMonitoring.ServiceMonitor.CollectProcessMetrics | lib/collectors/service_monitor/src/service_monitor.cpp:134-149 | A failed read of the times leaves the tracker untouched, a successful one advances the tracker of the main PID; RSS and descriptors are set when read, and the result is true exactly when all three reads succeed. |
| ServiceMonitoring.ServiceMonitor.CollectCgroupMetrics | lib/collectors/service_monitor/src/service_monitor.cpp:162-173 | The same for the control group, its memory and its descriptors. |
| ServiceMonitoring.ServiceMonitor.EnsureState | lib/collectors/service_monitor/src/service_monitor.cpp:202-205 | operator[] creates trackers without baseline and disturbs no other service. |
| IoStat.ParseIOLine | lib/collectors/cgroup/src/cgroup.cpp:314-396 | The field loop accepts and fills exactly what the bag of fields says: see the next four rows. |
| IoStat.LineAcceptedIff | lib/collectors/cgroup/src/cgroup.cpp:331-388 | A line is accepted exactly when every field after the device has an equals sign, known keys have a readable non-negative value, and each of the six known keys occurs exactly once. |
| IoStat.LineAcceptedByName | lib/collectors/cgroup/src/cgroup.cpp:331-388 | The same with the keys written out: rbytes, wbytes, rios, wios, dbytes and dios, each once. |
| IoStat.StatsByName | lib/collectors/cgroup/src/cgroup.cpp:364-378 | In an accepted line the field of each key sets the statistic of its name to its own value; the device name comes from the map. |
| IoStat.PrintedLineReadsBack | lib/collectors/cgroup/src/cgroup.cpp:314-396 | Six printed key=value fields read back under their names, in any order and among any unknown fields. |
| IoStat.OrderAndExtensionsIgnored | lib/collectors/cgroup/src/cgroup.cpp:342-348 | Permuting the fields or inserting unknown key=value fields changes nothing. |
| IoStat.AcceptedLineHasSevenFields | lib/collectors/cgroup/src/cgroup.cpp:408-413 | Any accepted line has at least seven fields. |
| IoStat.SoleIsGivenOnce | lib/collectors/cgroup/src/cgroup.cpp:364-378 | Given once as a bag of fields is given at exactly one position. |
| IoStat.Assign | lib/collectors/cgroup/src/cgroup.cpp:364-378 | The assignment chain sets the statistic of the key and no other, and refuses a key already set. |
| IoStat.ParseIOLines | lib/collectors/cgroup/src/cgroup.cpp:398-429 | One bad line (a blank one included) makes the whole file parse to the empty map; otherwise each device gets its first line; every result is complete. |
| IoStat.BadLineIff | lib/collectors/cgroup/src/cgroup.cpp:403-417 | A line of one field is skipped; a blank one or one of two to six fields is bad; any other is bad exactly when it is refused. |
| IoStat.FirstLineWins | lib/collectors/cgroup/src/cgroup.cpp:421-421 | emplace keeps the first line of a device. |
| IoMetrics.IoCollector.UpdateIOMetrics | lib/collectors/cgroup/src/cgroup.cpp:525-591 | In any visiting order, every device seen before and now adds its four deltas, no other device adds anything, and the snapshot becomes the baseline of the devices it shows. |
| IoMetrics.IoCollector.IOStats | lib/collectors/cgroup/src/cgroup.cpp:593-615 | A file that does not parse changes no baseline and no counter. |
| IoMetrics.AddedIsLastMinusFirst | lib/collectors/cgroup/src/cgroup.cpp:540-589 | For every device and every sequence of snapshots, absences and failed parses included, the total added to each of its four counters is its last value seen minus its first. |
| IoMetrics.AddedByName | lib/collectors/cgroup/src/cgroup.cpp:540-556 | By name: read bytes grow by rbytes, written bytes by wbytes, read operations by rios, write operations by wios. |
| CpuList.ParseRange | lib/collectors/perf_metrics/src/perf_metrics.h:32-66 | The fscanf loop with its in-place resizes equals its recursive specification, exceptions included. |
| CpuList.ParseListing | lib/collectors/perf_metrics/src/perf_metrics.h:36-65 | Parsing the text of any list of ranges, in any order and overlapping, folds the ranges into the vector one by one: the pending start never leaks. |
| CpuList.ExtendHolds | lib/collectors/perf_metrics/src/perf_metrics.h:47-58 | For any list: element i is set exactly when some range covers it and no later range ends below it. |
| CpuList.ParsesToItsMembersIff | lib/collectors/perf_metrics/src/perf_metrics.h:30-66 | A list parses to exactly its members if and only if whatever a range cuts off is restored by a later one; ascending lists always do. |
| CpuList.ParseUndoesPrintIff | lib/collectors/perf_metrics/src/perf_metrics.h:32-66 | Parsing the kernel text of a vector returns the vector if and only if it is empty or ends in true. |
| CpuList.PrintUndoesParse | lib/collectors/perf_metrics/src/perf_metrics.h:32-66 | Printing the parse of a canonical text returns the text. |
| CpuList.DescendingListIsCut | lib/collectors/perf_metrics/src/perf_metrics.h:47-47 | Concrete failing input: a smaller number after a larger one cuts the vector back. |
| CpuList.BackwardRangeIsItsEnd | lib/collectors/perf_metrics/src/perf_metrics.h:48-64 | A range that runs backwards sets its end alone. |
| CpuList.KernelText | lib/collectors/perf_metrics/src/perf_metrics.h:30-66 | The text 0-3,5-7,23 with its newline gives 24 elements with exactly these set. |
| CpuList.NegativeNumber | lib/collectors/perf_metrics/src/perf_metrics.h:40-62 | A negative number throws, except -1 before a dash, which empties the vector and is forgotten. |
| CpuList.OtherCharacter | lib/collectors/perf_metrics/src/perf_metrics.h:39-45 | White space before a number is skipped and any other character ends the list. |
| PidStat.TokensAreTheFields | lib/collectors/service_monitor/src/service_monitor_utils.cpp:188-198 | For every comm, with spaces and parentheses, the tokens are exactly the fields after it. |
| PidStat.CommWithParenthesis | lib/collectors/service_monitor/src/service_monitor_utils.cpp:188-198 | A line written out whose comm holds a parenthesis and a space. |
| PidStat.StoulStops | lib/collectors/service_monitor/src/service_monitor_utils.cpp:215-216 | A number is read up to the first other character; one beyond 64 bits is refused. |
| PidStat.StoulNegates | lib/collectors/service_monitor/src/service_monitor_utils.cpp:215-216 | A minus sign negates it modulo 2^64. |
| PidStat.TimesRoundTrip | lib/collectors/service_monitor/src/service_monitor_utils.cpp:200-224 | Parsing a formatted line returns the printed fields 14 and 15 of proc(5), utime and stime, independent of comm; too few fields or a number beyond 64 bits is refused. |
| PidStat.RssRoundTrip | lib/collectors/service_monitor/src/service_monitor_utils.cpp:236-257 | The same for rss, field 24. |
| PidStat.ParseCgroupCpuStat | lib/collectors/service_monitor/src/service_monitor_utils.cpp:293-312 | The value of the first line whose first token is the key itself and that has a value token; nothing without one or when the value cannot be read. |
| PidStat.UsageLineReadsBack | lib/collectors/service_monitor/src/service_monitor_utils.cpp:298-304 | A printed key and value read back, and only the exact key counts as the usage line. |
| MountIndex.FilterInterestingMountPoints | lib/collectors/disk/src/disk.cpp:102-148 | Every entry is the winner of its device, no device has two entries, every device with an eligible mount has one. |
| MountIndex.EligibleByName | lib/collectors/disk/src/disk.cpp:98-122 | A mount is eligible exactly when its device is neither a loop (7) nor a RAM (1) device and its path begins with none of the nine prefixes. |
| MountIndex.EligibleUpdatesIndex | lib/collectors/disk/src/disk.cpp:124-140 | One more eligible mount keeps every candidate non-null and the winner of its device (shortest path, first seen on ties). |
| MountIndex.EveryDeviceHasAWinner | lib/collectors/disk/src/disk.cpp:108-141 | A device with an eligible mount has a winner among the inputs. |
| MountIndex.WinnerIsUnique | lib/collectors/disk/src/disk.cpp:126-136 | The winner of a device is unique. |
| MountIndex.PackedKeyInjective | lib/collectors/disk/src/disk.cpp:124-124 | The 64-bit packed key is injective on pairs of 32-bit numbers. |
| PerfspectStream.Perfspect.GatherMetrics | lib/collectors/perfspect/src/perfspect.cpp:315-344 | The object with its handlers acts as the stream machine and hands out the text of the line the machine returns. |
| PerfspectStream.Perfspect.ReadOutput | lib/collectors/perfspect/src/perfspect.cpp:245-256 | Runs the ready handlers in order; nothing is handed out after an error. |
| PerfspectStream.Perfspect.ExtractLine | lib/collectors/perfspect/src/perfspect.cpp:191-222 | The first line of a process is skipped, any other one replaces the pending line. |
| PerfspectStream.Perfspect.CleanupProcess | lib/collectors/perfspect/src/perfspect.cpp:157-184 | Drops the pending line and expects a header again, unless the process cannot be terminated. |
| PerfspectStream.GatherIsSound | lib/collectors/perfspect/src/perfspect.cpp:191-256 | One call returns at most one line: a data line, never the header, of the process now running. |
| PerfspectStream.StartsIff | lib/collectors/perfspect/src/perfspect.cpp:315-334 | For any state: a new process is started exactly when that works and there is none, the present one has exited, or the poll ends in an error and it can be stopped; it starts with a header to skip and nothing pending. |
| PerfspectStream.ReturnedInOrder | lib/collectors/perfspect/src/perfspect.cpp:191-256 | Over any run, restarts and errors included, what was returned are emitted data lines, in emission order, each at most once. |
| PerfspectStream.NothingLostIff | lib/collectors/perfspect/src/perfspect.cpp:157-256 | Over any run, with exits, restarts and read errors: every data line that any process completed was returned if and only if, at every call, nothing completed since the last one was data save the last line of a poll that finds the process running and readable and ends without a read error. |
| PerfspectStream.NothingLost | lib/collectors/perfspect/src/perfspect.cpp:226-239 | So every data line is returned if at most one completes between polls (the header aside) and none when the process is found exited, unreadable or failing. |
| PerfspectStream.ExitLosesALine | lib/collectors/perfspect/src/perfspect.cpp:317-323 | Concrete failing input: a header, one data line, an exit. The line is never returned although no other line completed and no read failed. |
| PerfspectStream.BurstKeepsLast | lib/collectors/perfspect/src/perfspect.cpp:234-239 | Of a burst only the last line is returned, and none when that one is empty or the header. |
| PerfspectStream.ReplacedIff | lib/collectors/perfspect/src/perfspect.cpp:191-212 | After a read error a poll replaces the running process if and only if no read is outstanding, none completes or another one fails (and stopping and starting work); otherwise the error is cleared and the process stays. |
| PerfspectStream.ErrorRestartsUntilALine | lib/collectors/perfspect/src/perfspect.cpp:193-193 | A read error outlives the restart: over any number of later polls each one kills the process it finds if and only if none of them completes a line without a further error. |
| PerfCounters.PerfCounter.ReadDelta | lib/collectors/perf_metrics/src/perf_metrics.h:160-192 | If any read fails nothing is published and every baseline is kept; otherwise every core publishes its scaled delta and the new values become the baselines. |
| PerfCounters.PublishedIsTheEstimate | lib/collectors/perf_metrics/src/perf_metrics.h:84-90 | For any two readings, multiplexed or not, the published value is the floor of raw delta times enabled over running plus a half, differences modulo 2^64, and 0 for a counter that never ran. |
| PerfCounters.PublishedByProducts | lib/collectors/perf_metrics/src/perf_metrics.h:84-90 | For counters that do not go back: v (r + 1/2) <= d e < (v + 1)(r + 1/2) for raw, enabled and running differences d, e and r. |
| PerfCounters.ScaledWithinBounds | lib/collectors/perf_metrics/src/perf_metrics.h:84-90 | For a core running all the time it was enabled, the published value v for a raw delta d satisfies v <= d and d - v < d / (2e + 1) + 1. |
| PerfCounters.PublishedCoversEstimates | lib/collectors/perf_metrics/src/perf_metrics.h:160-192 | Over any run with failed reads, multiplexed or not: the published total falls short of the estimates over the gaps by less than one for each success. |
| PerfCounters.PublishedCoversGaps | lib/collectors/perf_metrics/src/perf_metrics.h:160-192 | For a core running all the time it was enabled, over any run with failed reads: the successes cover the whole raw growth up to their roundings. |
| MonotonicTimers.MonotonicTimer.Update | lib/monotonic_timer/src/monotonic_timer.cpp:13-30 | Adds what the previous and the new reading justify and always takes the new reading. |
| MonotonicTimers.CountersMoveTogether | lib/monotonic_timer/src/monotonic_timer.cpp:20-25 | Over any updates neither counter goes back, and time is never added without operations. |
| MonotonicTimers.CountTelescopes | lib/monotonic_timer/src/monotonic_timer.cpp:15-30 | For totals that do not go back, the published count is the last minus the first positive one; it is last minus first exactly when the first is positive or none is. |
| MonotonicTimers.TimeTelescopes | lib/monotonic_timer/src/monotonic_timer.cpp:15-30 | With positive counts the published time is last minus first less the time during which the count stood still. |
| AmdGpu.FirmwareSupport.Unsupported | lib/collectors/amd_smi/gpumetrics.h:100-108 | Latches off; valid means at most one log ever. |
| AmdGpu.Gather | lib/collectors/amd_smi/gpumetrics.cpp:22-40 | The call is made exactly when still supported; only Unsupported latches it off. |
| AmdGpu.LatchesOnceForGood | lib/collectors/amd_smi/gpumetrics.cpp:22-40 | Over any replies the latch is off exactly when some reply said Unsupported, and no call is made after the first such reply. |
| AmdGpu.SumXgmiKb | lib/collectors/amd_smi/gpumetrics.cpp:56-70 | The sum modulo 2^64 of the populated links; an unpopulated one latches the support flag. |
| AmdGpu.LinksAddUp | lib/collectors/amd_smi/gpumetrics.cpp:56-70 | The sum of a table of links is the wrapped sum of its parts. |
| AmdGpu.OneLink | lib/collectors/amd_smi/gpumetrics.cpp:60-67 | One populated link sums to itself, one that is all ones to nothing. |
| AmdGpu.GpuMetrics.RecordXgmi | lib/collectors/amd_smi/gpumetrics.cpp:224-255 | The first sample only sets the slot, no elapsed time changes nothing, otherwise both counters grow and the slot moves on. |
| AmdGpu.GpuMetrics.Collect | lib/collectors/amd_smi/gpumetrics.cpp:136-146 | One gather of the metrics table steps the state of the run: recorded only when the call was made and succeeded. |
| AmdGpu.BytesBounds | lib/collectors/amd_smi/gpumetrics.cpp:245-251 | One publication is the largest multiple of 60 not above 60 / elapsed of the bytes that went by. |
| AmdGpu.NothingToPublish | lib/collectors/amd_smi/gpumetrics.cpp:231-246 | A sum that dropped adds nothing; a sample at no later time publishes nothing and leaves the slot; any later one publishes and takes the slot. |
| AmdGpu.MinutesConserveBytes | lib/collectors/amd_smi/gpumetrics.cpp:224-255 | Over a run of the collector, errors before the first success included, with successful gathers exactly 60 s apart from then on: n publications after the baseline total more than 1024 D - 60 n and at most 1024 D bytes for a growth of D KB. |
| AmdGpu.NeverMoreIff | lib/collectors/amd_smi/gpumetrics.cpp:245-251 | Publications that fit 64 bits never exceed the bytes that went by if and only if the gap is at least 60 s. |
| AmdGpu.NeverLessIff | lib/collectors/amd_smi/gpumetrics.cpp:245-251 | They never fall short by 60 bytes or more if and only if the gap is at most 60 s. |
| AmdGpu.OnlyAMinuteConserves | lib/collectors/amd_smi/gpumetrics.cpp:12-15 | So gathers conserve the bytes if and only if they are exactly 60 s apart. |
| AmdGpu.CatchUpBytes | lib/collectors/amd_smi/gpumetrics.cpp:245-251 | Concrete failing family: a gather one second after the last publishes sixty times the bytes. |

## Left out

- IEEE rounding: everything is proved over reals; sums of many doubles differ in the last bits.
- NaN and infinities that from_chars may accept on io.stat values.
- Signed overflow of int in CPU lists and of int64_t in timer counts, and a perf quotient of 2^64 or more.
- The spectator registry: a counter increment is an addition, so a registry that drops negative increments would publish less after a device counter reset than `IoMetrics.AddedIsLastMinusFirst` says was passed to it.
- titus-agent.cpp and k8s-agent.cpp: the same loop with other collectors.
- init_monitored_services: regex matching and a limit on the number of services.
- io.max parsing and throttle utilization: the shape of the io.stat parser with four keys and no extensions, and one formula.
- /proc/[pid]/stat is modelled from its first line on; a comm that broke the line (the kernel escapes newlines) is outside.
- The CSV split and the gauges of PerfSpect, product-name parsing, and the child process itself: a poll result is an input.
- PerfCounter: set of open descriptors fixed; reopening on a change of online CPUs is outside the stated property.
- Disk I/O: parsing of /proc/diskstats and mountinfo, the busy percentage and the map of timers.
- AMD SMI: gauges, PCIe and memory readings, and the vector of GPUs (one GPU is modelled, the others share no state).
- The memory model of the latch: it is atomic and set at some point of a pass.
- Agent.CollectSystemMetrics: drives the CPU part of the proc collector only; the other calls of a pass touch none of its state. The polling delay and the first slow gather come before t0; a kill during them has the effect of one in the first pass.
- IoMetrics.IoCollector.UpdateIOMetrics: keeps counters per device key instead of per tag, and leaves out throttle utilization, one formula on the same deltas.
- IoMetrics.IoCollector.IOStats: leaves out the reading of io.max, which only feeds that formula.
- PerfspectStream.Perfspect.GatherMetrics: leaves out the parsing of the line it hands out, the gauges set from it, and the boolean result that says whether it parsed.
- AmdGpu.GpuMetrics.Collect: leaves out the memory and PCIe gathers and the gauges of the metrics table; each has a latch of its own and touches neither the xGMI slot nor its counters.
