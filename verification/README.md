# Verified model of the ETW exporter's state, aggregation and collectors

The exporter follows Windows kernel events (processes, threads, images, disk,
memory, network, registry, interrupts, context switches) and turns them into
Prometheus metrics. Three things make that hard. Identifiers are reused: a PID
or TID that names one process now names another one later. Objects are pooled:
the record of a finished process is handed to a new one. And deletion is
delayed by a number of scrapes that adapts to how often scrapes come, so that
late events still find their process. This project models that code in Dafny
and proves what it keeps and what it computes, over every run.

The main results, by theme:

- **Lifecycle.** `Lifecycle` gives every operation of the kernel state manager
  as a function of its maps, its pool and the contents of all records;
  `LifecycleRuns` proves that every event keeps the invariant, so that in every
  reachable state each PID and each TID leads to a live record filed under its
  own start key and never to a recycled one. `KernelState` is the manager as an
  object over heap records; each event moves it exactly one step of that state
  machine. `CleanupExact` says what one cleanup removes, in both directions,
  `Attribution` to which process a PID, a TID and image information lead at any
  point of a run, however often the PID is used again. `Charging` says, by the
  maps alone, which process each event is charged to and which of its counters
  grow, `ProcessFacts` what each event makes of each field of a process, and
  which name, checksum and end it shows over its life. `SystemRuns` runs the
  manager together with its image manager.
- **Conservation.** For every metric and at every point of every run, what was
  issued is held by a live process, was held by an instance when it was
  recycled, or had no process (`Conservation`); the same between the disk and
  memory collectors' own counters and the processes (`SystemTotals`).
- **Delayed deletion.** The ring buffer, its mean, the grace period and the
  threshold (`ScrapeClock`), and what they mean over runs: at which cleanup a
  process that has ended goes, exactly, by the times of the cleanups alone, how
  long it has been kept by then (`GracePeriod`), and that a snapshot has seen
  it (`Retention`); the same, exactly, for threads (`ThreadRetention`) and
  images (`SystemRuns`).
- **Aggregation.** The grouped sum over the live instances as the pass leaves
  them, and the pooled result maps (`Aggregation`, `Snapshots`, `Identity`);
  which programs a snapshot has and what their counters add up, by name,
  service, checksum and session (`SnapshotFields`); when the order of the walk
  matters, exactly, to the records (`PassOrder`) and to the counts of the
  snapshot (`SnapshotOrder`).
- **Double-buffered collectors.** Every ISR and DPC accounted for across buffer
  swaps, and exact histograms (`Interrupts`, `InterruptAccounts`,
  `InterruptAgeing`, `InterruptHistograms`, `PerfCollectors`), the exported
  buckets by the time stamps of the events (`InterruptTimes`), with the
  drivers' names taken from the loaded images (`DriverRuns`); the per-CPU
  switch intervals, their telescoping sums and their buckets
  (`SwitchIntervals`, `SwitchRuns`, `ThreadCollectors`).
- **Smaller cores.** The image address cache (`Images`), the sharded map
  (`ShardedMaps`), the FNV-1a start key (`StartKey`), the restart lock
  (`RestartLock`) and the event route table (`RouteTable`).

What the program leaves open is an argument: which pooled record a `Get`
returns, in which order a map is walked, what a service lookup answers, what
time it is. Operations are atomic steps.
Times and durations are whole nanoseconds, counters are unbounded.

Where the code and its own words differ, the model follows the code, and the
difference is a result:

- `cleanupProcesses` says it does nothing for a PID that is not mapped; in fact
  it leaves a start key of 0 behind. `CleanupExact.PidKeysAfterWalk` says
  exactly when, `ExampleRuns.PlaceholderRun` is a run in which it happens.
- A thread that starts on a TID its own process has just given up can lose its
  mapping: `CleanupExact.ReusedTidLostExactly` says exactly when,
  `ExampleRuns.RestartRun` is a run in which it happens.
- The reference count of an image does not protect it: loading it again leaves
  the mark of an earlier unload. At every point of every run a cleanup removes
  a loaded image if and only if its count fell to zero at some unload since it
  was stored and the latest such unload is older than the threshold, whatever
  the count is now (`Images.RemovedExactly`); `Images.InUseImageRemoved` is a
  run in which an image goes while it is in use.
- What a snapshot shows can depend on the order in which the pass walks the
  processes, because a tag is looked up once per pass and its name goes to the
  process visited first. The records the pass leaves are the same for all orders
  if and only if no two live processes without a service name wait for the same
  tag, of which a lookup finds the name (`PassOrder.OrderIrrelevantExactly`);
  then the snapshots agree too (`PassOrder.SnapshotsAgree`). The counts a
  snapshot shows are the same for all orders if and only if the two processes of
  every such pair are interchangeable: both hold nothing, or they belong to one
  program, would get one name and hold the same; if a lookup finds the name for
  one of them only, that one holds nothing
  (`SnapshotOrder.OrderInvisibleExactly`). `ExampleRuns.TwoServicesRun` is a run
  after which two walks show different counts. The totals never depend on the
  order (`PassOrder.TotalsAgree`).
- After a gap of more than 60 s between cleanups a process is removed at the
  first cleanup after its end: `Retention.RecycledAtOnceExactly`.
- The interval buckets are labelled with powers of two as inclusive upper
  bounds, but bucket i counts intervals below the next power of two:
  `SwitchIntervals.LabelExact` says exactly when the label is right,
  `SwitchIntervals.MislabelledExample` shows one interval for which it is not.
- The disk handlers state that a process is always found, because the System
  process is the last fallback. It is not known at the start
  (`SystemTotals.NoDiskTargetAtStart`); from the moment it is, and as long as
  it does not end, the statement holds (`SystemTotals.DiskIoAlwaysAttributed`).
- Old ISRs are said to be dropped periodically, so that the lists do not grow;
  but the test looks at the number of CPUs that have a list, not at the number
  of ISRs. After an ISR no pending one is older than 10 ms if and only if that
  number is a multiple of 100 or none was older anyway
  (`InterruptAgeing.NoneOldExactly`); `InterruptAgeing.StaleIsrStays` shows one
  that stays, and on a machine with fewer than 100 CPUs none is ever dropped for
  its age, in any run (`InterruptAgeing.SmallMachineNeverAges`).

A placeholder names the start key 0. The process handlers drop process events
with that key (internal/collectors/kernelprocess/process_handler_mof.go:80-84
and 120-123), so no instance has it, and image information reaches the PID's
current record or none (`Attribution.EnrichNeverStrays`). The manager does not
repeat the handlers' test; `Attribution.EnrichStraysExactly` says what its lookup
does with any keys.

## Model

| member | source | states |
|---|---|---|
| LifecycleRuns.RunKeepsInvariant | internal/kernel/statemanager/s_process_manager.go:136-273 | in every state of every run each PID and TID leads to the live record filed under its own start key, no record is pooled twice or while live, every marked process and thread is still mapped, and the two PID maps agree but for 0 placeholders |
| LifecycleRuns.StepKeepsInvariant | internal/kernel/statemanager/s_state_manager.go:143-207 | each single event, cleanup and aggregation included, keeps that invariant |
| LifecycleRuns.RunsNeverStick | internal/kernel/statemanager/s_thread_manager.go:60-171 | every reachable state can take every enabled event: no lookup it makes is undefined |
| LifecycleRuns.TargetIsLive | internal/kernel/statemanager/s_state_manager.go:344-356 | an event is always charged to a live record |
| LifecycleRuns.SystemProcessesUntagged | internal/kernel/statemanager/s_service_manager.go:36-91 | in every state of every run a live process named System or MemCompression carries no service tag and no service name |
| LifecycleRuns.InsertLives | internal/kernel/statemanager/s_process_manager.go:160-173 | a new instance lives in the record taken from the pool, and no other record's liveness changes |
| LifecycleRuns.CleanPidKeysReuseSafe | internal/kernel/statemanager/s_process_manager.go:242-252 | a PID reused by an instance that is not being cleaned keeps its start key; anything else left behind is 0 |
| KernelState.KernelStateManager.Handle | internal/kernel/statemanager/s_state_manager.go:29-386 | every event moves the object, its heap records included, exactly one step of the lifecycle, for some choice of record and order |
| KernelState.Drive | internal/kernel/statemanager/s_state_manager.go:29-386 | any sequence of events drives the object along a run of the lifecycle, so that what holds of all runs holds of the object |
| KernelState.KernelStateManager.constructor | internal/kernel/statemanager/s_process_manager.go:44-78 | the manager starts with the reserved unknown process as its only instance |
| KernelState.KernelStateManager.AddProcess | internal/kernel/statemanager/s_process_manager.go:136-181 | a known start key is only seen again; a new one is filed in an available record, which then holds nothing of its former instance |
| KernelState.KernelStateManager.NewProcessData | internal/kernel/statemanager/s_process_manager.go:160-168 | the record comes from the pool or is new, holds exactly the new instance, and no other record changes |
| KernelState.KernelStateManager.MarkProcessForDeletion | internal/kernel/statemanager/s_process_manager.go:187-226 | a live instance is marked with the current generation and keeps its first termination time; nothing else changes |
| KernelState.KernelStateManager.EnrichProcessWithImageData | internal/kernel/statemanager/s_process_manager.go:90-133 | the instance that is current for the PID learns checksum and full path, field by field as `ProcessFacts.ImageTeaches` says; nothing else changes |
| ProcessFacts.ImageTeaches | internal/kernel/statemanager/s_process_manager.go:90-133 | at every point of every run: the PID's current record takes the checksum if it had none, and the image name if and only if that is a full path and its own name is not; every other field and counter stays |
| ProcessFacts.FirstPathShown | internal/kernel/statemanager/s_process_manager.go:102-111 | over every run: the first full path sent to an instance is the name it shows until it is recycled |
| ProcessFacts.FirstChecksumShown | internal/kernel/statemanager/s_process_manager.go:97-99 | over every run: the first nonzero checksum sent to an instance is the one it shows until it is recycled |
| ProcessFacts.FirstEndShown | internal/kernel/statemanager/s_process_manager.go:187-210 | over every run: the first known exit time sent to an instance is the one it shows until it is recycled |
| ProcessFacts.InfoStep | internal/kernel/statemanager/s_process_manager.go:90-210 | each event, exactly: which fields of which live instance it changes, to what |
| ProcessFacts.StartsFresh | internal/kernel/statemanager/s_process_manager.go:136-181 | a new start key: the record filed under it holds the fields of the event, session 0 for none and for PID 4, nothing learned and every counter at zero |
| ProcessFacts.StartShown | internal/kernel/statemanager/s_process_manager.go:136-181 | over every run: PID, parent, creation time and session of the start event are what the instance shows until it is recycled |
| ProcessFacts.IdentityStays | internal/kernel/statemanager/s_process_manager.go:136-210 | over every run: an instance keeps its record, PID, key, parent, session and creation time, and its service name once it has one |
| ProcessFacts.TagsStep | internal/kernel/statemanager/s_service_manager.go:27-31 | a positive tag with a non-empty name is cached under it; no other event but a pass changes the cache |
| ProcessFacts.InitExactly | internal/kernel/statemanager/s_process_manager.go:44-78 | the start state, field by field: the unknown process under key 1 with PID 0xFFFFFFFF, last seen in a hundred years, and nothing else |
| KernelState.KernelStateManager.AddThread | internal/kernel/statemanager/s_thread_manager.go:60-106 | the TID leads to the PID's current process unless the thread is older than it, else to the unknown process |
| KernelState.KernelStateManager.MarkThreadForDeletion | internal/kernel/statemanager/s_thread_manager.go:109-123 | a mapped TID gets a record of generation and process; an unmapped one is ignored |
| KernelState.KernelStateManager.ResolveAndApplyServiceName | internal/kernel/statemanager/s_service_manager.go:36-91 | tag and cached name are applied unless a name is set or the process is a system one |
| KernelState.KernelStateManager.RegisterServiceTag | internal/kernel/statemanager/s_service_manager.go:27-31 | only positive tags with non-empty names are cached |
| KernelState.KernelStateManager.Attribute | internal/kernel/statemanager/s_state_manager.go:344-356 | the sample is charged to the process that the maps name for this kind of event, whose own counters grow by it, counter by counter; every other record and all information are as before |
| KernelState.KernelStateManager.FindTarget | internal/collectors/kerneldiskio/diskio_handler_mof.go:154-194 | the lookup behind `Charging.ChargesDisk`: issuing thread first, then header PID, then PID 4; the ids 0 and 0xFFFFFFFF are skipped |
| Charging.ChargedExactly | internal/kernel/statemanager/s_state_manager.go:344-356 | in every state: which record an event is charged to, by the thread and PID maps, and which of its counters grow by how much; all else is as before |
| Charging.DiskIoFollowsThread | internal/collectors/kerneldiskio/diskio_handler_mof.go:154-194 | over every run: disk I/O grows the counters of the very instance its thread started under, whatever live process the header names and however often the PID is used again |
| Charging.RecordGrows | internal/kernel/statemanager/process_diskio.go:89-101 | a sample of each kind: which fields grow by how much, with direction, byte count, disk, protocol and outcome; every other field stays |
| KernelState.KernelStateManager.CleanupThreadsForTerminatedProcesses | internal/kernel/statemanager/s_thread_manager.go:157-171 | exactly the TIDs of the cleaned processes go, with their termination records |
| KernelState.KernelStateManager.CleanupTerminatedThreads | internal/kernel/statemanager/s_thread_manager.go:131-154 | exactly the TIDs whose expired record names the process they lead to go; every expired record goes |
| KernelState.KernelStateManager.CleanupProcesses | internal/kernel/statemanager/s_process_manager.go:230-273 | the cleaned instances are unfiled and pooled; PIDs that lead elsewhere keep their process |
| KernelState.KernelStateManager.PostScrapeCleanup | internal/kernel/statemanager/s_state_manager.go:143-207 | one whole cleanup at the adaptive threshold, images by the same threshold |
| KernelState.KernelStateManager.AggregateMetrics | internal/kernel/statemanager/aggregation.go:72-241 | the live snapshot has an entry for a name, service name, checksum and session if and only if some live instance has exactly these after this pass, and each counter is the sum over exactly the instances that have them |
| SnapshotFields.GroupedByFields | internal/kernel/statemanager/aggregation.go:115-131 | the grouped sum, by fields: an entry for exactly the quadruples that occur, each counter the sum over exactly the instances with that quadruple |
| SnapshotFields.SessionsStayApart | internal/kernel/statemanager/aggregation.go:115-131 | instances in different sessions have an entry each, and the one is no member of the other |
| KernelState.KernelStateManager.VisitProcess | internal/kernel/statemanager/aggregation.go:89-224 | resolving and adding one instance extends the grouped sum by exactly that instance |
| KernelState.KernelStateManager.ResolveService | internal/kernel/statemanager/aggregation.go:90-114 | a tag without a name is looked up once per pass, and the answer is cached and applied |
| KernelState.KernelStateManager.AddImage | internal/kernel/statemanager/s_image_manager.go:82-125 | the image is stored or counted again; an executable also enriches its process |
| KernelState.ExecutableExactly | internal/kernel/statemanager/s_image_manager.go:110-118 | an image enriches its process exactly if its name ends in .exe, in upper or lower case |
| KernelState.KernelStateManager.UnloadImage | internal/kernel/statemanager/s_image_manager.go:129-144 | the mark carries the manager's current generation |
| Attribution.ThreadGuardExact | internal/kernel/statemanager/s_thread_manager.go:60-106 | in every run a thread goes to the process of its PID that started last if and only if it is not a millisecond or more older and no cleanup has removed that process, else to the unknown process |
| Attribution.OldThreadsKeepTheirProcess | internal/kernel/statemanager/s_process_manager.go:211-221 | over every run: a TID on which no thread starts is charged to the same live instance until a cleanup removes that instance or the TID's own expired record, exactly, however often the PID is used again |
| Attribution.PidKeepsProcess | internal/kernel/statemanager/s_process_manager.go:254-265 | over every run: a PID under which no process starts leads to the same live instance until a cleanup removes that instance, exactly |
| Attribution.EnrichNeverStrays | internal/kernel/statemanager/s_process_manager.go:90-133 | at every point of every run image information changes the PID's current record and no other; the handlers see to it that no process event carries start key 0 |
| Attribution.EnrichStraysExactly | internal/kernel/statemanager/s_process_manager.go:90-133 | with any keys, at every point of every run: image information goes to the PID's current record; without one, to the instance under start key 0 if there is one and the PID has a placeholder; else nowhere |
| CleanupExact.ProcessesCleanedExactly | internal/kernel/statemanager/s_state_manager.go:155-163 | a process is removed if and only if its mark has expired, and its record enters the pool exactly once |
| CleanupExact.PidsCleanedExactly | internal/kernel/statemanager/s_process_manager.go:254-265 | a PID is forgotten if and only if the very instance it leads to is removed |
| CleanupExact.ThreadsCleanedExactly | internal/kernel/statemanager/s_thread_manager.go:131-171 | a TID is forgotten if and only if its process is removed or its own expired record names that process |
| CleanupExact.ReusedTidLostExactly | internal/kernel/statemanager/s_thread_manager.go:145-150 | a TID reused while its old record is pending loses its mapping if and only if its process is removed or the expired record names this process |
| CleanupExact.RestartedThreadLost | internal/kernel/statemanager/s_thread_manager.go:145-150 | a thread restarted in its own process on the TID just given up is lost once the old record expires |
| ExampleRuns.RestartRun | internal/kernel/statemanager/s_thread_manager.go:145-150 | a run of five events after which a thread that has not ended, in a live process, has no mapping |
| CleanupExact.PidKeysAfterWalk | internal/kernel/statemanager/s_process_manager.go:245-252 | the PID-to-key map after the walk, exactly, also for PIDs that hold a placeholder from before: kept, forgotten or left as 0, by which instance of the PID is visited last |
| CleanupExact.PlaceholderExample | internal/kernel/statemanager/s_process_manager.go:245-252 | two instances of one PID cleaned together: one order of the walk leaves a 0, the other does not |
| ExampleRuns.PlaceholderRun | internal/kernel/statemanager/s_process_manager.go:245-252 | a run of five events after which PID 7 has the start key 0 and no process |
| Conservation.CountsSurviveRecycling | internal/kernel/statemanager/s_process_manager.go:160-173 | for every metric, at every point of every run: issued = live + recycled + unattributed |
| Conservation.StepConserves | internal/kernel/statemanager/process_data.go:30-39 | no single event creates or loses a count |
| Conservation.HardFaultsAlwaysAttributed | internal/kernel/statemanager/s_state_manager.go:344-356 | a fault with a readable thread always finds a live process, as long as no process event carries start key 1 |
| Conservation.RemoveLiveSum | internal/kernel/statemanager/s_process_manager.go:238-269 | removing instances takes away exactly what they hold |
| SystemTotals.DiskTotalsBalance | internal/collectors/kerneldiskio/diskio_collector.go:233-288 | per disk, at every point of every run: system total = live + recycled + unattributed, plus, in the flush counter, the flushes |
| SystemTotals.FlushCounterExact | internal/collectors/kerneldiskio/diskio_collector.go:277-288 | a disk's flush counter is the number of its flushes, none of which any process counts |
| SystemTotals.Drive | internal/collectors/kerneldiskio/diskio_handler_mof.go:91-200 | any sequence of events drives manager and disk collector together: the manager along a run, the collector to that run's system counters, so that the balance holds between the two objects |
| SystemTotals.HardFaultsBalance | internal/collectors/kernelmemory/memory_handler.go:77-98 | system faults without the unreadable ones = live + recycled |
| SystemTotals.DiskIoAlwaysAttributed | internal/collectors/kerneldiskio/diskio_handler_mof.go:176-194 | once the System process is known and until it ends, every disk event is charged to a live process |
| SystemTotals.DiskTargetExact | internal/collectors/kerneldiskio/diskio_handler_mof.go:154-194 | a process is found if and only if thread, header PID or System is known |
| SystemTotals.NoDiskTargetAtStart | internal/collectors/kerneldiskio/diskio_handler_mof.go:189-194 | at the start no disk event finds a process |
| SystemTotals.DiskCollector.HandleDiskIO | internal/collectors/kerneldiskio/diskio_collector.go:233-271 | the disk's system counter grows in any case; the issuing thread's process is charged, without it the header PID's, without both PID 4, and no other record |
| SystemTotals.DiskCollector.RecordDiskFlush | internal/collectors/kerneldiskio/diskio_collector.go:277-288 | a flush counts for the disk only |
| Counters.RecordAdds | internal/kernel/statemanager/process_diskio.go:89-101 | recording adds exactly the sample's amount to every counter of the process and nothing to any other |
| Counters.RegistryIndexRoundTrip | internal/kernel/statemanager/process_registry.go:77-88 | decoding the flat index inverts encoding and the other way round: no two pairs share a slot |
| ProcessRecords.ProcessData.Reset | internal/kernel/statemanager/process_data.go:30-72 | every counter of every module and every field of the information is cleared |
| ProcessRecords.ProcessData.RecordDiskIO | internal/kernel/statemanager/process_diskio.go:65-101 | a disk seen first starts from zero; the right counters of that disk grow |
| ProcessRecords.ProcessData.RecordConnectionFailed | internal/kernel/statemanager/process_network.go:61-105 | a failure key seen first starts from zero; only its counter grows |
| ProcessRecords.ProcessData.RecordRegistryOperation | internal/kernel/statemanager/process_registry.go:77-88 | the slot of opcode and outcome grows by one, no other |
| ProcessRecords.ProcessData.ApplyServiceTag | internal/kernel/statemanager/s_service_manager.go:36-91 | a name once set stays, a system process stays untagged, an unknown tag is kept for later |
| ScrapeClock.RingAverage | internal/kernel/statemanager/s_state_manager.go:223-245 | the ring buffer holds the last min(k, 4) intervals and its mean is their integer mean |
| ScrapeClock.ClockHoldsIntervals | internal/kernel/statemanager/s_state_manager.go:217-228 | that holds after any sequence of cleanups |
| GracePeriod.ClockOfRun | internal/kernel/statemanager/s_state_manager.go:143-228 | in every state of every run the clock is that of the cleanups so far, and the generation is their number |
| GracePeriod.ThresholdOfRun | internal/kernel/statemanager/s_state_manager.go:215-262 | every cleanup of every run applies the threshold that the mean of the last min(n, 4) intervals prescribes |
| ScrapeClock.ThresholdInRange | internal/kernel/statemanager/s_state_manager.go:254-262 | the threshold neither underflows nor exceeds the current generation |
| GracePeriod.ReachesExactly | internal/kernel/statemanager/s_state_manager.go:254-262 | the n-th cleanup of a run reaches a mark of generation g if and only if n > g + grace, or, under the override, n > g |
| GracePeriod.ReachesByTimes | internal/kernel/statemanager/s_state_manager.go:215-262 | over every run, by the times of the cleanups: with a latest interval of at most 60 s and a positive mean a of the last four, the n-th cleanup reaches generation g if and only if n > g + 1 and (n - g - 1) * a is at least 30 s; without a positive mean if and only if n > g + 1; after a longer interval if and only if n > g |
| GracePeriod.LiveExactly | internal/kernel/statemanager/s_state_manager.go:143-207 | over every run: an ended process is live, in the same record and with the generation of its latest mark, if and only if no cleanup since has reached that generation |
| GracePeriod.RemovedExactly | internal/kernel/statemanager/s_state_manager.go:155-163 | the first cleanup of a run that reaches the latest mark, and no other, removes the process |
| ScrapeClock.GraceSpansPeriod | internal/kernel/statemanager/s_state_manager.go:244-252 | the grace is the least number of average intervals that spans 30 s |
| GracePeriod.RecycledAfterGracePeriod | internal/kernel/statemanager/s_state_manager.go:215-262 | over every run: when a cleanup recycles a process after steady scrapes of at most 60 s, at least 30 s have passed since its latest end event was handled |
| ThreadRetention.ThreadKeptExactly | internal/kernel/statemanager/s_thread_manager.go:109-171 | over every run: the TID of an ended thread leads to its instance, with the record of that end, if and only if no cleanup since has reached its generation or recycled the instance |
| SystemRuns.ImageKeptExactly | internal/kernel/statemanager/s_image_manager.go:129-227 | over every run of the manager: an image whose count fell to zero or below is loaded, in use again or not, if and only if no cleanup since has reached the generation of that unload |
| SystemRuns.SystemReachesExactly | internal/kernel/statemanager/s_state_manager.go:215-262 | the n-th cleanup of such a run reaches generation g if and only if n > g + grace, or, under the override, n > g |
| SystemRuns.SystemReachesByTimes | internal/kernel/statemanager/s_state_manager.go:215-262 | the same by the times of the cleanups, for processes, threads and images together |
| SystemRuns.KernelRuns | internal/kernel/statemanager/s_state_manager.go:143-207 | within such a run processes and threads go through a run of the lifecycle |
| SystemRuns.Drive | internal/kernel/statemanager/s_state_manager.go:29-386 | any sequence of lifecycle and image requests drives manager and image manager along such a run: unloads marked with the manager's generation, one cleanup of both at one threshold |
| ScrapeClock.ScrapeTimer.CalculateAdaptiveCleanupThreshold | internal/kernel/statemanager/s_state_manager.go:215-272 | one pass over the ring buffer in place yields the next clock and the threshold that `GracePeriod.ReachesByTimes` reads off the times of the cleanups |
| Retention.MarkedProcessIsSeenAgain | internal/kernel/statemanager/s_process_manager.go:187-210 | without the override, a recycled process was part of a snapshot taken after its latest mark, in the same record |
| Retention.MarkPersists | internal/kernel/statemanager/s_process_manager.go:208-210 | a mark keeps its generation and its process keeps its record until the cleanup that removes it |
| Retention.RecycledAtOnceExactly | internal/kernel/statemanager/s_state_manager.go:254-261 | the first cleanup after a mark recycles the process if and only if the 60 s override is in force |
| Identity.KeyChangesAtMostThrice | internal/kernel/statemanager/s_process_manager.go:90-126 | in the whole life of an instance its aggregation key changes at most three times |
| Identity.StepLearns | internal/kernel/statemanager/s_service_manager.go:36-91 | an event changes the key only by learning full path, checksum or service name, each at most once |
| Aggregation.Accumulate | internal/kernel/statemanager/aggregation.go:133-224 | field by field and counter by counter: a program's aggregate grows by exactly the instance's |
| Aggregation.AddOperations | internal/kernel/statemanager/aggregation.go:192-211 | each decoded pair gets exactly its slot's count; only operations that occurred get an entry |
| Aggregation.AddDisks | internal/kernel/statemanager/aggregation.go:143-160 | disk by disk sums, disks seen first starting from zero |
| Aggregation.GrandTotal | internal/kernel/statemanager/aggregation.go:85-227 | the total over all programs is the total over all live instances |
| PassOrder.OrderIrrelevantExactly | internal/kernel/statemanager/aggregation.go:90-114 | all orders of the walk leave the same state if and only if no two live processes without a name wait for the same tag, of which a lookup finds the name |
| PassOrder.SnapshotsAgree | internal/kernel/statemanager/aggregation.go:85-227 | without such a pair, two snapshots of one state, each taken after its own pass in its own order, agree on every program and every counter |
| PassOrder.TotalsAgree | internal/kernel/statemanager/aggregation.go:85-227 | with or without such a pair, whatever the order, the total over all programs is what the live instances hold |
| PassOrder.RivalsDisagree | internal/kernel/statemanager/aggregation.go:90-114 | for every such pair there is one walk that names a given one of the two and one that leaves it unnamed |
| PassOrder.VisitedTags | internal/kernel/statemanager/aggregation.go:99-105 | a visit caches the name that its own lookup finds, under the tag the process waits for, and nothing else |
| SnapshotOrder.PassNames | internal/kernel/statemanager/aggregation.go:90-114 | the pass, exactly: of the instances that wait for one tag the first visited gets what its lookup finds, all others stay |
| SnapshotOrder.SnapshotShows | internal/kernel/statemanager/aggregation.go:116-224 | the count a walk is said to show is what the snapshot taken by that walk has, 0 for a program without an entry |
| SnapshotOrder.OrderInvisibleExactly | internal/kernel/statemanager/aggregation.go:89-224 | all orders of the walk give the same counts in every program if and only if any two live instances that wait for one tag, of which a lookup finds the name, are interchangeable |
| SnapshotOrder.SwapShows | internal/kernel/statemanager/aggregation.go:89-224 | two walks that begin with the one and with the other of two such instances: what they show differs exactly by what naming the one or the other moves |
| ExampleRuns.TwoServicesRun | internal/kernel/statemanager/aggregation.go:89-224 | a run of five events after which one walk shows a fault under the service's name that the other does not |
| Aggregation.GroupedSumStep | internal/kernel/statemanager/aggregation.go:116-131 | one more instance extends the grouped sum under its own key and no other |
| Snapshots.SnapshotStore.Get | internal/kernel/statemanager/aggregation.go:80-81 | the map to fill is empty, and neither live nor pooled |
| Snapshots.SnapshotStore.Publish | internal/kernel/statemanager/aggregation.go:229-240 | the filled map becomes live, its predecessor is cleared and pooled |
| Snapshots.SnapshotStore.RangeAggregatedMetrics | internal/kernel/statemanager/aggregation.go:245-261 | every entry is visited at most once, and all of them unless the callback stops |
| Images.RunKeepsInvariant | internal/kernel/statemanager/s_image_manager.go:82-227 | in every reachable state each cached address leads to a loaded image that covers it, whatever was removed and recycled |
| Images.LookupFindsExactly | internal/kernel/statemanager/s_image_manager.go:182-212 | a lookup succeeds if and only if some loaded image covers the address, and answers with one |
| Images.LookupByAddress | internal/kernel/statemanager/s_image_manager.go:182-212 | by base and size: a lookup succeeds if and only if the address is at or above the base of some loaded image and below its end, wrapped at 2^64 |
| Images.LoadExactly | internal/kernel/statemanager/s_image_manager.go:82-107 | base or size 0 changes nothing, a loaded base gets one more user, a new one a record with base, size, name and count 1 |
| Images.UnloadExactly | internal/kernel/statemanager/s_image_manager.go:129-144 | one user less, and a mark of this generation if and only if none is left |
| Images.CountIsNetLoads | internal/kernel/statemanager/s_image_manager.go:82-144 | over every run: the count of a loaded image is its loads less its unloads since it was stored |
| Images.AnswersStay | internal/kernel/statemanager/s_image_manager.go:182-212 | over every run: an address keeps the answer it was given as long as that image stays loaded, even if others hold the address too |
| Images.LookupEqualsScan | internal/kernel/statemanager/s_image_manager.go:182-212 | with disjoint images a lookup answers as the linear scan would |
| Images.RemoveAllRemoves | internal/kernel/statemanager/s_image_manager.go:148-227 | a cleanup removes exactly the listed images and the cached addresses that led to them |
| Images.MarkedExactly | internal/kernel/statemanager/s_image_manager.go:82-144 | in every reachable state a loaded image is marked if and only if its count fell to zero or below at some unload since it was stored, with the generation of the latest such unload |
| Images.RemovedExactly | internal/kernel/statemanager/s_image_manager.go:215-227 | at every point of every run a cleanup removes a loaded image, in use or not, if and only if the latest such unload is older than its threshold |
| Images.ReloadedImageRemovedExactly | internal/kernel/statemanager/s_image_manager.go:94-95 | loading an image again, at any count, adds one and leaves its mark: the next cleanup removes it if and only if the mark has expired |
| Images.InUseImageRemoved | internal/kernel/statemanager/s_image_manager.go:94-95 | a run in which an image with a positive count is removed |
| Images.CleanedNamesExactly | internal/kernel/statemanager/s_image_manager.go:234-252 | at every point of every run a name is among the marked ones if and only if an image of this name is loaded whose count fell to zero since it was stored, even if it is in use again |
| Images.ImageManager.AddImage | internal/kernel/statemanager/s_image_manager.go:82-107 | a loaded base is counted again, a new one is stored in a record that nobody uses |
| Images.ImageManager.UnloadImage | internal/kernel/statemanager/s_image_manager.go:129-144 | the count falls by one and marks the image when it reaches zero |
| Images.ImageManager.RemoveImage | internal/kernel/statemanager/s_image_manager.go:148-177 | image, mark and every cached address leading to it are gone, and the record is pooled |
| Images.ImageManager.GetImageForAddress | internal/kernel/statemanager/s_image_manager.go:182-212 | cache first, then a scan whose answer is cached |
| Images.ImageManager.CleanupTerminated | internal/kernel/statemanager/s_image_manager.go:215-227 | exactly the images whose mark is older than the threshold are removed |
| Images.ImageManager.GetCleanedImages | internal/kernel/statemanager/s_image_manager.go:234-252 | the names of exactly the loaded images that are marked |
| Images.ImageManager.Handle | internal/kernel/statemanager/s_image_manager.go:82-227 | every event moves the object exactly one step of the image state machine, for some choice of record, scan result or order |
| InterruptAccounts.EveryInterruptAccounted | internal/collectors/kernelperf/perfinfo_collector.go:480-556 | per CPU and over every run: DPCs = executed + pending + dropped at swaps, at most one per swap; ISRs = queued = matched + pending + aged + dropped; matched at most executed |
| InterruptAccounts.MatchTakesClosest | internal/collectors/kernelperf/perfinfo_collector.go:559-588 | the matched ISR is the closest earlier one within an hour on that CPU, and exactly that one leaves the list |
| InterruptAgeing.NoneOldExactly | internal/collectors/kernelperf/perfinfo_collector.go:480-498 | after an ISR no pending one is older than 10 ms if and only if the number of CPUs with a list is a multiple of 100 or none was older |
| InterruptAgeing.StaleIsrStays | internal/collectors/kernelperf/perfinfo_collector.go:480-498 | an ISR of an hour ago is still pending after the next one |
| InterruptAgeing.SmallMachineNeverAges | internal/collectors/kernelperf/perfinfo_collector.go:642-663 | with fewer than 100 CPUs no ISR is ever dropped for its age, in any run |
| InterruptAgeing.SmallMachineLedger | internal/collectors/kernelperf/perfinfo_collector.go:480-498 | there, in every run: queued = matched + pending + dropped at swaps |
| Interrupts.ClosestExact | internal/collectors/kernelperf/perfinfo_collector.go:563-574 | the scan finds the smallest non-negative gap, the first of several, and none only if none is eligible |
| Interrupts.SwapRemoveExact | internal/collectors/kernelperf/perfinfo_collector.go:580-584 | overwriting with the last element and shortening removes exactly one occurrence |
| Interrupts.AgingSplits | internal/collectors/kernelperf/perfinfo_collector.go:642-663 | the filter keeps exactly the ISRs of at most 10 ms, and survivors plus dropped make the list |
| InterruptHistograms.LatencyHistogramsExact | internal/collectors/kernelperf/perfinfo_collector.go:297-301 | totals and active buffer are the histograms of exactly the matches before and since the last scrape |
| InterruptHistograms.ExportedLatencyExact | internal/collectors/kernelperf/perfinfo_collector.go:360-383 | each exported bucket is the number of the run's latencies up to its bound, count and sum included |
| InterruptTimes.ExportedLatencyByTime | internal/collectors/kernelperf/perfinfo_collector.go:360-383 | by time stamps: an exported bucket of b microseconds is the number of matches of the run whose DPC came less than 1000 * (b + 1) ns after its ISR; the sum is that of the gaps, less than a microsecond lost on each |
| InterruptTimes.ExportedDurationsByTime | internal/collectors/kernelperf/perfinfo_collector.go:304-325 | the same for each driver: its DPCs since a scrape last pruned it, from their own initial time to the event that ended them |
| InterruptTimes.PendingExactly | internal/collectors/kernelperf/perfinfo_collector.go:502-556 | over every run a DPC is pending on a CPU if and only if neither another DPC nor a switch of that CPU nor a scrape has come since, with its own initial time and routine |
| InterruptTimes.WaitingWereRaised | internal/collectors/kernelperf/perfinfo_collector.go:480-498 | over every run every ISR that waits on a CPU was raised there, with that time, routine and vector |
| InterruptTimes.MatchesFromRun | internal/collectors/kernelperf/perfinfo_collector.go:559-588 | every match of a run joins an ISR and a DPC that the run raised on one CPU, less than an hour apart, the ISR first |
| InterruptHistograms.DurationHistogramsExact | internal/collectors/kernelperf/perfinfo_collector.go:304-325 | whatever name each ended DPC got, a name's histogram holds exactly the durations counted under it since a scrape last pruned it; at every scrape while a mark lasts it starts again from nothing |
| InterruptHistograms.BoundsIncrease | internal/collectors/kernelperf/perfinfo_collector.go:167-170 | the bounds are the powers of five from 1, eleven and twelve of them |
| Histograms.RecordHolds | internal/collectors/kernelperf/perfinfo_collector.go:601-611 | first-fit puts a sample into the one bucket between whose bounds it lies |
| Histograms.MergeHolds | internal/collectors/kernelperf/perfinfo_collector.go:304-318 | merging loses no sample and moves none to another bucket |
| Histograms.CumulativeExact | internal/collectors/kernelperf/perfinfo_collector.go:364-372 | a prefix sum is the number of samples up to the bucket's bound |
| Histograms.CollectBuckets | internal/collectors/kernelperf/perfinfo_collector.go:364-372 | the loop exports the prefix sum of every bound |
| Histograms.Record | internal/collectors/kernelperf/perfinfo_collector.go:601-611 | the search in order counts the sample in its first fitting bucket only |
| PerfCollectors.PerfCollector.ProcessISREvent | internal/collectors/kernelperf/perfinfo_collector.go:480-498 | queued count, pending list and ageing of the active buffer only |
| PerfCollectors.PerfCollector.ProcessDPCEvent | internal/collectors/kernelperf/perfinfo_collector.go:502-520 | the CPU's pending DPC ends, the new one is pending |
| PerfCollectors.PerfCollector.ProcessCSwitchEvent | internal/collectors/kernelperf/perfinfo_collector.go:523-529 | the CPU's pending DPC ends |
| PerfCollectors.PerfCollector.Collect | internal/collectors/kernelperf/perfinfo_collector.go:278-337 | the totals take in the old buffer, which is cleaned and pooled, and lose the drivers whose images the image manager has marked at that moment; the new active buffer is clean |
| PerfCollectors.MetricsBuffer.FinalizeAndClearPendingDPC | internal/collectors/kernelperf/perfinfo_collector.go:533-556 | counted, timed for a known driver, matched with its ISR, and no longer pending |
| PerfCollectors.MetricsBuffer.ResolveDriverName | internal/collectors/kernelperf/perfinfo_collector.go:591-598 | the name of the image that the manager's lookup answers with, or "unknown" |
| PerfCollectors.MetricsBuffer.CountAndTime | internal/collectors/kernelperf/perfinfo_collector.go:533-547 | counted in any case; timed, when durations are kept by driver, under the name its image has now, from its initial time to its end (`InterruptTimes.ExportedDurationsByTime`) |
| PerfCollectors.MetricsBuffer.CorrelateISR | internal/collectors/kernelperf/perfinfo_collector.go:559-588 | the loop matches the closest earlier ISR within an hour, takes it off the list and records its gap, in the microseconds that `InterruptTimes.ExportedLatencyByTime` ties to the time stamps |
| PerfCollectors.MetricsBuffer.CleanupOldISRs | internal/collectors/kernelperf/perfinfo_collector.go:642-663 | every list keeps exactly its recent ISRs in order; lists that become empty go |
| DriverRuns.DurationUnderCoveringImage | internal/collectors/kernelperf/perfinfo_collector.go:533-556 | at every point of every run a duration is counted under a name only if an image of that name is loaded at that moment and covers the routine; with disjoint images, exactly then, the name "unknown" apart |
| DriverRuns.PrunedExactly | internal/collectors/kernelperf/perfinfo_collector.go:317-324 | at every scrape of every run a driver is given up if and only if an image of its name is loaded whose count fell to zero since it was stored |
| DriverRuns.CollectorRuns | internal/collectors/kernelperf/perfinfo_collector.go:278-556 | in a joint run the collector is in the state that its own events prescribe |
| DriverRuns.ImagesRun | internal/kernel/statemanager/s_image_manager.go:82-227 | and the image manager goes through a run of its own |
| DriverRuns.Drive | internal/collectors/kernelperf/perfinfo_collector.go:278-598 | any sequence of interrupts, image events and scrapes drives image manager and collector along a joint run: driver names from the manager's lookups, names to prune from its marks |
| PerfCollectors.MergeDurations | internal/collectors/kernelperf/perfinfo_collector.go:304-318 | driver by driver merge, drivers seen first starting from an empty histogram |
| SwitchIntervals.BucketIndexExact | internal/collectors/kernelthread/thread_collector.go:350-377 | buckets up to i take exactly the intervals of less than 2^(i + 1) whole microseconds |
| SwitchIntervals.CumulativeExact | internal/collectors/kernelthread/thread_collector.go:288-295 | cumulative bucket i counts exactly those intervals, the last one all of them |
| SwitchIntervals.LabelExact | internal/collectors/kernelthread/thread_collector.go:350-369 | a bucket counts what its label says if and only if no interval lies above the label and below its double |
| SwitchIntervals.MislabelledExample | internal/collectors/kernelthread/thread_collector.go:350-369 | 3 microseconds are counted in the bucket labelled 2 |
| SwitchIntervals.MergeKeepsStats | internal/collectors/kernelthread/thread_collector.go:276-284 | merging statistics loses no interval |
| SwitchRuns.CpuStatsExact | internal/collectors/kernelthread/thread_handler.go:117-130 | whatever scrapes interleave, merged and active statistics hold exactly the positive gaps between a CPU's switches |
| SwitchRuns.SwitchTotalsTelescope | internal/collectors/kernelthread/thread_handler.go:117-130 | with rising timestamps the sum is last minus first and the count the number of strict increases |
| SwitchRuns.ExportedBucketsExact | internal/collectors/kernelthread/thread_collector.go:262-309 | what a scrape exports per CPU counts exactly the run's intervals below each power of two |
| SwitchRuns.ExportedBucketsByTime | internal/collectors/kernelthread/thread_collector.go:262-309 | by time stamps: exported bucket i counts the gaps between switches of the CPU of less than 2^(i + 1) microseconds, the last bucket all; count and sum are those of the gaps |
| SwitchRuns.StateCountersExact | internal/collectors/kernelthread/thread_collector.go:386-401 | each transition counter counts its own transition only; unknown wait reasons touch no other counter |
| SwitchRuns.StateCountersByIndex | internal/collectors/kernelthread/thread_collector.go:386-401 | counter 0 is the number of threads created, 1 of switches, 2 of threads made ready, 3 of threads ended, and 40 + r of switches away for reason r |
| ThreadCollectors.ThreadCollector.Collect | internal/collectors/kernelthread/thread_collector.go:262-309 | every CPU's active statistics are merged into its cumulative ones and start clean; no object in use is ever pooled |
| ThreadCollectors.ThreadCollector.SwapAll | internal/collectors/kernelthread/thread_collector.go:262-271 | all old objects are held, all active ones are clean and different from any other in use |
| ThreadCollectors.ThreadCollector.MergeAll | internal/collectors/kernelthread/thread_collector.go:274-309 | each CPU's cumulative statistics absorb that CPU's old ones |
| ThreadCollectors.ThreadCollector.RecordCpuContextSwitch | internal/collectors/kernelthread/thread_collector.go:333-379 | one CPU's switch count and, for a positive interval, its active statistics |
| ThreadCollectors.IntervalStats.RecordInterval | internal/collectors/kernelthread/thread_collector.go:347-377 | count, sum and the one bucket of the interval's bit length |
| ThreadCollectors.Handler.HandleContextSwitchRaw | internal/collectors/kernelthread/thread_handler.go:91-147 | interval from the CPU's last timestamp, both state transitions, and one switch for the incoming thread's process |
| ThreadCollectors.Drive | internal/collectors/kernelthread/thread_handler.go:91-265 | any sequence of scheduler events and scrapes drives handler and collector to the state their run prescribes |
| ShardedMaps.UnionExact | internal/maps/sharded_map.go:36-39 | a key is in the map if and only if it is in its own shard, with the same value |
| ShardedMaps.ShardedMap.Store | internal/maps/sharded_map.go:51-56 | storing changes the whole map at the key only |
| ShardedMaps.ShardedMap.LoadAndDelete | internal/maps/sharded_map.go:68-77 | the former value, if there was one, and a map without the key |
| ShardedMaps.ShardedMap.LoadOrStore | internal/maps/sharded_map.go:82-104 | uninterrupted: the present value, or the factory's, which is then stored |
| ShardedMaps.ShardedMap.Update | internal/maps/sharded_map.go:108-119 | the key gets what the function makes of it, or loses its entry |
| ShardedMaps.ShardedMap.Range | internal/maps/sharded_map.go:124-144 | every entry is visited at most once, and all of them unless the callback stops |
| ShardedMaps.FactoryRunsOnce | internal/maps/sharded_map.go:82-104 | in every interleaving of the critical sections the factory runs at most once and every returned call has the stored value |
| ShardedMaps.AllCallersAgree | internal/maps/maps.go:32-36 | when all callers have returned, one factory has run and all have the same value |
| StartKey.StartKeyIsFold | internal/kernel/statemanager/process_utils.go:20-74 | the key is the FNV-1a fold over the little-endian bytes of EPROCESS, PID and parent PID |
| StartKey.LittleEndianBytes | internal/kernel/statemanager/process_utils.go:20-41 | the bytes of a number that are hashed, eight or four of them, the lowest first |
| StartKey.KnownHashes | internal/kernel/statemanager/process_utils.go:43-61 | the offset basis and the hash of one byte are the published ones of 64-bit FNV-1a, which fixes offset and prime |
| StartKey.NoKeyWithoutProcess | internal/kernel/statemanager/process_utils.go:20-41 | without an EPROCESS the key is 0 |
| StartKey.StepIsBijection | internal/kernel/statemanager/process_utils.go:43-61 | for a fixed byte a step permutes the 64-bit states |
| StartKey.AdjacentDifferencesNeverCollide | internal/kernel/statemanager/process_utils.go:43-74 | inputs that differ at most in two adjacent bytes share a hash if and only if they are equal |
| StartKey.NearbyPidsGetDistinctKeys | internal/kernel/statemanager/process_utils.go:20-41 | PIDs that differ in their low 16 bits only get different keys for one EPROCESS and parent |
| RestartLock.LockIsExclusive | internal/etw/etw_session.go:288-346 | a name is in the set if and only if exactly one goroutine is in the retry section for it, and nobody makes more than ten attempts |
| RestartLock.OnlyHolderReleases | internal/etw/etw_session.go:291-313 | only the holder's own exit takes a name out: success, shutdown or ten failed attempts |
| RestartLock.LeavesExactly | internal/etw/etw_session.go:288-346 | a goroutine returns exactly if a restart makes no sense, the session runs again, its attempt succeeds, or its pause ends in a shutdown or after the tenth attempt; and it is in the section exactly if it found the name free, its attempt failed, or its pause ended otherwise |
| RouteTable.ProviderHandlers.Set | internal/etw/event_handler.go:259-283 | growing the slice or the map changes one route only |
| RouteTable.ProviderHandlers.Get | internal/etw/event_handler.go:55-69 | slice below 256, map from there on, nothing outside |
| RouteTable.EventHandler.AddRoute | internal/etw/event_handler.go:259-283 | the table refines the map of registrations |
| RouteTable.RegisterAll | internal/etw/event_handler.go:259-283 | it does so through every sequence of registrations |
| RouteTable.LastRegistrationWins | internal/etw/event_handler.go:259-283 | a lookup finds the last handler registered for the very provider and event id, or none was |
| RouteTable.EventHandler.EventRecordCallback | internal/etw/event_handler.go:328-379 | fast paths and raw routes end the event, anything else goes on uncounted |
| RouteTable.EventHandler.RouteEvent | internal/etw/event_handler.go:397-417 | the provider's counter and the prepared handler, if there is one |
| RouteTable.EventHandler.Process | internal/etw/event_handler.go:328-417 | both stages together, by provider, opcode and registration: which one counter grows by one, and which handlers run in which order |
| RouteTable.DispatchExact | internal/etw/event_handler.go:328-417 | opcode 36 of the two thread providers counts under threads and goes to the thread handler and then the perf handler; the registry providers count under registry; all others under their own counter, to the handler registered |
| RouteTable.AtMostOneCountAndRoute | internal/etw/event_handler.go:328-417 | an event adds at most one to all counters together and runs at most one routed handler |

## Left out

- The ETW sessions, the consumer, event parsing and the Windows API: foreign code. A service lookup is an arbitrary function, interrupts reach the collector one at a time.
- The process handlers compute the start key and drop events whose key is 0 (internal/collectors/kernelprocess/process_handler_mof.go:80-84 and 120-123). Process events of a run carry any key; a result that needs a key other than 0 says so.
- Descriptors, channels, label strings, the HTTP server, configuration, logging, diagnostics and debug getters.
- Data races below the level of one operation, for example an event between the thread pass and the process pass of a cleanup, or a reader of a snapshot while it is cleared: no lock of the program orders these. Cleanup and aggregation are single steps.
- Retention.MarkedProcessIsSeenAgain: assumes that a scrape's snapshot is taken after the previous cleanup, as it is when scrapes do not overlap.
- SystemTotals.HardFaultsBalance: covers per-process metrics switched on; switched off, the handler leaves the per-process counters alone.
- The one-time walk over running services before the first aggregation. Its effect, a service seen under a PID, is an event of the lifecycle and may occur at any time.
- The width of counters: 64-bit sums and the 32-bit reference count of an image do not wrap. The end address of an image does.
- ScrapeClock.GraceSpansPeriod: the grace is the exact rational ceiling; the program divides floating-point seconds.
- A process record holds its modules as fields, and its per-protocol and per-operation counters as sequences of fixed length rather than arrays of atomics. The two PID, two TID and other maps of the process, thread and service managers are fields of one manager object.
- The interval buckets of one CPU are a sequence of fixed length in their statistics object rather than an array of atomics.
- KernelState.KernelStateManager.constructor: the start of the clock and the creation of the unknown process read one instant, and whether processes are tracked at all is fixed from the start.
- SnapshotOrder.OrderInvisibleExactly: is about counts; whether a program that holds nothing has an entry can still depend on the order.
- KernelState.KernelStateManager.AddImage: the base name under which an image is filed is an argument; interning of names is not modelled.
- ThreadCollectors.Handler.HandleContextSwitchRaw: requires the CPU number to be one the handler has a slot for; the program indexes without a test.
- Pooling of single ISR records: ISRs are values here.
- PerfCollectors.PerfCollector.Collect: the exported totals over all CPUs are not summed.
- GracePeriod.RecycledAfterGracePeriod: the time at which an end event is handled is an argument, no later than the cleanups that follow the event; the event itself carries the process's own exit time only.
- SystemTotals.Drive: reads and writes come with the thread and PID of the disk handlers; other handlers do not record disk operations.
- The system-wide totals of the network and registry collectors, the manifest handlers, the process name filters and the system configuration handler: they would only add easy members.
- The wrappers around third-party concurrent maps; only the contracts of their update and load-or-store operations are used.
