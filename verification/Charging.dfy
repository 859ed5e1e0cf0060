/** To which process an event is charged, and which of its counters grow: by the maps and fields alone. */
module Charging {
  import opened Words
  import opened Counters
  import opened Lifecycle
  import opened LifecycleRuns
  import opened Attribution

  // ---- which counters grow ----

  predicate DiskGrows(d: DiskMetrics, d': DiskMetrics, size: nat, isWrite: bool) {
    && d'.flushOps == d.flushOps
    && d'.readOps == d.readOps + (if isWrite then 0 else 1)
    && d'.bytesRead == d.bytesRead + (if isWrite then 0 else size)
    && d'.writeOps == d.writeOps + (if isWrite then 1 else 0)
    && d'.bytesWritten == d.bytesWritten + (if isWrite then size else 0)
  }

  predicate ProtocolGrows(a: PerProtocol, a': PerProtocol, protocol: Protocol, amount: nat) {
    forall p: Protocol :: a'[p] == a[p] + if p == protocol then amount else 0
  }

  /** The sample's own counters grow, each by what the sample says; every other counter is as before. */
  ghost predicate Grows(c: Counters, c': Counters, e: Sample) {
    match e
    case DiskIO(disk, size, isWrite) =>
      && c' == c.(disks := c'.disks) && c'.disks.Keys == c.disks.Keys + {disk}
      && (forall x | x in c.disks && x != disk :: c'.disks[x] == c.disks[x])
      && DiskGrows(if disk in c.disks then c.disks[disk] else DiskMetrics(0, 0, 0, 0, 0), c'.disks[disk], size, isWrite)
    case HardPageFault => c' == c.(hardPageFaults := c'.hardPageFaults) && c'.hardPageFaults == c.hardPageFaults + 1
    case DataSent(p, bytes) =>
      && c' == c.(network := c.network.(sent := c'.network.sent))
      && ProtocolGrows(c.network.sent, c'.network.sent, p, bytes)
    case DataReceived(p, bytes) =>
      && c' == c.(network := c.network.(received := c'.network.received))
      && ProtocolGrows(c.network.received, c'.network.received, p, bytes)
    case ConnectionAttempted(p) =>
      && c' == c.(network := c.network.(attempted := c'.network.attempted))
      && ProtocolGrows(c.network.attempted, c'.network.attempted, p, 1)
    case ConnectionAccepted(p) =>
      && c' == c.(network := c.network.(accepted := c'.network.accepted))
      && ProtocolGrows(c.network.accepted, c'.network.accepted, p, 1)
    case Retransmission =>
      && c' == c.(network := c.network.(retransmissions := c'.network.retransmissions))
      && c'.network.retransmissions == c.network.retransmissions + 1
    case ConnectionFailed(key) =>
      && c' == c.(network := c.network.(failed := c'.network.failed))
      && c'.network.failed.Keys == c.network.failed.Keys + {key}
      && forall k | k in c'.network.failed ::
           c'.network.failed[k]
           == (if k in c.network.failed then c.network.failed[k] else 0) + (if k == key then 1 else 0)
    case RegistryOperation(opcode, status) =>
      && c' == c.(operations := c'.operations)
      && forall i | 0 <= i < 512 ::
           c'.operations[i]
           == c.operations[i] + if i == 2 * opcode + (if status == 0 then 0 else 1) then 1 else 0
    case ContextSwitch => c' == c.(contextSwitches := c'.contextSwitches) && c'.contextSwitches == c.contextSwitches + 1
  }

  lemma RecordGrows(c: Counters, e: Sample)
    ensures Grows(c, Record(c, e), e)
  {
  }

  // ---- which process ----

  /** Exactly the record o is charged with the sample; its information and all other records are as before. */
  ghost predicate OnlyCharges<Ref>(s: State<Ref>, s': State<Ref>, o: Ref, e: Sample) {
    && o in s.heap && s'.heap.Keys == s.heap.Keys && s' == s.(heap := s'.heap)
    && (forall r | r in s.heap && r != o :: s'.heap[r] == s.heap[r])
    && s'.heap[o].info == s.heap[o].info && Grows(s.heap[o].counters, s'.heap[o].counters, e)
  }

  /**
   A disk event is charged to the process of its issuing thread; without such a thread to that of the
   PID in its header; without either to PID 4; and to nobody if that is not known. The ids 0 and
   0xFFFFFFFF name nothing.
   */
  ghost predicate ChargesDisk<Ref>(s: State<Ref>, s': State<Ref>, tid: uint32, headerPid: uint32, e: Sample) {
    if tid != 0 && tid != 0xFFFF_FFFF && tid in s.tidToCurrentProcessData then
      OnlyCharges(s, s', s.tidToCurrentProcessData[tid], e)
    else if headerPid != 0 && headerPid != 0xFFFF_FFFF && headerPid in s.pidToCurrentProcessData then
      OnlyCharges(s, s', s.pidToCurrentProcessData[headerPid], e)
    else if 4 in s.pidToCurrentProcessData then OnlyCharges(s, s', s.pidToCurrentProcessData[4], e)
    else s' == s
  }

  /** Whom any sample is charged to, by where its handler looks. */
  ghost predicate Charges<Ref>(s: State<Ref>, s': State<Ref>, src: Source, e: Sample) {
    match src
    case ByThreadPidOrSystem(tid, headerPid) => ChargesDisk(s, s', tid, headerPid, e)
    case ByThreadOrUnknown(tid) =>
      if tid in s.tidToCurrentProcessData then OnlyCharges(s, s', s.tidToCurrentProcessData[tid], e)
      else if 1 in s.instanceData then OnlyCharges(s, s', s.instanceData[1], e)
      else s' == s
    case ByThread(tid) =>
      if tid in s.tidToCurrentProcessData then OnlyCharges(s, s', s.tidToCurrentProcessData[tid], e) else s' == s
    case ByPid(pid) =>
      if pid in s.pidToCurrentProcessData then OnlyCharges(s, s', s.pidToCurrentProcessData[pid], e) else s' == s
    case Unreadable => s' == s
  }

  lemma RecordCharges<Ref>(s: State<Ref>, o: Ref, e: Sample)
    requires o in s.heap
    ensures OnlyCharges(s, s.(heap := s.heap[o := s.heap[o].(counters := Record(s.heap[o].counters, e))]), o, e)
  {
    hide Grows, Record;
    RecordGrows(s.heap[o].counters, e);
  }

  /** Every sample is charged to exactly that process, whatever the state. */
  lemma SampleCharges<Ref>(s: State<Ref>, src: Source, e: Sample)
    requires Target(s, src).Some? ==> Target(s, src).value in s.heap
    ensures Charges(s, RecordSample(s, src, e), src, e)
  {
    hide OnlyCharges, Record;
    if Target(s, src).Some? {
      RecordCharges(s, Target(s, src).value, e);
    }
  }

  lemma ChargedExactly<Ref>(s: State<Ref>, src: Source, e: Sample)
    requires Closed(s)
    ensures Charges(s, Step(s, Sampled(src, e)), src, e)
  {
    hide Charges, RecordSample;
    SampleCharges(s, src, e);
  }

  // ---- over runs ----

  /** The thread tid starts at event i in the PID's current process, and is no older than it but for a millisecond. */
  ghost predicate StartsIn<Ref>(s: State<Ref>, e: Event<Ref>, tid: uint32, o: Ref) {
    && e.ThreadStarted? && e.tid == tid && e.pid in s.pidToCurrentProcessData
    && s.pidToCurrentProcessData[e.pid] == o && o in s.heap && e.now > s.Info(o).createTime - 1_000_000
  }

  lemma StartMaps<Ref>(s: State<Ref>, e: Event<Ref>, tid: uint32, o: Ref)
    requires Closed(s) && StartsIn(s, e, tid, o)
    ensures tid in Step(s, e).tidToCurrentProcessData && Step(s, e).tidToCurrentProcessData[tid] == o
  {
    hide ServiceInfo;
  }

  /**
   Disk I/O goes to the instance its thread started under, as long as the TID is neither used again
   nor forgotten, whatever process the header names and however often the PID is used again.
   */
  lemma DiskIoFollowsThread<Ref>(unknown: Ref, start: int, states: seq<State<Ref>>, events: seq<Event<Ref>>,
                                 tid: uint32, o: Ref, i: nat, n: nat)
    requires IsRun(unknown, start, states, events) && i < n < |events|
    requires tid != 0 && tid != 0xFFFF_FFFF && StartsIn(states[i], events[i], tid, o)
    requires forall x | i < x < n :: !(events[x].ThreadStarted? && events[x].tid == tid)
    requires forall x | i < x < n :: !ForgetsTid(states[x], events[x], tid)
    requires events[n].Sampled? && events[n].sample.DiskIO?
    requires events[n].src.ByThreadPidOrSystem? && events[n].src.tid == tid
    ensures OnlyCharges(states[n], states[n + 1], o, events[n].sample)
    ensures SameInstance(states[i + 1], states[n], o)
  {
    hide Step, Enabled, Inv, StartsIn, ForgetsTid, OnlyCharges, SameInstance;
    NthNext(unknown, start, states, events, i);
    StartMaps(states[i], events[i], tid, o);
    OldThreadsKeepTheirProcess(unknown, start, states, events, tid, i + 1, n);
    NthNext(unknown, start, states, events, n);
    ChargedExactly(states[n], events[n].src, events[n].sample);
  }
}
