/**
 The process and thread lifecycle of the kernel state manager, as a state
 machine over values. `Ref` stands for a reference to a ProcessData record;
 `heap` gives the contents of every record ever allocated, live or pooled.
 Every operation is a function of the state; what the program leaves open
 (which pooled record it gets, in which order it walks a map, what a service
 lookup answers) is an argument.
 */
module Lifecycle {
  import opened Words
  import opened Counters
  import opened ScrapeClock

  const UNKNOWN_PROCESS_START_KEY: uint64 := 1
  const UNKNOWN_PID: uint32 := 0xFFFF_FFFF
  const SYSTEM_PROCESS_ID: uint32 := 4
  const NO_SESSION: uint32 := 0xFFFF_FFFF
  const MILLISECOND := 1_000_000

  /** Instants are nanoseconds; the zero instant means "not set". */
  const ZERO_TIME := 0

  datatype ProcessInfo = ProcessInfo(
    pid: uint32,
    startKey: uint64,
    name: string,
    serviceName: string,
    subProcessTag: uint32,
    createTime: int,
    terminationTime: int,
    lastSeen: int,
    parentPid: uint32,
    sessionId: uint32,
    uniqueHash: uint64)

  const RESET_INFO := ProcessInfo(0, 0, "", "", 0, ZERO_TIME, ZERO_TIME, ZERO_TIME, 0, 0, 0)

  datatype Proc = Proc(info: ProcessInfo, counters: Counters)

  datatype TerminationRecord = TerminationRecord(generation: nat, startKey: uint64)

  datatype State<Ref(==)> = State(
    instanceData: map<uint64, Ref>,
    terminatedProcesses: map<uint64, nat>,
    pidToCurrentStartKey: map<uint32, uint64>,
    pidToCurrentProcessData: map<uint32, Ref>,
    tidToCurrentProcessData: map<uint32, Ref>,
    terminatedThreads: map<uint32, TerminationRecord>,
    serviceTags: map<uint32, string>,
    pool: multiset<Ref>,
    heap: map<Ref, Proc>,
    scrapeCounter: nat,
    clock: Clock)
  {
    /** o is the live record filed under its own start key. */
    ghost predicate Live(o: Ref) {
      LiveIn(instanceData, heap, o)
    }

    function Info(o: Ref): ProcessInfo
      requires o in heap
    {
      heap[o].info
    }

    function WithInfo(o: Ref, info: ProcessInfo): State<Ref>
      requires o in heap
    {
      this.(heap := heap[o := heap[o].(info := info)])
    }
  }

  predicate IsSystemName(name: string) {
    name == "System" || name == "MemCompression"
  }

  ghost predicate LiveIn<Ref>(instanceData: map<uint64, Ref>, heap: map<Ref, Proc>, o: Ref) {
    o in heap && heap[o].info.startKey in instanceData && instanceData[heap[o].info.startKey] == o
  }

  /**
   The invariant. Every live record is filed under its own start key; no record is pooled
   twice, nor pooled while live; every PID and TID leads to a live record; what is marked is
   still there; the two PID maps agree except for 0 placeholders.
   */
  ghost predicate Inv<Ref>(s: State<Ref>) {
    && s.clock.Valid()
    && FiledByKey(s.instanceData, s.heap)
    && s.terminatedProcesses.Keys <= s.instanceData.Keys
    && PoolIsFree(s.pool, s.instanceData, s.heap)
    && PidsAreLive(s.pidToCurrentProcessData, s.instanceData, s.heap)
    && TidsAreLive(s.tidToCurrentProcessData, s.instanceData, s.heap)
    && s.terminatedThreads.Keys <= s.tidToCurrentProcessData.Keys
    && PidMapsAgree(s.pidToCurrentStartKey, s.pidToCurrentProcessData, s.heap)
    && SystemUntagged(s.instanceData, s.heap)
  }

  /** Every reference in the maps leads to an allocated record: what the operations need to be defined at all. */
  ghost predicate Closed<Ref>(s: State<Ref>) {
    && s.clock.Valid()
    && (forall k | k in s.instanceData :: s.instanceData[k] in s.heap)
    && (forall p | p in s.pidToCurrentProcessData :: s.pidToCurrentProcessData[p] in s.heap)
    && (forall t | t in s.tidToCurrentProcessData :: s.tidToCurrentProcessData[t] in s.heap)
  }

  ghost predicate FiledByKey<Ref>(instanceData: map<uint64, Ref>, heap: map<Ref, Proc>) {
    forall k | k in instanceData :: instanceData[k] in heap && heap[instanceData[k]].info.startKey == k
  }

  ghost predicate PoolIsFree<Ref>(pool: multiset<Ref>, instanceData: map<uint64, Ref>, heap: map<Ref, Proc>) {
    forall o | o in pool :: pool[o] == 1 && o in heap && !LiveIn(instanceData, heap, o)
  }

  ghost predicate PidsAreLive<Ref>(pids: map<uint32, Ref>, instanceData: map<uint64, Ref>, heap: map<Ref, Proc>) {
    forall p | p in pids :: LiveIn(instanceData, heap, pids[p]) && heap[pids[p]].info.pid == p
  }

  ghost predicate TidsAreLive<Ref>(tids: map<uint32, Ref>, instanceData: map<uint64, Ref>, heap: map<Ref, Proc>) {
    forall t | t in tids :: LiveIn(instanceData, heap, tids[t])
  }

  /** Apart from 0 placeholders the two PID maps have the same PIDs and name the same instances. */
  ghost predicate PidMapsAgree<Ref>(keys: map<uint32, uint64>, pids: map<uint32, Ref>, heap: map<Ref, Proc>) {
    && (forall p | p in pids :: pids[p] in heap && p in keys && keys[p] == heap[pids[p]].info.startKey)
    && (forall p | p in keys && keys[p] != 0 :: p in pids)
  }

  predicate Untagged(info: ProcessInfo) {
    info.subProcessTag == 0 && info.serviceName == ""
  }

  /** The kernel's pseudo-processes never carry a service tag or a service name. */
  ghost predicate SystemUntagged<Ref>(instanceData: map<uint64, Ref>, heap: map<Ref, Proc>) {
    forall k | k in instanceData ::
      instanceData[k] in heap
        && (IsSystemName(heap[instanceData[k]].info.name) ==> Untagged(heap[instanceData[k]].info))
  }

  // ---- start ----

  function UnknownProcess(now: int): Proc {
    Proc(ProcessInfo(UNKNOWN_PID, UNKNOWN_PROCESS_START_KEY, "unknown_process", "", 0, ZERO_TIME, ZERO_TIME,
                     now + 100 * 365 * 24 * 3600 * 1_000_000_000, 0, 0, 0), NoCounters())
  }

  function Init<Ref>(unknown: Ref, now: int): State<Ref> {
    State(map[UNKNOWN_PROCESS_START_KEY := unknown], map[], map[], map[], map[], map[], map[],
          multiset{}, map[unknown := UnknownProcess(now)], 0, Started(now))
  }

  // ---- processes ----

  function NewProcess(pid: uint32, startKey: uint64, name: string, parentPid: uint32, sessionId: uint32, now: int)
    : Proc
  {
    var session := if sessionId == NO_SESSION || pid == SYSTEM_PROCESS_ID then 0 else sessionId;
    Proc(ProcessInfo(pid, startKey, name, "", 0, now, ZERO_TIME, now, parentPid, session, 0), NoCounters())
  }

  /** o may be handed out by the pool: it is pooled, or newly allocated. */
  predicate Available<Ref>(s: State<Ref>, o: Ref) {
    o in s.pool || o !in s.heap
  }

  /** Files a new instance in record o and makes it the current one of its PID. */
  function Insert<Ref>(s: State<Ref>, o: Ref, proc: Proc): State<Ref> {
    s.(heap := s.heap[o := proc],
       pool := s.pool - multiset{o},
       instanceData := s.instanceData[proc.info.startKey := o],
       pidToCurrentStartKey := s.pidToCurrentStartKey[proc.info.pid := proc.info.startKey],
       pidToCurrentProcessData := s.pidToCurrentProcessData[proc.info.pid := o])
  }

  function AddProcess<Ref>(s: State<Ref>, o: Ref, pid: uint32, startKey: uint64, name: string,
                           parentPid: uint32, sessionId: uint32, now: int): State<Ref>
    requires startKey in s.instanceData ==> s.instanceData[startKey] in s.heap
  {
    if startKey in s.instanceData then
      var known := s.instanceData[startKey];
      s.WithInfo(known, s.Info(known).(lastSeen := now))
    else
      Insert(s, o, NewProcess(pid, startKey, name, parentPid, sessionId, now))
  }

  /** The first termination time stays. */
  function TerminatedInfo(info: ProcessInfo, terminationTime: int): ProcessInfo {
    if info.terminationTime == ZERO_TIME then info.(terminationTime := terminationTime) else info
  }

  function MarkProcess<Ref>(s: State<Ref>, startKey: uint64, terminationTime: int): State<Ref>
    requires startKey in s.instanceData ==> s.instanceData[startKey] in s.heap
  {
    if startKey !in s.instanceData then s
    else
      var o := s.instanceData[startKey];
      s.WithInfo(o, TerminatedInfo(s.Info(o), terminationTime))
       .(terminatedProcesses := s.terminatedProcesses[startKey := s.scrapeCounter])
  }

  predicate IsFullPath(name: string) {
    '\\' in name
  }

  function EnrichedInfo(info: ProcessInfo, checksum: uint64, imageName: string): ProcessInfo {
    var hashed := if info.uniqueHash == 0 then info.(uniqueHash := checksum) else info;
    if IsFullPath(imageName) && !IsFullPath(info.name) then hashed.(name := imageName) else hashed
  }

  function Enrich<Ref>(s: State<Ref>, pid: uint32, checksum: uint64, imageName: string): State<Ref>
    requires forall k | k in s.instanceData :: s.instanceData[k] in s.heap
  {
    if pid in s.pidToCurrentStartKey && s.pidToCurrentStartKey[pid] in s.instanceData then
      var o := s.instanceData[s.pidToCurrentStartKey[pid]];
      s.WithInfo(o, EnrichedInfo(s.Info(o), checksum, imageName))
    else s
  }

  // ---- threads and services ----

  function ServiceInfo(info: ProcessInfo, tag: uint32, serviceTags: map<uint32, string>): ProcessInfo {
    if tag == 0 || IsSystemName(info.name) || info.serviceName != "" then info
    else
      var tagged := info.(subProcessTag := tag);
      if tag in serviceTags then tagged.(serviceName := serviceTags[tag]) else tagged
  }

  function ApplyService<Ref>(s: State<Ref>, o: Ref, tag: uint32): State<Ref>
    requires o in s.heap
  {
    s.WithInfo(o, ServiceInfo(s.Info(o), tag, s.serviceTags))
  }

  function RegisterServiceTag<Ref>(s: State<Ref>, tag: uint32, name: string): State<Ref> {
    if tag > 0 && name != "" then s.(serviceTags := s.serviceTags[tag := name]) else s
  }

  function AddThread<Ref>(s: State<Ref>, tid: uint32, pid: uint32, now: int, tag: uint32): State<Ref>
    requires forall p | p in s.pidToCurrentProcessData :: s.pidToCurrentProcessData[p] in s.heap
  {
    if pid in s.pidToCurrentProcessData && now > s.Info(s.pidToCurrentProcessData[pid]).createTime - MILLISECOND then
      var o := s.pidToCurrentProcessData[pid];
      ApplyService(s.(tidToCurrentProcessData := s.tidToCurrentProcessData[tid := o]), o, tag)
    else if UNKNOWN_PROCESS_START_KEY in s.instanceData then
      s.(tidToCurrentProcessData := s.tidToCurrentProcessData[tid := s.instanceData[UNKNOWN_PROCESS_START_KEY]])
    else s
  }

  function MarkThread<Ref>(s: State<Ref>, tid: uint32): State<Ref>
    requires tid in s.tidToCurrentProcessData ==> s.tidToCurrentProcessData[tid] in s.heap
  {
    if tid !in s.tidToCurrentProcessData then s
    else
      s.(terminatedThreads :=
           s.terminatedThreads[
             tid := TerminationRecord(s.scrapeCounter, s.Info(s.tidToCurrentProcessData[tid]).startKey)])
  }

  // ---- recording ----

  /** Where a handler finds the process an event belongs to. */
  datatype Source =
    | ByThreadOrUnknown(tid: uint32)
    | ByThread(tid: uint32)
    | ByPid(pid: uint32)
    | ByThreadPidOrSystem(tid: uint32, headerPid: uint32)
    | Unreadable

  function AtTid<Ref>(s: State<Ref>, tid: uint32): Option<Ref> {
    if tid in s.tidToCurrentProcessData then Some(s.tidToCurrentProcessData[tid]) else None
  }

  function AtPid<Ref>(s: State<Ref>, pid: uint32): Option<Ref> {
    if pid in s.pidToCurrentProcessData then Some(s.pidToCurrentProcessData[pid]) else None
  }

  function AtKey<Ref>(s: State<Ref>, startKey: uint64): Option<Ref> {
    if startKey in s.instanceData then Some(s.instanceData[startKey]) else None
  }

  predicate UsableId(id: uint32) {
    id != 0 && id != 0xFFFF_FFFF
  }

  function Target<Ref>(s: State<Ref>, src: Source): Option<Ref> {
    match src
    case ByThreadOrUnknown(tid) =>
      if AtTid(s, tid).Some? then AtTid(s, tid) else AtKey(s, UNKNOWN_PROCESS_START_KEY)
    case ByThread(tid) => AtTid(s, tid)
    case ByPid(pid) => AtPid(s, pid)
    case ByThreadPidOrSystem(tid, headerPid) =>
      if UsableId(tid) && AtTid(s, tid).Some? then AtTid(s, tid)
      else if UsableId(headerPid) && AtPid(s, headerPid).Some? then AtPid(s, headerPid)
      else AtPid(s, SYSTEM_PROCESS_ID)
    case Unreadable => None
  }

  function RecordSample<Ref>(s: State<Ref>, src: Source, e: Sample): State<Ref>
    requires Target(s, src).Some? ==> Target(s, src).value in s.heap
  {
    match Target(s, src)
    case None => s
    case Some(o) => s.(heap := s.heap[o := s.heap[o].(counters := Record(s.heap[o].counters, e))])
  }

  // ---- cleanup ----

  /** What cleaning one instance does to its PID's start key: an absent PID gets a 0 placeholder. */
  function CleanPidKey(pids: map<uint32, uint64>, pid: uint32, startKey: uint64): map<uint32, uint64> {
    if pid in pids then (if pids[pid] == startKey then pids - {pid} else pids)
    else pids[pid := 0]
  }

  function CleanPidKeys(pids: map<uint32, uint64>, pidOf: map<uint64, uint32>, order: seq<uint64>)
    : map<uint32, uint64>
  {
    if order == [] then pids
    else
      var k := order[|order| - 1];
      var before := CleanPidKeys(pids, pidOf, order[..|order| - 1]);
      if k in pidOf then CleanPidKey(before, pidOf[k], k) else before
  }

  function PidsOf<Ref>(s: State<Ref>): map<uint64, uint32> {
    map k | k in s.instanceData && s.instanceData[k] in s.heap :: s.heap[s.instanceData[k]].info.pid
  }

  ghost function RefsOf<Ref>(s: State<Ref>, keys: set<uint64>): set<Ref> {
    set k | k in keys && k in s.instanceData :: s.instanceData[k]
  }

  function PidsWithout<Ref>(s: State<Ref>, clean: set<uint64>): map<uint32, Ref>
    requires forall p | p in s.pidToCurrentProcessData :: s.pidToCurrentProcessData[p] in s.heap
  {
    map p | p in s.pidToCurrentProcessData && s.Info(s.pidToCurrentProcessData[p]).startKey !in clean
      :: s.pidToCurrentProcessData[p]
  }

  /** The process pass of a cleanup: the instances in `clean`, walked in the given order, are recycled. */
  ghost function CleanProcesses<Ref>(s: State<Ref>, clean: set<uint64>, order: seq<uint64>): State<Ref>
    requires forall p | p in s.pidToCurrentProcessData :: s.pidToCurrentProcessData[p] in s.heap
  {
    s.(instanceData := s.instanceData - clean,
       pidToCurrentStartKey := CleanPidKeys(s.pidToCurrentStartKey, PidsOf(s), order),
       pidToCurrentProcessData := PidsWithout(s, clean),
       pool := s.pool + multiset(RefsOf(s, clean)))
  }

  function TidsOf<Ref>(s: State<Ref>, clean: set<uint64>): set<uint32>
    requires forall t | t in s.tidToCurrentProcessData :: s.tidToCurrentProcessData[t] in s.heap
  {
    set t | t in s.tidToCurrentProcessData && s.Info(s.tidToCurrentProcessData[t]).startKey in clean
  }

  /** The thread pass for cleaned processes: their TIDs go, together with their termination records. */
  function CleanThreadsOf<Ref>(s: State<Ref>, clean: set<uint64>): State<Ref>
    requires forall t | t in s.tidToCurrentProcessData :: s.tidToCurrentProcessData[t] in s.heap
  {
    s.(tidToCurrentProcessData := s.tidToCurrentProcessData - TidsOf(s, clean),
       terminatedThreads := s.terminatedThreads - TidsOf(s, clean))
  }

  /** A TID's record has expired and still names the process the TID leads to. */
  predicate ExpiredThread<Ref>(s: State<Ref>, t: uint32, threshold: nat)
    requires t in s.tidToCurrentProcessData ==> s.tidToCurrentProcessData[t] in s.heap
  {
    && t in s.terminatedThreads && s.terminatedThreads[t].generation < threshold
    && t in s.tidToCurrentProcessData
    && s.Info(s.tidToCurrentProcessData[t]).startKey == s.terminatedThreads[t].startKey
  }

  function UnexpiredTids<Ref>(s: State<Ref>, threshold: nat): map<uint32, Ref>
    requires forall t | t in s.tidToCurrentProcessData :: s.tidToCurrentProcessData[t] in s.heap
  {
    map t | t in s.tidToCurrentProcessData && !ExpiredThread(s, t, threshold) :: s.tidToCurrentProcessData[t]
  }

  function UnexpiredRecords(records: map<uint32, TerminationRecord>, threshold: nat): map<uint32, TerminationRecord> {
    map t | t in records && records[t].generation >= threshold :: records[t]
  }

  /** The pass over individually terminated threads. */
  function CleanThreads<Ref>(s: State<Ref>, threshold: nat): State<Ref>
    requires forall t | t in s.tidToCurrentProcessData :: s.tidToCurrentProcessData[t] in s.heap
  {
    s.(tidToCurrentProcessData := UnexpiredTids(s, threshold),
       terminatedThreads := UnexpiredRecords(s.terminatedThreads, threshold))
  }

  /** One whole cleanup at a given threshold. */
  ghost function CleanupAt<Ref>(s: State<Ref>, threshold: nat, order: seq<uint64>): State<Ref>
    requires forall p | p in s.pidToCurrentProcessData :: s.pidToCurrentProcessData[p] in s.heap
    requires forall t | t in s.tidToCurrentProcessData :: s.tidToCurrentProcessData[t] in s.heap
  {
    var clean := Expired(s.terminatedProcesses, threshold);
    var listed := s.(terminatedProcesses := s.terminatedProcesses - clean);
    var processes := if clean == {} then listed else CleanProcesses(CleanThreadsOf(listed, clean), clean, order);
    CleanThreads(processes, threshold)
  }

  ghost function Tick<Ref>(s: State<Ref>, now: int): State<Ref>
    requires s.clock.Valid()
  {
    s.(scrapeCounter := s.scrapeCounter + 1, clock := Advance(s.clock, now))
  }

  ghost function NextThreshold<Ref>(s: State<Ref>, now: int): nat
    requires s.clock.Valid()
  {
    ThresholdAt(s.clock, s.scrapeCounter + 1, now).1
  }

  ghost function Cleanup<Ref>(s: State<Ref>, now: int, order: seq<uint64>): State<Ref>
    requires s.clock.Valid()
    requires forall p | p in s.pidToCurrentProcessData :: s.pidToCurrentProcessData[p] in s.heap
    requires forall t | t in s.tidToCurrentProcessData :: s.tidToCurrentProcessData[t] in s.heap
  {
    CleanupAt(Tick(s, now), NextThreshold(s, now), order)
  }

  // ---- the service lookups of an aggregation pass ----

  type Lookup = (uint32, uint32) -> Option<string>

  predicate NeedsLookup(info: ProcessInfo, attempted: set<uint32>) {
    info.subProcessTag > 0 && info.serviceName == "" && info.subProcessTag !in attempted
  }

  /** Caches the answer for the process's tag and names the process's service. */
  function NameService<Ref>(s: State<Ref>, o: Ref, serviceName: string): State<Ref>
    requires o in s.heap
  {
    RegisterServiceTag(s, s.Info(o).subProcessTag, serviceName).WithInfo(o, s.Info(o).(serviceName := serviceName))
  }

  /** One visited process: an unresolved tag is looked up once per pass and the answer cached. */
  function Resolve<Ref>(s: State<Ref>, o: Ref, attempted: set<uint32>, lookup: Lookup): (r: (State<Ref>, set<uint32>))
    requires o in s.heap
  {
    var info := s.Info(o);
    if !NeedsLookup(info, attempted) then (s, attempted)
    else
      var seen := attempted + {info.subProcessTag};
      match lookup(info.pid, info.subProcessTag)
      case None => (s, seen)
      case Some(name) => (NameService(s, o, name), seen)
  }

  /** The pass over the instances in the given order. */
  ghost function ResolveAll<Ref>(s: State<Ref>, order: seq<uint64>, lookup: Lookup): (r: (State<Ref>, set<uint32>))
    ensures r.0.instanceData == s.instanceData && r.0.heap.Keys == s.heap.Keys
  {
    if order == [] then (s, {})
    else
      var before := ResolveAll(s, order[..|order| - 1], lookup);
      var k := order[|order| - 1];
      if k in s.instanceData && s.instanceData[k] in s.heap
      then Resolve(before.0, s.instanceData[k], before.1, lookup)
      else before
  }
}
