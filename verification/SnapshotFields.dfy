/** What a snapshot shows, field by field: which programs it has, and what their counters add up. */
module SnapshotFields {
  import opened Words
  import opened Sums
  import opened Lifecycle
  import opened Conservation
  import opened Identity
  import opened Aggregation

  /** The instances with exactly this name, service name, checksum and session. */
  ghost function Members<Ref>(keys: set<uint64>, instanceData: map<uint64, Ref>, heap: map<Ref, Proc>,
                              name: string, serviceName: string, uniqueHash: uint64, sessionId: uint32): set<uint64>
  {
    set k | && k in keys && k in instanceData && instanceData[k] in heap
            && heap[instanceData[k]].info.name == name && heap[instanceData[k]].info.serviceName == serviceName
            && heap[instanceData[k]].info.uniqueHash == uniqueHash && heap[instanceData[k]].info.sessionId == sessionId
  }

  /**
   There is an entry for a name, a service name, a checksum and a session if and only if some
   instance has exactly these four; and each counter of the entry is the sum over exactly the
   instances that have them.
   */
  ghost predicate ShowsPrograms<Ref>(result: map<ProgramKey, ProgramMetrics>, keys: set<uint64>,
                                     instanceData: map<uint64, Ref>, heap: map<Ref, Proc>)
  {
    forall name, serviceName, uniqueHash, sessionId ::
      var program := ProgramKey(name, serviceName, uniqueHash, sessionId);
      var members := Members(keys, instanceData, heap, name, serviceName, uniqueHash, sessionId);
      && (program in result <==> members != {})
      && (program in result ==>
            forall m :: AggregateCount(result[program], m) == Sum(members, HeldBy(instanceData, heap, m)))
  }

  lemma GroupIsMembers<Ref>(keys: set<uint64>, instanceData: map<uint64, Ref>, heap: map<Ref, Proc>,
                            name: string, serviceName: string, uniqueHash: uint64, sessionId: uint32)
    requires forall k | k in keys :: k in instanceData && instanceData[k] in heap
    ensures Group(keys, GroupKey(instanceData, heap), ProgramKey(name, serviceName, uniqueHash, sessionId))
            == Members(keys, instanceData, heap, name, serviceName, uniqueHash, sessionId)
  {
  }

  lemma GroupedByFields<Ref>(result: map<ProgramKey, ProgramMetrics>, keys: set<uint64>,
                             instanceData: map<uint64, Ref>, heap: map<Ref, Proc>)
    requires IsGroupedSum(result, keys, instanceData, heap)
    requires forall k | k in keys :: k in instanceData && instanceData[k] in heap
    ensures ShowsPrograms(result, keys, instanceData, heap)
  {
    hide Sum, AggregateCount, HeldBy, GroupKey, Members;
    var key := GroupKey(instanceData, heap);
    forall name, serviceName, uniqueHash, sessionId
      ensures var program := ProgramKey(name, serviceName, uniqueHash, sessionId);
              var members := Members(keys, instanceData, heap, name, serviceName, uniqueHash, sessionId);
              && (program in result <==> members != {})
              && (program in result ==>
                    forall m :: AggregateCount(result[program], m) == Sum(members, HeldBy(instanceData, heap, m)))
    {
      var program := ProgramKey(name, serviceName, uniqueHash, sessionId);
      GroupIsMembers(keys, instanceData, heap, name, serviceName, uniqueHash, sessionId);
      assert program in Groups(keys, key) <==> Group(keys, key, program) != {} by {
        InSomeGroup(keys, key, program);
      }
    }
  }

  lemma InSomeGroup<K, G>(keys: set<K>, groupOf: K -> G, g: G)
    ensures g in Groups(keys, groupOf) <==> Group(keys, groupOf, g) != {}
  {
    if k :| k in keys && groupOf(k) == g {
      assert k in Group(keys, groupOf, g);
    }
  }

  /** Instances of one program in different sessions have an entry each, and neither counts for the other. */
  lemma SessionsStayApart<Ref>(result: map<ProgramKey, ProgramMetrics>, keys: set<uint64>,
                               instanceData: map<uint64, Ref>, heap: map<Ref, Proc>, j: uint64, k: uint64)
    requires ShowsPrograms(result, keys, instanceData, heap) && j in keys && k in keys
    requires j in instanceData && instanceData[j] in heap && k in instanceData && instanceData[k] in heap
    requires heap[instanceData[j]].info.sessionId != heap[instanceData[k]].info.sessionId
    ensures var a, b := heap[instanceData[j]].info, heap[instanceData[k]].info;
            var members := Members(keys, instanceData, heap, a.name, a.serviceName, a.uniqueHash, a.sessionId);
            && ProgramKey(a.name, a.serviceName, a.uniqueHash, a.sessionId) in result
            && ProgramKey(b.name, b.serviceName, b.uniqueHash, b.sessionId) in result
            && j in members && k !in members
  {
    hide Sum, AggregateCount, HeldBy;
    var a, b := heap[instanceData[j]].info, heap[instanceData[k]].info;
    assert j in Members(keys, instanceData, heap, a.name, a.serviceName, a.uniqueHash, a.sessionId);
    assert k in Members(keys, instanceData, heap, b.name, b.serviceName, b.uniqueHash, b.sessionId);
  }
}
