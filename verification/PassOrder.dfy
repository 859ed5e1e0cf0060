/**
 What the order of an aggregation pass can change. The pass names services on
 the way, one lookup for each tag; which of several processes with the same
 unresolved tag gets the name depends on which of them is visited first.
 */
module PassOrder {
  import opened Words
  import opened Sums
  import opened Counters
  import opened Lifecycle
  import opened LifecycleRuns
  import opened Conservation
  import opened Identity
  import opened Aggregation

  /** The process has a service tag and no service name yet. */
  predicate Unresolved(info: ProcessInfo) {
    info.subProcessTag > 0 && info.serviceName == ""
  }

  /** A lookup for this process would find a name. */
  predicate Yields(lookup: Lookup, info: ProcessInfo) {
    lookup(info.pid, info.subProcessTag).Some? && lookup(info.pid, info.subProcessTag).value != ""
  }

  /** Two live instances wait for the same tag, and the lookup for the first of them finds a name. */
  ghost predicate Rivals<Ref>(s: State<Ref>, lookup: Lookup, j: uint64, k: uint64) {
    && j in s.instanceData && k in s.instanceData && j != k
    && s.instanceData[j] in s.heap && s.instanceData[k] in s.heap
    && Unresolved(s.Info(s.instanceData[j])) && Unresolved(s.Info(s.instanceData[k]))
    && s.Info(s.instanceData[j]).subProcessTag == s.Info(s.instanceData[k]).subProcessTag
    && Yields(lookup, s.Info(s.instanceData[j]))
  }

  ghost predicate Contested<Ref>(s: State<Ref>, lookup: Lookup) {
    exists j, k :: Rivals(s, lookup, j, k)
  }

  predicate NoRepeats(order: seq<uint64>) {
    forall i, j | 0 <= i < j < |order| :: order[i] != order[j]
  }

  // ---- without rivals every order gives the same state ----

  /** The information of a process whose own lookup has been made. */
  function LookedUp(info: ProcessInfo, lookup: Lookup): ProcessInfo {
    if Unresolved(info) && Yields(lookup, info)
    then info.(serviceName := lookup(info.pid, info.subProcessTag).value) else info
  }

  /** What record o holds once the instances of `order` have been visited. */
  ghost function Passed<Ref>(s: State<Ref>, order: seq<uint64>, lookup: Lookup, o: Ref): Proc
    requires o in s.heap
  {
    if s.Live(o) && s.Info(o).startKey in order then s.heap[o].(info := LookedUp(s.Info(o), lookup)) else s.heap[o]
  }

  /** One of the visited instances waits for tag t. */
  ghost predicate TagVisited<Ref>(s: State<Ref>, order: seq<uint64>, t: uint32)
    requires Closed(s)
  {
    exists k | k in order && k in s.instanceData ::
      Unresolved(s.Info(s.instanceData[k])) && s.Info(s.instanceData[k]).subProcessTag == t
  }

  /** The instance k waits for a tag and its lookup finds a name. */
  ghost predicate Names<Ref>(s: State<Ref>, lookup: Lookup, k: uint64)
    requires Closed(s)
  {
    k in s.instanceData && Unresolved(s.Info(s.instanceData[k])) && Yields(lookup, s.Info(s.instanceData[k]))
  }

  /** The instance k finds the name for tag t. */
  ghost predicate NamesTag<Ref>(s: State<Ref>, lookup: Lookup, k: uint64, t: uint32)
    requires Closed(s)
  {
    Names(s, lookup, k) && s.Info(s.instanceData[k]).subProcessTag == t
  }

  /** What the visited instances have put into the cache, and nothing else. */
  ghost predicate CacheIs<Ref>(s: State<Ref>, order: seq<uint64>, lookup: Lookup, tags: map<uint32, string>)
    requires Closed(s)
  {
    && (forall k | k in order && Names(s, lookup, k) ::
          var info := s.Info(s.instanceData[k]);
          info.subProcessTag in tags && tags[info.subProcessTag] == lookup(info.pid, info.subProcessTag).value)
    && (forall t | (forall k | k in order :: !NamesTag(s, lookup, k, t)) ::
          (t in tags <==> t in s.serviceTags) && (t in tags ==> tags[t] == s.serviceTags[t]))
  }

  ghost predicate HeapIs<Ref>(s: State<Ref>, order: seq<uint64>, lookup: Lookup, heap: map<Ref, Proc>) {
    heap.Keys == s.heap.Keys && forall o | o in s.heap :: heap[o] == Passed(s, order, lookup, o)
  }

  ghost predicate TriedIs<Ref>(s: State<Ref>, order: seq<uint64>, attempted: set<uint32>)
    requires Closed(s)
  {
    forall t :: t in attempted <==> TagVisited(s, order, t)
  }

  /** What a visit makes of the record itself. */
  lemma VisitedRecord<Ref>(s: State<Ref>, o: Ref, attempted: set<uint32>, lookup: Lookup)
    requires o in s.heap
    ensures var after := Resolve(s, o, attempted, lookup).0;
            && after.heap.Keys == s.heap.Keys
            && after.heap[o] == if s.Info(o).subProcessTag in attempted then s.heap[o]
                                else s.heap[o].(info := LookedUp(s.Info(o), lookup))
  {
  }

  /** Without rivals a tag already tried is one whose lookup finds nothing. */
  lemma TriedInVain<Ref>(s: State<Ref>, order: seq<uint64>, k: uint64, lookup: Lookup, attempted: set<uint32>)
    requires Closed(s) && !Contested(s, lookup) && k in s.instanceData && k !in order && TriedIs(s, order, attempted)
    requires Unresolved(s.Info(s.instanceData[k])) && s.Info(s.instanceData[k]).subProcessTag in attempted
    ensures !Yields(lookup, s.Info(s.instanceData[k]))
  {
    var tag := s.Info(s.instanceData[k]).subProcessTag;
    assert TagVisited(s, order, tag);
    var j :| j in order && j in s.instanceData && Unresolved(s.Info(s.instanceData[j]))
             && s.Info(s.instanceData[j]).subProcessTag == tag;
    assert !Rivals(s, lookup, k, j);
  }

  /** One visit more, without rivals: the record holds what its own lookup makes of it. */
  lemma VisitHeap<Ref>(s: State<Ref>, order: seq<uint64>, k: uint64, lookup: Lookup, before: State<Ref>,
                       attempted: set<uint32>)
    requires Inv(s) && Closed(s) && !Contested(s, lookup) && k in s.instanceData && k !in order
    requires HeapIs(s, order, lookup, before.heap) && TriedIs(s, order, attempted)
    ensures s.instanceData[k] in before.heap
    ensures HeapIs(s, order + [k], lookup, Resolve(before, s.instanceData[k], attempted, lookup).0.heap)
  {
    hide Inv, Closed, Contested, TriedIs, Resolve, Yields, Unresolved;
    var o := s.instanceData[k];
    FiledIsLive(s, k);
    assert before.heap[o] == s.heap[o];
    VisitedRecord(before, o, attempted, lookup);
    ResolveFrame(before, o, attempted, lookup);
    if Unresolved(s.Info(o)) && s.Info(o).subProcessTag in attempted {
      TriedInVain(s, order, k, lookup, attempted);
    }
    forall r | r in s.heap && r != o
      ensures Passed(s, order + [k], lookup, r) == Passed(s, order, lookup, r)
    {
      assert s.Live(r) ==> s.Info(r).startKey != k;
    }
  }

  lemma VisitTried<Ref>(s: State<Ref>, order: seq<uint64>, k: uint64, lookup: Lookup, before: State<Ref>,
                        attempted: set<uint32>)
    requires Closed(s) && k in s.instanceData && s.instanceData[k] in before.heap
    requires before.heap[s.instanceData[k]] == s.heap[s.instanceData[k]] && TriedIs(s, order, attempted)
    ensures TriedIs(s, order + [k], Resolve(before, s.instanceData[k], attempted, lookup).1)
  {
    var info := s.Info(s.instanceData[k]);
    var after := Resolve(before, s.instanceData[k], attempted, lookup).1;
    assert after == if Unresolved(info) then attempted + {info.subProcessTag} else attempted;
    forall t
      ensures t in after <==> TagVisited(s, order + [k], t)
    {
      assert TagVisited(s, order, t) ==> TagVisited(s, order + [k], t);
      assert k in order + [k];
    }
  }

  /** What a visit puts into the cache. */
  lemma VisitedTags<Ref>(s: State<Ref>, o: Ref, attempted: set<uint32>, lookup: Lookup)
    requires o in s.heap
    ensures var info := s.Info(o);
            Resolve(s, o, attempted, lookup).0.serviceTags
            == if Unresolved(info) && Yields(lookup, info) && info.subProcessTag !in attempted
               then s.serviceTags[info.subProcessTag := lookup(info.pid, info.subProcessTag).value] else s.serviceTags
  {
    hide NameService;
    var info := s.Info(o);
    if Unresolved(info) && info.subProcessTag !in attempted {
      match lookup(info.pid, info.subProcessTag)
      case None =>
      case Some(name) => NamedTags(s, o, name);
    }
  }

  lemma NamedTags<Ref>(s: State<Ref>, o: Ref, serviceName: string)
    requires o in s.heap && s.Info(o).subProcessTag > 0
    ensures NameService(s, o, serviceName).serviceTags
            == if serviceName != "" then s.serviceTags[s.Info(o).subProcessTag := serviceName] else s.serviceTags
  {
  }

  lemma VisitCache<Ref>(s: State<Ref>, order: seq<uint64>, k: uint64, lookup: Lookup, before: State<Ref>,
                        attempted: set<uint32>)
    requires Closed(s) && !Contested(s, lookup) && k in s.instanceData && k !in order
    requires s.instanceData[k] in before.heap && before.heap[s.instanceData[k]] == s.heap[s.instanceData[k]]
    requires TriedIs(s, order, attempted) && CacheIs(s, order, lookup, before.serviceTags)
    ensures CacheIs(s, order + [k], lookup, Resolve(before, s.instanceData[k], attempted, lookup).0.serviceTags)
  {
    hide Resolve, TriedIs, Unresolved, Yields;
    var info := s.Info(s.instanceData[k]);
    var after := Resolve(before, s.instanceData[k], attempted, lookup).0.serviceTags;
    VisitedTags(before, s.instanceData[k], attempted, lookup);
    if Unresolved(info) && info.subProcessTag in attempted {
      TriedInVain(s, order, k, lookup, attempted);
    }
    if Names(s, lookup, k) {
      forall j | j in order && Names(s, lookup, j)
        ensures s.Info(s.instanceData[j]).subProcessTag != info.subProcessTag
      {
        assert !Rivals(s, lookup, j, k);
      }
    }
    forall t | forall j | j in order + [k] :: !NamesTag(s, lookup, j, t)
      ensures (t in after <==> t in s.serviceTags) && (t in after ==> after[t] == s.serviceTags[t])
    {
      assert k in order + [k] && forall j | j in order :: j in order + [k];
      assert !NamesTag(s, lookup, k, t);
    }
  }

  /** Without rivals the pass is what the single lookups make of the records, whatever the order. */
  lemma {:induction false} PassWithoutRivals<Ref>(s: State<Ref>, order: seq<uint64>, lookup: Lookup)
    requires Inv(s) && Closed(s) && !Contested(s, lookup) && NoRepeats(order)
    requires forall k | k in order :: k in s.instanceData
    ensures var r := ResolveAll(s, order, lookup);
            && r.0 == s.(heap := r.0.heap, serviceTags := r.0.serviceTags)
            && HeapIs(s, order, lookup, r.0.heap) && TriedIs(s, order, r.1)
            && CacheIs(s, order, lookup, r.0.serviceTags)
  {
    hide Inv, Closed, Contested, HeapIs, TriedIs, CacheIs, Resolve;
    if order == [] {
      NothingPassed(s, lookup);
    } else {
      var rest, k := order[..|order| - 1], order[|order| - 1];
      assert order == rest + [k] && k !in rest;
      assert forall j | j in rest :: j in order;
      PassWithoutRivals(s, rest, lookup);
      var before := ResolveAll(s, rest, lookup);
      UnvisitedRecord(s, rest, k, lookup, before.0.heap);
      VisitHeap(s, rest, k, lookup, before.0, before.1);
      VisitTried(s, rest, k, lookup, before.0, before.1);
      VisitCache(s, rest, k, lookup, before.0, before.1);
      ResolveFrame(before.0, s.instanceData[k], before.1, lookup);
    }
  }

  lemma NothingPassed<Ref>(s: State<Ref>, lookup: Lookup)
    requires Closed(s)
    ensures HeapIs(s, [], lookup, s.heap) && TriedIs(s, [], {}) && CacheIs(s, [], lookup, s.serviceTags)
  {
  }

  lemma UnvisitedRecord<Ref>(s: State<Ref>, order: seq<uint64>, k: uint64, lookup: Lookup, heap: map<Ref, Proc>)
    requires Inv(s) && k in s.instanceData && k !in order && HeapIs(s, order, lookup, heap)
    ensures s.instanceData[k] in heap && s.instanceData[k] in s.heap
            && heap[s.instanceData[k]] == s.heap[s.instanceData[k]]
  {
  }

  /** Two orders of the same instances, no rivals: the same state. */
  lemma OrderIrrelevant<Ref>(s: State<Ref>, lookup: Lookup, a: seq<uint64>, b: seq<uint64>)
    requires Inv(s) && Closed(s) && !Contested(s, lookup)
    requires IsOrderOf(a, s.instanceData.Keys) && IsOrderOf(b, s.instanceData.Keys)
    ensures ResolveAll(s, a, lookup).0 == ResolveAll(s, b, lookup).0
  {
    hide Inv, Contested, ResolveAll;
    PassWithoutRivals(s, a, lookup);
    PassWithoutRivals(s, b, lookup);
    assert forall k :: k in a <==> k in b;
    var x, y := ResolveAll(s, a, lookup).0, ResolveAll(s, b, lookup).0;
    assert x.heap == y.heap;
    SameCache(s, a, b, lookup, x.serviceTags, y.serviceTags);
  }

  lemma SameCache<Ref>(s: State<Ref>, a: seq<uint64>, b: seq<uint64>, lookup: Lookup, x: map<uint32, string>,
                       y: map<uint32, string>)
    requires Closed(s) && (forall k :: k in a <==> k in b) && CacheIs(s, a, lookup, x) && CacheIs(s, b, lookup, y)
    ensures x == y
  {
    forall t
      ensures (t in x <==> t in y) && (t in x ==> x[t] == y[t])
    {
      if k :| k in a && NamesTag(s, lookup, k, t) {
        assert k in b;
      } else {
        assert forall k | k in b :: !NamesTag(s, lookup, k, t);
      }
    }
  }

  // ---- with rivals the first one visited is the one that is named ----

  /** A visit to one instance leaves the record of another alone. */
  lemma OthersStay<Ref>(s: State<Ref>, k: uint64, j: uint64, before: State<Ref>, attempted: set<uint32>, lookup: Lookup)
    requires Inv(s) && k in s.instanceData && j in s.instanceData && j != k && before.heap.Keys == s.heap.Keys
    ensures s.instanceData[k] in s.heap && s.instanceData[j] in s.heap
    ensures Resolve(before, s.instanceData[k], attempted, lookup).0.heap[s.instanceData[j]]
            == before.heap[s.instanceData[j]]
  {
    hide Resolve;
    ResolveFrame(before, s.instanceData[k], attempted, lookup);
  }

  /** Whoever is visited first gets the name its lookup finds, and keeps it. */
  lemma {:induction false} FirstNamed<Ref>(s: State<Ref>, order: seq<uint64>, lookup: Lookup, j: uint64)
    requires Inv(s) && Closed(s) && NoRepeats(order) && order != [] && order[0] == j && j in s.instanceData
    ensures var o := s.instanceData[j];
            ResolveAll(s, order, lookup).0.heap[o] == s.heap[o].(info := LookedUp(s.Info(o), lookup))
  {
    hide Inv, Resolve, LookedUp;
    var rest, k := order[..|order| - 1], order[|order| - 1];
    var before := ResolveAll(s, rest, lookup);
    if rest == [] {
      VisitedRecord(s, s.instanceData[j], {}, lookup);
    } else {
      FirstNamed(s, rest, lookup, j);
      if k in s.instanceData {
        OthersStay(s, k, j, before.0, before.1, lookup);
      }
    }
  }

  /** What one visit adds to the tags tried. */
  lemma VisitTries<Ref>(s: State<Ref>, o: Ref, attempted: set<uint32>, lookup: Lookup)
    requires o in s.heap
    ensures Resolve(s, o, attempted, lookup).1
            == if Unresolved(s.Info(o)) then attempted + {s.Info(o).subProcessTag} else attempted
  {
  }

  /** Once a tag has been tried, an instance that waits for it is passed over. */
  lemma {:induction false} LaterUnnamed<Ref>(s: State<Ref>, order: seq<uint64>, lookup: Lookup, k: uint64, j: uint64)
    requires Inv(s) && Closed(s) && order != [] && order[0] == k && k != j
    requires j in s.instanceData && k in s.instanceData
    requires Unresolved(s.Info(s.instanceData[j])) && Unresolved(s.Info(s.instanceData[k]))
    requires s.Info(s.instanceData[j]).subProcessTag == s.Info(s.instanceData[k]).subProcessTag
    ensures var r := ResolveAll(s, order, lookup);
            && s.Info(s.instanceData[k]).subProcessTag in r.1
            && r.0.heap[s.instanceData[j]] == s.heap[s.instanceData[j]]
  {
    hide Inv, Resolve, Unresolved;
    var rest, last := order[..|order| - 1], order[|order| - 1];
    var before := ResolveAll(s, rest, lookup);
    if rest == [] {
      VisitTries(s, s.instanceData[k], {}, lookup);
      OthersStay(s, k, j, s, {}, lookup);
    } else {
      LaterUnnamed(s, rest, lookup, k, j);
      if last in s.instanceData {
        VisitTries(before.0, s.instanceData[last], before.1, lookup);
        if last == j {
          VisitedRecord(before.0, s.instanceData[j], before.1, lookup);
        } else {
          OthersStay(s, last, j, before.0, before.1, lookup);
        }
      }
    }
  }

  lemma {:induction false} SomeOrder(keys: set<uint64>) returns (order: seq<uint64>)
    ensures IsOrderOf(order, keys)
  {
    order := [];
    if keys != {} {
      var k :| k in keys;
      var rest := SomeOrder(keys - {k});
      order := rest + [k];
    }
  }

  /** The walk may begin with any of the instances. */
  lemma OrderFrom(keys: set<uint64>, k: uint64) returns (order: seq<uint64>)
    requires k in keys
    ensures IsOrderOf(order, keys) && order != [] && order[0] == k
  {
    var rest := SomeOrder(keys - {k});
    order := [k] + rest;
  }

  /** Two rivals, two walks: the instance j is named by the one and not by the other. */
  lemma RivalsDisagree<Ref>(s: State<Ref>, lookup: Lookup, j: uint64, k: uint64)
    returns (a: seq<uint64>, b: seq<uint64>)
    requires Inv(s) && Closed(s) && Rivals(s, lookup, j, k)
    ensures IsOrderOf(a, s.instanceData.Keys) && IsOrderOf(b, s.instanceData.Keys)
    ensures ResolveAll(s, a, lookup).0.Info(s.instanceData[j]).serviceName != ""
    ensures ResolveAll(s, b, lookup).0.Info(s.instanceData[j]).serviceName == ""
  {
    hide Inv, Closed, ResolveAll;
    a := OrderFrom(s.instanceData.Keys, j);
    b := OrderFrom(s.instanceData.Keys, k);
    FirstNamed(s, a, lookup, j);
    LaterUnnamed(s, b, lookup, k, j);
  }

  /**
   The pass leaves the same state in whatever order it walks if and only if no two live processes
   without a service name wait for the same tag, of which a lookup finds the name.
   */
  lemma OrderIrrelevantExactly<Ref>(s: State<Ref>, lookup: Lookup)
    requires Inv(s) && Closed(s)
    ensures (forall a, b | IsOrderOf(a, s.instanceData.Keys) && IsOrderOf(b, s.instanceData.Keys) ::
               ResolveAll(s, a, lookup).0 == ResolveAll(s, b, lookup).0)
            <==> !Contested(s, lookup)
  {
    hide Inv, Closed, ResolveAll, IsOrderOf, Rivals;
    if Contested(s, lookup) {
      var j, k :| Rivals(s, lookup, j, k);
      var a, b := RivalsDisagree(s, lookup, j, k);
    } else {
      forall a, b | IsOrderOf(a, s.instanceData.Keys) && IsOrderOf(b, s.instanceData.Keys)
        ensures ResolveAll(s, a, lookup).0 == ResolveAll(s, b, lookup).0
      {
        OrderIrrelevant(s, lookup, a, b);
      }
    }
  }

  // ---- what that means for the snapshot ----

  /** Two snapshots of one state, taken by walks in any two orders, agree on every program and every counter. */
  lemma SnapshotsAgree<Ref>(s: State<Ref>, lookup: Lookup, a: seq<uint64>, b: seq<uint64>,
                            x: map<ProgramKey, ProgramMetrics>, y: map<ProgramKey, ProgramMetrics>)
    requires Inv(s) && Closed(s) && !Contested(s, lookup)
    requires IsOrderOf(a, s.instanceData.Keys) && IsOrderOf(b, s.instanceData.Keys)
    requires IsGroupedSum(x, s.instanceData.Keys, s.instanceData, ResolveAll(s, a, lookup).0.heap)
    requires IsGroupedSum(y, s.instanceData.Keys, s.instanceData, ResolveAll(s, b, lookup).0.heap)
    ensures x.Keys == y.Keys && forall g, m | g in x :: AggregateCount(x[g], m) == AggregateCount(y[g], m)
  {
    hide Inv, Closed, Contested, ResolveAll, IsOrderOf, IsGroupedSum, AggregateCount;
    OrderIrrelevant(s, lookup, a, b);
    GroupedSumUnique(x, y, s.instanceData.Keys, s.instanceData, ResolveAll(s, a, lookup).0.heap);
  }

  ghost function ProgramTotal(result: map<ProgramKey, ProgramMetrics>, m: Metric): int {
    Sum(result.Keys, (g: ProgramKey) => if g in result then AggregateCount(result[g], m) else 0)
  }

  /** Contested or not, the order never changes the total over all programs: it is what the live instances hold. */
  lemma TotalsAgree<Ref>(s: State<Ref>, lookup: Lookup, a: seq<uint64>, x: map<ProgramKey, ProgramMetrics>, m: Metric)
    requires Inv(s)
    requires IsGroupedSum(x, s.instanceData.Keys, s.instanceData, ResolveAll(s, a, lookup).0.heap)
    ensures ProgramTotal(x, m) == LiveTotal(s, m)
  {
    hide Inv, IsGroupedSum, AggregateCount, ResolveAll, LiveSum, Sum;
    ResolveAllLiveTotal(s, a, lookup, m);
    GrandTotal(x, s.instanceData, ResolveAll(s, a, lookup).0.heap, m);
  }
}
