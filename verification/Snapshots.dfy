/**
 The double-buffered result maps of aggregation: the live snapshot that the
 collectors read, and the pool of cleared maps that the next pass fills.
 */
module Snapshots {
  import opened Words
  import opened Aggregation
  import opened Identity

  type Results = map<ProgramKey, ProgramMetrics>

  class ResultMap {
    var entries: Results

    constructor ()
      ensures entries == map[]
    {
      entries := map[];
    }
  }

  class SnapshotStore {
    var aggregatedData: ResultMap?
    var aggregationDataPool: multiset<ResultMap>
    ghost var resultMaps: set<ResultMap>

    /** Pooled maps are empty, pooled once, and never the live one. */
    ghost predicate Valid()
      reads this, resultMaps
    {
      && (forall m | m in aggregationDataPool ::
            m in resultMaps && m.entries == map[] && aggregationDataPool[m] == 1 && m != aggregatedData)
      && (aggregatedData != null ==> aggregatedData in resultMaps)
    }

    /** m is being filled: neither live nor pooled. */
    ghost predicate CheckedOut(m: ResultMap)
      reads this
    {
      m in resultMaps && m !in aggregationDataPool && m != aggregatedData
    }

    /** What the collectors read. */
    ghost function Live(): Results
      reads this, resultMaps
      requires Valid()
    {
      if aggregatedData == null then map[] else aggregatedData.entries
    }

    /** Filling a checked-out map disturbs neither the live map nor the pool. */
    twostate lemma FillingKeepsValid(m: ResultMap)
      requires old(Valid()) && old(CheckedOut(m)) && unchanged(this)
      requires forall other | other in resultMaps && other != m :: unchanged(other)
      ensures Valid() && CheckedOut(m)
    {
    }

    constructor ()
      ensures Valid() && aggregatedData == null && resultMaps == {} && Live() == map[]
    {
      aggregatedData := null;
      aggregationDataPool := multiset{};
      resultMaps := {};
    }

    method NewMap() returns (m: ResultMap)
      requires Valid()
      modifies this`resultMaps
      ensures Valid() && CheckedOut(m) && m.entries == map[]
      ensures fresh(m) && resultMaps == old(resultMaps) + {m}
    {
      m := new ResultMap();
      resultMaps := resultMaps + {m};
    }

    /** A pooled map, any of them, or a new one. */
    method Get() returns (m: ResultMap)
      requires Valid()
      modifies this`aggregationDataPool, this`resultMaps
      ensures Valid() && CheckedOut(m) && m.entries == map[]
      ensures resultMaps == old(resultMaps) + {m} && fresh(resultMaps - old(resultMaps))
    {
      if * {
        m := NewMap();
      } else if aggregationDataPool == multiset{} {
        m := NewMap();
      } else {
        m :| m in aggregationDataPool;
        aggregationDataPool := aggregationDataPool - multiset{m};
      }
    }

    /** Makes m the live map; the previous one is cleared and goes to the pool. */
    method Publish(m: ResultMap)
      requires Valid() && CheckedOut(m)
      modifies this`aggregatedData, this`aggregationDataPool, resultMaps
      ensures Valid() && aggregatedData == m && Live() == old(m.entries)
      ensures old(aggregatedData) != null ==> old(aggregatedData) in aggregationDataPool
      ensures resultMaps == old(resultMaps)
    {
      var previous := aggregatedData;
      aggregatedData := m;
      if previous != null {
        previous.entries := map[];
        aggregationDataPool := aggregationDataPool + multiset{previous};
      }
    }

    /** Visits the live entries, each at most once, until the callback asks to stop. */
    method RangeAggregatedMetrics(f: (ProgramKey, ProgramMetrics) -> bool) returns (visited: seq<ProgramKey>)
      requires Valid()
      ensures forall i | 0 <= i < |visited| :: visited[i] in Live()
      ensures forall i, j | 0 <= i < j < |visited| :: visited[i] != visited[j]
      ensures forall i | 0 <= i < |visited| - 1 :: f(visited[i], Live()[visited[i]])
      ensures (visited == [] || f(visited[|visited| - 1], Live()[visited[|visited| - 1]])) ==>
                IsOrderOf(visited, Live().Keys)
    {
      visited := [];
      if aggregatedData == null {
        return;
      }
      var data := aggregatedData.entries;
      var todo := data.Keys;
      while todo != {}
        invariant todo <= data.Keys && forall key | key in data && key !in todo :: key in visited
        invariant forall i | 0 <= i < |visited| :: visited[i] in data && visited[i] !in todo
        invariant forall i, j | 0 <= i < j < |visited| :: visited[i] != visited[j]
        invariant forall i | 0 <= i < |visited| :: f(visited[i], data[visited[i]])
      {
        var key :| key in todo;
        todo := todo - {key};
        visited := visited + [key];
        if !f(key, data[key]) {
          return;
        }
      }
    }
  }
}
