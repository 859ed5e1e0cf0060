/**
 The sharded map: 64 partial maps, chosen by the low bits of the key, that
 together behave as one map; and the two-phase LoadOrStore under any
 interleaving of callers. Keys are their 64-bit patterns.
 */
module ShardedMaps {
  import opened Words

  const NUM_SHARDS := 64

  function ShardOf(key: uint64): nat {
    key % NUM_SHARDS
  }

  /** The shards taken together. */
  ghost function Union<V>(shards: seq<map<uint64, V>>): map<uint64, V> {
    if shards == [] then map[] else Union(shards[..|shards| - 1]) + shards[|shards| - 1]
  }

  /** Every key lies in its own shard. */
  ghost predicate KeysInPlace<V>(shards: seq<map<uint64, V>>) {
    forall i, k | 0 <= i < |shards| && k in shards[i] :: ShardOf(k) == i
  }

  /** A key is in the whole exactly when it is in its own shard, with the same value. */
  lemma {:induction false} UnionExact<V>(shards: seq<map<uint64, V>>, k: uint64)
    requires KeysInPlace(shards)
    ensures k in Union(shards) <==> ShardOf(k) < |shards| && k in shards[ShardOf(k)]
    ensures k in Union(shards) ==> Union(shards)[k] == shards[ShardOf(k)][k]
  {
    if shards != [] {
      UnionExact(shards[..|shards| - 1], k);
    }
  }

  /** Replacing one shard's contents for its own key changes the whole at that key only. */
  lemma ShardUpdate<V>(shards: seq<map<uint64, V>>, key: uint64, shard: map<uint64, V>)
    requires |shards| == NUM_SHARDS && KeysInPlace(shards)
    requires forall k | k != key ::
               (k in shard <==> k in shards[ShardOf(key)]) && (k in shard ==> shard[k] == shards[ShardOf(key)][k])
    ensures var after := shards[ShardOf(key) := shard];
            && KeysInPlace(after)
            && (key in shard ==> Union(after) == Union(shards)[key := shard[key]])
            && (key !in shard ==> Union(after) == Union(shards) - {key})
  {
    hide Union;
    var after := shards[ShardOf(key) := shard];
    assert KeysInPlace(after);
    forall k
      ensures k in Union(after) <==> if k == key then key in shard else k in Union(shards)
      ensures k in Union(after) ==> Union(after)[k] == if k == key then shard[key] else Union(shards)[k]
    {
      UnionExact(shards, k);
      UnionExact(after, k);
    }
    assert key in shard ==> Union(after) == Union(shards)[key := shard[key]];
    assert key !in shard ==> Union(after) == Union(shards) - {key};
  }

  class ShardedMap<V(==)> {
    const shards: array<map<uint64, V>>

    ghost predicate Valid()
      reads shards
    {
      shards.Length == NUM_SHARDS && KeysInPlace(shards[..])
    }

    ghost function View(): map<uint64, V>
      reads shards
    {
      Union(shards[..])
    }

    constructor ()
      ensures Valid() && View() == map[] && fresh(shards)
    {
      shards := new map<uint64, V>[NUM_SHARDS](_ => map[]);
      new;
      forall k ensures k !in View() {
        UnionExact(shards[..], k);
      }
    }

    method Load(key: uint64) returns (r: Option<V>)
      requires Valid()
      ensures r == if key in View() then Some(View()[key]) else None
    {
      hide Union;
      UnionExact(shards[..], key);
      var shard := shards[key % NUM_SHARDS];
      r := if key in shard then Some(shard[key]) else None;
    }

    method Store(key: uint64, value: V)
      requires Valid()
      modifies shards
      ensures Valid() && View() == old(View())[key := value]
    {
      hide Union;
      var i := key % NUM_SHARDS;
      ShardUpdate(shards[..], key, shards[i][key := value]);
      shards[i] := shards[i][key := value];
      assert shards[..] == old(shards[..])[i := shards[i]];
    }

    method Delete(key: uint64)
      requires Valid()
      modifies shards
      ensures Valid() && View() == old(View()) - {key}
    {
      hide Union;
      var i := key % NUM_SHARDS;
      ShardUpdate(shards[..], key, shards[i] - {key});
      shards[i] := shards[i] - {key};
      assert shards[..] == old(shards[..])[i := shards[i]];
    }

    method LoadAndDelete(key: uint64) returns (r: Option<V>)
      requires Valid()
      modifies shards
      ensures Valid() && View() == old(View()) - {key}
      ensures r == if key in old(View()) then Some(old(View())[key]) else None
    {
      hide Union;
      r := Load(key);
      if r.Some? {
        Delete(key);
      } else {
        assert View() == View() - {key};
      }
    }

    /** Uninterrupted: the factory's value is stored if and only if the key was absent. */
    method LoadOrStore(key: uint64, factory: () -> V) returns (actual: V, loaded: bool)
      requires Valid()
      modifies shards
      ensures Valid() && loaded == (key in old(View()))
      ensures actual == if loaded then old(View())[key] else factory()
      ensures View() == if loaded then old(View()) else old(View())[key := actual]
    {
      hide Union;
      var r := Load(key);
      if r.Some? {
        return r.value, true;
      }
      actual, loaded := factory(), false;
      Store(key, actual);
    }

    method Update(key: uint64, f: Option<V> -> Option<V>)
      requires Valid()
      modifies shards
      ensures Valid()
      ensures match f(if key in old(View()) then Some(old(View())[key]) else None)
              case Some(v) => View() == old(View())[key := v]
              case None => View() == old(View()) - {key}
    {
      hide Union;
      var r := Load(key);
      match f(r) {
        case Some(v) => Store(key, v);
        case None =>
          if r.Some? {
            Delete(key);
          } else {
            assert View() == View() - {key};
          }
      }
    }

    /** Every entry once, shard by shard, until the callback asks to stop. */
    method Range(f: (uint64, V) -> bool) returns (visited: seq<uint64>)
      requires Valid()
      ensures forall i | 0 <= i < |visited| :: visited[i] in View()
      ensures forall i, j | 0 <= i < j < |visited| :: visited[i] != visited[j]
      ensures forall i | 0 <= i < |visited| - 1 :: f(visited[i], View()[visited[i]])
      ensures (visited == [] || f(visited[|visited| - 1], View()[visited[|visited| - 1]])) ==>
                forall k | k in View() :: k in visited
    {
      hide Union;
      ghost var whole := View();
      visited := [];
      for i := 0 to NUM_SHARDS
        invariant forall j | 0 <= j < |visited| :: visited[j] in whole && ShardOf(visited[j]) < i
        invariant forall j, l | 0 <= j < l < |visited| :: visited[j] != visited[l]
        invariant forall j | 0 <= j < |visited| :: f(visited[j], whole[visited[j]])
        invariant forall k | k in whole && ShardOf(k) < i :: k in visited
      {
        var m := shards[i];
        ShardIsPart(i);
        var todo := m.Keys;
        while todo != {}
          invariant todo <= m.Keys
          invariant forall j | 0 <= j < |visited| ::
                      visited[j] in whole && ShardOf(visited[j]) <= i && visited[j] !in todo
          invariant forall j, l | 0 <= j < l < |visited| :: visited[j] != visited[l]
          invariant forall j | 0 <= j < |visited| :: f(visited[j], whole[visited[j]])
          invariant forall k | k in whole && (ShardOf(k) < i || (ShardOf(k) == i && k !in todo)) :: k in visited
        {
          var key :| key in todo;
          todo := todo - {key};
          visited := visited + [key];
          if !f(key, m[key]) {
            return;
          }
        }
      }
    }

    lemma ShardIsPart(i: nat)
      requires Valid() && i < NUM_SHARDS
      ensures forall k :: k in shards[i] <==> k in View() && ShardOf(k) == i
      ensures forall k | k in shards[i] :: View()[k] == shards[i][k]
    {
      forall k
        ensures k in shards[i] <==> k in View() && ShardOf(k) == i
        ensures k in shards[i] ==> View()[k] == shards[i][k]
      {
        UnionExact(shards[..], k);
      }
    }
  }

  // ---- LoadOrStore, called concurrently ----

  /** Where one call stands: not begun, past an unsuccessful read, or returned. */
  datatype Call<V> = Begun | Missed | Returned(actual: V, loaded: bool)

  function AllBegun<V>(n: nat): seq<Call<V>> {
    seq(n, _ => Begun)
  }

  /** The entry of the one key, the calls on it, and how often a factory has run. */
  datatype Shared<V> = Shared(entry: Option<V>, calls: seq<Call<V>>, factoryRuns: nat)

  /** One critical section of call c: the read-locked lookup, or the write-locked check and store. */
  function Advance<V>(s: Shared<V>, c: nat, factoryValue: V): Shared<V>
    requires c < |s.calls|
  {
    match s.calls[c]
    case Begun =>
      s.(calls := s.calls[c := if s.entry.Some? then Returned(s.entry.value, true) else Missed])
    case Missed =>
      if s.entry.Some? then s.(calls := s.calls[c := Returned(s.entry.value, true)])
      else Shared(Some(factoryValue), s.calls[c := Returned(factoryValue, false)], s.factoryRuns + 1)
    case Returned(_, _) => s
  }

  /** After any schedule of critical sections by n callers, caller c's factory making values[c]. */
  function After<V>(values: seq<V>, schedule: seq<nat>): (s: Shared<V>)
    requires forall i | 0 <= i < |schedule| :: schedule[i] < |values|
    ensures |s.calls| == |values|
  {
    if schedule == [] then Shared(None, AllBegun(|values|), 0)
    else
      var c := schedule[|schedule| - 1];
      Advance(After(values, schedule[..|schedule| - 1]), c, values[c])
  }

  function Stored<V>(calls: seq<Call<V>>): nat {
    if calls == [] then 0
    else Stored(calls[..|calls| - 1]) + if calls[|calls| - 1].Returned? && !calls[|calls| - 1].loaded then 1 else 0
  }

  lemma {:induction false} StoredUpdate<V>(calls: seq<Call<V>>, c: nat, call: Call<V>)
    requires c < |calls| && !(calls[c].Returned? && !calls[c].loaded)
    ensures Stored(calls[c := call]) == Stored(calls) + if call.Returned? && !call.loaded then 1 else 0
  {
    var last := |calls| - 1;
    if c < last {
      StoredUpdate(calls[..last], c, call);
      assert calls[c := call][..last] == calls[..last][c := call];
    } else {
      assert calls[c := call][..last] == calls[..last];
    }
  }

  lemma {:induction false} NothingStored<V>(n: nat)
    ensures Stored(AllBegun<V>(n)) == 0
  {
    if n > 0 {
      NothingStored<V>(n - 1);
      assert AllBegun<V>(n)[..n - 1] == AllBegun<V>(n - 1);
    }
  }

  /**
   In every interleaving the factory runs at most once, exactly one call reports having stored
   once it has, and every call that has returned has the stored value.
   */
  lemma {:induction false} FactoryRunsOnce<V>(values: seq<V>, schedule: seq<nat>)
    requires forall i | 0 <= i < |schedule| :: schedule[i] < |values|
    ensures var s := After(values, schedule);
            && s.factoryRuns == Stored(s.calls) == (if s.entry.Some? then 1 else 0)
            && (forall c | 0 <= c < |s.calls| && s.calls[c].Returned? :: s.entry == Some(s.calls[c].actual))
            && (s.entry.Some? ==> s.entry.value in values)
  {
    if schedule == [] {
      NothingStored<V>(|values|);
      assert After(values, schedule).calls == AllBegun<V>(|values|);
    } else {
      var c := schedule[|schedule| - 1];
      var before := After(values, schedule[..|schedule| - 1]);
      FactoryRunsOnce(values, schedule[..|schedule| - 1]);
      var s := After(values, schedule);
      if !before.calls[c].Returned? {
        StoredUpdate(before.calls, c, s.calls[c]);
        assert s.calls == before.calls[c := s.calls[c]];
      }
    }
  }

  /** When all of the callers have returned, exactly one factory has run and all have the same value. */
  lemma AllCallersAgree<V>(values: seq<V>, schedule: seq<nat>)
    requires values != [] && forall i | 0 <= i < |schedule| :: schedule[i] < |values|
    requires forall c | 0 <= c < |values| :: After(values, schedule).calls[c].Returned?
    ensures var s := After(values, schedule);
            && s.factoryRuns == 1 && Stored(s.calls) == 1
            && forall c, d | 0 <= c < d < |values| :: s.calls[c].actual == s.calls[d].actual
  {
    FactoryRunsOnce(values, schedule);
    assert After(values, schedule).calls[0].Returned?;
  }
}
