/**
 What the order of an aggregation pass can change in the snapshot it takes. Of
 the processes that wait for one tag only the first visited is named; so two
 orders show the same counts exactly if it makes no difference which one that is.
 */
module SnapshotOrder {
  import opened Words
  import opened Sums
  import opened Counters
  import opened Lifecycle
  import opened Conservation
  import opened Identity
  import opened Aggregation
  import opened PassOrder

  // ---- who is named ----

  ghost predicate Waits<Ref>(s: State<Ref>, k: uint64)
    requires Closed(s)
  {
    k in s.instanceData && Unresolved(s.Info(s.instanceData[k]))
  }

  /** Both wait, and for the same tag. */
  ghost predicate SameTag<Ref>(s: State<Ref>, j: uint64, k: uint64)
    requires Closed(s)
  {
    && Waits(s, j) && Waits(s, k)
    && s.Info(s.instanceData[j]).subProcessTag == s.Info(s.instanceData[k]).subProcessTag
  }

  /** The p-th instance waits, and none visited before it waits for the same tag. */
  ghost predicate Leads<Ref>(s: State<Ref>, order: seq<uint64>, p: int)
    requires Closed(s)
  {
    0 <= p < |order| && Waits(s, order[p]) && forall q | 0 <= q < p :: !SameTag(s, order[q], order[p])
  }

  ghost predicate IsFirst<Ref>(s: State<Ref>, order: seq<uint64>, k: uint64)
    requires Closed(s)
  {
    exists p :: Leads(s, order, p) && order[p] == k
  }

  /** The record of instance k after the pass. */
  ghost function Named<Ref>(s: State<Ref>, order: seq<uint64>, lookup: Lookup, k: uint64): Proc
    requires Closed(s) && k in s.instanceData
  {
    var proc := s.heap[s.instanceData[k]];
    if IsFirst(s, order, k) then proc.(info := LookedUp(proc.info, lookup)) else proc
  }

  lemma FirstOneMore<Ref>(s: State<Ref>, rest: seq<uint64>, k: uint64, j: uint64)
    requires Closed(s) && k !in rest
    ensures j != k ==> (IsFirst(s, rest + [k], j) <==> IsFirst(s, rest, j))
    ensures !IsFirst(s, rest, k)
    ensures IsFirst(s, rest + [k], k) <==> Waits(s, k) && forall i | i in rest :: !SameTag(s, i, k)
  {
    hide SameTag, Waits;
    var order := rest + [k];
    assert forall q | 0 <= q < |rest| :: order[q] == rest[q] && rest[q] in rest;
    forall p | 0 <= p < |rest|
      ensures Leads(s, order, p) <==> Leads(s, rest, p)
    {
    }
    assert forall p | Leads(s, rest, p) :: rest[p] in rest;
    if IsFirst(s, rest, j) {
      var p :| Leads(s, rest, p) && rest[p] == j;
      assert Leads(s, order, p);
    }
    if IsFirst(s, order, k) {
      var p :| Leads(s, order, p) && order[p] == k;
      assert p == |rest|;
      assert forall i | i in rest :: exists q :: 0 <= q < p && order[q] == i;
    }
    if Waits(s, k) && forall i | i in rest :: !SameTag(s, i, k) {
      assert Leads(s, order, |rest|);
    }
  }

  /** The pass, exactly: of the instances that wait for one tag, the first visited gets what its lookup finds. */
  lemma {:induction false} PassNames<Ref>(s: State<Ref>, order: seq<uint64>, lookup: Lookup)
    requires Inv(s) && Closed(s) && NoRepeats(order)
    requires forall k | k in order :: k in s.instanceData
    ensures TriedIs(s, order, ResolveAll(s, order, lookup).1)
    ensures forall k | k in s.instanceData ::
              ResolveAll(s, order, lookup).0.heap[s.instanceData[k]] == Named(s, order, lookup, k)
  {
    hide Inv, Resolve, TriedIs, LookedUp, SameTag, Waits, IsFirst;
    if order == [] {
      NothingPassed(s, lookup);
      NoneFirst(s);
    } else {
      var rest, k := order[..|order| - 1], order[|order| - 1];
      assert order == rest + [k] && k !in rest;
      assert forall j | j in rest :: j in order;
      PassNames(s, rest, lookup);
      var before := ResolveAll(s, rest, lookup);
      FirstOneMore(s, rest, k, k);
      VisitTried(s, rest, k, lookup, before.0, before.1);
      VisitNames(s, rest, k, lookup, before.0, before.1);
      forall j | j in s.instanceData && j != k
        ensures ResolveAll(s, order, lookup).0.heap[s.instanceData[j]] == Named(s, order, lookup, j)
      {
        OthersStay(s, k, j, before.0, before.1, lookup);
        FirstOneMore(s, rest, k, j);
      }
    }
  }

  lemma NoneFirst<Ref>(s: State<Ref>)
    requires Closed(s)
    ensures forall k :: !IsFirst(s, [], k)
  {
  }

  lemma VisitNames<Ref>(s: State<Ref>, rest: seq<uint64>, k: uint64, lookup: Lookup, before: State<Ref>,
                        attempted: set<uint32>)
    requires Closed(s) && k in s.instanceData && k !in rest && (forall j | j in rest :: j in s.instanceData)
    requires s.instanceData[k] in before.heap && before.heap[s.instanceData[k]] == s.heap[s.instanceData[k]]
    requires TriedIs(s, rest, attempted)
    ensures Resolve(before, s.instanceData[k], attempted, lookup).0.heap[s.instanceData[k]]
            == Named(s, rest + [k], lookup, k)
  {
    hide Resolve, IsFirst, Unresolved, Yields;
    FirstOneMore(s, rest, k, k);
    VisitedRecord(before, s.instanceData[k], attempted, lookup);
    if Waits(s, k) {
      var tag := s.Info(s.instanceData[k]).subProcessTag;
      assert TagVisited(s, rest, tag) <==> exists i :: i in rest && SameTag(s, i, k);
    }
  }

  /** Among those that wait for a tag one is always first. */
  lemma {:induction false} SomeFirst<Ref>(s: State<Ref>, order: seq<uint64>, p: nat) returns (j: uint64)
    requires Closed(s) && p < |order| && Waits(s, order[p])
    ensures IsFirst(s, order, j) && SameTag(s, j, order[p])
    decreases p
  {
    if Leads(s, order, p) {
      j := order[p];
    } else {
      var q :| 0 <= q < p && SameTag(s, order[q], order[p]);
      j := SomeFirst(s, order, q);
    }
  }

  lemma OneFirst<Ref>(s: State<Ref>, order: seq<uint64>, j: uint64, k: uint64)
    requires Closed(s) && IsFirst(s, order, j) && IsFirst(s, order, k) && SameTag(s, j, k)
    ensures j == k
  {
    var p :| Leads(s, order, p) && order[p] == j;
    var q :| Leads(s, order, q) && order[q] == k;
    assert SameTag(s, k, j);
    if p < q {
      assert false;
    } else if q < p {
      assert false;
    }
  }

  // ---- what a snapshot shows ----

  /** The count of a program's metric in the snapshot that a pass in this order takes. */
  ghost function Shown<Ref>(s: State<Ref>, order: seq<uint64>, lookup: Lookup, g: ProgramKey, m: Metric): int {
    var heap := ResolveAll(s, order, lookup).0.heap;
    Sum(Group(s.instanceData.Keys, GroupKey(s.instanceData, heap), g), HeldBy(s.instanceData, heap, m))
  }

  /** It is indeed what the snapshot has; a program that is not in it counts nothing. */
  lemma SnapshotShows<Ref>(s: State<Ref>, order: seq<uint64>, lookup: Lookup,
                           x: map<ProgramKey, ProgramMetrics>, g: ProgramKey, m: Metric)
    requires IsGroupedSum(x, s.instanceData.Keys, s.instanceData, ResolveAll(s, order, lookup).0.heap)
    ensures Shown(s, order, lookup, g, m) == if g in x then AggregateCount(x[g], m) else 0
  {
    hide ResolveAll, AggregateCount, Sum;
    var keys, heap := s.instanceData.Keys, ResolveAll(s, order, lookup).0.heap;
    var groupOf := GroupKey(s.instanceData, heap);
    if g !in x {
      assert forall k | k in keys :: groupOf(k) in Groups(keys, groupOf);
      assert Group(keys, groupOf, g) == {};
      EmptySum(HeldBy(s.instanceData, heap, m));
    }
  }

  /** What naming instance k moves to, or takes from, program g. */
  ghost function Moves<Ref>(s: State<Ref>, lookup: Lookup, k: uint64, g: ProgramKey, m: Metric): int
    requires Closed(s)
  {
    if k !in s.instanceData then 0
    else
      var proc := s.heap[s.instanceData[k]];
      (if KeyOf(LookedUp(proc.info, lookup)) == g then Count(proc.counters, m) else 0)
      - (if KeyOf(proc.info) == g then Count(proc.counters, m) else 0)
  }

  ghost function MovedBy<Ref>(s: State<Ref>, order: seq<uint64>, lookup: Lookup, g: ProgramKey,
                              m: Metric): uint64 -> int
    requires Closed(s)
  {
    (k: uint64) => if IsFirst(s, order, k) then Moves(s, lookup, k, g, m) else 0
  }

  /** What instance k adds to program g as long as nobody is named. */
  ghost function Unnamed<Ref>(s: State<Ref>, g: ProgramKey, m: Metric): uint64 -> int
    requires Closed(s)
  {
    (k: uint64) =>
      if k in s.instanceData && KeyOf(s.Info(s.instanceData[k])) == g
      then Count(s.heap[s.instanceData[k]].counters, m) else 0
  }

  /** A snapshot shows what it would show without the pass, and what the named instances move. */
  lemma ShownIs<Ref>(s: State<Ref>, order: seq<uint64>, lookup: Lookup, g: ProgramKey, m: Metric)
    requires Inv(s) && Closed(s) && IsOrderOf(order, s.instanceData.Keys)
    ensures Shown(s, order, lookup, g, m)
            == Sum(s.instanceData.Keys, Unnamed(s, g, m)) + Sum(s.instanceData.Keys, MovedBy(s, order, lookup, g, m))
  {
    hide ResolveAll, Sum, Inv, Named, GroupKey, HeldBy, Unnamed, MovedBy;
    var keys, heap := s.instanceData.Keys, ResolveAll(s, order, lookup).0.heap;
    var groupOf, held := GroupKey(s.instanceData, heap), HeldBy(s.instanceData, heap, m);
    var f := (k: uint64) => if groupOf(k) == g then held(k) else 0;
    PassNames(s, order, lookup);
    SumOfGroup(keys, groupOf, g, held, f);
    forall k | k in keys
      ensures f(k) == Unnamed(s, g, m)(k) + MovedBy(s, order, lookup, g, m)(k)
    {
      NamedAdds(s, order, lookup, g, m, heap, k);
    }
    SumOfSums(keys, f, Unnamed(s, g, m), MovedBy(s, order, lookup, g, m));
  }

  lemma NamedAdds<Ref>(s: State<Ref>, order: seq<uint64>, lookup: Lookup, g: ProgramKey, m: Metric,
                       heap: map<Ref, Proc>, k: uint64)
    requires Closed(s) && k in s.instanceData && s.instanceData[k] in heap
    requires heap[s.instanceData[k]] == Named(s, order, lookup, k)
    ensures (if GroupKey(s.instanceData, heap)(k) == g then HeldBy(s.instanceData, heap, m)(k) else 0)
            == Unnamed(s, g, m)(k) + MovedBy(s, order, lookup, g, m)(k)
  {
    hide LookedUp, KeyOf, Count, IsFirst, Named, Unnamed, MovedBy, Moves;
    NamedParts(s, order, lookup, g, m, k);
    assert GroupKey(s.instanceData, heap)(k) == KeyOf(heap[s.instanceData[k]].info);
  }

  lemma NamedParts<Ref>(s: State<Ref>, order: seq<uint64>, lookup: Lookup, g: ProgramKey, m: Metric, k: uint64)
    requires Closed(s) && k in s.instanceData
    ensures var after := Named(s, order, lookup, k);
            (if KeyOf(after.info) == g then Count(after.counters, m) else 0)
            == Unnamed(s, g, m)(k) + MovedBy(s, order, lookup, g, m)(k)
  {
    hide LookedUp, KeyOf, Count, IsFirst;
  }

  // ---- when it makes no difference who is named ----

  ghost predicate HoldsNothing(c: Counters) {
    forall m :: Count(c, m) == 0
  }

  ghost predicate SameCounts(c: Counters, d: Counters) {
    forall m :: Count(c, m) == Count(d, m)
  }

  /**
   It shows nowhere which of two waiting instances is named: neither holds anything; or they
   belong to one program, would get one name, and hold the same. If a lookup for k finds nothing,
   the question is only whether j is named, and j must hold nothing.
   */
  ghost predicate Interchangeable<Ref>(s: State<Ref>, lookup: Lookup, j: uint64, k: uint64)
    requires Closed(s)
  {
    && j in s.instanceData && k in s.instanceData
    && var a, b := s.heap[s.instanceData[j]], s.heap[s.instanceData[k]];
       if Yields(lookup, b.info) then
         || (HoldsNothing(a.counters) && HoldsNothing(b.counters))
         || (KeyOf(a.info) == KeyOf(b.info) && SameCounts(a.counters, b.counters)
             && lookup(a.info.pid, a.info.subProcessTag) == lookup(b.info.pid, b.info.subProcessTag))
       else HoldsNothing(a.counters)
  }

  /** Naming the one moves what naming the other moves, in every program and every metric. */
  ghost predicate SameMoves<Ref>(s: State<Ref>, lookup: Lookup, j: uint64, k: uint64)
    requires Closed(s)
  {
    forall g, m :: Moves(s, lookup, j, g, m) == Moves(s, lookup, k, g, m)
  }

  lemma InterchangeableMoves<Ref>(s: State<Ref>, lookup: Lookup, j: uint64, k: uint64)
    requires Closed(s) && Rivals(s, lookup, j, k) && Interchangeable(s, lookup, j, k)
    ensures SameMoves(s, lookup, j, k)
  {
    forall g, m
      ensures Moves(s, lookup, j, g, m) == Moves(s, lookup, k, g, m)
    {
      hide Count;
    }
  }

  lemma NamedMoves<Ref>(s: State<Ref>, lookup: Lookup, j: uint64, k: uint64, m: Metric)
    requires Closed(s) && Rivals(s, lookup, j, k)
    ensures var a, b := s.heap[s.instanceData[j]], s.heap[s.instanceData[k]];
            var g := KeyOf(LookedUp(a.info, lookup));
            && Moves(s, lookup, j, g, m) == Count(a.counters, m)
            && Moves(s, lookup, k, g, m) == if KeyOf(LookedUp(b.info, lookup)) == g then Count(b.counters, m) else 0
  {
    hide Count;
  }

  /** What is moved agrees everywhere only for interchangeable instances. */
  lemma MovesInterchangeable<Ref>(s: State<Ref>, lookup: Lookup, j: uint64, k: uint64)
    requires Closed(s) && Rivals(s, lookup, j, k) && SameMoves(s, lookup, j, k)
    ensures Interchangeable(s, lookup, j, k)
  {
    hide Count, SameMoves, Moves;
    var a, b := s.heap[s.instanceData[j]], s.heap[s.instanceData[k]];
    forall m
      ensures Count(a.counters, m)
              == if KeyOf(LookedUp(b.info, lookup)) == KeyOf(LookedUp(a.info, lookup)) then Count(b.counters, m) else 0
      ensures Yields(lookup, b.info) ==>
                Count(b.counters, m)
                == if KeyOf(LookedUp(a.info, lookup)) == KeyOf(LookedUp(b.info, lookup))
                   then Count(a.counters, m) else 0
    {
      MovesAgree(s, lookup, j, k, KeyOf(LookedUp(a.info, lookup)), m);
      NamedMoves(s, lookup, j, k, m);
      if Yields(lookup, b.info) {
        MovesAgree(s, lookup, j, k, KeyOf(LookedUp(b.info, lookup)), m);
        NamedMoves(s, lookup, k, j, m);
      }
    }
  }

  lemma MovesAgree<Ref>(s: State<Ref>, lookup: Lookup, j: uint64, k: uint64, g: ProgramKey, m: Metric)
    requires Closed(s) && SameMoves(s, lookup, j, k)
    ensures Moves(s, lookup, j, g, m) == Moves(s, lookup, k, g, m)
  {
  }

  // ---- two walks in any order ----

  /** The tag an instance waits for, 0 if it waits for none. */
  ghost function TagOf<Ref>(s: State<Ref>): uint64 -> uint32
    requires Closed(s)
  {
    (k: uint64) =>
      if k in s.instanceData && Unresolved(s.Info(s.instanceData[k]))
      then s.Info(s.instanceData[k]).subProcessTag else 0
  }

  lemma SameTagIs<Ref>(s: State<Ref>, j: uint64, k: uint64)
    requires Closed(s) && Waits(s, j) && Waits(s, k)
    ensures SameTag(s, j, k) <==> TagOf(s)(j) == TagOf(s)(k)
  {
  }

  lemma WaitsIs<Ref>(s: State<Ref>, k: uint64)
    requires Closed(s)
    ensures Waits(s, k) <==> TagOf(s)(k) != 0
  {
  }

  lemma FirstWaits<Ref>(s: State<Ref>, order: seq<uint64>, k: uint64)
    requires Closed(s) && IsFirst(s, order, k)
    ensures Waits(s, k)
  {
  }

  /** Of the instances that wait for one tag, what is moved is what the first visited one moves. */
  lemma TagMoves<Ref>(s: State<Ref>, order: seq<uint64>, lookup: Lookup, g: ProgramKey, m: Metric, j: uint64)
    requires Closed(s) && IsFirst(s, order, j)
    ensures j in s.instanceData
    ensures Sum(Group(s.instanceData.Keys, TagOf(s), TagOf(s)(j)), MovedBy(s, order, lookup, g, m))
            == Moves(s, lookup, j, g, m)
  {
    hide Sum, IsFirst, Moves, SameTag, TagOf;
    FirstWaits(s, order, j);
    var part, f := Group(s.instanceData.Keys, TagOf(s), TagOf(s)(j)), MovedBy(s, order, lookup, g, m);
    forall k | k in part - {j}
      ensures f(k) == 0
    {
      if IsFirst(s, order, k) {
        FirstWaits(s, order, k);
        SameTagIs(s, j, k);
        OneFirst(s, order, j, k);
      }
    }
    SumPick(part, j, f);
    SumOfZeros(part - {j}, f);
  }

  ghost predicate AllMoveAlike<Ref>(s: State<Ref>, lookup: Lookup, g: ProgramKey, m: Metric)
    requires Closed(s)
  {
    forall j, k | SameTag(s, j, k) :: Moves(s, lookup, j, g, m) == Moves(s, lookup, k, g, m)
  }

  lemma TagsMoveAlike<Ref>(s: State<Ref>, a: seq<uint64>, b: seq<uint64>, lookup: Lookup,
                           g: ProgramKey, m: Metric, t: uint32)
    requires Closed(s) && AllMoveAlike(s, lookup, g, m)
    requires IsOrderOf(a, s.instanceData.Keys) && IsOrderOf(b, s.instanceData.Keys)
    ensures Sum(Group(s.instanceData.Keys, TagOf(s), t), MovedBy(s, a, lookup, g, m))
            == Sum(Group(s.instanceData.Keys, TagOf(s), t), MovedBy(s, b, lookup, g, m))
  {
    hide Sum, IsFirst, Moves, SameTag, TagOf, Waits, Closed;
    var part := Group(s.instanceData.Keys, TagOf(s), t);
    if k :| k in part && Waits(s, k) {
      var p :| 0 <= p < |a| && a[p] == k;
      var q :| 0 <= q < |b| && b[q] == k;
      var i := SomeFirst(s, a, p);
      var j := SomeFirst(s, b, q);
      FirstWaits(s, a, i);
      FirstWaits(s, b, j);
      SameTagIs(s, i, k);
      SameTagIs(s, j, k);
      SameTagIs(s, i, j);
      TagMoves(s, a, lookup, g, m, i);
      TagMoves(s, b, lookup, g, m, j);
    } else {
      forall k | k in part
        ensures MovedBy(s, a, lookup, g, m)(k) == 0 && MovedBy(s, b, lookup, g, m)(k) == 0
      {
        NobodyFirst(s, a, k);
        NobodyFirst(s, b, k);
      }
      SumOfZeros(part, MovedBy(s, a, lookup, g, m));
      SumOfZeros(part, MovedBy(s, b, lookup, g, m));
    }
  }

  lemma NobodyFirst<Ref>(s: State<Ref>, order: seq<uint64>, k: uint64)
    requires Closed(s) && !Waits(s, k)
    ensures !IsFirst(s, order, k)
  {
  }

  /** If all that wait for one tag move alike, any two walks show the same. */
  lemma WalksShowTheSame<Ref>(s: State<Ref>, a: seq<uint64>, b: seq<uint64>, lookup: Lookup, g: ProgramKey, m: Metric)
    requires Inv(s) && Closed(s) && AllMoveAlike(s, lookup, g, m)
    requires IsOrderOf(a, s.instanceData.Keys) && IsOrderOf(b, s.instanceData.Keys)
    ensures Shown(s, a, lookup, g, m) == Shown(s, b, lookup, g, m)
  {
    hide Sum, Shown, Unnamed, MovedBy, TagOf, AllMoveAlike, IsOrderOf, Inv, Closed;
    var keys := s.instanceData.Keys;
    var total := (t: uint32) => Sum(Group(keys, TagOf(s), t), MovedBy(s, a, lookup, g, m));
    forall t | t in Groups(keys, TagOf(s))
      ensures total(t) == Sum(Group(keys, TagOf(s), t), MovedBy(s, b, lookup, g, m))
    {
      TagsMoveAlike(s, a, b, lookup, g, m, t);
    }
    GroupTotals(keys, TagOf(s), MovedBy(s, a, lookup, g, m), total);
    GroupTotals(keys, TagOf(s), MovedBy(s, b, lookup, g, m), total);
    ShownIs(s, a, lookup, g, m);
    ShownIs(s, b, lookup, g, m);
  }

  // ---- two walks that differ in one pair ----

  lemma SwappedFirst<Ref>(s: State<Ref>, rest: seq<uint64>, j: uint64, k: uint64, i: uint64)
    requires Closed(s) && i != j && i != k
    ensures IsFirst(s, [j, k] + rest, i) <==> IsFirst(s, [k, j] + rest, i)
  {
    if IsFirst(s, [j, k] + rest, i) {
      SwapKeepsFirst(s, rest, j, k, i);
    }
    if IsFirst(s, [k, j] + rest, i) {
      SwapKeepsFirst(s, rest, k, j, i);
    }
  }

  lemma SwapKeepsFirst<Ref>(s: State<Ref>, rest: seq<uint64>, j: uint64, k: uint64, i: uint64)
    requires Closed(s) && i != j && i != k && IsFirst(s, [j, k] + rest, i)
    ensures IsFirst(s, [k, j] + rest, i)
  {
    hide SameTag, Waits;
    var a, b := [j, k] + rest, [k, j] + rest;
    var p :| Leads(s, a, p) && a[p] == i;
    assert p >= 2 && b[p] == i && a[0] == b[1] && a[1] == b[0];
    assert forall q | 2 <= q < |a| :: a[q] == b[q];
    assert Leads(s, b, p);
  }

  lemma LeaderOfTwo<Ref>(s: State<Ref>, rest: seq<uint64>, j: uint64, k: uint64)
    requires Closed(s) && SameTag(s, j, k) && j != k
    ensures IsFirst(s, [j, k] + rest, j)
    ensures !IsFirst(s, [j, k] + rest, k)
  {
    hide Waits;
    var order := [j, k] + rest;
    FirstOfTag(s, j, k);
    assert Leads(s, order, 0) && order[0] == j;
    if IsFirst(s, order, k) {
      OneFirst(s, order, j, k);
    }
  }

  lemma FirstOfTag<Ref>(s: State<Ref>, j: uint64, k: uint64)
    requires Closed(s) && SameTag(s, j, k)
    ensures Waits(s, j) && Waits(s, k)
  {
  }

  /** Two walks that visit first j and first k: what they show differs by what naming the one or the other moves. */
  lemma SwapShows<Ref>(s: State<Ref>, rest: seq<uint64>, lookup: Lookup, j: uint64, k: uint64, g: ProgramKey, m: Metric)
    requires Inv(s) && Closed(s) && SameTag(s, j, k) && j != k
    requires j in s.instanceData && k in s.instanceData && IsOrderOf(rest, s.instanceData.Keys - {j, k})
    ensures Shown(s, [j, k] + rest, lookup, g, m) - Shown(s, [k, j] + rest, lookup, g, m)
            == Moves(s, lookup, j, g, m) - Moves(s, lookup, k, g, m)
  {
    hide Sum, Shown, Unnamed, Moves, SameTag, Waits, IsFirst, Inv, Closed;
    var keys, a, b := s.instanceData.Keys, [j, k] + rest, [k, j] + rest;
    var f, h := MovedBy(s, a, lookup, g, m), MovedBy(s, b, lookup, g, m);
    ShownIs(s, a, lookup, g, m);
    ShownIs(s, b, lookup, g, m);
    LeaderOfTwo(s, rest, j, k);
    SameTagSymmetric(s, j, k);
    LeaderOfTwo(s, rest, k, j);
    SumPick(keys, j, f);
    SumPick(keys - {j}, k, f);
    SumPick(keys, j, h);
    SumPick(keys - {j}, k, h);
    forall i | i in keys - {j} - {k}
      ensures f(i) == h(i)
    {
      SwappedFirst(s, rest, j, k, i);
    }
    SumCongruence(keys - {j} - {k}, f, h);
  }

  lemma SameTagSymmetric<Ref>(s: State<Ref>, j: uint64, k: uint64)
    requires Closed(s) && SameTag(s, j, k)
    ensures SameTag(s, k, j)
  {
  }

  // ---- the exact condition ----

  /** Whatever the order of the walk, the snapshot has the same counts. */
  ghost predicate OrderInvisible<Ref>(s: State<Ref>, lookup: Lookup) {
    forall a, b, g, m | IsOrderOf(a, s.instanceData.Keys) && IsOrderOf(b, s.instanceData.Keys) ::
      Shown(s, a, lookup, g, m) == Shown(s, b, lookup, g, m)
  }

  lemma RivalsWait<Ref>(s: State<Ref>, lookup: Lookup, j: uint64, k: uint64)
    requires Closed(s)
    ensures Rivals(s, lookup, j, k) <==>
              SameTag(s, j, k) && j != k && Yields(lookup, s.Info(s.instanceData[j]))
  {
  }

  /** A walk that does not find a name for k moves nothing on its account. */
  lemma NothingFound<Ref>(s: State<Ref>, lookup: Lookup, k: uint64, g: ProgramKey, m: Metric)
    requires Closed(s) && Waits(s, k) && !Yields(lookup, s.Info(s.instanceData[k]))
    ensures Moves(s, lookup, k, g, m) == 0
  {
  }

  lemma TwoMoveAlike<Ref>(s: State<Ref>, lookup: Lookup, j: uint64, k: uint64, g: ProgramKey, m: Metric)
    requires Closed(s) && SameTag(s, j, k)
    requires Rivals(s, lookup, j, k) ==> Interchangeable(s, lookup, j, k)
    requires Rivals(s, lookup, k, j) ==> Interchangeable(s, lookup, k, j)
    ensures Moves(s, lookup, j, g, m) == Moves(s, lookup, k, g, m)
  {
    hide Rivals, Interchangeable, Moves, SameMoves, Yields, Unresolved;
    SameTagSymmetric(s, j, k);
    RivalsWait(s, lookup, j, k);
    RivalsWait(s, lookup, k, j);
    if Rivals(s, lookup, j, k) {
      InterchangeableMoves(s, lookup, j, k);
      MovesAgree(s, lookup, j, k, g, m);
    } else if Rivals(s, lookup, k, j) {
      InterchangeableMoves(s, lookup, k, j);
      MovesAgree(s, lookup, k, j, g, m);
    } else if j != k {
      NothingFound(s, lookup, j, g, m);
      NothingFound(s, lookup, k, g, m);
    }
  }

  /** Two rivals that are not interchangeable: walks that begin with the one and with the other show it. */
  lemma RivalsShow<Ref>(s: State<Ref>, lookup: Lookup, j: uint64, k: uint64)
    requires Inv(s) && Closed(s) && Rivals(s, lookup, j, k) && OrderInvisible(s, lookup)
    ensures Interchangeable(s, lookup, j, k)
  {
    hide Inv, Shown, Interchangeable, Moves, Rivals, Unresolved, Yields;
    RivalsWait(s, lookup, j, k);
    var rest := SomeOrder(s.instanceData.Keys - {j, k});
    assert IsOrderOf([j, k] + rest, s.instanceData.Keys) && IsOrderOf([k, j] + rest, s.instanceData.Keys);
    forall g, m
      ensures Moves(s, lookup, j, g, m) == Moves(s, lookup, k, g, m)
    {
      SwapShows(s, rest, lookup, j, k, g, m);
    }
    MovesInterchangeable(s, lookup, j, k);
  }

  lemma AlikeIfInterchangeable<Ref>(s: State<Ref>, lookup: Lookup, g: ProgramKey, m: Metric)
    requires Closed(s)
    requires forall j, k | Rivals(s, lookup, j, k) :: Interchangeable(s, lookup, j, k)
    ensures AllMoveAlike(s, lookup, g, m)
  {
    hide Closed, Interchangeable, Moves, Rivals, SameTag;
    forall j, k | SameTag(s, j, k)
      ensures Moves(s, lookup, j, g, m) == Moves(s, lookup, k, g, m)
    {
      TwoMoveAlike(s, lookup, j, k, g, m);
    }
  }

  /**
   The order of the walk changes no count of the snapshot if and only if any two live processes
   that wait for the same tag, of which a lookup finds the name, are interchangeable.
   */
  lemma OrderInvisibleExactly<Ref>(s: State<Ref>, lookup: Lookup)
    requires Inv(s) && Closed(s)
    ensures OrderInvisible(s, lookup)
            <==> forall j, k | Rivals(s, lookup, j, k) :: Interchangeable(s, lookup, j, k)
  {
    hide Inv, Closed, Shown, Interchangeable, Rivals, IsOrderOf, AllMoveAlike;
    if OrderInvisible(s, lookup) {
      forall j, k | Rivals(s, lookup, j, k)
        ensures Interchangeable(s, lookup, j, k)
      {
        RivalsShow(s, lookup, j, k);
      }
    }
    if forall j, k | Rivals(s, lookup, j, k) :: Interchangeable(s, lookup, j, k) {
      forall a, b, g, m | IsOrderOf(a, s.instanceData.Keys) && IsOrderOf(b, s.instanceData.Keys)
        ensures Shown(s, a, lookup, g, m) == Shown(s, b, lookup, g, m)
      {
        AlikeIfInterchangeable(s, lookup, g, m);
        WalksShowTheSame(s, a, b, lookup, g, m);
      }
    }
  }
}
