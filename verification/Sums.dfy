/** Finite sums over sets, in no particular order, and the group-by law. */
module Sums {

  ghost function Sum<K>(keys: set<K>, f: K -> int): int
    decreases |keys|
  {
    if keys == {} then 0
    else
      var k :| k in keys;
      f(k) + Sum(keys - {k}, f)
  }

  /** Any element may be taken out first. */
  lemma {:induction false} SumPick<K>(keys: set<K>, k: K, f: K -> int)
    requires k in keys
    ensures Sum(keys, f) == f(k) + Sum(keys - {k}, f)
    decreases |keys|
  {
    var c :| c in keys && Sum(keys, f) == f(c) + Sum(keys - {c}, f);
    if c != k {
      SumPick(keys - {c}, k, f);
      SumPick(keys - {k}, c, f);
      assert keys - {c} - {k} == keys - {k} - {c};
    }
  }

  lemma SumAdd<K>(keys: set<K>, k: K, f: K -> int)
    requires k !in keys
    ensures Sum(keys + {k}, f) == f(k) + Sum(keys, f)
  {
    SumPick(keys + {k}, k, f);
    assert keys + {k} - {k} == keys;
  }

  lemma {:induction false} SumCongruence<K>(keys: set<K>, f: K -> int, g: K -> int)
    requires forall k :: k in keys ==> f(k) == g(k)
    ensures Sum(keys, f) == Sum(keys, g)
    decreases |keys|
  {
    if keys != {} {
      var k :| k in keys;
      SumPick(keys, k, f);
      SumPick(keys, k, g);
      SumCongruence(keys - {k}, f, g);
    }
  }

  lemma {:induction false} SumSplit<K>(keys: set<K>, part: set<K>, f: K -> int)
    requires part <= keys
    ensures Sum(keys, f) == Sum(part, f) + Sum(keys - part, f)
    decreases |part|
  {
    if part == {} {
      assert keys - part == keys;
    } else {
      var k :| k in part;
      SumPick(keys, k, f);
      SumPick(part, k, f);
      SumSplit(keys - {k}, part - {k}, f);
      assert keys - {k} - (part - {k}) == keys - part;
    }
  }

  /** Changing the summand at one key changes the sum by the difference. */
  lemma SumUpdate<K>(keys: set<K>, k: K, f: K -> int, g: K -> int)
    requires k in keys
    requires forall j :: j in keys && j != k ==> f(j) == g(j)
    ensures Sum(keys, g) == Sum(keys, f) + g(k) - f(k)
  {
    SumPick(keys, k, f);
    SumPick(keys, k, g);
    SumCongruence(keys - {k}, f, g);
  }

  ghost function Group<K, G>(keys: set<K>, groupOf: K -> G, g: G): set<K> {
    set k | k in keys && groupOf(k) == g
  }

  ghost function Groups<K, G>(keys: set<K>, groupOf: K -> G): set<G> {
    set k | k in keys :: groupOf(k)
  }

  /** Sums add up summand by summand. */
  lemma {:induction false} SumOfSums<K>(keys: set<K>, f: K -> int, g: K -> int, h: K -> int)
    requires forall k :: k in keys ==> f(k) == g(k) + h(k)
    ensures Sum(keys, f) == Sum(keys, g) + Sum(keys, h)
    decreases |keys|
  {
    if keys != {} {
      var k :| k in keys;
      SumPick(keys, k, f);
      SumPick(keys, k, g);
      SumPick(keys, k, h);
      SumOfSums(keys - {k}, f, g, h);
    }
  }

  lemma {:induction false} SumOfZeros<K>(keys: set<K>, f: K -> int)
    requires forall k :: k in keys ==> f(k) == 0
    ensures Sum(keys, f) == 0
    decreases |keys|
  {
    if keys != {} {
      var k :| k in keys;
      SumPick(keys, k, f);
      SumOfZeros(keys - {k}, f);
    }
  }

  /** A sum over one group, as a sum over all keys. */
  lemma SumOfGroup<K, G>(keys: set<K>, groupOf: K -> G, g: G, f: K -> int, masked: K -> int)
    requires forall k :: k in keys ==> masked(k) == if groupOf(k) == g then f(k) else 0
    ensures Sum(Group(keys, groupOf, g), f) == Sum(keys, masked)
  {
    var part := Group(keys, groupOf, g);
    SumSplit(keys, part, masked);
    SumOfZeros(keys - part, masked);
    SumCongruence(part, f, masked);
  }

  /** Summing group by group gives the grand total. */
  lemma {:induction false} GroupTotals<K, G>(keys: set<K>, groupOf: K -> G, f: K -> int, total: G -> int)
    requires forall g :: g in Groups(keys, groupOf) ==> total(g) == Sum(Group(keys, groupOf, g), f)
    ensures Sum(Groups(keys, groupOf), total) == Sum(keys, f)
    decreases |Groups(keys, groupOf)|
  {
    var groups := Groups(keys, groupOf);
    assert forall k :: k in keys ==> groupOf(k) in groups;
    if groups != {} {
      var g :| g in groups;
      var part := Group(keys, groupOf, g);
      var rest := keys - part;
      assert Groups(rest, groupOf) == groups - {g};
      forall h | h in Groups(rest, groupOf)
        ensures total(h) == Sum(Group(rest, groupOf, h), f)
      {
        assert Group(rest, groupOf, h) == Group(keys, groupOf, h);
      }
      GroupTotals(rest, groupOf, f, total);
      SumPick(groups, g, total);
      SumSplit(keys, part, f);
    }
  }
}
