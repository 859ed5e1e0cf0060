/** Maps from keys to counts, where an absent key counts zero. */
module Tallies {

  function CountAt<K(==)>(tally: map<K, nat>, key: K): nat {
    if key in tally then tally[key] else 0
  }

  /** The sums of two tallies, key by key. */
  function SumCounts<K(==)>(a: map<K, nat>, b: map<K, nat>): map<K, nat> {
    map key | key in a.Keys + b.Keys :: CountAt(a, key) + CountAt(b, key)
  }

  lemma SumCountsStep<K>(a: map<K, nat>, b: map<K, nat>, key: K, v: nat)
    requires key !in b
    ensures SumCounts(a, b[key := v]) == SumCounts(a, b)[key := CountAt(SumCounts(a, b), key) + v]
  {
  }

  method AddCounts<K(==)>(total: map<K, nat>, more: map<K, nat>) returns (sum: map<K, nat>)
    ensures sum == SumCounts(total, more)
  {
    sum := total;
    var todo := more.Keys;
    ghost var done: map<K, nat> := map[];
    assert SumCounts(total, done) == total;
    while todo != {}
      invariant todo <= more.Keys && done.Keys == more.Keys - todo
      invariant forall key | key in done :: done[key] == more[key]
      invariant sum == SumCounts(total, done)
    {
      hide SumCounts;
      var key :| key in todo;
      todo := todo - {key};
      SumCountsStep(total, done, key, more[key]);
      done := done[key := more[key]];
      sum := sum[key := CountAt(sum, key) + more[key]];
    }
    assert done == more;
  }
}
