/**
  Sums of a weight over the rows of an id-keyed table. Ids are handed out by
  a counter, so summing over the ids below the counter sums the whole table.
 */
module Tally {

  /** The weight of the row at key `k`, or 0 when there is none. */
  function Weight<V>(m: map<nat, V>, w: V -> nat, k: nat): nat {
    if k in m then w(m[k]) else 0
  }

  /** The total weight of the rows whose keys lie below `n`. */
  function SumBelow<V>(m: map<nat, V>, w: V -> nat, n: nat): nat
    decreases n
  {
    if n == 0 then 0 else SumBelow(m, w, n - 1) + Weight(m, w, n - 1)
  }

  /** Writing a row at or above the bound does not change the sum. */
  lemma {:induction false} SumBelowIgnoresAbove<V>(m: map<nat, V>, w: V -> nat, n: nat, k: nat, v: V)
    requires n <= k
    ensures SumBelow(m[k := v], w, n) == SumBelow(m, w, n)
    decreases n
  {
    if n > 0 {
      SumBelowIgnoresAbove(m, w, n - 1, k, v);
      assert Weight(m[k := v], w, n - 1) == Weight(m, w, n - 1);
    }
  }

  /** Writing a row below the bound trades its old weight for the new row's weight. */
  lemma {:induction false} SumBelowUpdate<V>(m: map<nat, V>, w: V -> nat, n: nat, k: nat, v: V)
    requires k < n
    ensures SumBelow(m[k := v], w, n) + Weight(m, w, k) == SumBelow(m, w, n) + w(v)
    decreases n
  {
    if k == n - 1 {
      SumBelowIgnoresAbove(m, w, n - 1, k, v);
    } else {
      SumBelowUpdate(m, w, n - 1, k, v);
      assert Weight(m[k := v], w, n - 1) == Weight(m, w, n - 1);
    }
  }
}
