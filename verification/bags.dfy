/** Finite multisets, the model of both priority queues. The drain loops
    terminate because every pop lowers the total weight of the queue. */
module Bags {

  /** The sum of `w` over every element of `q`, counting multiplicity. */
  ghost function Sum<T>(q: multiset<T>, w: T -> nat): nat
    decreases |q|
  {
    if q == multiset{} then 0
    else
      var x :| x in q;
      w(x) + Sum(q - multiset{x}, w)
  }

  /** Taking any one element out of a bag lowers the sum by exactly its weight. */
  lemma {:induction false} SumRemove<T>(q: multiset<T>, y: T, w: T -> nat)
    requires y in q
    ensures Sum(q, w) == w(y) + Sum(q - multiset{y}, w)
    decreases |q|
  {
    var x :| x in q && Sum(q, w) == w(x) + Sum(q - multiset{x}, w);
    if x != y {
      assert y in q - multiset{x};
      SumRemove(q - multiset{x}, y, w);
      assert x in q - multiset{y};
      SumRemove(q - multiset{y}, x, w);
      assert q - multiset{x} - multiset{y} == q - multiset{y} - multiset{x};
    }
  }

  /** Adding one element raises the sum by exactly its weight. */
  lemma SumAdd<T>(q: multiset<T>, y: T, w: T -> nat)
    ensures Sum(q + multiset{y}, w) == Sum(q, w) + w(y)
  {
    SumRemove(q + multiset{y}, y, w);
    assert q + multiset{y} - multiset{y} == q;
  }

  /** Taking one more element `x` out of the bag and onto the list of taken
      elements keeps the two together equal to the original bag. */
  lemma TakeOneMore<T>(q0: multiset<T>, before: multiset<T>, after: multiset<T>, taken: seq<T>, x: T)
    requires before + multiset(taken) == q0
    requires after + multiset{x} == before
    ensures after + multiset(taken + [x]) == q0
  {
    assert multiset(taken + [x]) == multiset(taken) + multiset{x};
  }

  /** Retiring one more id keeps "everything initially active except what has
      been retired so far". */
  lemma RetireOneMore<T>(a0: set<T>, before: set<T>, after: set<T>, retired: set<T>, id: T)
    requires before == a0 - retired
    requires after == before - {id}
    ensures after == a0 - (retired + {id})
  {
  }
}
