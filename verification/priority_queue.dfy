/** The part of std::priority_queue that both schedulers rely on: with a
    comparator `less`, `top()` yields an element that no other queued element
    is greater than. Which one, among several such elements, is left open:
    it depends on the heap's internal layout. */
module PriorityQueue {

  ghost predicate Irreflexive<T(!new)>(less: (T, T) -> bool) {
    forall a :: !less(a, a)
  }

  ghost predicate Transitive<T(!new)>(less: (T, T) -> bool) {
    forall a, b, c :: less(a, b) && less(b, c) ==> less(a, c)
  }

  /** Two elements are equivalent when neither is less than the other. */
  predicate Equivalent<T>(less: (T, T) -> bool, a: T, b: T) {
    !less(a, b) && !less(b, a)
  }

  /** The requirement the C++ standard places on a priority_queue comparator. */
  ghost predicate StrictWeakOrder<T(!new)>(less: (T, T) -> bool) {
    && Irreflexive(less)
    && Transitive(less)
    && forall a, b, c :: Equivalent(less, a, b) && Equivalent(less, b, c) ==> Equivalent(less, a, c)
  }

  /** `x` may be what `top()` returns for a heap holding exactly `q`. */
  predicate IsTop<T(==)>(x: T, q: multiset<T>, less: (T, T) -> bool) {
    x in q && forall y :: y in q ==> !less(x, y)
  }

  /** A non-empty queue always has a top, so `top()` after a non-empty check is defined. */
  lemma {:induction false} TopExists<T(!new)>(q: multiset<T>, less: (T, T) -> bool)
    requires q != multiset{}
    requires Irreflexive(less) && Transitive(less)
    ensures exists x :: IsTop(x, q, less)
    decreases |q|
  {
    var a :| a in q;
    var rest := q - multiset{a};
    assert q == rest + multiset{a};
    if rest == multiset{} {
      assert IsTop(a, q, less);
    } else {
      TopExists(rest, less);
      var m :| IsTop(m, rest, less);
      assert forall y :: y in q ==> y == a || y in rest;
      if less(m, a) {
        assert IsTop(a, q, less);
      } else {
        assert IsTop(m, q, less);
      }
    }
  }

  /** Any two candidates for `top()` are equivalent under the comparator, so
      the heap's free choice is only ever between equal keys. */
  lemma TopsAreEquivalent<T>(x: T, y: T, q: multiset<T>, less: (T, T) -> bool)
    requires IsTop(x, q, less) && IsTop(y, q, less)
    ensures Equivalent(less, x, y)
  {
  }
}
