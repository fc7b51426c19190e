// Comparison functions in the style of qsort: negative, zero or positive.
module Orders {

  datatype Option<T> = None | Some(value: T)

  // The comparison is consistent with a total preorder.
  ghost predicate TotalPreorder<K(!new)>(cmp: (K, K) -> int) {
    && (forall a, b :: cmp(a, b) < 0 <==> cmp(b, a) > 0)
    && (forall a, b, c :: cmp(a, b) <= 0 && cmp(b, c) <= 0 ==> cmp(a, c) <= 0)
  }

  lemma {:induction false} LessTrans<K(!new)>(cmp: (K, K) -> int, a: K, b: K, c: K)
    requires TotalPreorder(cmp) && cmp(a, b) < 0 && cmp(b, c) < 0
    ensures cmp(a, c) < 0
  {
  }

  lemma {:induction false} LessEqualTrans<K(!new)>(cmp: (K, K) -> int, a: K, b: K, c: K)
    requires TotalPreorder(cmp) && cmp(a, b) < 0 && cmp(c, b) == 0
    ensures cmp(c, a) > 0
  {
  }

  lemma {:induction false} EqualLessTrans<K(!new)>(cmp: (K, K) -> int, a: K, b: K, c: K)
    requires TotalPreorder(cmp) && cmp(a, b) == 0 && cmp(b, c) < 0
    ensures cmp(a, c) < 0
  {
  }

  lemma {:induction false} EqualTrans<K(!new)>(cmp: (K, K) -> int, a: K, b: K, c: K)
    requires TotalPreorder(cmp) && cmp(a, b) == 0 && cmp(b, c) == 0
    ensures cmp(a, c) == 0 && cmp(c, a) == 0
  {
  }
}
