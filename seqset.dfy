/** Sequences viewed as sets: the elements of a list, and lists without repeated values. */
module SeqSet {

  /** The set of values held by `s` (Python's `set(s)`). */
  function ToSet<T>(s: seq<T>): set<T> {
    set x | x in s
  }

  /** No value occurs at two indices of `s`. */
  predicate Distinct<T(==)>(s: seq<T>) {
    forall p, q :: 0 <= p < q < |s| ==> s[p] != s[q]
  }

  /** A duplicate-free list has as many elements as its set of values. */
  lemma {:induction false} DistinctCard<T>(s: seq<T>)
    requires Distinct(s)
    ensures |ToSet(s)| == |s|
  {
    if s != [] {
      var last := s[|s| - 1];
      var init := s[..|s| - 1];
      assert Distinct(init);
      DistinctCard(init);
      assert ToSet(s) == ToSet(init) + {last};
      assert last !in init;
    }
  }

  /** Only the empty list has no values. */
  lemma EmptySetEmptySeq<T>(s: seq<T>)
    ensures ToSet(s) == {} <==> s == []
  {
    if s != [] {
      assert s[0] in ToSet(s);
    }
  }
}
