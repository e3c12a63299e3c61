/** Facts about sequences without repeated elements. */
module Seqs {

  predicate NoRepeats<T(==)>(a: seq<T>)
  {
    forall i, j :: 0 <= i < j < |a| ==> a[i] != a[j]
  }

  /** In a sequence without repeats every element occurs exactly once. */
  lemma {:induction false} NoRepeatsCountsOnce<T>(a: seq<T>, x: T)
    requires NoRepeats(a)
    ensures multiset(a)[x] == if x in a then 1 else 0
  {
    if a != [] {
      var rest := a[1..];
      assert a == [a[0]] + rest;
      assert NoRepeats(rest) by {
        forall i, j | 0 <= i < j < |rest|
          ensures rest[i] != rest[j]
        {
          assert rest[i] == a[i + 1] && rest[j] == a[j + 1];
        }
      }
      NoRepeatsCountsOnce(rest, x);
      assert x == a[0] ==> x !in rest;
    }
  }
}
