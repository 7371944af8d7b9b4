/** Results shared by the modules of the model. */
module Basics {
  datatype Option<+T> = None | Some(value: T)

  /** A call that the source may end with a panic: a failed `assert!`, `expect` or `unwrap`,
      or no memory left. The run ends at a panic. */
  datatype Outcome<+T> = Panicked | Returned(value: T)

  ghost predicate Distinct<T>(l: seq<T>) { forall i, j :: 0 <= i < j < |l| ==> l[i] != l[j] }

  lemma SameMembers<T>(a: seq<T>, b: seq<T>)
    requires multiset(a) == multiset(b)
    ensures forall e :: e in a <==> e in b
  {
    forall e
      ensures e in a <==> e in b
    {
      assert e in a <==> e in multiset(a);
      assert e in b <==> e in multiset(b);
    }
  }

  lemma SubsetSize<T>(a: set<T>, b: set<T>)
    requires a <= b
    ensures |a| <= |b| && (|a| == |b| ==> a == b)
  {
    assert b == a + (b - a);
  }
}
