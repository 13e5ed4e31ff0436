/** Sizes of finite sets, and of the lists that enumerate them. */
module Cardinality {
  import opened SliceUtil

  function Range(n: nat): (r: set<int>)
    ensures forall k :: k in r <==> 0 <= k < n
    ensures |r| == n
  {
    if n == 0 then {} else Range(n - 1) + {n - 1}
  }

  lemma SubsetSize<T>(a: set<T>, b: set<T>)
    requires a <= b
    ensures |a| <= |b|
    ensures |a| == |b| ==> a == b
  {
    assert b == a + (b - a);
  }

  function Elements<T>(s: seq<T>): set<T> {
    set x | x in s
  }

  /** A list has as many elements as entries exactly if it has no duplicates. */
  lemma {:induction false} DistinctCount<T>(s: seq<T>)
    ensures |Elements(s)| <= |s|
    ensures |Elements(s)| == |s| <==> NoDuplicates(s)
  {
    if |s| == 0 {
      assert Elements(s) == {};
    } else {
      var front, last := s[..|s| - 1], s[|s| - 1];
      DistinctCount(front);
      assert s == front + [last];
      assert Elements(s) == Elements(front) + {last};
      if last in front {
        assert Elements(s) == Elements(front);
        var i :| 0 <= i < |front| && front[i] == last;
        assert s[i] == s[|s| - 1];
      } else {
        assert NoDuplicates(front) ==> NoDuplicates(s);
        assert NoDuplicates(s) ==> NoDuplicates(front);
      }
    }
  }

  lemma DistinctIndices(s: seq<int>, n: nat)
    requires NoDuplicates(s) && forall i :: i in s ==> 0 <= i < n
    ensures |s| <= n
  {
    DistinctCount(s);
    SubsetSize(Elements(s), Range(n));
  }
}
