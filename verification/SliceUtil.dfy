/** The integer-slice helpers that keep a connection's download queue free of duplicates. */
module SliceUtil {

  ghost predicate NoDuplicates<T>(s: seq<T>) {
    forall i, j :: 0 <= i < j < |s| ==> s[i] != s[j]
  }

  /** Position `p` holds the first occurrence of `x` in `s`. */
  ghost predicate FirstAt(s: seq<int>, p: int, x: int) {
    0 <= p < |s| && s[p] == x && x !in s[..p]
  }

  /** The elements of `sub` stand in the order in which `s` first mentions them. */
  ghost predicate InOrderOf(s: seq<int>, sub: seq<int>) {
    forall i, j, p, q | 0 <= i < j < |sub| && FirstAt(s, p, sub[i]) && FirstAt(s, q, sub[j]) :: p < q
  }

  method IntSliceHas(haystack: seq<int>, needle: int) returns (found: bool)
    ensures found <==> needle in haystack
  {
    for i := 0 to |haystack|
      invariant needle !in haystack[..i]
    {
      if needle == haystack[i] {
        return true;
      }
    }
    return false;
  }

  function AppendIfUnique(slice: seq<int>, elem: int): seq<int> {
    if elem in slice then slice else slice + [elem]
  }

  method IntSliceAppendIfUnique(slice: seq<int>, elem: int) returns (r: seq<int>)
    ensures r == AppendIfUnique(slice, elem)
  {
    var didFind := false;
    for i := 0 to |slice|
      invariant !didFind && elem !in slice[..i]
    {
      if slice[i] == elem {
        didFind := true;
        break;
      }
    }
    r := slice;
    if !didFind {
      r := r + [elem];
    }
  }

  /** `acc` extended by the elements of `s` that it does not hold yet. */
  function MergeInto(acc: seq<int>, s: seq<int>): seq<int> {
    if s == [] then acc else AppendIfUnique(MergeInto(acc, s[..|s| - 1]), s[|s| - 1])
  }

  function UniqueMerge(sliceA: seq<int>, sliceB: seq<int>): seq<int> {
    MergeInto(MergeInto([], sliceA), sliceB)
  }

  lemma {:induction false} MergeIntoGrows(acc: seq<int>, s: seq<int>)
    ensures |MergeInto(acc, s)| >= |acc|
    ensures |s| > 0 ==> |MergeInto(acc, s)| > 0
  {
    if |s| > 0 {
      MergeIntoGrows(acc, s[..|s| - 1]);
    }
  }

  /** What a merge adds to its first slice. */
  function Newcomers(sliceA: seq<int>, sliceB: seq<int>): seq<int> {
    var kept := MergeInto([], sliceA);
    MergeIntoGrows(kept, sliceB);
    UniqueMerge(sliceA, sliceB)[|kept|..]
  }

  method IntSliceUniqueMergeSlices(sliceA: seq<int>, sliceB: seq<int>) returns (merged: seq<int>)
    ensures merged == UniqueMerge(sliceA, sliceB)
  {
    merged := [];
    for i := 0 to |sliceA|
      invariant merged == MergeInto([], sliceA[..i])
    {
      assert sliceA[..i + 1][..i] == sliceA[..i];
      merged := IntSliceAppendIfUnique(merged, sliceA[i]);
    }
    assert sliceA[..|sliceA|] == sliceA;
    for i := 0 to |sliceB|
      invariant merged == MergeInto(MergeInto([], sliceA), sliceB[..i])
    {
      assert sliceB[..i + 1][..i] == sliceB[..i];
      merged := IntSliceAppendIfUnique(merged, sliceB[i]);
    }
    assert sliceB[..|sliceB|] == sliceB;
  }

  /** One merge loop: the accumulator stays in front, nothing is lost, invented or repeated, and the
      newcomers appear in the order of their first occurrence. */
  lemma {:induction false} MergeIntoLaws(acc: seq<int>, s: seq<int>)
    requires NoDuplicates(acc)
    ensures acc <= MergeInto(acc, s)
    ensures NoDuplicates(MergeInto(acc, s))
    ensures forall x :: x in MergeInto(acc, s) <==> x in acc || x in s
    ensures InOrderOf(s, MergeInto(acc, s)[|acc|..])
  {
    if s != [] {
      var front, last := s[..|s| - 1], s[|s| - 1];
      MergeIntoLaws(acc, front);
      assert s == front + [last];
      var before, sub := MergeInto(acc, front)[|acc|..], MergeInto(acc, s)[|acc|..];
      forall i, j, p, q | 0 <= i < j < |sub| && FirstAt(s, p, sub[i]) && FirstAt(s, q, sub[j])
        ensures p < q
      {
        assert sub[i] == before[i] && before[i] in MergeInto(acc, front) && before[i] !in acc;
        if j < |before| {
          assert sub[j] == before[j] && before[j] in MergeInto(acc, front) && before[j] !in acc;
          FirstAtPrefix(front, last, p, sub[i]);
          FirstAtPrefix(front, last, q, sub[j]);
        } else {
          FirstAtPrefix(front, last, p, sub[i]);
          assert sub[j] == last && last !in front;
        }
      }
    }
  }

  lemma FirstAtPrefix(front: seq<int>, last: int, p: int, x: int)
    requires x in front && FirstAt(front + [last], p, x)
    ensures FirstAt(front, p, x)
  {
    var s := front + [last];
    if p == |front| {
      assert s[..p] == front;
    } else {
      assert s[..p] == front[..p];
    }
  }

  /** Merging two slices, the first of them already duplicate-free as every queue is. */
  lemma UniqueMergeLaws(a: seq<int>, b: seq<int>)
    requires NoDuplicates(a)
    ensures UniqueMerge(a, b) == a + Newcomers(a, b)
    ensures NoDuplicates(UniqueMerge(a, b))
    ensures forall x :: x in Newcomers(a, b) <==> x in b && x !in a
    ensures InOrderOf(b, Newcomers(a, b))
  {
    MergeOfUnique(a);
    MergeIntoLaws(a, b);
  }

  lemma {:induction false} MergeOfUnique(a: seq<int>)
    requires NoDuplicates(a)
    ensures MergeInto([], a) == a
  {
    if a != [] {
      var front := a[..|a| - 1];
      MergeOfUnique(front);
      assert a == front + [a[|a| - 1]];
    }
  }
}
