/** Counting in finite sequences and sets: sizes of subsets, duplicate-free sequences, permutations. */
module Finite {
  import opened Domain

  ghost function Elements<T>(s: seq<T>): set<T> {
    set x | x in s
  }

  lemma {:induction false} DuplicateFreeByCount<T>(s: seq<T>)
    ensures |Elements(s)| <= |s|
    ensures NoDuplicates(s) <==> |Elements(s)| == |s|
  {
    if |s| == 0 {
    } else {
      var n := |s| - 1;
      var front := s[..n];
      DuplicateFreeByCount(front);
      assert s == front + [s[n]];
      assert Elements(s) == Elements(front) + {s[n]};
      if s[n] in front {
        var k :| 0 <= k < n && front[k] == s[n];
        assert s[k] == s[n];
        assert Elements(s) == Elements(front);
      } else {
        assert |Elements(s)| == |Elements(front)| + 1;
        assert forall j, k :: 0 <= j < k < n ==> front[j] == s[j] && front[k] == s[k];
        assert forall j :: 0 <= j < n ==> s[j] in front;
      }
    }
  }

  lemma SubsetSize<T>(a: set<T>, b: set<T>)
    requires a <= b
    ensures |a| <= |b|
    ensures |a| == |b| ==> a == b
  {
    assert b == a + (b - a);
    assert |b| == |a| + |b - a|;
  }

  /** As many picks as there are ids, all of them ids: no repetition exactly when nothing is missed. */
  lemma Pigeonhole(order: seq<int>, ids: seq<int>)
    requires |order| == |ids| && NoDuplicates(ids) && Elements(order) <= Elements(ids)
    ensures NoDuplicates(order) <==> Elements(order) == Elements(ids)
  {
    DuplicateFreeByCount(order);
    DuplicateFreeByCount(ids);
    if NoDuplicates(order) {
      SubsetSize(Elements(order), Elements(ids));
    }
  }

  lemma {:induction false} MultiplicityOfDistinct<T>(s: seq<T>, x: T)
    requires NoDuplicates(s)
    ensures multiset(s)[x] == if x in s then 1 else 0
  {
    if |s| == 0 {
    } else {
      var n := |s| - 1;
      assert s == s[..n] + [s[n]];
      MultiplicityOfDistinct(s[..n], x);
      if x == s[n] {
        assert x !in s[..n];
      }
    }
  }

  lemma DistinctWithSameElements<T>(s: seq<T>, t: seq<T>)
    requires NoDuplicates(s) && NoDuplicates(t) && Elements(s) == Elements(t)
    ensures multiset(s) == multiset(t)
  {
    forall x
      ensures multiset(s)[x] == multiset(t)[x]
    {
      MultiplicityOfDistinct(s, x);
      MultiplicityOfDistinct(t, x);
      assert x in s <==> x in Elements(s);
      assert x in t <==> x in Elements(t);
    }
  }

  lemma PermutationOfDistinct(order: seq<int>, ids: seq<int>)
    requires NoDuplicates(ids)
    ensures multiset(order) == multiset(ids) <==> NoDuplicates(order) && Elements(order) == Elements(ids)
  {
    if multiset(order) == multiset(ids) {
      assert |order| == |multiset(order)| && |ids| == |multiset(ids)|;
      assert forall x :: x in Elements(order) <==> x in multiset(order);
      assert forall x :: x in Elements(ids) <==> x in multiset(ids);
      assert Elements(order) == Elements(ids);
      Pigeonhole(order, ids);
    } else if NoDuplicates(order) && Elements(order) == Elements(ids) {
      DistinctWithSameElements(order, ids);
    }
  }
}
