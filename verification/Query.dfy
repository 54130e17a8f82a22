/**
 SELECT ... ORDER BY over a set of distinct rows: the one sequence that lists the selected
 rows in a strict total order. A query with ties is modelled with a tie-break added.
 */
module Query {
  import opened Finite

  ghost predicate StrictTotalOn<T(!new)>(less: (T, T) -> bool, rows: set<T>) {
    && (forall x :: x in rows ==> !less(x, x))
    && (forall x, y, z :: x in rows && y in rows && z in rows && less(x, y) && less(y, z) ==> less(x, z))
    && (forall x, y :: x in rows && y in rows && x != y ==> less(x, y) || less(y, x))
  }

  ghost predicate Sorted<T>(s: seq<T>, less: (T, T) -> bool) {
    forall i, j :: 0 <= i < j < |s| ==> less(s[i], s[j])
  }

  ghost predicate Lists<T(!new)>(s: seq<T>, rows: set<T>) {
    forall x :: x in s <==> x in rows
  }

  ghost predicate Least<T(!new)>(m: T, rows: set<T>, less: (T, T) -> bool) {
    m in rows && forall x :: x in rows && x != m ==> less(m, x)
  }

  lemma {:induction false} LeastExists<T(!new)>(rows: set<T>, less: (T, T) -> bool)
    requires StrictTotalOn(less, rows) && rows != {}
    ensures exists m :: Least(m, rows, less)
    decreases |rows|
  {
    var a :| a in rows;
    var rest := rows - {a};
    if rest == {} {
      assert rows == {a};
      assert Least(a, rows, less);
    } else {
      LeastExists(rest, less);
      var m :| Least(m, rest, less);
      assert Least(if less(a, m) then a else m, rows, less);
    }
  }

  function OrderBy<T(!new, ==)>(rows: set<T>, less: (T, T) -> bool): (s: seq<T>)
    requires StrictTotalOn(less, rows)
    ensures Lists(s, rows) && Sorted(s, less)
    decreases |rows|
  {
    if rows == {} then []
    else
      LeastExists(rows, less);
      var m :| m in rows && forall x :: x in rows && x != m ==> less(m, x);
      assert StrictTotalOn(less, rows - {m});
      [m] + OrderBy(rows - {m}, less)
  }

  /** A sorted listing of given rows is unique, so it is what the query returns. */
  lemma {:induction false} OrderByIsUnique<T(!new)>(s: seq<T>, t: seq<T>, rows: set<T>, less: (T, T) -> bool)
    requires StrictTotalOn(less, rows)
    requires Lists(s, rows) && Sorted(s, less)
    requires Lists(t, rows) && Sorted(t, less)
    ensures s == t
    decreases |s|
  {
    FirstIsLeast(s, rows, less);
    FirstIsLeast(t, rows, less);
    if s != [] {
      assert s[0] == t[0];
      TailLists(s, rows, less);
      TailLists(t, rows, less);
      OrderByIsUnique(s[1..], t[1..], rows - {s[0]}, less);
    }
  }

  lemma FirstIsLeast<T(!new)>(s: seq<T>, rows: set<T>, less: (T, T) -> bool)
    requires Lists(s, rows) && Sorted(s, less)
    ensures s == [] <==> rows == {}
    ensures s != [] ==> s[0] in rows && forall x :: x in rows && x != s[0] ==> less(s[0], x)
  {
    if s != [] {
      assert s[0] in s;
    } else {
      assert forall x :: x in rows ==> x in s;
    }
  }

  lemma TailLists<T(!new)>(s: seq<T>, rows: set<T>, less: (T, T) -> bool)
    requires StrictTotalOn(less, rows) && Lists(s, rows) && Sorted(s, less) && s != []
    ensures Lists(s[1..], rows - {s[0]}) && Sorted(s[1..], less)
    ensures StrictTotalOn(less, rows - {s[0]})
  {
    forall x
      ensures x in s[1..] <==> x in rows - {s[0]}
    {
      if x in s[1..] {
        var k :| 0 <= k < |s[1..]| && s[1..][k] == x;
        assert s[k + 1] == x && less(s[0], x);
        assert s[0] in s && x in s;
      }
    }
  }

  lemma ListingHasElements<T(!new)>(s: seq<T>, rows: set<T>)
    requires Lists(s, rows)
    ensures Elements(s) == rows
  {
  }

  /** Text columns compare by code points. */
  predicate TextLess(a: string, b: string) {
    if |b| == 0 then false
    else if |a| == 0 then true
    else a[0] < b[0] || (a[0] == b[0] && TextLess(a[1..], b[1..]))
  }

  lemma {:induction false} TextIsOrdered(a: string, b: string, c: string)
    ensures !TextLess(a, a)
    ensures a != b ==> TextLess(a, b) || TextLess(b, a)
    ensures TextLess(a, b) && TextLess(b, c) ==> TextLess(a, c)
    decreases |a| + |b| + |c|
  {
    if |a| > 0 && |b| > 0 && |c| > 0 {
      TextIsOrdered(a[1..], b[1..], c[1..]);
      assert a == [a[0]] + a[1..] && b == [b[0]] + b[1..];
    } else if |a| > 0 && |b| > 0 {
      TextIsOrdered(a[1..], b[1..], c);
      assert a == [a[0]] + a[1..] && b == [b[0]] + b[1..];
    } else if |a| > 0 {
      TextIsOrdered(a[1..], b, c);
    }
  }

  /** They agree up to n; there a ends, or has the smaller character. */
  predicate DifferAt(a: string, b: string, n: nat) {
    n <= |a| && n < |b| && a[..n] == b[..n] && (n == |a| || a[n] < b[n])
  }

  /** Where they first differ, a has ended or has the smaller character. */
  ghost predicate Precedes(a: string, b: string) {
    exists n: nat :: DifferAt(a, b, n)
  }

  lemma TailsDifferAt(a: string, b: string, n: nat)
    requires |a| > 0 && |b| > 0 && a[0] == b[0]
    ensures DifferAt(a, b, n + 1) <==> DifferAt(a[1..], b[1..], n)
  {
    if n < |a| && n + 1 < |b| {
      assert a[..n + 1] == [a[0]] + a[1..][..n] && b[..n + 1] == [b[0]] + b[1..][..n];
      assert a[1..][..n] == a[..n + 1][1..] && b[1..][..n] == b[..n + 1][1..];
    }
  }

  lemma HeadsDiffer(a: string, b: string)
    requires |a| == 0 || |b| == 0 || a[0] != b[0]
    ensures Precedes(a, b) <==> |b| > 0 && (|a| == 0 || a[0] < b[0])
  {
    forall n: nat | 0 < n <= |a| && n < |b|
      ensures a[..n] != b[..n]
    {
      assert a[..n][0] == a[0] && b[..n][0] == b[0];
    }
    if |b| > 0 && (|a| == 0 || a[0] < b[0]) {
      assert DifferAt(a, b, 0);
    }
  }

  lemma {:induction false} TextLessExactly(a: string, b: string)
    ensures TextLess(a, b) <==> Precedes(a, b)
    decreases |a|
  {
    if |a| == 0 || |b| == 0 || a[0] != b[0] {
      HeadsDiffer(a, b);
    } else {
      TextLessExactly(a[1..], b[1..]);
      if Precedes(a[1..], b[1..]) {
        var n: nat :| DifferAt(a[1..], b[1..], n);
        TailsDifferAt(a, b, n);
      }
      if Precedes(a, b) {
        var n: nat :| DifferAt(a, b, n);
        TailsDifferAt(a, b, n - 1);
      }
    }
  }
}
