/** Stable lists: sorting by a strict total order, and why the outcome does not depend on the input order. */
module Sorting {

  /** `less` orders the given elements strictly and leaves no two of them incomparable. */
  ghost predicate TotalOn<T(!new)>(less: (T, T) -> bool, items: set<T>) {
    && (forall x <- items :: !less(x, x))
    && (forall x <- items, y <- items :: x == y || less(x, y) || less(y, x))
    && (forall x <- items, y <- items, z <- items :: less(x, y) && less(y, z) ==> less(x, z))
  }

  ghost predicate Ascending<T(!new)>(less: (T, T) -> bool, s: seq<T>) {
    forall i, k | 0 <= i < k < |s| :: less(s[i], s[k])
  }

  ghost function Elements<T>(s: seq<T>): set<T> {
    set x | x in s
  }

  predicate Distinct<T(==)>(s: seq<T>) {
    forall i, k | 0 <= i < k < |s| :: s[i] != s[k]
  }

  lemma {:induction false} SizeOfDistinct<T>(s: seq<T>)
    requires Distinct(s)
    ensures |Elements(s)| == |s|
  {
    if s != [] {
      var front, last := s[..|s| - 1], s[|s| - 1];
      SizeOfDistinct(front);
      assert Elements(s) == Elements(front) + {last};
    }
  }

  lemma {:induction false} RepeatedCountsTwice<T>(s: seq<T>, a: nat, b: nat)
    requires a < b < |s| && s[a] == s[b]
    ensures multiset(s)[s[a]] >= 2
  {
    assert s == s[..a] + [s[a]] + s[a + 1..b] + [s[b]] + s[b + 1..];
  }

  lemma {:induction false} DistinctCountsOnce<T>(s: seq<T>, x: T)
    requires Distinct(s)
    ensures multiset(s)[x] <= 1
  {
    if s != [] {
      DistinctCountsOnce(s[..|s| - 1], x);
      assert s == s[..|s| - 1] + [s[|s| - 1]];
    }
  }

  lemma CountsOnceDistinct<T>(s: seq<T>)
    requires forall x :: multiset(s)[x] <= 1
    ensures Distinct(s)
  {
    forall a, b | 0 <= a < b < |s| ensures s[a] != s[b] {
      if s[a] == s[b] {
        RepeatedCountsTwice(s, a, b);
      }
    }
  }

  /** Lists a set in some order. */
  method ListOf<T(==)>(items: set<T>) returns (list: seq<T>)
    ensures Elements(list) == items && Distinct(list) && |list| == |items|
  {
    list := [];
    var todo := items;
    while todo != {}
      invariant todo <= items && Elements(list) == items - todo && Distinct(list) && |list| == |items| - |todo|
    {
      var x :| x in todo;
      assert forall y :: y in list <==> y in Elements(list);
      list, todo := list + [x], todo - {x};
    }
  }

  /** An ascending list is determined by its elements. */
  lemma {:induction false} AscendingUnique<T(!new)>(less: (T, T) -> bool, s: seq<T>, t: seq<T>)
    requires Elements(s) == Elements(t) && TotalOn(less, Elements(s))
    requires Ascending(less, s) && Ascending(less, t)
    ensures s == t
  {
    assert |t| > 0 ==> t[0] in Elements(t);
    if |s| > 0 {
      assert s[0] in Elements(s) && s[0] in t && |t| > 0;
      assert t[0] in Elements(t) && t[0] in s;
      var i :| 0 <= i < |t| && t[i] == s[0];
      var k :| 0 <= k < |s| && s[k] == t[0];
      assert i == 0;
      assert s == [s[0]] + s[1..] && t == [t[0]] + t[1..];
      assert s[0] !in s[1..] && t[0] !in t[1..];
      assert Elements(s[1..]) == Elements(s) - {s[0]};
      assert Elements(t[1..]) == Elements(t) - {t[0]};
      AscendingUnique(less, s[1..], t[1..]);
    }
  }

  lemma AscendingInjective<T(!new)>(less: (T, T) -> bool, s: seq<T>, i: nat, k: nat)
    requires Ascending(less, s) && i < |s| && k < |s|
    requires s[i] == s[k] && !less(s[i], s[i])
    ensures i == k
  {
  }

  /** Inserting an element behind the last smaller one keeps a sorted prefix sorted. */
  lemma InsertAt<T(!new)>(less: (T, T) -> bool, sorted: seq<T>, p: nat, x: T, items: seq<T>, n: nat)
    requires TotalOn(less, Elements(items)) && n < |items| && items[n] == x && x !in items[..n]
    requires Ascending(less, sorted) && Elements(sorted) == Elements(items[..n])
    requires p <= |sorted| && (forall i | 0 <= i < p :: less(sorted[i], x)) && (p < |sorted| ==> !less(sorted[p], x))
    ensures var next := sorted[..p] + [x] + sorted[p..];
            Ascending(less, next) && Elements(next) == Elements(items[..n]) + {x}
  {
    var all, next := Elements(items), sorted[..p] + [x] + sorted[p..];
    assert x in all;
    forall i | p <= i < |sorted| ensures less(x, sorted[i]) {
      assert sorted[i] in Elements(sorted) && sorted[p] in Elements(sorted);
      assert sorted[i] in items[..n] && sorted[p] in items[..n];
      assert sorted[i] in all && sorted[p] in all;
      assert less(x, sorted[p]);
      assert i == p || less(sorted[p], sorted[i]);
    }
    assert Elements(next) == Elements(sorted) + {x};
  }

  /** Sorts a list without repetitions. */
  method SortBy<T(!new, ==)>(less: (T, T) -> bool, items: seq<T>) returns (sorted: seq<T>)
    requires TotalOn(less, Elements(items))
    requires Distinct(items)
    ensures Ascending(less, sorted) && Elements(sorted) == Elements(items) && |sorted| == |items|
  {
    sorted := [];
    for n := 0 to |items|
      invariant Ascending(less, sorted) && Elements(sorted) == Elements(items[..n]) && |sorted| == n
    {
      var x := items[n];
      var p := 0;
      while p < |sorted| && less(sorted[p], x)
        invariant 0 <= p <= |sorted|
        invariant forall i | 0 <= i < p :: less(sorted[i], x)
      {
        p := p + 1;
      }
      InsertAt(less, sorted, p, x, items, n);
      sorted := sorted[..p] + [x] + sorted[p..];
      assert items[..n + 1] == items[..n] + [x];
    }
    assert items[..|items|] == items;
  }

  lemma BeyondPrefix<T>(s: seq<T>, n: nat, x: T) returns (k: nat)
    requires n <= |s| && x in s && x !in s[..n]
    ensures n <= k < |s| && s[k] == x
  {
    assert s == s[..n] + s[n..];
    var i :| 0 <= i < |s[n..]| && s[n..][i] == x;
    k := n + i;
  }

  ghost predicate IsLeast<T(!new)>(less: (T, T) -> bool, items: set<T>, m: T) {
    m in items && forall x <- items :: x == m || less(m, x)
  }

  ghost function LeastOf<T(!new)>(less: (T, T) -> bool, items: set<T>): (m: T)
    requires TotalOn(less, items) && items != {}
    ensures IsLeast(less, items, m)
  {
    var x :| x in items;
    var rest := items - {x};
    assert items == {x} + rest;
    if rest == {} then x else
      var m := LeastOf(less, rest);
      if less(x, m) then x else m
  }

  lemma LeastUnique<T(!new)>(less: (T, T) -> bool, items: set<T>, m: T, n: T)
    requires TotalOn(less, items) && IsLeast(less, items, m) && IsLeast(less, items, n)
    ensures m == n
  {
    assert m == n || (less(m, n) && less(n, m));
  }

  /** The first element of the sorted items. */
  method Least<T(!new, ==)>(less: (T, T) -> bool, items: set<T>) returns (m: T)
    requires TotalOn(less, items) && items != {}
    ensures m == LeastOf(less, items)
  {
    m :| m in items;
    var rest := items - {m};
    while rest != {}
      invariant rest <= items && IsLeast(less, items - rest, m)
    {
      var x :| x in rest;
      if less(x, m) {
        m := x;
      }
      rest := rest - {x};
    }
    assert items - rest == items;
    LeastUnique(less, items, m, LeastOf(less, items));
  }
}
