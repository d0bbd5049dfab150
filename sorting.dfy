/** A stable sort by a total preorder: JavaScript's `Array.prototype.sort`
    (stable since ECMAScript 2019) and the ORDER BY of the SQL queries, where
    rows with equal keys are kept in table order. */
module Sorting {

  ghost predicate TotalPreorder<T(!new)>(le: (T, T) -> bool)
  {
    && (forall a, b :: le(a, b) || le(b, a))
    && (forall a, b, c :: le(a, b) && le(b, c) ==> le(a, c))
  }

  ghost predicate Sorted<T>(s: seq<T>, le: (T, T) -> bool)
  {
    forall i, j :: 0 <= i < j < |s| ==> le(s[i], s[j])
  }

  /** a and b have equal sort keys. */
  predicate Tied<T>(le: (T, T) -> bool, a: T, b: T)
  {
    le(a, b) && le(b, a)
  }

  /** The elements of s whose key equals that of k, in order. */
  function TiedWith<T>(s: seq<T>, k: T, le: (T, T) -> bool): seq<T>
  {
    if s == [] then []
    else TiedWith(s[..|s| - 1], k, le) + (if Tied(le, s[|s| - 1], k) then [s[|s| - 1]] else [])
  }

  lemma {:induction false} TiedWithAppend<T>(a: seq<T>, b: seq<T>, k: T, le: (T, T) -> bool)
    ensures TiedWith(a + b, k, le) == TiedWith(a, k, le) + TiedWith(b, k, le)
    decreases |b|
  {
    if b == [] {
      assert a + b == a;
    } else {
      assert (a + b)[..|a + b| - 1] == a + b[..|b| - 1];
      TiedWithAppend(a, b[..|b| - 1], k, le);
    }
  }

  /** Insert x behind every element whose key is at most x's. */
  function Insert<T>(s: seq<T>, x: T, le: (T, T) -> bool): seq<T>
  {
    if s == [] then [x]
    else if le(s[|s| - 1], x) then s + [x]
    else Insert(s[..|s| - 1], x, le) + [s[|s| - 1]]
  }

  function SortBy<T>(s: seq<T>, le: (T, T) -> bool): seq<T>
  {
    if s == [] then [] else Insert(SortBy(s[..|s| - 1], le), s[|s| - 1], le)
  }

  lemma {:induction false} InsertMultiset<T>(s: seq<T>, x: T, le: (T, T) -> bool)
    ensures multiset(Insert(s, x, le)) == multiset(s) + multiset{x}
    decreases |s|
  {
    if s != [] && !le(s[|s| - 1], x) {
      InsertMultiset(s[..|s| - 1], x, le);
      assert s == s[..|s| - 1] + [s[|s| - 1]];
    }
  }

  lemma {:induction false} InsertSorted<T(!new)>(s: seq<T>, x: T, le: (T, T) -> bool)
    requires TotalPreorder(le)
    requires Sorted(s, le)
    ensures Sorted(Insert(s, x, le), le)
    ensures |Insert(s, x, le)| == |s| + 1
    decreases |s|
  {
    if s != [] && !le(s[|s| - 1], x) {
      var init := s[..|s| - 1];
      var last := s[|s| - 1];
      InsertSorted(init, x, le);
      InsertMultiset(init, x, le);
      var ins := Insert(init, x, le);
      assert le(x, last);
      forall i | 0 <= i < |ins|
        ensures le(ins[i], last)
      {
        assert ins[i] in multiset(ins);
        assert ins[i] in multiset(init) + multiset{x};
        if ins[i] != x {
          assert ins[i] in init;
        }
      }
    }
  }

  /** The result is ordered by le and is a permutation of the input. */
  lemma {:induction false} SortByCorrect<T(!new)>(s: seq<T>, le: (T, T) -> bool)
    requires TotalPreorder(le)
    ensures Sorted(SortBy(s, le), le)
    ensures multiset(SortBy(s, le)) == multiset(s)
    ensures |SortBy(s, le)| == |s|
    decreases |s|
  {
    if s != [] {
      SortByCorrect(s[..|s| - 1], le);
      InsertSorted(SortBy(s[..|s| - 1], le), s[|s| - 1], le);
      InsertMultiset(SortBy(s[..|s| - 1], le), s[|s| - 1], le);
      assert s == s[..|s| - 1] + [s[|s| - 1]];
    }
  }

  lemma {:induction false} InsertStable<T(!new)>(s: seq<T>, x: T, k: T, le: (T, T) -> bool)
    requires TotalPreorder(le)
    requires Sorted(s, le)
    ensures TiedWith(Insert(s, x, le), k, le) == TiedWith(s, k, le) + TiedWith([x], k, le)
    decreases |s|
  {
    if s == [] {
      assert Insert(s, x, le) == [] + [x];
    } else if le(s[|s| - 1], x) {
      TiedWithAppend(s, [x], k, le);
    } else {
      var init := s[..|s| - 1];
      var last := s[|s| - 1];
      assert s == init + [last];
      InsertStable(init, x, k, le);
      TiedWithAppend(Insert(init, x, le), [last], k, le);
      TiedWithAppend(init, [last], k, le);
      assert [last][..0] == [] && [x][..0] == [];
      if Tied(le, x, k) {
        // last lies strictly above x, so it cannot be tied with k
        assert !Tied(le, last, k);
      }
    }
  }

  /** Stability: for every key, the elements with that key appear in the
      result in the order they have in the input. */
  lemma {:induction false} SortByStable<T(!new)>(s: seq<T>, k: T, le: (T, T) -> bool)
    requires TotalPreorder(le)
    ensures TiedWith(SortBy(s, le), k, le) == TiedWith(s, k, le)
    decreases |s|
  {
    if s != [] {
      var init := s[..|s| - 1];
      SortByStable(init, k, le);
      SortByStep(s, k, le);
      assert s == init + [s[|s| - 1]];
      TiedWithAppend(init, [s[|s| - 1]], k, le);
    }
  }

  /** Sorting one more element adds its tie (if any) behind the others. */
  lemma SortByStep<T(!new)>(s: seq<T>, k: T, le: (T, T) -> bool)
    requires TotalPreorder(le)
    requires s != []
    ensures TiedWith(SortBy(s, le), k, le)
         == TiedWith(SortBy(s[..|s| - 1], le), k, le) + TiedWith([s[|s| - 1]], k, le)
  {
    SortByCorrect(s[..|s| - 1], le);
    InsertStable(SortBy(s[..|s| - 1], le), s[|s| - 1], k, le);
  }

  /** The first n elements, or all of them when n is negative: SQL LIMIT
      (SQLite reads a negative limit as "no limit"). */
  function Limit<T>(s: seq<T>, n: int): (r: seq<T>)
    ensures |r| == (if n < 0 || n >= |s| then |s| else n)
    ensures r == s[..|r|]
  {
    if n < 0 || n >= |s| then s else s[..n]
  }

  /** r is what `ORDER BY ... LIMIT n` may return from the rows s: as many
      rows as the limit lets through, each taken from s, in order, and no row
      left out ranks strictly before a row kept. */
  ghost predicate TopN<T(!new)>(r: seq<T>, s: seq<T>, n: int, le: (T, T) -> bool)
  {
    && |r| == (if n < 0 || n >= |s| then |s| else n)
    && multiset(r) <= multiset(s)
    && Sorted(r, le)
    && forall x, y :: x in multiset(s) - multiset(r) && y in r ==> le(y, x)
  }

  /** Sorting, then keeping the first n, keeps the n best rows. */
  lemma LimitSortBy<T(!new)>(s: seq<T>, n: int, le: (T, T) -> bool)
    requires TotalPreorder(le)
    ensures TopN(Limit(SortBy(s, le), n), s, n, le)
  {
    SortByCorrect(s, le);
    var sorted := SortBy(s, le);
    var r := Limit(sorted, n);
    SortedPrefix(sorted, |r|, le);
  }

  /** A prefix of a sorted sequence is sorted, and no element after it ranks
      strictly before an element in it. */
  lemma SortedPrefix<T>(t: seq<T>, k: int, le: (T, T) -> bool)
    requires Sorted(t, le) && 0 <= k <= |t|
    ensures Sorted(t[..k], le)
    ensures multiset(t[..k]) <= multiset(t)
    ensures forall x, y :: x in multiset(t) - multiset(t[..k]) && y in t[..k] ==> le(y, x)
  {
    var p, rest := t[..k], t[k..];
    assert t == p + rest;
    assert multiset(t) == multiset(p) + multiset(rest);
    forall x, y | x in multiset(t) - multiset(p) && y in p
      ensures le(y, x)
    {
      assert x in rest;
      var j :| 0 <= j < |rest| && rest[j] == x;
      var i :| 0 <= i < k && p[i] == y;
      assert t[i] == y && t[k + j] == x;
    }
  }

  /** An element strictly above every other element by le comes first. */
  lemma SortByFirst<T(!new)>(s: seq<T>, le: (T, T) -> bool, x: T)
    requires TotalPreorder(le)
    requires x in s
    requires forall y :: y in s && y != x ==> !le(y, x)
    ensures |SortBy(s, le)| > 0 && SortBy(s, le)[0] == x
  {
    SortByCorrect(s, le);
    var r := SortBy(s, le);
    assert x in multiset(r);
    var j :| 0 <= j < |r| && r[j] == x;
    assert r[0] in multiset(s);
    if j > 0 {
      assert le(r[0], r[j]);
    }
  }
  /** Sorting keeps exactly the elements of the input. */
  lemma SortByMembers<T(!new)>(s: seq<T>, le: (T, T) -> bool)
    requires TotalPreorder(le)
    ensures forall x :: x in SortBy(s, le) <==> x in s
  {
    SortByCorrect(s, le);
    forall x
      ensures x in SortBy(s, le) <==> x in s
    {
      assert x in SortBy(s, le) <==> x in multiset(SortBy(s, le));
      assert x in s <==> x in multiset(s);
    }
  }
}
