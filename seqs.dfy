/** Sums over sequences: the `reduce((acc, x) => acc + x, 0)` and SQL SUM of the
    application, and the facts about them that the views rely on. */
module Seqs {

  /** Sum of a sequence of amounts, folded from the left as `reduce` does. */
  function Sum(s: seq<int>): int
  {
    if s == [] then 0 else Sum(s[..|s| - 1]) + s[|s| - 1]
  }

  lemma {:induction false} SumAppend(a: seq<int>, b: seq<int>)
    ensures Sum(a + b) == Sum(a) + Sum(b)
    decreases |b|
  {
    if b == [] {
      assert a + b == a;
    } else {
      assert (a + b)[..|a + b| - 1] == a + b[..|b| - 1];
      SumAppend(a, b[..|b| - 1]);
    }
  }

  lemma SumSingleton(x: int)
    ensures Sum([x]) == x
  {
    assert [x][..0] == [];
  }

  /** Adding the amounts in any order gives the same sum. */
  lemma {:induction false} SumPermutation(a: seq<int>, b: seq<int>)
    requires multiset(a) == multiset(b)
    ensures Sum(a) == Sum(b)
    decreases |a|
  {
    if a == [] {
      assert |b| == |multiset(b)| == 0;
    } else {
      var x := a[|a| - 1];
      var a' := a[..|a| - 1];
      assert a == a' + [x];
      assert x in multiset(b);
      var j :| 0 <= j < |b| && b[j] == x;
      var b' := b[..j] + b[j + 1..];
      RemoveAt(b, j);
      assert multiset(a') == multiset(a) - multiset{x};
      SumPermutation(a', b');
      SumAppend(a', [x]);
      SumSingleton(x);
      SplitAt(b, j);
      SumMiddle(b[..j], x, b[j + 1..]);
      SumAppend(b[..j], b[j + 1..]);
    }
  }

  /** `map(f)`. */
  function Map<T, U>(s: seq<T>, f: T -> U): (r: seq<U>)
    ensures |r| == |s|
  {
    if s == [] then [] else Map(s[..|s| - 1], f) + [f(s[|s| - 1])]
  }

  /** Each element of `map(f)` is f of the element at the same index. */
  lemma {:induction false} MapAt<T, U>(s: seq<T>, f: T -> U)
    ensures forall i :: 0 <= i < |s| ==> Map(s, f)[i] == f(s[i])
    decreases |s|
  {
    if s != [] {
      MapAt(s[..|s| - 1], f);
    }
  }

  lemma {:induction false} MapAppend<T, U>(a: seq<T>, b: seq<T>, f: T -> U)
    ensures Map(a + b, f) == Map(a, f) + Map(b, f)
    decreases |b|
  {
    if b != [] {
      assert (a + b)[..|a + b| - 1] == a + b[..|b| - 1];
      MapAppend(a, b[..|b| - 1], f);
    } else {
      assert a + b == a;
    }
  }

  /** Removing the element at j removes one occurrence of it. */
  lemma RemoveAt<T>(b: seq<T>, j: int)
    requires 0 <= j < |b|
    ensures multiset(b[..j] + b[j + 1..]) == multiset(b) - multiset{b[j]}
  {
    assert b == b[..j] + [b[j]] + b[j + 1..];
    assert multiset(b) == multiset(b[..j]) + multiset{b[j]} + multiset(b[j + 1..]);
  }

  /** Taking the element at j out of b takes its image out of the mapped b. */
  lemma MapRemoveAt<T, U>(b: seq<T>, j: int, f: T -> U)
    requires 0 <= j < |b|
    ensures multiset(Map(b, f)) == multiset(Map(b[..j] + b[j + 1..], f)) + multiset{f(b[j])}
  {
    var p, q := b[..j], b[j + 1..];
    SplitAt(b, j);
    MapMiddle(p, b[j], q, f);
    MapAppend(p, q, f);
    MultisetMiddle(Map(p, f), f(b[j]), Map(q, f));
  }

  lemma SplitAt<T>(b: seq<T>, j: int)
    requires 0 <= j < |b|
    ensures b == b[..j] + [b[j]] + b[j + 1..]
  {
    assert b[j..] == [b[j]] + b[j + 1..];
    assert b == b[..j] + b[j..];
  }

  lemma MapMiddle<T, U>(p: seq<T>, x: T, q: seq<T>, f: T -> U)
    ensures Map(p + [x] + q, f) == Map(p, f) + [f(x)] + Map(q, f)
  {
    MapAppend(p + [x], q, f);
    MapAppend(p, [x], f);
    assert Map([x], f) == [f(x)];
  }

  lemma SumMiddle(p: seq<int>, x: int, q: seq<int>)
    ensures Sum(p + [x] + q) == Sum(p) + x + Sum(q)
  {
    SumAppend(p + [x], q);
    SumAppend(p, [x]);
    SumSingleton(x);
  }

  lemma MultisetMiddle<U>(a: seq<U>, x: U, c: seq<U>)
    ensures multiset(a + [x] + c) == multiset(a + c) + multiset{x}
  {
  }

  /** Mapping two orderings of the same elements gives two orderings of the
      same results. */
  lemma {:induction false} MapMultiset<T, U>(a: seq<T>, b: seq<T>, f: T -> U)
    requires multiset(a) == multiset(b)
    ensures multiset(Map(a, f)) == multiset(Map(b, f))
    decreases |a|
  {
    if a == [] {
      assert |b| == |multiset(b)| == 0;
    } else {
      var x := a[|a| - 1];
      var a' := a[..|a| - 1];
      assert x in multiset(b) by {
        assert a == a' + [x];
      }
      var j :| 0 <= j < |b| && b[j] == x;
      assert multiset(a') == multiset(b[..j] + b[j + 1..]) by {
        assert a == a' + [x];
        RemoveAt(b, j);
      }
      MapMultiset(a', b[..j] + b[j + 1..], f);
      MapRemoveAt(b, j, f);
      MapRemoveAt(a, |a| - 1, f);
      assert a[..|a| - 1] + a[|a|..] == a';
    }
  }

  /** A sum of non-negative amounts is non-negative. */
  lemma {:induction false} SumNonNegative(s: seq<int>)
    requires forall i :: 0 <= i < |s| ==> s[i] >= 0
    ensures Sum(s) >= 0
    decreases |s|
  {
    if s != [] {
      SumNonNegative(s[..|s| - 1]);
    }
  }

  /** Concatenation of a sequence of sequences (`flatMap`). */
  function Flatten<T>(ss: seq<seq<T>>): seq<T>
  {
    if ss == [] then [] else Flatten(ss[..|ss| - 1]) + ss[|ss| - 1]
  }

  /** The elements x of s with p(x, k), in order: a WHERE clause or `filter`. */
  function Filter<T(!new), K>(s: seq<T>, p: (T, K) -> bool, k: K): (r: seq<T>)
    ensures |r| <= |s|
    ensures forall x :: x in r <==> x in s && p(x, k)
    ensures forall i :: 0 <= i < |r| ==> p(r[i], k)
  {
    if s == [] then []
    else Filter(s[..|s| - 1], p, k) + (if p(s[|s| - 1], k) then [s[|s| - 1]] else [])
  }

  lemma {:induction false} FilterAppend<T(!new), K>(a: seq<T>, b: seq<T>, p: (T, K) -> bool, k: K)
    ensures Filter(a + b, p, k) == Filter(a, p, k) + Filter(b, p, k)
    decreases |b|
  {
    if b == [] {
      assert a + b == a;
    } else {
      assert (a + b)[..|a + b| - 1] == a + b[..|b| - 1];
      FilterAppend(a, b[..|b| - 1], p, k);
    }
  }

  lemma SplitLast<T>(s: seq<T>)
    requires s != []
    ensures s == s[..|s| - 1] + [s[|s| - 1]]
  {
  }

  /** A filter that every element passes keeps the whole sequence. */
  lemma {:induction false} FilterAll<T(!new), K>(s: seq<T>, p: (T, K) -> bool, k: K)
    requires forall i :: 0 <= i < |s| ==> p(s[i], k)
    ensures Filter(s, p, k) == s
    decreases |s|
  {
    if s != [] {
      FilterAll(s[..|s| - 1], p, k);
      SplitLast(s);
    }
  }

  /** A filter that no element passes keeps nothing. */
  lemma {:induction false} FilterNone<T(!new), K>(s: seq<T>, p: (T, K) -> bool, k: K)
    requires forall i :: 0 <= i < |s| ==> !p(s[i], k)
    ensures Filter(s, p, k) == []
    decreases |s|
  {
    if s != [] {
      FilterNone(s[..|s| - 1], p, k);
    }
  }

  /** Two keys on which every element decides alike select the same elements. */
  lemma {:induction false} FilterSameKeys<T(!new), K>(s: seq<T>, p: (T, K) -> bool, k1: K, k2: K)
    requires forall i :: 0 <= i < |s| ==> p(s[i], k1) == p(s[i], k2)
    ensures Filter(s, p, k1) == Filter(s, p, k2)
    decreases |s|
  {
    if s != [] {
      FilterSameKeys(s[..|s| - 1], p, k1, k2);
    }
  }

  lemma {:induction false} FilterMultiset<T(!new), K>(s: seq<T>, p: (T, K) -> bool, k: K)
    ensures multiset(Filter(s, p, k)) <= multiset(s)
    decreases |s|
  {
    if s != [] {
      FilterMultiset(s[..|s| - 1], p, k);
      assert s == s[..|s| - 1] + [s[|s| - 1]];
    }
  }

  /** `filter` keeps every occurrence of an element that passes and none of
      one that fails. */
  lemma {:induction false} FilterCount<T(!new), K>(s: seq<T>, p: (T, K) -> bool, k: K, x: T)
    ensures multiset(Filter(s, p, k))[x] == if p(x, k) then multiset(s)[x] else 0
    decreases |s|
  {
    if s != [] {
      FilterCount(s[..|s| - 1], p, k, x);
      SplitLast(s);
    }
  }

  /** idx lists, in strictly increasing order, positions of s that hold the
      elements of r one by one. */
  ghost predicate Positions<T>(idx: seq<int>, r: seq<T>, s: seq<T>)
  {
    && |idx| == |r|
    && (forall i, j :: 0 <= i < j < |idx| ==> idx[i] < idx[j])
    && (forall i :: 0 <= i < |idx| ==> 0 <= idx[i] < |s| && r[i] == s[idx[i]])
  }

  /** r is s with some elements left out: the rest keep their order. */
  ghost predicate SubsequenceOf<T>(r: seq<T>, s: seq<T>)
  {
    exists idx :: Positions(idx, r, s)
  }

  /** The positions of s that `filter` keeps. */
  lemma {:induction false} FilterPositions<T(!new), K>(s: seq<T>, p: (T, K) -> bool, k: K) returns (idx: seq<int>)
    ensures Positions(idx, Filter(s, p, k), s)
    decreases |s|
  {
    if s == [] {
      idx := [];
    } else {
      var n := |s| - 1;
      var prev := FilterPositions(s[..n], p, k);
      assert s == s[..n] + [s[n]];
      if p(s[n], k) {
        PositionsKeep(prev, Filter(s[..n], p, k), s[..n], s[n]);
        idx := prev + [n];
      } else {
        PositionsSkip(prev, Filter(s[..n], p, k), s[..n], s[n]);
        idx := prev;
      }
    }
  }

  lemma PositionsKeep<T>(idx: seq<int>, r: seq<T>, s: seq<T>, x: T)
    requires Positions(idx, r, s)
    ensures Positions(idx + [|s|], r + [x], s + [x])
  {
  }

  lemma PositionsSkip<T>(idx: seq<int>, r: seq<T>, s: seq<T>, x: T)
    requires Positions(idx, r, s)
    ensures Positions(idx, r, s + [x])
  {
  }

  /** `filter` keeps exactly the occurrences of the passing elements, in
      their order. */
  lemma FilterExact<T(!new), K>(s: seq<T>, p: (T, K) -> bool, k: K)
    ensures SubsequenceOf(Filter(s, p, k), s)
    ensures forall x :: multiset(Filter(s, p, k))[x] == if p(x, k) then multiset(s)[x] else 0
  {
    FilterSubsequence(s, p, k);
    forall x
      ensures multiset(Filter(s, p, k))[x] == if p(x, k) then multiset(s)[x] else 0
    {
      FilterCount(s, p, k, x);
    }
  }

  /** `filter` keeps the order of the elements it keeps. */
  lemma FilterSubsequence<T(!new), K>(s: seq<T>, p: (T, K) -> bool, k: K)
    ensures SubsequenceOf(Filter(s, p, k), s)
  {
    var idx := FilterPositions(s, p, k);
  }

  /** The elements of s pairwise distinct. */
  predicate Distinct<T(==)>(s: seq<T>)
  {
    forall i, j :: 0 <= i < j < |s| ==> s[i] != s[j]
  }

  lemma {:induction false} DistinctMultiplicity<T>(s: seq<T>, x: T)
    requires Distinct(s)
    ensures multiset(s)[x] <= 1
    decreases |s|
  {
    if s != [] {
      var init := s[..|s| - 1];
      DistinctMultiplicity(init, x);
      assert s == init + [s[|s| - 1]];
      if x == s[|s| - 1] {
        assert x !in init;
      }
    }
  }

  /** A permutation of a sequence without duplicates has none either. */
  lemma PermutationDistinct<T>(s: seq<T>, t: seq<T>)
    requires Distinct(s)
    requires multiset(t) == multiset(s)
    ensures Distinct(t)
  {
    forall i, j | 0 <= i < j < |t|
      ensures t[i] != t[j]
    {
      if t[i] == t[j] {
        var x := t[i];
        assert t == t[..i] + [x] + t[i + 1..j] + [x] + t[j + 1..];
        assert multiset(t)[x] >= 2;
        DistinctMultiplicity(s, x);
      }
    }
  }
}
