/** Sequence operations the screens write inline with JavaScript array
    methods: `filter`, `new Set`, a `reduce` into a dictionary,
    `Object.entries`, `sort` with a descending comparator and `slice(0, n)`. */
module Seqs {

  function Min(a: nat, b: nat): nat {
    if a <= b then a else b
  }

  // ---------------------------------------------------------------------
  // filter

  /** `s.filter(p)`: the elements satisfying `p`, in their original order. */
  function Filter<T(!new)>(s: seq<T>, p: T -> bool): (r: seq<T>)
    ensures |r| <= |s|
    ensures forall x :: x in r <==> x in s && p(x)
  {
    if s == [] then []
    else (if p(s[0]) then [s[0]] else []) + Filter(s[1..], p)
  }

  /** `a` is obtained from `b` by deleting elements: order is kept. */
  predicate Subseq<T(==)>(a: seq<T>, b: seq<T>) {
    a == [] || (b != [] && ((a[0] == b[0] && Subseq(a[1..], b[1..])) || Subseq(a, b[1..])))
  }

  lemma {:induction false} SubseqRefl<T(!new)>(s: seq<T>)
    ensures Subseq(s, s)
  {
    if s != [] {
      SubseqRefl(s[1..]);
    }
  }

  lemma {:induction false} SubseqTrans<T(!new)>(a: seq<T>, b: seq<T>, c: seq<T>)
    requires Subseq(a, b) && Subseq(b, c)
    ensures Subseq(a, c)
    decreases |c|
  {
    if a != [] {
      if b[0] == c[0] && Subseq(b[1..], c[1..]) {
        if a[0] == b[0] && Subseq(a[1..], b[1..]) {
          SubseqTrans(a[1..], b[1..], c[1..]);
        } else {
          SubseqTrans(a, b[1..], c[1..]);
        }
      } else {
        SubseqTrans(a, b, c[1..]);
      }
    }
  }

  /** A filter never reorders: its result is a subsequence of its input. */
  lemma {:induction false} FilterIsSubseq<T(!new)>(s: seq<T>, p: T -> bool)
    ensures Subseq(Filter(s, p), s)
  {
    if s != [] {
      FilterIsSubseq(s[1..], p);
      var rest := Filter(s[1..], p);
      if p(s[0]) {
        assert Filter(s, p) == [s[0]] + rest;
        assert ([s[0]] + rest)[1..] == rest;
      } else {
        assert Filter(s, p) == rest;
      }
    }
  }

  lemma {:induction false} FilterAppend<T(!new)>(s: seq<T>, t: seq<T>, p: T -> bool)
    ensures Filter(s + t, p) == Filter(s, p) + Filter(t, p)
  {
    if s == [] {
      assert s + t == t;
    } else {
      assert (s + t)[0] == s[0];
      assert (s + t)[1..] == s[1..] + t;
      FilterAppend(s[1..], t, p);
    }
  }

  /** A filter whose predicate holds everywhere returns its input. */
  lemma {:induction false} FilterAll<T(!new)>(s: seq<T>, p: T -> bool)
    requires forall x :: x in s ==> p(x)
    ensures Filter(s, p) == s
  {
    if s != [] {
      FilterAll(s[1..], p);
    }
  }

  /** Filtering by a stronger predicate keeps no more elements. */
  lemma {:induction false} FilterMonotone<T(!new)>(s: seq<T>, p: T -> bool, q: T -> bool)
    requires forall x :: p(x) ==> q(x)
    ensures |Filter(s, p)| <= |Filter(s, q)|
  {
    if s != [] {
      FilterMonotone(s[1..], p, q);
    }
  }

  // ---------------------------------------------------------------------
  // de-duplication (`[...new Set(s)]`)

  predicate NoDuplicates<T(==)>(s: seq<T>) {
    forall i, j :: 0 <= i < j < |s| ==> s[i] != s[j]
  }

  /** A sequence without repeats holds each value at most once. */
  lemma {:induction false} NoDuplicatesMultiset<T>(s: seq<T>, x: T)
    requires NoDuplicates(s)
    ensures multiset(s)[x] <= 1
  {
    if s != [] {
      assert s == [s[0]] + s[1..];
      NoDuplicatesMultiset(s[1..], x);
      if s[0] == x {
        assert x !in s[1..] by {
          assert forall j :: 0 <= j < |s[1..]| ==> s[1..][j] == s[j + 1];
        }
      }
    }
  }

  /** A rearrangement of a sequence without repeats has none either. */
  lemma PermutationNoDuplicates<T>(a: seq<T>, b: seq<T>)
    requires NoDuplicates(a) && multiset(a) == multiset(b)
    ensures NoDuplicates(b)
  {
    forall i, j | 0 <= i < j < |b|
      ensures b[i] != b[j]
    {
      if b[i] == b[j] {
        assert b == b[..j] + b[j..];
        assert b[i] in b[..j] && b[j] in b[j..];
        assert multiset(b)[b[i]] == multiset(b[..j])[b[i]] + multiset(b[j..])[b[i]];
        NoDuplicatesMultiset(a, b[i]);
        assert false;
      }
    }
  }

  /** Position of the first occurrence of `x` in `s`. */
  function FirstIndex<T(==)>(s: seq<T>, x: T): (k: nat)
    requires x in s
    ensures k < |s| && s[k] == x
    ensures forall j :: 0 <= j < k ==> s[j] != x
  {
    if s[0] == x then 0 else 1 + FirstIndex(s[1..], x)
  }

  /** The distinct elements of `s` in order of first occurrence, which is
      the iteration order of a JavaScript `Set` built from `s` and of the
      keys of an object filled from `s`. */
  function Distinct<T(==,!new)>(s: seq<T>): (d: seq<T>)
    ensures NoDuplicates(d)
    ensures forall x :: x in d <==> x in s
    ensures |d| <= |s|
  {
    if s == [] then []
    else
      var d := Distinct(s[..|s| - 1]);
      var x := s[|s| - 1];
      assert forall y :: y in s <==> y in s[..|s| - 1] || y == x by {
        assert s == s[..|s| - 1] + [x];
      }
      if x in d then d else d + [x]
  }

  /** The distinct elements appear in order of first occurrence. */
  lemma {:induction false} DistinctFirstOccurrenceOrder<T(!new)>(s: seq<T>, i: nat, j: nat)
    requires i < j < |Distinct(s)|
    ensures FirstIndex(s, Distinct(s)[i]) < FirstIndex(s, Distinct(s)[j])
  {
    var p := s[..|s| - 1];
    var x := s[|s| - 1];
    assert s == p + [x];
    var d := Distinct(p);
    var a, b := Distinct(s)[i], Distinct(s)[j];
    FirstIndexPrefix(p, x, a);
    if j < |d| {
      DistinctFirstOccurrenceOrder(p, i, j);
      FirstIndexPrefix(p, x, b);
    } else {
      // b is the new last element, absent from p
      assert b == x && x !in d;
      assert FirstIndex(s, b) == |p| by {
        FirstIndexNotIn(p, x);
      }
    }
  }

  lemma {:induction false} FirstIndexPrefix<T(!new)>(p: seq<T>, x: T, a: T)
    requires a in p
    ensures FirstIndex(p + [x], a) == FirstIndex(p, a) < |p|
  {
    if p[0] != a {
      assert (p + [x])[1..] == p[1..] + [x];
      FirstIndexPrefix(p[1..], x, a);
    }
  }

  lemma {:induction false} FirstIndexNotIn<T(!new)>(p: seq<T>, x: T)
    requires x !in p
    ensures FirstIndex(p + [x], x) == |p|
  {
    if p != [] {
      assert (p + [x])[1..] == p[1..] + [x];
      FirstIndexNotIn(p[1..], x);
    }
  }

  // ---------------------------------------------------------------------
  // counting into a dictionary (`s.reduce((acc, k) => { acc[k] = (acc[k] || 0) + 1; ... }, {})`)

  /** The dictionary a left fold over `ks` builds when it bumps `acc[k]`
      for every key, starting from `{}`. */
  function Tally<K(==,!new)>(ks: seq<K>): (m: map<K, nat>)
    ensures forall k :: k in m <==> k in ks
    ensures forall k :: k in m ==> m[k] == multiset(ks)[k]
  {
    if ks == [] then map[]
    else
      var p := ks[..|ks| - 1];
      var k := ks[|ks| - 1];
      assert ks == p + [k];
      var m := Tally(p);
      m[k := (if k in m then m[k] else 0) + 1]
  }

  /** `acc[k] || 0`: a key that never occurred reads as zero. */
  function Get<K(==)>(m: map<K, nat>, k: K): nat {
    if k in m then m[k] else 0
  }

  lemma TallyGet<K(!new)>(ks: seq<K>, k: K)
    ensures Get(Tally(ks), k) == multiset(ks)[k]
  {
  }

  /** `Object.entries(m)` where the keys were inserted in the order `order`. */
  function Entries<K(==)>(m: map<K, nat>, order: seq<K>): (es: seq<(K, nat)>)
    requires forall k :: k in order ==> k in m
    ensures |es| == |order|
    ensures forall i :: 0 <= i < |es| ==> es[i] == (order[i], m[order[i]])
  {
    if order == [] then [] else [(order[0], m[order[0]])] + Entries(m, order[1..])
  }

  function SumCounts<K>(es: seq<(K, nat)>): nat {
    if es == [] then 0 else es[0].1 + SumCounts(es[1..])
  }

  /** Sum of the occurrence counts in `ks` of the keys listed in `d`. */
  function SumOccurrences<K(==)>(d: seq<K>, ks: seq<K>): nat {
    if d == [] then 0 else multiset(ks)[d[0]] + SumOccurrences(d[1..], ks)
  }

  lemma {:induction false} SumOccurrencesSnoc<K(!new)>(d: seq<K>, ks: seq<K>, x: K)
    requires NoDuplicates(d)
    ensures SumOccurrences(d, ks + [x]) == SumOccurrences(d, ks) + (if x in d then 1 else 0)
  {
    if d != [] {
      SumOccurrencesSnoc(d[1..], ks, x);
      assert forall j :: 0 <= j < |d[1..]| ==> d[1..][j] == d[j + 1];
      assert d[0] !in d[1..];
    }
  }

  lemma {:induction false} SumOccurrencesAppend<K(!new)>(d: seq<K>, y: K, ks: seq<K>)
    ensures SumOccurrences(d + [y], ks) == SumOccurrences(d, ks) + multiset(ks)[y]
  {
    if d != [] {
      assert (d + [y])[1..] == d[1..] + [y];
      SumOccurrencesAppend(d[1..], y, ks);
    }
  }

  /** Every element is counted exactly once under its distinct key. */
  lemma {:induction false} SumOccurrencesDistinct<K(!new)>(ks: seq<K>)
    ensures SumOccurrences(Distinct(ks), ks) == |ks|
  {
    if ks != [] {
      var p := ks[..|ks| - 1];
      var x := ks[|ks| - 1];
      assert ks == p + [x];
      var d := Distinct(p);
      SumOccurrencesDistinct(p);
      SumOccurrencesSnoc(d, p, x);
      if x !in d {
        SumOccurrencesAppend(d, x, ks);
        assert multiset(p)[x] == 0;
      }
    }
  }

  lemma {:induction false} SumCountsEntries<K(!new)>(ks: seq<K>, d: seq<K>)
    requires forall k :: k in d ==> k in ks
    ensures SumCounts(Entries(Tally(ks), d)) == SumOccurrences(d, ks)
  {
    if d != [] {
      SumCountsEntries(ks, d[1..]);
    }
  }

  /** The counts of a tally add up to the number of keys folded in. */
  lemma TallyEntriesSum<K(!new)>(ks: seq<K>)
    ensures SumCounts(Entries(Tally(ks), Distinct(ks))) == |ks|
  {
    SumCountsEntries(ks, Distinct(ks));
    SumOccurrencesDistinct(ks);
  }

  // ---------------------------------------------------------------------
  // `sort((a, b) => key(b) - key(a))` and `slice(0, n)`

  /** Non-increasing by `key`. */
  predicate SortedDesc<T>(s: seq<T>, key: T -> int) {
    forall i, j :: 0 <= i < j < |s| ==> key(s[j]) <= key(s[i])
  }

  /** Inserts `x` in front of the first element whose key it reaches, so an
      element from earlier in the input stays ahead of later equal ones. */
  function Insert<T(==,!new)>(x: T, s: seq<T>, key: T -> int): (r: seq<T>)
    ensures multiset(r) == multiset(s) + multiset{x}
    ensures |r| == |s| + 1
  {
    if s == [] || key(s[0]) <= key(x) then [x] + s
    else
      assert s == [s[0]] + s[1..];
      [s[0]] + Insert(x, s[1..], key)
  }

  lemma {:induction false} InsertSorted<T(!new)>(x: T, s: seq<T>, key: T -> int)
    requires SortedDesc(s, key)
    ensures SortedDesc(Insert(x, s, key), key)
  {
    if s == [] || key(s[0]) <= key(x) {
      forall y | y in s
        ensures key(y) <= key(x)
      {
        var j :| 0 <= j < |s| && s[j] == y;
        assert key(s[j]) <= key(s[0]);
      }
      ConsSorted(x, s, key);
    } else {
      var rest := Insert(x, s[1..], key);
      InsertSorted(x, s[1..], key);
      forall y | y in rest
        ensures key(y) <= key(s[0])
      {
        assert y in multiset(rest);
        if y != x {
          assert y in multiset(s[1..]);
        }
      }
      ConsSorted(s[0], rest, key);
    }
  }

  /** A head ranking at least as high as everything after it extends a
      non-increasing list. */
  lemma ConsSorted<T>(h: T, s: seq<T>, key: T -> int)
    requires SortedDesc(s, key)
    requires forall y :: y in s ==> key(y) <= key(h)
    ensures SortedDesc([h] + s, key)
  {
    var r := [h] + s;
    forall i, j | 0 <= i < j < |r|
      ensures key(r[j]) <= key(r[i])
    {
      assert r[j] == s[j - 1];
      if i > 0 {
        assert r[i] == s[i - 1];
      }
    }
  }

  /** The descending sort: a stable insertion sort, like the engine's
      stable `Array.prototype.sort`. */
  function SortDesc<T(==,!new)>(s: seq<T>, key: T -> int): (r: seq<T>)
    ensures SortedDesc(r, key)
    ensures multiset(r) == multiset(s)
    ensures |r| == |s|
  {
    if s == [] then []
    else
      assert s == [s[0]] + s[1..];
      var sorted := SortDesc(s[1..], key);
      InsertSorted(s[0], sorted, key);
      Insert(s[0], sorted, key)
  }

  /** `sort(...).slice(0, n)`: the `n` entries with the largest keys. */
  function TopN<T(==,!new)>(s: seq<T>, key: T -> int, n: nat): (t: seq<T>)
    ensures |t| == Min(n, |s|)
    ensures SortedDesc(t, key)
    ensures multiset(t) <= multiset(s)
    ensures |s| <= n ==> multiset(t) == multiset(s)
  {
    var r := SortDesc(s, key);
    var m := Min(n, |r|);
    assert r == r[..m] + r[m..];
    assert multiset(r) == multiset(r[..m]) + multiset(r[m..]);
    SortedPrefix(r, m, key);
    r[..m]
  }

  lemma SortedPrefix<T>(r: seq<T>, m: nat, key: T -> int)
    requires m <= |r| && SortedDesc(r, key)
    ensures SortedDesc(r[..m], key)
  {
    assert forall i :: 0 <= i < m ==> r[..m][i] == r[i];
  }

  /** Whatever the slice leaves out ranks no higher than the last entry it
      keeps. */
  lemma TopNLeavesSmaller<T(!new)>(s: seq<T>, key: T -> int, n: nat, x: T)
    requires 0 < n
    requires x in multiset(s) - multiset(TopN(s, key, n))
    ensures |TopN(s, key, n)| == n
    ensures key(x) <= key(TopN(s, key, n)[n - 1])
  {
    var r := SortDesc(s, key);
    var t := TopN(s, key, n);
    if |s| <= n {
      assert false;
    }
    assert t == r[..n];
    var k := TailIndex(r, n, x);
    assert t[n - 1] == r[n - 1];
  }

  /** An element of `r` beyond what its first `n` elements account for sits
      at some position from `n` on. */
  lemma TailIndex<T>(r: seq<T>, n: nat, x: T) returns (k: nat)
    requires n <= |r| && x in multiset(r) - multiset(r[..n])
    ensures n <= k < |r| && r[k] == x
  {
    assert r == r[..n] + r[n..];
    assert x in multiset(r[n..]);
    var j :| 0 <= j < |r| - n && r[n..][j] == x;
    k := n + j;
  }
}
