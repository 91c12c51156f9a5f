/**
 * Generic sequence operations standing in for JavaScript's `Array.prototype.filter`
 * and for the stable `Array.prototype.sort` with a numeric comparator.
 */
module Seqs {

  /** `a` is `b` with some elements dropped, order kept. */
  predicate IsSubsequence<T(==)>(a: seq<T>, b: seq<T>) {
    a == [] ||
    (b != [] && ((a[0] == b[0] && IsSubsequence(a[1..], b[1..])) || IsSubsequence(a, b[1..])))
  }

  /** `s.filter(p)`. */
  function Filter<T>(s: seq<T>, p: T -> bool): (r: seq<T>)
    ensures |r| <= |s|
    ensures forall i :: 0 <= i < |r| ==> r[i] in s && p(r[i])
    ensures forall i :: 0 <= i < |s| && p(s[i]) ==> s[i] in r
  {
    if s == [] then []
    else if p(s[0]) then [s[0]] + Filter(s[1..], p)
    else Filter(s[1..], p)
  }

  /** What `filter` keeps is a subsequence of its input. */
  lemma {:induction false} FilterIsSubsequence<T>(s: seq<T>, p: T -> bool)
    ensures IsSubsequence(Filter(s, p), s)
  {
    if s != [] {
      FilterIsSubsequence(s[1..], p);
      assert s == [s[0]] + s[1..];
      if !p(s[0]) {
        SubsequenceSkip(Filter(s[1..], p), s[0], s[1..]);
      }
    }
  }

  /** Every sequence is a subsequence of itself. */
  lemma {:induction false} SubsequenceRefl<T>(s: seq<T>)
    ensures IsSubsequence(s, s)
  {
    if s != [] {
      SubsequenceRefl(s[1..]);
    }
  }

  lemma SubsequenceSkip<T>(a: seq<T>, x: T, b: seq<T>)
    requires IsSubsequence(a, b)
    ensures IsSubsequence(a, [x] + b)
  {
    assert ([x] + b)[1..] == b;
  }

  /** Filtering with a predicate no element meets keeps nothing. */
  lemma {:induction false} FilterNone<T>(s: seq<T>, p: T -> bool)
    requires forall i :: 0 <= i < |s| ==> !p(s[i])
    ensures Filter(s, p) == []
  {
    if s != [] {
      FilterNone(s[1..], p);
    }
  }

  /** Filtering by a stronger predicate keeps a subsequence of what the weaker one keeps. */
  lemma {:induction false} FilterStrongerSubsequence<T>(s: seq<T>, p: T -> bool, q: T -> bool)
    requires forall x :: p(x) ==> q(x)
    ensures IsSubsequence(Filter(s, p), Filter(s, q))
  {
    if s != [] {
      FilterStrongerSubsequence(s[1..], p, q);
      var a, b := Filter(s[1..], p), Filter(s[1..], q);
      if p(s[0]) {
        assert ([s[0]] + a)[1..] == a && ([s[0]] + b)[1..] == b;
      } else if q(s[0]) {
        SubsequenceSkip(a, s[0], b);
      }
    }
  }

  /** Filtering by a stronger predicate keeps no more. */
  lemma {:induction false} FilterStronger<T>(s: seq<T>, p: T -> bool, q: T -> bool)
    requires forall x :: p(x) ==> q(x)
    ensures |Filter(s, p)| <= |Filter(s, q)|
  {
    if s != [] {
      FilterStronger(s[1..], p, q);
    }
  }

  /** Filtering keeps everything exactly when every element passes. */
  lemma {:induction false} FilterAll<T>(s: seq<T>, p: T -> bool)
    requires forall i :: 0 <= i < |s| ==> p(s[i])
    ensures Filter(s, p) == s
  {
    if s != [] {
      FilterAll(s[1..], p);
    }
  }

  /** Filtering distributes over concatenation. */
  lemma {:induction false} FilterAppend<T>(a: seq<T>, b: seq<T>, p: T -> bool)
    ensures Filter(a + b, p) == Filter(a, p) + Filter(b, p)
  {
    if a == [] {
      assert a + b == b;
    } else {
      assert (a + b)[1..] == a[1..] + b;
      FilterAppend(a[1..], b, p);
    }
  }

  /** The distinct keys of `xs`, in order of first appearance. */
  function Keys<T, K(==)>(xs: seq<T>, key: T -> K): seq<K> {
    if xs == [] then []
    else
      var ks := Keys(xs[..|xs| - 1], key);
      if key(xs[|xs| - 1]) in ks then ks else ks + [key(xs[|xs| - 1])]
  }

  /** The keys are distinct and are exactly the keys of the elements. */
  lemma {:induction false} KeysSpec<T, K>(xs: seq<T>, key: T -> K)
    ensures Distinct(Keys(xs, key))
    ensures forall k :: k in Keys(xs, key) <==> exists i :: 0 <= i < |xs| && key(xs[i]) == k
  {
    if xs != [] {
      var init := xs[..|xs| - 1];
      KeysSpec(init, key);
      forall k ensures (exists i :: 0 <= i < |xs| && key(xs[i]) == k) <==> (k in Keys(init, key) || k == key(xs[|xs| - 1])) {
        if exists i :: 0 <= i < |xs| && key(xs[i]) == k {
          var i :| 0 <= i < |xs| && key(xs[i]) == k;
          if i < |init| {
            assert init[i] == xs[i];
          }
        }
        if k in Keys(init, key) {
          var i :| 0 <= i < |init| && key(init[i]) == k;
          assert xs[i] == init[i];
        }
      }
    }
  }

  /** The elements with key `k`, in order. */
  function Group<T, K(==)>(xs: seq<T>, key: T -> K, k: K): seq<T> {
    Filter(xs, x => key(x) == k)
  }

  /** `groups` maps every key of `prefix`, and only those, to its group; `order` lists the keys. */
  ghost predicate GroupedAs<T, K(!new)>(prefix: seq<T>, key: T -> K, groups: map<K, seq<T>>, order: seq<K>) {
    && order == Keys(prefix, key)
    && (forall k :: k in groups <==> k in order)
    && (forall k :: k in groups ==> groups[k] == Group(prefix, key, k))
  }

  lemma GroupedStep<T, K(!new)>(prefix: seq<T>, key: T -> K, groups: map<K, seq<T>>, order: seq<K>, x: T)
    requires GroupedAs(prefix, key, groups, order)
    ensures var k := key(x);
      GroupedAs(prefix + [x], key,
        if k in groups then groups[k := groups[k] + [x]] else groups[k := [x]],
        if k in groups then order else order + [k])
  {
    var xs := prefix + [x];
    assert xs[..|xs| - 1] == prefix;
    forall k ensures Group(xs, key, k) == Group(prefix, key, k) + (if key(x) == k then [x] else []) {
      FilterAppend(prefix, [x], y => key(y) == k);
      assert [x][1..] == [];
    }
    KeysSpec(prefix, key);
    if key(x) !in groups {
      forall i | 0 <= i < |prefix| ensures key(prefix[i]) != key(x) {
      }
      FilterNone(prefix, y => key(y) == key(x));
    }
  }

  /**
   * The loop `for (x of xs) { if (!groups[key(x)]) groups[key(x)] = []; groups[key(x)].push(x) }`,
   * with the keys in insertion order.
   */
  method GroupInto<T, K(==,!new)>(xs: seq<T>, key: T -> K) returns (groups: map<K, seq<T>>, order: seq<K>)
    ensures order == Keys(xs, key)
    ensures forall k :: k in groups <==> k in order
    ensures forall k :: k in groups ==> groups[k] == Group(xs, key, k)
  {
    groups := map[];
    order := [];
    var i := 0;
    while i < |xs|
      invariant 0 <= i <= |xs|
      invariant GroupedAs(xs[..i], key, groups, order)
    {
      var x := xs[i];
      assert xs[..i + 1] == xs[..i] + [x];
      GroupedStep(xs[..i], key, groups, order, x);
      var k := key(x);
      if k in groups {
        groups := groups[k := groups[k] + [x]];
      } else {
        groups := groups[k := [x]];
        order := order + [k];
      }
      i := i + 1;
    }
    assert xs[..i] == xs;
  }

  /** Every element is in the group of its key and in no other; no group is empty. */
  lemma GroupMembership<T, K>(xs: seq<T>, key: T -> K, i: nat, k: K)
    requires i < |xs|
    ensures xs[i] in Group(xs, key, k) <==> key(xs[i]) == k
    ensures k in Keys(xs, key) ==> Group(xs, key, k) != []
  {
    KeysSpec(xs, key);
    if k in Keys(xs, key) {
      var j :| 0 <= j < |xs| && key(xs[j]) == k;
      assert xs[j] in Group(xs, key, k);
    }
  }

  /** The prefix one element longer. */
  lemma PrefixSnoc<T>(s: seq<T>, i: nat)
    requires i < |s|
    ensures s[..i + 1] == s[..i] + [s[i]]
  {
  }

  /** Non-decreasing under `key`. */
  predicate SortedBy<T>(s: seq<T>, key: T -> int) {
    forall i, j :: 0 <= i < j < |s| ==> key(s[i]) <= key(s[j])
  }

  /** Insert `x` after every element whose key is at most `key(x)`. */
  function InsertBy<T>(x: T, s: seq<T>, key: T -> int): (r: seq<T>)
    ensures |r| == |s| + 1
    ensures r[0] == x || (s != [] && r[0] == s[0])
  {
    if s == [] then [x]
    else if key(x) < key(s[0]) then [x] + s
    else [s[0]] + InsertBy(x, s[1..], key)
  }

  lemma SortedTail<T>(s: seq<T>, key: T -> int)
    requires s != [] && SortedBy(s, key)
    ensures SortedBy(s[1..], key)
  {
    forall i, j | 0 <= i < j < |s| - 1 ensures key(s[1..][i]) <= key(s[1..][j]) {
      assert s[1..][i] == s[i + 1] && s[1..][j] == s[j + 1];
    }
  }

  lemma SortedCons<T>(a: T, t: seq<T>, key: T -> int)
    requires SortedBy(t, key) && (t != [] ==> key(a) <= key(t[0]))
    ensures SortedBy([a] + t, key)
  {
    var r := [a] + t;
    forall i, j | 0 <= i < j < |r| ensures key(r[i]) <= key(r[j]) {
      assert r[j] == t[j - 1];
      if i == 0 {
        assert key(t[0]) <= key(t[j - 1]) || j - 1 == 0;
      } else {
        assert r[i] == t[i - 1];
      }
    }
  }

  /** Inserting into a sorted sequence keeps it sorted. */
  lemma {:induction false} InsertBySorted<T>(x: T, s: seq<T>, key: T -> int)
    requires SortedBy(s, key)
    ensures SortedBy(InsertBy(x, s, key), key)
  {
    if s == [] {
    } else if key(x) < key(s[0]) {
      SortedCons(x, s, key);
    } else {
      SortedTail(s, key);
      InsertBySorted(x, s[1..], key);
      var rest := InsertBy(x, s[1..], key);
      assert rest[0] == x || rest[0] == s[1..][0];
      SortedCons(s[0], rest, key);
    }
  }

  /** Inserting adds exactly `x`. */
  lemma {:induction false} InsertByMultiset<T>(x: T, s: seq<T>, key: T -> int)
    ensures multiset(InsertBy(x, s, key)) == multiset(s) + multiset{x}
  {
    if s != [] && key(x) >= key(s[0]) {
      InsertByMultiset(x, s[1..], key);
      assert s == [s[0]] + s[1..];
      assert multiset(InsertBy(x, s, key)) == multiset{s[0]} + multiset(InsertBy(x, s[1..], key));
    }
  }

  /**
   * The stable sort by ascending `key`: elements are inserted in their original
   * order, each after the equal keys already placed.
   */
  function SortBy<T>(s: seq<T>, key: T -> int): (r: seq<T>)
    ensures SortedBy(r, key)
    ensures multiset(r) == multiset(s)
    ensures |r| == |s|
  {
    if s == [] then []
    else
      var init := SortBy(s[..|s| - 1], key);
      InsertBySorted(s[|s| - 1], init, key);
      InsertByMultiset(s[|s| - 1], init, key);
      assert s == s[..|s| - 1] + [s[|s| - 1]];
      InsertBy(s[|s| - 1], init, key)
  }

  /** Sorting keeps exactly the elements it was given. */
  lemma SortByMembers<T>(s: seq<T>, key: T -> int)
    ensures forall i :: 0 <= i < |SortBy(s, key)| ==> SortBy(s, key)[i] in s
    ensures forall i :: 0 <= i < |s| ==> s[i] in SortBy(s, key)
  {
    var r := SortBy(s, key);
    forall i | 0 <= i < |r| ensures r[i] in s {
      assert r[i] in multiset(s);
    }
    forall i | 0 <= i < |s| ensures s[i] in r {
      assert s[i] in multiset(r);
    }
  }

  /** Filtering by a predicate and by its negation keeps every element exactly once. */
  lemma {:induction false} FilterPartition<T>(s: seq<T>, p: T -> bool, q: T -> bool)
    requires forall x :: q(x) == !p(x)
    ensures multiset(Filter(s, p)) + multiset(Filter(s, q)) == multiset(s)
  {
    if s != [] {
      FilterPartition(s[1..], p, q);
      assert s == [s[0]] + s[1..];
    }
  }

  predicate Distinct<T(==)>(s: seq<T>) {
    forall i, j :: 0 <= i < j < |s| ==> s[i] != s[j]
  }

  lemma {:induction false} DistinctCount<T>(s: seq<T>, x: T)
    requires Distinct(s)
    ensures multiset(s)[x] <= 1
  {
    if s != [] {
      assert s == [s[0]] + s[1..];
      assert Distinct(s[1..]) by {
        forall i, j | 0 <= i < j < |s[1..]| ensures s[1..][i] != s[1..][j] {
          assert s[1..][i] == s[i + 1] && s[1..][j] == s[j + 1];
        }
      }
      DistinctCount(s[1..], x);
      if s[0] == x {
        assert x !in s[1..];
      }
    }
  }

  lemma TwiceCount<T>(s: seq<T>, i: nat, j: nat)
    requires i < j < |s| && s[i] == s[j]
    ensures multiset(s)[s[i]] >= 2
  {
    assert s == s[..j] + s[j..];
    assert s[i] in s[..j];
    assert s[j] in s[j..];
  }

  /** A permutation of a sequence without repetitions has none either. */
  lemma DistinctPermutation<T>(a: seq<T>, b: seq<T>)
    requires multiset(a) == multiset(b) && Distinct(a)
    ensures Distinct(b)
  {
    forall i, j | 0 <= i < j < |b| ensures b[i] != b[j] {
      if b[i] == b[j] {
        TwiceCount(b, i, j);
        DistinctCount(a, b[i]);
      }
    }
  }
}
