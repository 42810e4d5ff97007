/** The two sorts the pipeline relies on: Python's stable `sort(key=..., reverse=True)`
    and `sorted` over a collection of strings. */
module Sorting {
  import opened Text

  /** Non-increasing by `key`. */
  ghost predicate SortedDesc<T>(s: seq<T>, key: T -> real)
  {
    forall i, j :: 0 <= i < j < |s| ==> key(s[i]) >= key(s[j])
  }

  /** The items of `s` whose key is `v`, in their order in `s`. A sort is stable
      exactly when it keeps this subsequence for every `v`. */
  function WithKey<T>(s: seq<T>, key: T -> real, v: real): seq<T>
  {
    if s == [] then []
    else WithKey(s[..|s| - 1], key, v) + (if key(s[|s| - 1]) == v then [s[|s| - 1]] else [])
  }

  /** Places `x` after every item whose key is at least its own, scanning from the right. */
  function InsertDesc<T>(t: seq<T>, x: T, key: T -> real): seq<T>
  {
    if t == [] || key(t[|t| - 1]) >= key(x) then t + [x]
    else InsertDesc(t[..|t| - 1], x, key) + [t[|t| - 1]]
  }

  /** Stable descending insertion sort: the specification of `SortInPlace`. */
  function SortDesc<T>(s: seq<T>, key: T -> real): seq<T>
  {
    if s == [] then [] else InsertDesc(SortDesc(s[..|s| - 1], key), s[|s| - 1], key)
  }

  lemma {:induction false} InsertDescMultiset<T>(t: seq<T>, x: T, key: T -> real)
    ensures |InsertDesc(t, x, key)| == |t| + 1
    ensures multiset(InsertDesc(t, x, key)) == multiset(t) + multiset{x}
  {
    if !(t == [] || key(t[|t| - 1]) >= key(x)) {
      InsertDescMultiset(t[..|t| - 1], x, key);
      assert t == t[..|t| - 1] + [t[|t| - 1]];
    }
  }

  lemma {:induction false} InsertDescSorted<T>(t: seq<T>, x: T, key: T -> real)
    requires SortedDesc(t, key)
    ensures SortedDesc(InsertDesc(t, x, key), key)
  {
    if !(t == [] || key(t[|t| - 1]) >= key(x)) {
      var init, last := t[..|t| - 1], t[|t| - 1];
      InsertDescSorted(init, x, key);
      InsertDescMultiset(init, x, key);
      var u := InsertDesc(init, x, key);
      forall i | 0 <= i < |u|
        ensures key(u[i]) >= key(last)
      {
        assert u[i] in multiset(u);
        if u[i] != x {
          assert u[i] in multiset(init);
          var k :| 0 <= k < |init| && init[k] == u[i];
          assert t[k] == init[k];
        }
      }
    }
  }

  lemma {:induction false} InsertDescWithKey<T>(t: seq<T>, x: T, key: T -> real, v: real)
    ensures WithKey(InsertDesc(t, x, key), key, v)
         == WithKey(t, key, v) + (if key(x) == v then [x] else [])
  {
    if t == [] || key(t[|t| - 1]) >= key(x) {
      assert (t + [x])[..|t|] == t;
    } else {
      var init, last := t[..|t| - 1], t[|t| - 1];
      InsertDescWithKey(init, x, key, v);
      var u := InsertDesc(init, x, key);
      assert (u + [last])[..|u|] == u;
    }
  }

  /** `SortDesc` is a stable descending sort: its result is ordered, is a
      permutation of its input, and keeps the input order among equal keys. */
  lemma {:induction false} SortDescIsStableSort<T>(s: seq<T>, key: T -> real)
    ensures |SortDesc(s, key)| == |s|
    ensures SortedDesc(SortDesc(s, key), key)
    ensures multiset(SortDesc(s, key)) == multiset(s)
    ensures forall v :: WithKey(SortDesc(s, key), key, v) == WithKey(s, key, v)
  {
    if s != [] {
      var init, last := s[..|s| - 1], s[|s| - 1];
      SortDescIsStableSort(init, key);
      InsertDescSorted(SortDesc(init, key), last, key);
      InsertDescMultiset(SortDesc(init, key), last, key);
      assert s == init + [last];
      forall v
        ensures WithKey(SortDesc(s, key), key, v) == WithKey(s, key, v)
      {
        InsertDescWithKey(SortDesc(init, key), last, key, v);
      }
    }
  }

  /** Where `InsertDesc` puts `x` when the caller has found the slot `j`. */
  lemma {:induction false} InsertDescAt<T>(t: seq<T>, x: T, key: T -> real, j: nat)
    requires j <= |t|
    requires j > 0 ==> key(t[j - 1]) >= key(x)
    requires forall k :: j <= k < |t| ==> key(t[k]) < key(x)
    ensures InsertDesc(t, x, key) == t[..j] + [x] + t[j..]
  {
    if j < |t| {
      var init := t[..|t| - 1];
      InsertDescAt(init, x, key, j);
      assert init[..j] == t[..j];
      assert init[j..] + [t[|t| - 1]] == t[j..];
    }
  }

  /** Python's in-place `list.sort(key=key, reverse=True)`, written as the
      insertion sort that `SortDesc` describes. */
  method SortInPlace<T>(a: array<T>, key: T -> real)
    modifies a
    ensures a[..] == SortDesc(old(a[..]), key)
  {
    ghost var s := a[..];
    var i := 0;
    while i < a.Length
      invariant 0 <= i <= a.Length
      invariant a[..i] == SortDesc(s[..i], key)
      invariant a[i..] == s[i..]
    {
      Insert(a, i, key);
      assert s[..i + 1][..i] == s[..i];
      i := i + 1;
    }
    assert s[..a.Length] == s;
  }

  /** One insertion step: moves `a[i]` left past every item of `a[..i]` with a
      smaller key. */
  method Insert<T>(a: array<T>, i: nat, key: T -> real)
    requires i < a.Length
    modifies a
    ensures a[..i + 1] == InsertDesc(old(a[..i]), old(a[i]), key)
    ensures a[i + 1..] == old(a[i + 1..])
  {
    var x := a[i];
    ghost var t := a[..i];
    var j := i;
    while j > 0 && key(a[j - 1]) < key(x)
      invariant 0 <= j <= i
      invariant forall k :: 0 <= k < j ==> a[k] == t[k]
      invariant forall k :: j < k <= i ==> a[k] == t[k - 1]
      invariant forall k :: i < k < a.Length ==> a[k] == old(a[k])
      invariant forall k :: j <= k < i ==> key(t[k]) < key(x)
    {
      a[j] := a[j - 1];
      j := j - 1;
    }
    a[j] := x;
    InsertDescAt(t, x, key, j);
    assert a[..i + 1] == t[..j] + [x] + t[j..];
  }

  /** Strictly ascending in Python's string order, hence free of duplicates. */
  ghost predicate StrictlyAscending(s: seq<string>)
  {
    forall i, j :: 0 <= i < j < |s| ==> LexLess(s[i], s[j])
  }

  /** The least string of a non-empty set. */
  method Least(s: set<string>) returns (m: string)
    requires s != {}
    ensures m in s
    ensures forall w :: w in s && w != m ==> LexLess(m, w)
  {
    m :| m in s;
    var rest := s - {m};
    while rest != {}
      invariant rest <= s && m in s && m !in rest
      invariant forall w :: w in s - rest && w != m ==> LexLess(m, w)
      decreases rest
    {
      var y :| y in rest;
      if LexLess(y, m) {
        forall w | w in s - rest && w != y
          ensures LexLess(y, w)
        {
          if w != m {
            LexLessTransitive(y, m, w);
          }
        }
        m := y;
      } else {
        LexLessTotal(y, m);
      }
      rest := rest - {y};
    }
  }

  /** `sorted(s)` for a set of strings: the strictly ascending list of its elements. */
  method SortStrings(s: set<string>) returns (r: seq<string>)
    ensures StrictlyAscending(r)
    ensures forall w :: w in r <==> w in s
    ensures |r| == |s|
  {
    r := [];
    var rest := s;
    while rest != {}
      invariant rest <= s
      invariant StrictlyAscending(r)
      invariant forall w :: w in r <==> w in s - rest
      invariant forall i, w :: 0 <= i < |r| && w in rest ==> LexLess(r[i], w)
      invariant |r| + |rest| == |s|
      decreases rest
    {
      var m := Least(rest);
      forall i, w | 0 <= i < |r| && w in rest - {m}
        ensures LexLess(r[i], w)
      {
        LexLessTransitive(r[i], m, w);
      }
      r := r + [m];
      rest := rest - {m};
    }
  }
}
