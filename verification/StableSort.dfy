/** Python's sorted and list slicing, as far as the modelled services use them. */
module StableSort {

  ghost predicate SortedBy<T>(s: seq<T>, key: T -> real) {
    forall i, j :: 0 <= i < j < |s| ==> key(s[i]) <= key(s[j])
  }

  /** x goes before the first element that is not smaller. */
  function InsertBy<T>(x: T, s: seq<T>, key: T -> real): (r: seq<T>)
    ensures multiset(r) == multiset(s) + multiset{x} && |r| == |s| + 1
  {
    if s == [] || key(x) <= key(s[0]) then [x] + s else
      assert s == [s[0]] + s[1..];
      [s[0]] + InsertBy(x, s[1..], key)
  }

  lemma {:induction false} InsertSorted<T>(x: T, s: seq<T>, key: T -> real)
    requires SortedBy(s, key)
    ensures SortedBy(InsertBy(x, s, key), key)
  {
    if s != [] && key(x) > key(s[0]) {
      var rest := InsertBy(x, s[1..], key);
      InsertSorted(x, s[1..], key);
      forall y | y in rest
        ensures key(s[0]) <= key(y)
      {
        assert y in multiset(rest);
        assert y in s[1..] || y == x;
      }
    }
  }

  /** sorted(s, key=key): ascending, and stable. */
  function SortBy<T>(s: seq<T>, key: T -> real): (r: seq<T>)
    ensures multiset(r) == multiset(s) && |r| == |s|
    ensures SortedBy(r, key)
  {
    if s == [] then [] else
      assert s == [s[0]] + s[1..];
      var rest := SortBy(s[1..], key);
      InsertSorted(s[0], rest, key);
      InsertBy(s[0], rest, key)
  }

  /** The elements with the given key, in order. */
  function WithKey<T>(s: seq<T>, key: T -> real, at: real): seq<T> {
    if s == [] then [] else (if key(s[0]) == at then [s[0]] else []) + WithKey(s[1..], key, at)
  }

  lemma {:induction false} InsertStable<T>(x: T, s: seq<T>, key: T -> real, at: real)
    requires SortedBy(s, key)
    ensures WithKey(InsertBy(x, s, key), key, at) == (if key(x) == at then [x] else []) + WithKey(s, key, at)
  {
    var r := InsertBy(x, s, key);
    if s == [] || key(x) <= key(s[0]) {
      assert r[1..] == s;
    } else {
      InsertStable(x, s[1..], key, at);
      assert r[1..] == InsertBy(x, s[1..], key);
      if key(x) == at {
        assert key(s[0]) != at;
      }
    }
  }

  /** Elements that compare equal keep their order. */
  lemma {:induction false} SortStable<T>(s: seq<T>, key: T -> real, at: real)
    ensures WithKey(SortBy(s, key), key, at) == WithKey(s, key, at)
  {
    if s == [] {
    } else {
      SortStable(s[1..], key, at);
      InsertStable(s[0], SortBy(s[1..], key), key, at);
    }
  }

  /** Only the keys of the elements matter. */
  lemma {:induction false} SortByAgrees<T>(s: seq<T>, f: T -> real, g: T -> real)
    requires forall x :: x in s ==> f(x) == g(x)
    ensures SortBy(s, f) == SortBy(s, g)
  {
    if s == [] {
    } else {
      var rest := SortBy(s[1..], f);
      SortByAgrees(s[1..], f, g);
      forall y | y in rest
        ensures f(y) == g(y)
      {
        assert y in multiset(rest);
        assert y in s[1..];
      }
      InsertByAgrees(s[0], rest, f, g);
    }
  }

  lemma {:induction false} InsertByAgrees<T>(x: T, s: seq<T>, f: T -> real, g: T -> real)
    requires f(x) == g(x) && forall y :: y in s ==> f(y) == g(y)
    ensures InsertBy(x, s, f) == InsertBy(x, s, g)
  {
    if s != [] && f(x) > f(s[0]) {
      InsertByAgrees(x, s[1..], f, g);
    }
  }

  lemma SortSameElements<T>(s: seq<T>, key: T -> real)
    ensures forall x :: x in SortBy(s, key) <==> x in s
  {
    assert forall x :: x in SortBy(s, key) <==> x in multiset(SortBy(s, key));
    assert forall x :: x in s <==> x in multiset(s);
  }

  lemma {:induction false} DistinctMultiset<T>(s: seq<T>)
    requires forall i, j :: 0 <= i < j < |s| ==> s[i] != s[j]
    ensures forall x :: multiset(s)[x] <= 1
  {
    if s == [] {
    } else {
      var init, x := s[..|s| - 1], s[|s| - 1];
      DistinctMultiset(init);
      assert s == init + [x];
      assert x !in init;
    }
  }

  lemma {:induction false} MultisetDistinct<T>(s: seq<T>)
    requires forall x :: multiset(s)[x] <= 1
    ensures forall i, j :: 0 <= i < j < |s| ==> s[i] != s[j]
  {
    if s == [] {
    } else {
      var init, x := s[..|s| - 1], s[|s| - 1];
      assert s == init + [x];
      assert forall y :: multiset(init)[y] <= multiset(s)[y];
      MultisetDistinct(init);
      assert multiset(s)[x] == multiset(init)[x] + 1;
      assert x !in init;
    }
  }

  lemma SortKeepsDistinct<T>(s: seq<T>, key: T -> real)
    requires forall i, j :: 0 <= i < j < |s| ==> s[i] != s[j]
    ensures forall i, j :: 0 <= i < j < |SortBy(s, key)| ==> SortBy(s, key)[i] != SortBy(s, key)[j]
  {
    DistinctMultiset(s);
    MultisetDistinct(SortBy(s, key));
  }

  /** s[:k] */
  function Take<T>(s: seq<T>, k: int): (r: seq<T>)
    ensures r <= s
    ensures k >= 0 ==> |r| == if k <= |s| then k else |s|
  {
    if k >= |s| then s else if k >= 0 then s[..k] else if |s| + k >= 0 then s[..|s| + k] else []
  }

  /** s[k:] */
  function Drop<T>(s: seq<T>, k: int): (r: seq<T>)
    ensures Take(s, k) + r == s
  {
    if k >= |s| then [] else if k >= 0 then s[k..] else if |s| + k >= 0 then s[|s| + k..] else s
  }
}
