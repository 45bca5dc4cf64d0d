/** A stable sort by an integer key, the behaviour of Python's `sorted(xs, key=...)`. */
module Sorting {
  import opened Seqs

  predicate SortedBy<T>(s: seq<T>, key: T -> int) {
    forall i, j :: 0 <= i < j < |s| ==> key(s[i]) <= key(s[j])
  }

  function KeyIs<T>(key: T -> int, k: int): T -> bool {
    x => key(x) == k
  }

  /** Inserts `x` after the last element whose key is not larger, which keeps equal keys in arrival order. */
  function Insert<T>(s: seq<T>, x: T, key: T -> int): (r: seq<T>)
    ensures multiset(r) == multiset(s) + multiset{x}
    ensures |r| == |s| + 1
    decreases |s|
  {
    if |s| == 0 || key(s[|s| - 1]) <= key(x) then s + [x]
    else
      var init, last := s[..|s| - 1], s[|s| - 1];
      assert s == init + [last];
      Insert(init, x, key) + [last]
  }

  /** Every element of `s` with a key at most `bound` keeps that bound inside `Insert(s, x, key)`. */
  lemma {:induction false} InsertBounded<T>(s: seq<T>, x: T, key: T -> int, bound: int)
    requires forall i :: 0 <= i < |s| ==> key(s[i]) <= bound
    requires key(x) <= bound
    ensures forall i :: 0 <= i < |Insert(s, x, key)| ==> key(Insert(s, x, key)[i]) <= bound
    decreases |s|
  {
    if |s| > 0 && key(x) < key(s[|s| - 1]) {
      var init := s[..|s| - 1];
      InsertBounded(init, x, key, bound);
    }
  }

  lemma {:induction false} InsertSorted<T>(s: seq<T>, x: T, key: T -> int)
    requires SortedBy(s, key)
    ensures SortedBy(Insert(s, x, key), key)
    decreases |s|
  {
    if |s| > 0 && key(x) < key(s[|s| - 1]) {
      var init, last := s[..|s| - 1], s[|s| - 1];
      InsertSorted(init, x, key);
      InsertBounded(init, x, key, key(last));
      var r := Insert(s, x, key);
      assert r == Insert(init, x, key) + [last];
    }
  }

  /** Insertion sort: each element, in order, is inserted into the sorted prefix. */
  function SortBy<T>(s: seq<T>, key: T -> int): (r: seq<T>)
    ensures SortedBy(r, key)
    ensures multiset(r) == multiset(s)
    ensures |r| == |s|
    decreases |s|
  {
    if |s| == 0 then []
    else
      var init, last := s[..|s| - 1], s[|s| - 1];
      assert s == init + [last];
      InsertSorted(SortBy(init, key), last, key);
      Insert(SortBy(init, key), last, key)
  }

  lemma SplitLast<T>(s: seq<T>)
    requires |s| > 0
    ensures s == s[..|s| - 1] + [s[|s| - 1]]
  {
  }

  /** Inserting `x` adds it behind every element of its own key and leaves the others' order alone. */
  lemma {:induction false} InsertStable<T>(s: seq<T>, x: T, key: T -> int, k: int)
    ensures Filter(Insert(s, x, key), KeyIs(key, k)) == Filter(s, KeyIs(key, k)) + (if key(x) == k then [x] else [])
    decreases |s|
  {
    if |s| == 0 || key(s[|s| - 1]) <= key(x) {
      FilterSnoc(s, x, KeyIs(key, k));
    } else {
      InsertStable(s[..|s| - 1], x, key, k);
      InsertStableStep(s, x, key, k);
    }
  }

  /** The step of `InsertStable` where `x` goes before the last element, given the claim for the
      elements before it. */
  lemma InsertStableStep<T>(s: seq<T>, x: T, key: T -> int, k: int)
    requires |s| > 0 && key(x) < key(s[|s| - 1])
    requires Filter(Insert(s[..|s| - 1], x, key), KeyIs(key, k))
      == Filter(s[..|s| - 1], KeyIs(key, k)) + (if key(x) == k then [x] else [])
    ensures Filter(Insert(s, x, key), KeyIs(key, k)) == Filter(s, KeyIs(key, k)) + (if key(x) == k then [x] else [])
  {
    var p := KeyIs(key, k);
    var init, last := s[..|s| - 1], s[|s| - 1];
    var ins := Insert(init, x, key);
    assert Insert(s, x, key) == ins + [last];
    SplitLast(s);
    FilterSnoc(init, last, p);
    FilterSnoc(ins, last, p);
    var tail := if p(last) then [last] else [];
    var added := if key(x) == k then [x] else [];
    assert added == [] || tail == [];
    SwapEmpty(Filter(init, p), added, tail);
  }

  lemma SwapEmpty<T>(a: seq<T>, b: seq<T>, c: seq<T>)
    requires b == [] || c == []
    ensures a + b + c == a + c + b
  {
    if b == [] {
      assert a + b == a && a + c + b == a + c;
    } else {
      assert a + c == a && a + b + c == a + b;
    }
  }

  /** Stability: for every key, the elements with that key keep their relative order. */
  lemma {:induction false} SortByStable<T>(s: seq<T>, key: T -> int, k: int)
    ensures Filter(SortBy(s, key), KeyIs(key, k)) == Filter(s, KeyIs(key, k))
    decreases |s|
  {
    if |s| > 0 {
      var init, last := s[..|s| - 1], s[|s| - 1];
      SplitLast(s);
      SortByStable(init, key, k);
      InsertStable(SortBy(init, key), last, key, k);
      FilterSnoc(init, last, KeyIs(key, k));
    }
  }
}
