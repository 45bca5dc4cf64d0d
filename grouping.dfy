/** Grouping a list by a key, as a `defaultdict(list)` filled in a loop does: the groups appear in
    the order their keys are first seen, and each group keeps the list order of its members. */
module Grouping {
  import opened Seqs
  import opened Maps

  predicate Distinct<T(==)>(s: seq<T>) {
    forall i, j :: 0 <= i < j < |s| ==> s[i] != s[j]
  }

  /** The distinct elements of `xs`, each at the position of its first occurrence. */
  function FirstSeen<K(==)>(xs: seq<K>): seq<K>
    decreases |xs|
  {
    if |xs| == 0 then []
    else
      var init := FirstSeen(xs[..|xs| - 1]);
      if xs[|xs| - 1] in xs[..|xs| - 1] then init else init + [xs[|xs| - 1]]
  }

  /** `FirstSeen` keeps every element once and invents none. */
  lemma {:induction false} FirstSeenMembers<K>(xs: seq<K>)
    ensures forall k :: k in FirstSeen(xs) <==> k in xs
    ensures Distinct(FirstSeen(xs))
    decreases |xs|
  {
    if |xs| > 0 {
      var init := xs[..|xs| - 1];
      FirstSeenMembers(init);
      assert xs == init + [xs[|xs| - 1]];
    }
  }

  lemma FirstSeenHas<K>(xs: seq<K>, k: K)
    ensures k in FirstSeen(xs) <==> k in xs
  {
    FirstSeenMembers(xs);
  }

  /** A list without repetitions is its own first-seen order. */
  lemma {:induction false} FirstSeenOfDistinct<K>(xs: seq<K>)
    requires Distinct(xs)
    ensures FirstSeen(xs) == xs
    decreases |xs|
  {
    if |xs| > 0 {
      var init := xs[..|xs| - 1];
      assert Distinct(init);
      FirstSeenOfDistinct(init);
      assert xs[|xs| - 1] !in init;
      assert xs == init + [xs[|xs| - 1]];
    }
  }

  /** A non-empty list of equal elements has that element as its only first-seen element. */
  lemma {:induction false} FirstSeenConstant<K>(xs: seq<K>, c: K)
    requires |xs| > 0
    requires forall i :: 0 <= i < |xs| ==> xs[i] == c
    ensures FirstSeen(xs) == [c]
    decreases |xs|
  {
    if |xs| > 1 {
      var init := xs[..|xs| - 1];
      FirstSeenConstant(init, c);
      assert init[0] == c;
    }
  }

  lemma FirstSeenSnoc<K>(xs: seq<K>, x: K)
    ensures FirstSeen(xs + [x]) == FirstSeen(xs) + (if x in xs then [] else [x])
  {
    assert (xs + [x])[..|xs|] == xs;
  }

  /** Appending elements never reorders the ones already seen. */
  lemma {:induction false} FirstSeenAppendPrefix<K>(a: seq<K>, b: seq<K>)
    ensures |FirstSeen(a)| <= |FirstSeen(a + b)|
    ensures FirstSeen(a + b)[..|FirstSeen(a)|] == FirstSeen(a)
    decreases |b|
  {
    if |b| == 0 {
      assert a + b == a;
    } else {
      var init := b[..|b| - 1];
      FirstSeenAppendPrefix(a, init);
      assert a + b == (a + init) + [b[|b| - 1]];
      FirstSeenSnoc(a + init, b[|b| - 1]);
    }
  }

  function HasKey<T, K(==)>(key: T -> K, k: K): T -> bool {
    x => key(x) == k
  }

  /** The members of the group of key `k`, in list order. */
  function GroupOf<T, K(==)>(xs: seq<T>, key: T -> K, k: K): seq<T> {
    Filter(xs, HasKey(key, k))
  }

  /** The group keys, in the order they are first met. */
  function KeysOf<T, K(==)>(xs: seq<T>, key: T -> K): seq<K> {
    FirstSeen(MapSeq(xs, key))
  }

  /** The groups partition the list: the keys are exactly the keys of the elements, without
      repetition; every group is non-empty; every element is in the group of its own key and
      only there. */
  lemma GroupsPartition<T, K>(xs: seq<T>, key: T -> K)
    ensures Distinct(KeysOf(xs, key))
    ensures forall k :: k in KeysOf(xs, key) <==> exists i :: 0 <= i < |xs| && key(xs[i]) == k
    ensures forall k :: k in KeysOf(xs, key) ==> |GroupOf(xs, key, k)| > 0
    ensures forall i :: 0 <= i < |xs| ==> xs[i] in GroupOf(xs, key, key(xs[i]))
    ensures forall k, x :: x in GroupOf(xs, key, k) ==> x in xs && key(x) == k
  {
    var ks := MapSeq(xs, key);
    FirstSeenMembers(ks);
    forall k | k in KeysOf(xs, key) ensures exists i :: 0 <= i < |xs| && key(xs[i]) == k {
      FirstSeenHas(ks, k);
      assert k in ks;
      var i :| 0 <= i < |ks| && ks[i] == k;
    }
    forall k | exists i :: 0 <= i < |xs| && key(xs[i]) == k ensures k in KeysOf(xs, key) {
      var i :| 0 <= i < |xs| && key(xs[i]) == k;
      assert ks[i] == k;
      FirstSeenHas(ks, k);
    }
    forall k | k in KeysOf(xs, key) ensures |GroupOf(xs, key, k)| > 0 {
      var i :| 0 <= i < |xs| && key(xs[i]) == k;
      FilterMembers(xs, HasKey(key, k));
    }
    forall i | 0 <= i < |xs| ensures xs[i] in GroupOf(xs, key, key(xs[i])) {
      FilterMembers(xs, HasKey(key, key(xs[i])));
    }
    forall k, x | x in GroupOf(xs, key, k) ensures x in xs && key(x) == k {
      var g := GroupOf(xs, key, k);
      FilterMembers(xs, HasKey(key, k));
      var j :| 0 <= j < |g| && g[j] == x;
    }
  }

  /** Total size of the groups of the keys `ks`. */
  function SizeSum<T, K(==)>(xs: seq<T>, key: T -> K, ks: seq<K>): nat
    decreases |ks|
  {
    if |ks| == 0 then 0
    else SizeSum(xs, key, ks[..|ks| - 1]) + |GroupOf(xs, key, ks[|ks| - 1])|
  }

  /** Appending one element grows exactly one of a set of distinct keys' groups, by one. */
  lemma {:induction false} SizeSumSnoc<T, K>(xs: seq<T>, x: T, key: T -> K, ks: seq<K>)
    requires Distinct(ks)
    ensures SizeSum(xs + [x], key, ks) == SizeSum(xs, key, ks) + (if key(x) in ks then 1 else 0)
    decreases |ks|
  {
    if |ks| > 0 {
      var init := ks[..|ks| - 1];
      var last := ks[|ks| - 1];
      assert Distinct(init);
      SizeSumSnoc(xs, x, key, init);
      FilterSnoc(xs, x, HasKey(key, last));
      assert ks == init + [last];
      assert last !in init;
    }
  }

  /** The group sizes add up to the length of the list: no element is lost or counted twice. */
  lemma {:induction false} GroupSizesAddUp<T, K>(xs: seq<T>, key: T -> K)
    ensures SizeSum(xs, key, KeysOf(xs, key)) == |xs|
    decreases |xs|
  {
    if |xs| > 0 {
      var init := xs[..|xs| - 1];
      var x := xs[|xs| - 1];
      var ks := KeysOf(init, key);
      GroupSizesAddUp(init, key);
      FirstSeenMembers(MapSeq(init, key));
      MapSeqSnoc(init, x, key);
      assert xs == init + [x];
      assert MapSeq(xs, key)[..|xs| - 1] == MapSeq(init, key);
      SizeSumSnoc(init, x, key, ks);
      if key(x) !in MapSeq(init, key) {
        var c := key(x);
        assert KeysOf(xs, key) == ks + [c];
        assert (ks + [c])[..|ks|] == ks;
        FirstSeenHas(MapSeq(init, key), c);
        assert c !in ks;
        forall i | 0 <= i < |init| ensures !HasKey(key, c)(init[i]) {
          assert MapSeq(init, key)[i] == key(init[i]);
        }
        FilterNone(init, HasKey(key, c));
        FilterSnoc(init, x, HasKey(key, c));
        assert |GroupOf(xs, key, c)| == 1;
        assert SizeSum(xs, key, ks + [c]) == SizeSum(xs, key, ks) + |GroupOf(xs, key, c)|;
      } else {
        FirstSeenHas(MapSeq(init, key), key(x));
        assert KeysOf(xs, key) == ks;
      }
    }
  }

  /** `order` and `groups` are the insertion-ordered keys and the lists of a `defaultdict(list)`
      after every element of `xs` was appended under its key. */
  ghost predicate IsGrouping<T, K(!new)>(xs: seq<T>, key: T -> K, order: seq<K>, groups: map<K, seq<T>>) {
    && order == KeysOf(xs, key)
    && (forall g :: g in groups <==> g in order)
    && (forall g :: g in groups ==> groups[g] == GroupOf(xs, key, g))
  }

  lemma EmptyGrouping<T, K(!new)>(key: T -> K)
    ensures IsGrouping([], key, [], map[])
  {
  }

  /** Appending the next element under its key keeps the grouping exact. */
  lemma GroupingStep<T, K(!new)>(xs: seq<T>, n: nat, key: T -> K, order: seq<K>, groups: map<K, seq<T>>)
    requires n < |xs|
    requires IsGrouping(xs[..n], key, order, groups)
    ensures var k := key(xs[n]);
      IsGrouping(xs[..n + 1], key, if k in groups then order else order + [k],
        groups[k := GetOrEmpty(groups, k) + [xs[n]]])
  {
    var k := key(xs[n]);
    var prefix := xs[..n];
    MapSeqPrefix(xs, n, key);
    FirstSeenSnoc(MapSeq(prefix, key), k);
    FirstSeenHas(MapSeq(prefix, key), k);
    if k !in groups {
      forall i | 0 <= i < |prefix| ensures !HasKey(key, k)(prefix[i]) {
        assert MapSeq(prefix, key)[i] == key(prefix[i]);
      }
      FilterNone(prefix, HasKey(key, k));
    }
    var order' := if k in groups then order else order + [k];
    var groups' := groups[k := GetOrEmpty(groups, k) + [xs[n]]];
    assert order' == KeysOf(xs[..n + 1], key);
    forall g ensures g in groups' <==> g in order' {
    }
    forall g | g in groups' ensures groups'[g] == GroupOf(xs[..n + 1], key, g) {
      FilterPrefix(xs, n, HasKey(key, g));
      if g == k {
        assert GetOrEmpty(groups, k) == GroupOf(prefix, key, k);
      } else {
        assert g in groups;
      }
    }
  }
}
