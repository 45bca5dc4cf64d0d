/** Order-preserving filtering over sequences (list comprehensions with an `if`). */
module Seqs {

  /** The elements of `s` that satisfy `p`, in their original order (defined from the back,
      the way a loop that appends builds it). */
  function Filter<T>(s: seq<T>, p: T -> bool): (r: seq<T>)
    ensures |r| <= |s|
    decreases |s|
  {
    if |s| == 0 then []
    else Filter(s[..|s| - 1], p) + (if p(s[|s| - 1]) then [s[|s| - 1]] else [])
  }

  /** Filtering commutes with appending one element at the end: what a loop that appends needs. */
  lemma FilterSnoc<T>(s: seq<T>, x: T, p: T -> bool)
    ensures Filter(s + [x], p) == Filter(s, p) + (if p(x) then [x] else [])
  {
    assert (s + [x])[..|s|] == s;
  }

  /** Exactly the elements of `s` that satisfy `p` survive the filter. */
  lemma {:induction false} FilterMembers<T>(s: seq<T>, p: T -> bool)
    ensures forall i :: 0 <= i < |Filter(s, p)| ==> Filter(s, p)[i] in s && p(Filter(s, p)[i])
    ensures forall i :: 0 <= i < |s| && p(s[i]) ==> s[i] in Filter(s, p)
    decreases |s|
  {
    if |s| > 0 {
      var init := s[..|s| - 1];
      FilterMembers(init, p);
      var r := Filter(s, p);
      var tail: seq<T> := if p(s[|s| - 1]) then [s[|s| - 1]] else [];
      assert r == Filter(init, p) + tail;
      forall i | 0 <= i < |r| ensures r[i] in s && p(r[i]) {
        if i < |Filter(init, p)| {
          assert r[i] == Filter(init, p)[i];
          assert r[i] in init;
        }
      }
      forall i | 0 <= i < |s| && p(s[i]) ensures s[i] in r {
        if i < |s| - 1 {
          assert s[i] == init[i];
        }
      }
    }
  }

  function Not<T>(p: T -> bool): T -> bool {
    x => !p(x)
  }

  lemma {:induction false} FilterAppend<T>(s: seq<T>, t: seq<T>, p: T -> bool)
    ensures Filter(s + t, p) == Filter(s, p) + Filter(t, p)
    decreases |t|
  {
    if |t| == 0 {
      assert s + t == s;
    } else {
      var init, last := t[..|t| - 1], t[|t| - 1];
      assert t == init + [last];
      assert s + t == (s + init) + [last];
      FilterAppend(s, init, p);
      FilterSnoc(s + init, last, p);
      FilterSnoc(init, last, p);
    }
  }

  /** A filter and its complement split `s` into two parts that together hold every element. */
  lemma {:induction false} FilterPartition<T>(s: seq<T>, p: T -> bool)
    ensures multiset(Filter(s, p)) + multiset(Filter(s, Not(p))) == multiset(s)
    ensures |Filter(s, p)| + |Filter(s, Not(p))| == |s|
    decreases |s|
  {
    if |s| > 0 {
      var init, last := s[..|s| - 1], s[|s| - 1];
      FilterPartition(init, p);
      assert s == init + [last];
      FilterSnoc(init, last, p);
      FilterSnoc(init, last, Not(p));
      assert Not(p)(last) == !p(last);
      SplitStep(Filter(init, p), Filter(init, Not(p)), init, last,
        if p(last) then [last] else [], if p(last) then [] else [last]);
    }
  }

  /** Adding one element to one of two parts of a split adds it to the whole. */
  lemma SplitStep<T>(kept: seq<T>, dropped: seq<T>, init: seq<T>, last: T, x: seq<T>, y: seq<T>)
    requires multiset(kept) + multiset(dropped) == multiset(init)
    requires (x == [last] && y == []) || (x == [] && y == [last])
    ensures multiset(kept + x) + multiset(dropped + y) == multiset(init + [last])
  {
    assert multiset(x) + multiset(y) == multiset{last};
  }

  lemma TwoElements<T>(s: seq<T>, x: T, y: T)
    requires |s| == 2 && s[0] == x && s[1] == y
    ensures s == [x, y]
  {
  }

  /** When every element passes, filtering changes nothing. */
  lemma {:induction false} FilterAll<T>(s: seq<T>, p: T -> bool)
    requires forall i :: 0 <= i < |s| ==> p(s[i])
    ensures Filter(s, p) == s
    decreases |s|
  {
    if |s| > 0 {
      FilterAll(s[..|s| - 1], p);
      assert s == s[..|s| - 1] + [s[|s| - 1]];
    }
  }

  /** When no element passes, the filter is empty. */
  lemma {:induction false} FilterNone<T>(s: seq<T>, p: T -> bool)
    requires forall i :: 0 <= i < |s| ==> !p(s[i])
    ensures Filter(s, p) == []
    decreases |s|
  {
    if |s| > 0 {
      FilterNone(s[..|s| - 1], p);
    }
  }

  /** `f` applied to every element, in order. */
  function MapSeq<T, U>(s: seq<T>, f: T -> U): (r: seq<U>)
    ensures |r| == |s|
    ensures forall i :: 0 <= i < |s| ==> r[i] == f(s[i])
  {
    seq(|s|, i requires 0 <= i < |s| => f(s[i]))
  }

  lemma MapSeqSnoc<T, U>(s: seq<T>, x: T, f: T -> U)
    ensures MapSeq(s + [x], f) == MapSeq(s, f) + [f(x)]
  {
  }

  lemma MapSeqAppend<T, U>(s: seq<T>, t: seq<T>, f: T -> U)
    ensures MapSeq(s + t, f) == MapSeq(s, f) + MapSeq(t, f)
  {
  }

  /** One more element of the input extends the filter of the prefix by at most that element. */
  lemma FilterPrefix<T>(s: seq<T>, n: nat, p: T -> bool)
    requires n < |s|
    ensures Filter(s[..n + 1], p) == Filter(s[..n], p) + (if p(s[n]) then [s[n]] else [])
  {
    assert s[..n + 1][..n] == s[..n];
  }

  lemma MapSeqPrefix<T, U>(s: seq<T>, n: nat, f: T -> U)
    requires n < |s|
    ensures MapSeq(s[..n + 1], f) == MapSeq(s[..n], f) + [f(s[n])]
  {
    assert s[..n + 1] == s[..n] + [s[n]];
  }

  /** A weaker condition keeps at least as many elements. */
  lemma {:induction false} FilterLengthMonotone<T>(s: seq<T>, p: T -> bool, q: T -> bool)
    requires forall i :: 0 <= i < |s| && p(s[i]) ==> q(s[i])
    ensures |Filter(s, p)| <= |Filter(s, q)|
    decreases |s|
  {
    if |s| > 0 {
      FilterLengthMonotone(s[..|s| - 1], p, q);
    }
  }

  /** The first position of `x` in `xs` (`xs.index(x)`), or `|xs|` when it does not occur. */
  function IndexOf<T(==)>(xs: seq<T>, x: T): (r: nat)
    ensures r <= |xs|
    ensures r < |xs| ==> xs[r] == x
    ensures forall j :: 0 <= j < r ==> xs[j] != x
    decreases |xs|
  {
    if |xs| == 0 then 0
    else if xs[0] == x then 0
    else 1 + IndexOf(xs[1..], x)
  }

  /** The lists joined end to end, as repeated `extend` calls do. */
  function Concat<T>(xss: seq<seq<T>>): seq<T>
    decreases |xss|
  {
    if |xss| == 0 then [] else Concat(xss[..|xss| - 1]) + xss[|xss| - 1]
  }

  lemma ConcatPrefix<T>(xss: seq<seq<T>>, n: nat)
    requires n < |xss|
    ensures Concat(xss[..n + 1]) == Concat(xss[..n]) + xss[n]
  {
    assert xss[..n + 1][..n] == xss[..n];
  }

  /** The first list leads the concatenation. */
  lemma {:induction false} ConcatFront<T>(xss: seq<seq<T>>)
    requires |xss| > 0
    ensures Concat(xss) == xss[0] + Concat(xss[1..])
    decreases |xss|
  {
    if |xss| > 1 {
      var init := xss[..|xss| - 1];
      ConcatFront(init);
      assert init[1..] == xss[1..][..|xss[1..]| - 1];
    }
  }

  /** An element is in the concatenation exactly when it is in one of the lists. */
  lemma {:induction false} ConcatMember<T>(xss: seq<seq<T>>, x: T)
    ensures x in Concat(xss) <==> exists i :: 0 <= i < |xss| && x in xss[i]
    decreases |xss|
  {
    if |xss| > 0 {
      var init := xss[..|xss| - 1];
      ConcatMember(init, x);
      if x in Concat(xss) && x !in xss[|xss| - 1] {
        var i :| 0 <= i < |init| && x in init[i];
        assert x in xss[i];
      }
      if exists i :: 0 <= i < |xss| && x in xss[i] {
        var i :| 0 <= i < |xss| && x in xss[i];
        if i < |xss| - 1 {
          assert x in init[i];
        }
      }
    }
  }

  /** The length of a concatenation of lists of one common length. */
  lemma {:induction false} ConcatUniformLength<T>(xss: seq<seq<T>>, n: nat)
    requires forall i :: 0 <= i < |xss| ==> |xss[i]| == n
    ensures |Concat(xss)| == |xss| * n
    decreases |xss|
  {
    if |xss| > 0 {
      ConcatUniformLength(xss[..|xss| - 1], n);
    }
  }

  /** Pairs of corresponding elements, as many as the shorter list has (`zip`). */
  function Zip<A, B>(a: seq<A>, b: seq<B>): (r: seq<(A, B)>)
    ensures |r| == if |a| <= |b| then |a| else |b|
    ensures forall i :: 0 <= i < |r| ==> r[i] == (a[i], b[i])
  {
    seq(if |a| <= |b| then |a| else |b|, i requires 0 <= i < |a| && i < |b| => (a[i], b[i]))
  }
}
