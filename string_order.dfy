/** Python's ordering of strings (code point by code point, a proper prefix first) and `sorted`
    on a list of strings. */
module StringOrder {

  /** `a <= b` on strings. */
  predicate StrLe(a: string, b: string)
    decreases |a|
  {
    |a| == 0 || (|b| > 0 && (a[0] < b[0] || (a[0] == b[0] && StrLe(a[1..], b[1..]))))
  }

  lemma {:induction false} StrLeTotal(a: string, b: string)
    ensures StrLe(a, b) || StrLe(b, a)
    decreases |a|
  {
    if |a| > 0 && |b| > 0 && a[0] == b[0] {
      StrLeTotal(a[1..], b[1..]);
    }
  }

  lemma {:induction false} StrLeTransitive(a: string, b: string, c: string)
    requires StrLe(a, b) && StrLe(b, c)
    ensures StrLe(a, c)
    decreases |a|
  {
    if |a| > 0 && a[0] == b[0] && b[0] == c[0] {
      StrLeTransitive(a[1..], b[1..], c[1..]);
    }
  }

  lemma {:induction false} StrLeAntisymmetric(a: string, b: string)
    requires StrLe(a, b) && StrLe(b, a)
    ensures a == b
    decreases |a|
  {
    if |a| > 0 {
      StrLeAntisymmetric(a[1..], b[1..]);
      assert a == [a[0]] + a[1..] && b == [b[0]] + b[1..];
    }
  }

  predicate Sorted(s: seq<string>) {
    forall i, j :: 0 <= i < j < |s| ==> StrLe(s[i], s[j])
  }

  /** `x` placed after every element of the sorted `s` that is not above it. */
  function Insert(s: seq<string>, x: string): (r: seq<string>)
    requires Sorted(s)
    ensures Sorted(r) && multiset(r) == multiset(s) + multiset{x}
  {
    if |s| == 0 then [x]
    else if StrLe(s[|s| - 1], x) then
      assert forall i :: 0 <= i < |s| ==> StrLe(s[i], x) by {
        forall i | 0 <= i < |s| - 1 ensures StrLe(s[i], x) {
          StrLeTransitive(s[i], s[|s| - 1], x);
        }
      }
      s + [x]
    else
      var init := s[..|s| - 1];
      assert s == init + [s[|s| - 1]];
      var r := Insert(init, x);
      StrLeTotal(s[|s| - 1], x);
      InsertBelowLast(init, s[|s| - 1], x, r);
      r + [s[|s| - 1]]
  }

  /** Appending an element that is above everything inserted keeps the order. */
  lemma InsertBelowLast(init: seq<string>, last: string, x: string, r: seq<string>)
    requires Sorted(init + [last]) && StrLe(x, last)
    requires Sorted(r) && multiset(r) == multiset(init) + multiset{x}
    ensures Sorted(r + [last])
  {
    forall i | 0 <= i < |r| ensures StrLe(r[i], last) {
      assert r[i] in multiset(r);
      if r[i] != x {
        assert r[i] in multiset(init);
        var k :| 0 <= k < |init| && init[k] == r[i];
        assert (init + [last])[k] == init[k] && (init + [last])[|init|] == last;
      }
    }
  }

  /** `sorted(xs)`: the strings in ascending order. */
  function Sort(xs: seq<string>): (r: seq<string>)
    ensures Sorted(r) && multiset(r) == multiset(xs)
    decreases |xs|
  {
    if |xs| == 0 then []
    else
      assert xs == xs[..|xs| - 1] + [xs[|xs| - 1]];
      Insert(Sort(xs[..|xs| - 1]), xs[|xs| - 1])
  }
}
