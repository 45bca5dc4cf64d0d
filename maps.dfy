/** Dictionaries filled in a loop, one assignment per element: the last assignment to a key wins. */
module Maps {

  /** The dictionary `{key(x): value(x) for x in xs}`. */
  function KeyedBy<T, K, V>(xs: seq<T>, key: T -> K, value: T -> V): map<K, V>
    decreases |xs|
  {
    if |xs| == 0 then map[]
    else KeyedBy(xs[..|xs| - 1], key, value)[key(xs[|xs| - 1]) := value(xs[|xs| - 1])]
  }

  /** Every element's key is present, and nothing else is. */
  lemma {:induction false} KeyedByKeys<T, K, V>(xs: seq<T>, key: T -> K, value: T -> V)
    ensures forall i :: 0 <= i < |xs| ==> key(xs[i]) in KeyedBy(xs, key, value)
    ensures forall k :: k in KeyedBy(xs, key, value) ==> exists i :: 0 <= i < |xs| && key(xs[i]) == k
    decreases |xs|
  {
    if |xs| > 0 {
      var init := xs[..|xs| - 1];
      KeyedByKeys(init, key, value);
      forall k | k in KeyedBy(xs, key, value) ensures exists i :: 0 <= i < |xs| && key(xs[i]) == k {
        if k != key(xs[|xs| - 1]) {
          assert k in KeyedBy(init, key, value);
          var i :| 0 <= i < |init| && key(init[i]) == k;
          assert xs[i] == init[i];
        }
      }
      forall i | 0 <= i < |xs| - 1 ensures key(xs[i]) in KeyedBy(init, key, value) {
        assert xs[i] == init[i];
      }
    }
  }

  /** The entry for the key of the last element with that key holds that element's value. */
  lemma {:induction false} KeyedByLastWins<T, K, V>(xs: seq<T>, key: T -> K, value: T -> V, i: int)
    requires 0 <= i < |xs|
    requires forall j :: i < j < |xs| ==> key(xs[j]) != key(xs[i])
    ensures key(xs[i]) in KeyedBy(xs, key, value)
    ensures KeyedBy(xs, key, value)[key(xs[i])] == value(xs[i])
    decreases |xs|
  {
    if i < |xs| - 1 {
      var init := xs[..|xs| - 1];
      assert init[i] == xs[i];
      forall j | i < j < |init| ensures key(init[j]) != key(init[i]) {
        assert init[j] == xs[j];
      }
      KeyedByLastWins(init, key, value, i);
    }
  }

  lemma KeyedBySnoc<T, K, V>(xs: seq<T>, x: T, key: T -> K, value: T -> V)
    ensures KeyedBy(xs + [x], key, value) == KeyedBy(xs, key, value)[key(x) := value(x)]
  {
    assert (xs + [x])[..|xs|] == xs;
  }

  lemma KeyedByPrefix<T, K, V>(xs: seq<T>, n: nat, key: T -> K, value: T -> V)
    requires n < |xs|
    ensures KeyedBy(xs[..n + 1], key, value) == KeyedBy(xs[..n], key, value)[key(xs[n]) := value(xs[n])]
  {
    assert xs[..n + 1][..n] == xs[..n];
  }

  /** A dictionary lookup with an empty-list default (`d.get(key, [])`). */
  function GetOrEmpty<K, T>(m: map<K, seq<T>>, key: K): seq<T> {
    if key in m then m[key] else []
  }
}
