/** Python dictionaries with their insertion order: a key keeps the place of its first insertion,
    and a later assignment only replaces its value. */
module OrderedMaps {
  import opened Seqs
  import opened Maps
  import opened Grouping

  datatype OrderedMap<K(==,!new), V> = OrderedMap(keys: seq<K>, entries: map<K, V>)
  {
    /** Every key once, in order, and exactly the keys that have an entry. */
    ghost predicate Valid() {
      Distinct(keys) && forall k :: k in entries <==> k in keys
    }

    /** `d[k] = v`. */
    function Put(k: K, v: V): OrderedMap<K, V> {
      OrderedMap(if k in entries then keys else keys + [k], entries[k := v])
    }

    /** `list(d.values())`. */
    function Values(): seq<V>
      requires forall i :: 0 <= i < |keys| ==> keys[i] in entries
    {
      seq(|keys|, i requires 0 <= i < |keys| && keys[i] in entries => entries[keys[i]])
    }
  }

  function Empty<K(==,!new), V>(): OrderedMap<K, V> {
    OrderedMap([], map[])
  }

  function PairKey<K, V>(p: (K, V)): K {
    p.0
  }

  function PairValue<K, V>(p: (K, V)): V {
    p.1
  }

  /** The dictionary built by assigning the pairs in order (`dict(pairs)`, or a comprehension). */
  function FromPairs<K(==,!new), V>(pairs: seq<(K, V)>): OrderedMap<K, V>
    decreases |pairs|
  {
    if |pairs| == 0 then Empty()
    else FromPairs(pairs[..|pairs| - 1]).Put(pairs[|pairs| - 1].0, pairs[|pairs| - 1].1)
  }

  /** `d.update(other)`: each of `other`'s keys in its order assigned into `d`. */
  function Update<K(==,!new), V>(d: OrderedMap<K, V>, other: OrderedMap<K, V>): OrderedMap<K, V>
    requires forall i :: 0 <= i < |other.keys| ==> other.keys[i] in other.entries
  {
    PutAll(d, other.keys, other.entries)
  }

  function PutAll<K(==,!new), V>(d: OrderedMap<K, V>, ks: seq<K>, src: map<K, V>): OrderedMap<K, V>
    requires forall i :: 0 <= i < |ks| ==> ks[i] in src
    decreases |ks|
  {
    if |ks| == 0 then d
    else PutAll(d, ks[..|ks| - 1], src).Put(ks[|ks| - 1], src[ks[|ks| - 1]])
  }

  lemma PutValid<K(!new), V>(d: OrderedMap<K, V>, k: K, v: V)
    requires d.Valid()
    ensures d.Put(k, v).Valid()
  {
  }

  /** Building a dictionary from pairs keeps each key at its first occurrence and holds its
      last value. */
  lemma {:induction false} FromPairsSpec<K(!new), V>(pairs: seq<(K, V)>)
    ensures FromPairs(pairs).Valid()
    ensures FromPairs(pairs).keys == FirstSeen(MapSeq(pairs, PairKey))
    ensures FromPairs(pairs).entries == KeyedBy(pairs, PairKey, PairValue)
    decreases |pairs|
  {
    if |pairs| > 0 {
      var init := pairs[..|pairs| - 1];
      var last := pairs[|pairs| - 1];
      FromPairsSpec(init);
      PutValid(FromPairs(init), last.0, last.1);
      MapSeqSnoc(init, last, PairKey);
      assert pairs == init + [last];
      FirstSeenSnoc(MapSeq(init, PairKey), last.0);
      FirstSeenHas(MapSeq(init, PairKey), last.0);
    }
  }

  /** `update` keeps the old keys in place and appends the new ones in the other map's order. */
  lemma {:induction false} PutAllKeys<K(!new), V>(d: OrderedMap<K, V>, ks: seq<K>, src: map<K, V>)
    requires d.Valid() && Distinct(ks)
    requires forall i :: 0 <= i < |ks| ==> ks[i] in src
    ensures PutAll(d, ks, src).Valid()
    ensures PutAll(d, ks, src).keys == d.keys + Filter(ks, NotIn(d.entries))
    decreases |ks|
  {
    if |ks| > 0 {
      var init := ks[..|ks| - 1];
      var k := ks[|ks| - 1];
      assert Distinct(init);
      PutAllKeys(d, init, src);
      PutAllEntries(d, init, src);
      var r := PutAll(d, init, src);
      PutValid(r, k, src[k]);
      assert k !in init;
      assert k !in Restrict(src, init);
      assert k in r.entries <==> k in d.entries;
    }
  }

  /** `update` lets the other map's values win. */
  lemma {:induction false} PutAllEntries<K(!new), V>(d: OrderedMap<K, V>, ks: seq<K>, src: map<K, V>)
    requires forall i :: 0 <= i < |ks| ==> ks[i] in src
    ensures PutAll(d, ks, src).entries == d.entries + Restrict(src, ks)
    decreases |ks|
  {
    if |ks| > 0 {
      var init := ks[..|ks| - 1];
      var k := ks[|ks| - 1];
      PutAllEntries(d, init, src);
      assert ks == init + [k];
      assert Restrict(src, ks) == Restrict(src, init)[k := src[k]];
    }
  }

  /** The entries of `src` whose keys are listed in `ks`. */
  function Restrict<K(!new), V>(src: map<K, V>, ks: seq<K>): map<K, V> {
    map x | x in ks && x in src :: src[x]
  }

  function NotIn<K, V>(m: map<K, V>): K -> bool {
    k => k !in m
  }
}
