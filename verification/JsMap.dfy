/** JavaScript's Map: a map that remembers the order in which its keys were first set. */
module JsMap {

  import opened Results

  predicate Distinct<T(==)>(s: seq<T>) {
    forall i, j :: 0 <= i < j < |s| ==> s[i] != s[j]
  }

  lemma {:induction false} DistinctSequencesOfOneSet<T>(a: seq<T>, b: seq<T>)
    requires Distinct(a) && Distinct(b)
    requires forall x :: x in a <==> x in b
    ensures multiset(a) == multiset(b)
  {
    DistinctMultiplicity(a);
    DistinctMultiplicity(b);
  }

  lemma {:induction false} DistinctMultiplicity<T>(s: seq<T>)
    requires Distinct(s)
    ensures forall x :: multiset(s)[x] == if x in s then 1 else 0
  {
    if s != [] {
      DistinctMultiplicity(s[1..]);
      assert s == [s[0]] + s[1..];
    }
  }

  lemma {:induction false} FewMeansDistinct<T>(s: seq<T>)
    requires forall x :: multiset(s)[x] <= 1
    ensures Distinct(s)
  {
    if s != [] {
      assert s == [s[0]] + s[1..];
      forall x ensures multiset(s[1..])[x] <= 1 && (x == s[0] ==> multiset(s[1..])[x] == 0) {
        assert multiset(s)[x] == multiset(s[1..])[x] + if x == s[0] then 1 else 0;
      }
      FewMeansDistinct(s[1..]);
      forall j | 0 < j < |s| ensures s[0] != s[j] {
        assert s[j] in s[1..];
      }
    }
  }

  /** A permutation of distinct elements is distinct. */
  lemma PermutedIsDistinct<T>(a: seq<T>, b: seq<T>)
    requires Distinct(a) && multiset(a) == multiset(b)
    ensures Distinct(b)
  {
    DistinctMultiplicity(a);
    FewMeansDistinct(b);
  }

  datatype Map<K(==), V> = Map(keys: seq<K>, values: map<K, V>) {
    ghost predicate Valid() {
      && Distinct(keys)
      && (forall k :: k in keys ==> k in values)
      && (forall k :: k in values ==> k in keys)
    }

    function Get(k: K): Option<V> {
      if k in values then Some(values[k]) else None
    }

    function Set(k: K, v: V): Map<K, V> {
      Map(if k in values then keys else keys + [k], values[k := v])
    }

    function Entries(): (entries: seq<(K, V)>)
      requires Valid()
      ensures |entries| == |keys|
      ensures forall i :: 0 <= i < |keys| ==> entries[i] == (keys[i], values[keys[i]])
    {
      seq(|keys|, i requires 0 <= i < |keys| => (keys[i], values[keys[i]]))
    }

    lemma SetKeepsValid(k: K, v: V)
      requires Valid()
      ensures Set(k, v).Valid()
    {
    }
  }

  function Unseen<K(==), V>(keys: seq<K>, m: map<K, V>): seq<K> {
    if keys == [] then [] else (if keys[0] in m then [] else [keys[0]]) + Unseen(keys[1..], m)
  }

  // Both maps in one: the keys of the right one that the left one lacks come last, and its values prevail.
  function Merge<K, V>(left: Map<K, V>, right: Map<K, V>): Map<K, V> {
    Map(left.keys + Unseen(right.keys, left.values), left.values + right.values)
  }

  function Empty<K, V>(): Map<K, V> {
    Map([], map[])
  }
}
