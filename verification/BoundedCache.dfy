/** `createCache`: a key-value cache of limited size that evicts its oldest entry. */
module BoundedCache {

  /** `keys` lists the stored keys, each once; with length zero it lists none. */
  ghost predicate Listed<K(!new)>(keys: seq<K>, stored: set<K>, length: nat) {
    && |keys| <= length
    && (forall i, j :: 0 <= i < j < |keys| ==> keys[i] != keys[j])
    && (length > 0 ==> forall k :: k in stored <==> k in keys)
  }

  class Cache<K(==,!new), V> {
    const cacheLength: nat
    /** oldest first */
    var keys: seq<K>
    /** the properties of the cache function */
    var stored: map<K, V>

    ghost predicate Valid()
      reads this
    {
      Listed(keys, stored.Keys, cacheLength)
    }

    constructor (cacheLength: nat)
      ensures Valid() && this.cacheLength == cacheLength && stored == map[] && keys == []
    {
      this.cacheLength := cacheLength;
      keys, stored := [], map[];
    }

    /** `cache( key, value )` for a new key. The cache stays within its length exactly when the length is not zero:
        with zero, the key is dropped from the list before its value is stored, and nothing ever evicts it. */
    method Store(key: K, value: V)
      requires Valid() && key !in stored
      modifies this
      ensures Valid()
      ensures stored == Evicted(old(stored), old(keys), cacheLength)[key := value]
      ensures keys == if |old(keys)| < cacheLength then old(keys) + [key] else (old(keys) + [key])[1..]
      ensures |stored| <= cacheLength <==> cacheLength > 0
    {
      StoreIs(stored, keys, cacheLength, key, value);
      keys := keys + [key];
      if |keys| > cacheLength {
        stored := stored - {keys[0]};
        keys := keys[1..];
      }
      stored := stored[key := value];
    }
  }

  /** What is still stored when a new key comes. */
  function Evicted<K, V>(stored: map<K, V>, keys: seq<K>, length: nat): map<K, V> {
    if |keys| == length && length > 0 then stored - {keys[0]} else stored
  }

  /** Whatever else is stored afterwards was stored before. */
  lemma EvictedIsOld<K(!new), V>(stored: map<K, V>, keys: seq<K>, length: nat, key: K, value: V)
    ensures var now := Evicted(stored, keys, length)[key := value];
            forall k :: k in now && k != key ==> k in stored && now[k] == stored[k]
  {
  }

  lemma StoreIs<K(!new), V>(stored: map<K, V>, keys: seq<K>, length: nat, key: K, value: V)
    requires Listed(keys, stored.Keys, length) && key !in stored
    ensures var keys' := if |keys| < length then keys + [key] else (keys + [key])[1..];
            var stored' := Evicted(stored, keys, length)[key := value];
            Listed(keys', stored'.Keys, length) && (|stored'| <= length <==> length > 0)
    ensures length == 0 ==> stored - {key} == stored
    ensures |keys| == length && length > 0 ==> stored - {(keys + [key])[0]} == Evicted(stored, keys, length)
  {
    ListedAfterStore(keys, stored.Keys, length, key);
    EvictedKeys(stored, keys, length, key, value);
    MapWithout(stored, {key});
  }

  lemma EvictedKeys<K(!new), V>(stored: map<K, V>, keys: seq<K>, length: nat, key: K, value: V)
    requires |keys| <= length && key !in stored
    ensures var stored' := Evicted(stored, keys, length)[key := value];
            stored'.Keys == AfterStore(keys, stored.Keys, length, key).1 && |stored'| == |stored'.Keys|
  {
    var kept := Evicted(stored, keys, length);
    if length == 0 {
      assert stored.Keys - {key} == stored.Keys;
    }
    assert kept.Keys + {key} == AfterStore(keys, stored.Keys, length, key).1;
    MapAdd(kept, key, value);
  }

  lemma MapAdd<K, V>(m: map<K, V>, key: K, value: V)
    ensures m[key := value].Keys == m.Keys + {key}
    ensures |m[key := value]| == |m[key := value].Keys|
  {
  }

  lemma MapWithout<K, V>(m: map<K, V>, evicted: set<K>)
    requires evicted !! m.Keys
    ensures m - evicted == m
  {
  }

  /** The listed and the stored keys after storing a new one. */
  ghost function AfterStore<K>(keys: seq<K>, stored: set<K>, length: nat, key: K): (seq<K>, set<K>) {
    var more := keys + [key];
    if |more| > length then (more[1..], stored - {more[0]} + {key}) else (more, stored + {key})
  }

  lemma ListedAfterStore<K(!new)>(keys: seq<K>, stored: set<K>, length: nat, key: K)
    requires Listed(keys, stored, length) && key !in stored
    ensures var next := AfterStore(keys, stored, length, key);
            Listed(next.0, next.1, length) && (|next.1| <= length <==> length > 0)
  {
    var more := keys + [key];
    var (keys', stored') := AfterStore(keys, stored, length, key);
    if length > 0 {
      assert more[|keys|] == key;
      forall k ensures k in stored' <==> k in keys' {
        assert k in more <==> k in stored || k == key;
        if k in stored' {
          var i :| 0 <= i < |more| && more[i] == k;
        }
      }
      ListedSize(keys', stored');
    } else {
      assert key in stored';
    }
  }

  lemma {:induction false} ListedSize<K(!new)>(keys: seq<K>, stored: set<K>)
    requires forall i, j :: 0 <= i < j < |keys| ==> keys[i] != keys[j]
    ensures (forall k :: k in stored <==> k in keys) ==> |stored| == |keys|
    decreases |keys|
  {
    if keys != [] && forall k :: k in stored <==> k in keys {
      var last := keys[|keys|-1];
      ListedSize(keys[..|keys|-1], stored - {last});
    }
  }
}
