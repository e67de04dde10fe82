/** The cache of dimension maps: a bounded LRU cache whose evicted entries stay retrievable until they are cleared. */
module DimensionsCache {
  import opened PData

  /** `s` without `k`. */
  function Without(s: seq<string>, k: string): (r: seq<string>)
    ensures |r| <= |s| && k !in r
    ensures forall x :: x in r <==> x in s && x != k
    ensures Distinct(s) ==> Distinct(r)
    ensures k !in s ==> r == s
  {
    if s == [] then []
    else
      assert s == [s[0]] + s[1..];
      var w := Without(s[1..], k);
      if s[0] == k then w
      else
        assert Distinct(s) ==> s[0] !in w by { if s[0] in w { assert s[0] in s[1..]; } }
        [s[0]] + w
  }

  predicate Distinct(s: seq<string>) { forall i, j :: 0 <= i < j < |s| ==> s[i] != s[j] }

  /** The recency order after `k` is used, for a cache of `size` entries: the last one falls out when it is full. */
  function Used(order: seq<string>, k: string, size: nat): seq<string> {
    var o := [k] + Without(order, k);
    if |o| > size then o[..size] else o
  }

  lemma {:induction false} WithoutExactly(s: seq<string>, k: string, i: nat)
    requires Distinct(s) && i < |s| && s[i] == k
    ensures Without(s, k) == s[..i] + s[i + 1..]
  {
    if i > 0 {
      WithoutExactly(s[1..], k, i - 1);
      assert s[..i] + s[i + 1..] == [s[0]] + (s[1..][..i - 1] + s[1..][i..]);
    } else {
      assert k !in s[1..];
    }
  }

  /** Using a key moves it to the front, or puts it there before the others, the last of which falls out of a full
      cache. */
  lemma UsedExactly(order: seq<string>, k: string, size: nat)
    requires Distinct(order) && 1 <= size && |order| <= size
    ensures forall i :: 0 <= i < |order| && order[i] == k ==>
      Used(order, k, size) == [k] + order[..i] + order[i + 1..]
    ensures k !in order ==> Used(order, k, size) == [k] + if |order| < size then order else order[..size - 1]
  {
    forall i | 0 <= i < |order| && order[i] == k
      ensures Used(order, k, size) == [k] + order[..i] + order[i + 1..]
    {
      WithoutExactly(order, k, i);
      assert [k] + (order[..i] + order[i + 1..]) == [k] + order[..i] + order[i + 1..];
    }
    if k !in order && |order| == size {
      assert ([k] + order)[..size] == [k] + order[..size - 1];
    }
  }

  /** Setting the last entry aside keeps the order and the map in step and loses nothing. */
  lemma LastOut<V>(order: seq<string>, live: map<string, V>, evicted: map<string, V>)
    requires order != [] && Distinct(order) && forall k :: k in order <==> k in live
    ensures var o, rest := order[|order| - 1], order[..|order| - 1];
      && Distinct(rest) && o in live && (forall k :: k in rest <==> k in live && k != o)
      && evicted[o := live[o]] + (live - {o}) == evicted + live
  {
    var o, rest := order[|order| - 1], order[..|order| - 1];
    assert o in order && order == rest + [o];
    assert forall k :: k in rest ==> k in order;
    forall k | k in live && k != o ensures k in rest {
      assert k in order;
    }
  }

  /** Reviving an entry that was set aside loses nothing. */
  lemma Revived<V>(live: map<string, V>, evicted: map<string, V>, key: string)
    requires key !in live && key in evicted
    ensures ((evicted - {key}) + live)[key := evicted[key]] == evicted + live
  {}

  /** So does putting a key in front. */
  lemma FirstIn<V>(order: seq<string>, live: map<string, V>, evicted: map<string, V>, key: string, value: V)
    requires Distinct(order) && forall k :: k in order <==> k in live
    ensures var front := [key] + Without(order, key);
      && Distinct(front) && (forall k :: k in front <==> k in live[key := value])
      && evicted + live[key := value] == (evicted + live)[key := value]
  {}

  class Cache<V> {
    const size: nat
    var order: seq<string>             // most recently used first
    var live: map<string, V>
    var evictedItems: map<string, V>

    ghost predicate Valid()
      reads this
    {
      size >= 1 && |order| <= size && Linked()
    }

    /** Everything that can still be looked up; a live entry hides one of the same key that was set aside. */
    function Held(): map<string, V>
      reads this
    { evictedItems + live }

    constructor (size: nat)
      requires size >= 1
      ensures Valid() && this.size == size && Held() == map[]
    {
      this.size := size;
      order, live, evictedItems := [], map[], map[];
    }

    /** All of `Valid` but the bound on the number of live entries. */
    ghost predicate Linked()
      reads this
    {
      Distinct(order) && forall k :: k in order <==> k in live
    }

    /** Enters or refreshes `key`. When the cache is full, the least recently used entry is set aside. */
    method Add(key: string, value: V) returns (evicted: bool)
      requires Valid()
      modifies this
      ensures Valid() && Held() == old(Held())[key := value]
      ensures order == Used(old(order), key, size) && key in live
      ensures evicted <==> key !in old(order) && |old(order)| == size
    {
      WithoutShorter(order, key);
      PushFront(key, value);
      evicted := |order| > size;
      if evicted {
        RemoveOldest();
      }
      assert order[0] == key;
    }

    method PushFront(key: string, value: V)
      requires Linked()
      modifies this`order, this`live
      ensures Linked() && Held() == old(Held())[key := value]
      ensures order == [key] + Without(old(order), key)
    {
      FirstIn(order, live, evictedItems, key, value);
      live := live[key := value];
      order := [key] + Without(order, key);
    }

    method RemoveOldest()
      requires Linked() && |order| > 0
      modifies this
      ensures Linked() && Held() == old(Held()) && order == old(order)[..|old(order)| - 1]
    {
      var oldest := order[|order| - 1];
      LastOut(order, live, evictedItems);
      evictedItems := evictedItems[oldest := live[oldest]];
      live := live - {oldest};
      order := order[..|order| - 1];
    }

    /** Looks `key` up; an entry that was set aside comes back into the cache. */
    method Get(key: string) returns (r: Option<V>)
      requires Valid()
      modifies this
      ensures Valid() && Held() == old(Held())
      ensures r == if key in Held() then Some(Held()[key]) else None
      ensures r.Some? ==> key in live && order == Used(old(order), key, size)
      ensures r.None? ==> order == old(order)
    {
      if key in live {
        r := Some(live[key]);
        WithoutShorter(order, key);
        order := [key] + Without(order, key);
      } else if key in evictedItems {
        var val := evictedItems[key];
        r := Some(val);
        Revived(live, evictedItems, key);
        evictedItems := evictedItems - {key};
        var _ := Add(key, val);
      } else {
        r := None;
      }
    }

    predicate Contains(key: string)
      reads this
    { key in live }

    method RemoveEvictedItems()
      requires Valid()
      modifies this`evictedItems
      ensures Valid() && evictedItems == map[]
    {
      evictedItems := map[];
    }

    /** Every live entry is set aside by the eviction callback, and then all of those are cleared. */
    method Purge()
      requires Valid()
      modifies this
      ensures Valid() && Held() == map[] && order == []
    {
      evictedItems := evictedItems + live;
      live, order := map[], [];
      RemoveEvictedItems();
    }
  }

  lemma {:induction false} WithoutShorter(s: seq<string>, k: string)
    requires Distinct(s)
    ensures k in s ==> |Without(s, k)| == |s| - 1
  {
    if s != [] {
      WithoutShorter(s[1..], k);
    }
  }
}
