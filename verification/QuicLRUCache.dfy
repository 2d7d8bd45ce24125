/** A cache of limited capacity that forgets what was touched longest ago. */
module QuicLRUCache {
  import opened Wrappers
  import opened SimpleLinkedHashMap

  /** The entries after a key is touched: its entry is moved to the back, or added there. */
  function Touched<K(==), V>(s: seq<(K, V)>, key: K, value: V): (r: seq<(K, V)>) {
    Without(s, key) + [(key, value)]
  }

  /** Every key ever touched, by last touch, each with its latest value: an unbounded cache. */
  function Recency<K(==), V>(touches: seq<(K, V)>): seq<(K, V)> {
    if touches == [] then [] else
      var n := |touches| - 1;
      Touched(Recency(touches[..n]), touches[n].0, touches[n].1)
  }

  /** The last n entries, or all of them. */
  function Last<T>(s: seq<T>, n: nat): (r: seq<T>)
    ensures |r| == if |s| <= n then |s| else n
  {
    if |s| <= n then s else s[|s| - n..]
  }

  lemma WithoutDistinct<K, V>(s: seq<(K, V)>, key: K)
    requires DistinctKeys(s)
    ensures DistinctKeys(Without(s, key)) && !HasKey(Without(s, key), key)
    ensures forall k :: HasKey(Without(s, key), k) <==> HasKey(s, k) && k != key
  {
    hide Cut;
    var p, t := Place(s, key), Without(s, key);
    if p < |s| {
      CutAt(s, p);
      forall k | HasKey(s, k) && k != key ensures HasKey(t, k) {
        var i :| 0 <= i < |s| && s[i].0 == k;
        assert t[if i < p then i else i - 1].0 == k;
      }
    }
  }

  lemma TouchedDistinct<K, V>(s: seq<(K, V)>, key: K, value: V)
    requires DistinctKeys(s)
    ensures DistinctKeys(Touched(s, key, value))
    ensures forall k :: HasKey(Touched(s, key, value), k) <==> HasKey(s, k) || k == key
  {
    hide Without;
    WithoutDistinct(s, key);
    var t := Touched(s, key, value);
    assert t[|t| - 1].0 == key;
    forall k | HasKey(Without(s, key), k) ensures HasKey(t, k) {
      var i :| 0 <= i < |Without(s, key)| && Without(s, key)[i].0 == k;
      assert t[i].0 == k;
    }
  }

  lemma {:induction false} RecencyDistinct<K, V>(touches: seq<(K, V)>)
    ensures DistinctKeys(Recency(touches))
  {
    if touches != [] {
      var n := |touches| - 1;
      RecencyDistinct(touches[..n]);
      TouchedDistinct(Recency(touches[..n]), touches[n].0, touches[n].1);
    }
  }

  lemma PlaceInTail<K, V>(s: seq<(K, V)>, cut: nat, key: K)
    requires DistinctKeys(s) && cut <= |s|
    ensures Place(s[cut..], key) == if cut <= Place(s, key) < |s| then Place(s, key) - cut else |s| - cut
  {
    hide Place, HasKey;
    var t := s[cut..];
    var p, q := Place(s, key), Place(t, key);
    if q < |t| {
      assert s[cut + q].0 == key;
    }
    if cut <= p < |s| {
      assert t[p - cut].0 == key;
    }
  }

  lemma PlaceInLast<K, V>(s: seq<(K, V)>, n: nat, key: K)
    requires DistinctKeys(s)
    ensures var t, p := Last(s, n), Place(s, key);
      Place(t, key) == if |s| - |t| <= p < |s| then p - (|s| - |t|) else |t|
  {
    hide Place, HasKey, DistinctKeys;
    var cut := |s| - |Last(s, n)|;
    assert Last(s, n) == s[cut..];
    PlaceInTail(s, cut, key);
  }

  lemma LastOfLast<T>(s: seq<T>, n: nat, last: T)
    ensures Last(Last(s, n) + [last], n) == Last(s + [last], n)
  {
  }

  lemma LastAfterOlder<T>(s: seq<T>, n: nat, p: nat, last: T)
    requires p < |s| - |Last(s, n)|
    ensures Last(Cut(s, p) + [last], n) == Last(s + [last], n)
  {
    var a, b := Cut(s, p) + [last], s + [last];
    assert a[p..] == b[p + 1..];
    assert |a| - n >= p;
    assert a[|a| - n..] == a[p..][|a| - n - p..];
    assert b[|b| - n..] == b[p + 1..][|b| - n - p - 1..];
  }

  lemma CutInTail<T>(s: seq<T>, cut: nat, p: nat)
    requires cut <= p < |s|
    ensures Cut(s[cut..], p - cut) == Cut(s, p)[cut..]
  {
  }

  lemma LastAfterRecent<T>(s: seq<T>, n: nat, p: nat, last: T)
    requires |s| - |Last(s, n)| <= p < |s|
    ensures Last(Cut(Last(s, n), p - (|s| - |Last(s, n)|)) + [last], n) == Last(Cut(s, p) + [last], n)
  {
    var cut := |s| - |Last(s, n)|;
    assert Last(s, n) == s[cut..] && (cut == 0 || |s| - cut == n);
    hide Cut, Last;
    CutInTail(s, cut, p);
    CutAt(s, p);
    LastOfTail(Cut(s, p), cut, n, last);
  }

  lemma LastOfTail<T>(t: seq<T>, cut: nat, n: nat, last: T)
    requires cut <= |t| && (cut == 0 || |t| - cut + 1 == n)
    ensures Last(t[cut..] + [last], n) == Last(t + [last], n)
  {
    assert (t + [last])[cut..] == t[cut..] + [last];
  }

  /** The bounded cache is the recent end of the unbounded one, after any touch. */
  lemma TouchOfLast<K, V>(s: seq<(K, V)>, n: nat, key: K, value: V)
    requires DistinctKeys(s)
    ensures Last(Touched(Last(s, n), key, value), n) == Last(Touched(s, key, value), n)
  {
    hide Last, Place, Cut, HasKey, DistinctKeys;
    var p := Place(s, key);
    PlaceInLast(s, n, key);
    if p < |s| - |Last(s, n)| {
      LastAfterOlder(s, n, p, (key, value));
      LastOfLast(s, n, (key, value));
    } else if p < |s| {
      LastAfterRecent(s, n, p, (key, value));
    } else {
      LastOfLast(s, n, (key, value));
    }
  }

  lemma TouchedSize<K, V>(s: seq<(K, V)>, key: K, value: V)
    ensures |s| <= |Touched(s, key, value)| <= |s| + 1
  {
  }

  lemma TouchedKept<K, V>(s: seq<(K, V)>, key: K, value: V)
    requires HasKey(s, key)
    ensures |Touched(s, key, value)| == |s|
  {
  }

  lemma TrimOne<T>(t: seq<T>, n: nat)
    requires |t| <= n + 1
    ensures Last(t, n) == if |t| > n then t[1..] else t
  {
  }

  lemma AllOfFew<T>(t: seq<T>, n: nat)
    requires |t| <= n
    ensures Last(t, n) == t
  {
  }

  class QuicLRUCache<K(==), V> {
    const cache: SimpleLinkedHashMap<K, V>
    const capacity: nat
    /** The keys touched since the cache was last cleared, each with its value then. */
    ghost var touches: seq<(K, V)>

    ghost predicate Valid()
      reads this, cache
    {
      cache.Valid() && cache.Contents() == Last(Recency(touches), capacity)
    }

    constructor (capacity: nat)
      ensures Valid() && touches == [] && this.capacity == capacity && fresh(cache)
    {
      this.capacity := capacity;
      cache := new SimpleLinkedHashMap<K, V>();
      touches := [];
    }

    ghost method Touch(key: K, value: V)
      modifies `touches
      ensures touches == old(touches) + [(key, value)]
      ensures Last(Recency(touches), capacity) == Last(Touched(Last(Recency(old(touches)), capacity), key, value), capacity)
    {
      RecencyDistinct(touches);
      TouchOfLast(Recency(touches), capacity, key, value);
      touches := touches + [(key, value)];
      assert touches[..|touches| - 1] == old(touches);
    }

    /** Erases the entry for a key, if there is one, and adds the key at the back. */
    method Replace(key: K, value: V)
      requires cache.Valid()
      modifies cache
      ensures cache.Valid() && cache.Contents() == Touched(old(cache.Contents()), key, value)
    {
      hide Place, DistinctKeys, HasKey, Cut;
      cache.KeysOnce();
      WithoutDistinct(cache.Contents(), key);
      var found := cache.Find(key);
      if found.Some? {
        var count := cache.Erase(key);
      }
      var inserted := cache.Emplace(key, value);
    }

    method Insert(key: K, value: V)
      requires Valid()
      modifies this, cache
      ensures Valid() && touches == old(touches) + [(key, value)]
    {
      hide Recency, Touched, Last, SimpleLinkedHashMap.Valid, SimpleLinkedHashMap.Contents;
      Replace(key, value);
      TouchedSize(old(cache.Contents()), key, value);
      var size := cache.Size();
      TrimOne(cache.Contents(), capacity);
      if size > capacity {
        cache.PopFront();
      }
      Touch(key, value);
    }

    /** A hit makes the entry the most recent; a miss changes nothing. */
    method Lookup(key: K) returns (value: Option<V>)
      requires Valid()
      modifies this, cache
      ensures Valid() && (value.Some? <==> HasKey(old(cache.Contents()), key))
      ensures value.Some? ==> (key, value.value) in old(cache.Contents()) && touches == old(touches) + [(key, value.value)]
      ensures value.None? ==> touches == old(touches) && cache.Contents() == old(cache.Contents())
    {
      hide Recency, Place, HasKey, Touched, Last;
      value := cache.Find(key);
      if value.Some? {
        TouchedKept(cache.Contents(), key, value.value);
        Replace(key, value.value);
        AllOfFew(cache.Contents(), capacity);
        Touch(key, value.value);
      }
    }

    method Clear()
      modifies this, cache
      ensures Valid() && touches == []
    {
      cache.Clear();
      touches := [];
    }
  }

  /** The touch at index i is the last of its key. */
  predicate LastTouch<K(==), V>(touches: seq<(K, V)>, i: nat) {
    i < |touches| && forall j :: i < j < |touches| ==> touches[j].0 != touches[i].0
  }

  /** indices picks out the last touches, and r lists them. */
  ghost predicate Lists<K, V>(indices: seq<nat>, touches: seq<(K, V)>, r: seq<(K, V)>) {
    && |indices| == |r|
    && (forall a, b :: 0 <= a < b < |indices| ==> indices[a] < indices[b])
    && (forall a :: 0 <= a < |indices| ==> LastTouch(touches, indices[a]) && r[a] == touches[indices[a]])
    && (forall i: nat :: LastTouch(touches, i) ==> i in indices)
  }

  lemma LastTouchExtended<K, V>(touches: seq<(K, V)>, n: nat, i: nat)
    requires |touches| == n + 1
    ensures LastTouch(touches, i) <==> i == n || (LastTouch(touches[..n], i) && touches[i].0 != touches[n].0)
    ensures LastTouch(touches[..n], i) ==> i < n
  {
  }

  /** The unbounded cache is exactly the last touches of all keys, in the order they happened, so each
      key is there once with its latest value. */
  lemma {:induction false} RecencyIsLastTouches<K, V>(touches: seq<(K, V)>) returns (indices: seq<nat>)
    ensures Lists(indices, touches, Recency(touches))
  {
    if touches == [] {
      indices := [];
    } else {
      var n := |touches| - 1;
      var before := RecencyIsLastTouches(touches[..n]);
      RecencyDistinct(touches[..n]);
      indices := Extended(touches, n, before, Recency(touches[..n]));
    }
  }

  /** The indices of the last touches of all keys but one. */
  ghost predicate ListsOthers<K, V>(indices: seq<nat>, touches: seq<(K, V)>, r: seq<(K, V)>, key: K) {
    && |indices| == |r|
    && (forall a, b :: 0 <= a < b < |indices| ==> indices[a] < indices[b])
    && (forall a :: 0 <= a < |indices| ==> LastTouch(touches, indices[a]) && r[a] == touches[indices[a]] && r[a].0 != key)
    && (forall i: nat :: i < |touches| && LastTouch(touches, i) && touches[i].0 != key ==> i in indices)
  }

  lemma DropAt<K, V>(before: seq<nat>, touches: seq<(K, V)>, r: seq<(K, V)>, p: nat)
    requires Lists(before, touches, r) && DistinctKeys(r) && p < |r|
    ensures ListsOthers(Cut(before, p), touches, Cut(r, p), r[p].0)
  {
    hide LastTouch, Cut;
    CutAt(before, p);
    CutAt(r, p);
    var indices := Cut(before, p);
    forall i: nat | i < |touches| && LastTouch(touches, i) && touches[i].0 != r[p].0 ensures i in indices {
      var a :| 0 <= a < |before| && before[a] == i;
      assert indices[if a < p then a else a - 1] == i;
    }
  }

  lemma DropOne<K, V>(before: seq<nat>, touches: seq<(K, V)>, r: seq<(K, V)>, key: K) returns (indices: seq<nat>)
    requires Lists(before, touches, r) && DistinctKeys(r)
    ensures ListsOthers(indices, touches, Without(r, key), key)
  {
    hide LastTouch, Place, DistinctKeys, Cut;
    var p := Place(r, key);
    if p == |r| {
      indices := before;
    } else {
      DropAt(before, touches, r, p);
      indices := Cut(before, p);
    }
  }

  lemma OthersStayLast<K, V>(touches: seq<(K, V)>, n: nat, others: seq<nat>, r0: seq<(K, V)>)
    requires |touches| == n + 1 && ListsOthers(others, touches[..n], r0, touches[n].0)
    ensures forall a :: 0 <= a < |others| ==> others[a] < n && LastTouch(touches, others[a]) && r0[a] == touches[others[a]]
  {
    hide LastTouch;
    forall a | 0 <= a < |others| ensures others[a] < n && LastTouch(touches, others[a]) && r0[a] == touches[others[a]] {
      LastTouchExtended(touches, n, others[a]);
    }
  }

  lemma LastIsListed<K, V>(touches: seq<(K, V)>, n: nat, others: seq<nat>, r0: seq<(K, V)>, i: nat)
    requires |touches| == n + 1 && ListsOthers(others, touches[..n], r0, touches[n].0) && LastTouch(touches, i)
    ensures i == n || i in others
  {
    hide LastTouch;
    LastTouchExtended(touches, n, i);
    assert i < n ==> touches[..n][i] == touches[i];
  }

  lemma Extended<K, V>(touches: seq<(K, V)>, n: nat, before: seq<nat>, r: seq<(K, V)>) returns (indices: seq<nat>)
    requires |touches| == n + 1 && Lists(before, touches[..n], r) && DistinctKeys(r)
    ensures Lists(indices, touches, Touched(r, touches[n].0, touches[n].1))
  {
    hide Without, DistinctKeys, LastTouch, Place, Cut;
    var r0 := Without(r, touches[n].0);
    var others := DropOne(before, touches[..n], r, touches[n].0);
    indices := others + [n];
    OthersStayLast(touches, n, others, r0);
    forall i: nat | LastTouch(touches, i) ensures i in indices {
      LastIsListed(touches, n, others, r0, i);
    }
    LastTouchExtended(touches, n, n);
  }
}
