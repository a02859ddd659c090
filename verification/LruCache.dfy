/**
 The LRU cache as the program keeps it: entries shared between a map and a list, changed in
 place. Every method is proved to compute the function of LruPolicy that bears its name, and to
 report each dropped entry to the eviction callback exactly once.
 */
module LruCaches {
  import opened Options
  import opened Lists
  import opened LruPolicy

  class Entry<K, V> {
    const key: K
    var value: V
    var expires: int

    constructor (key: K, value: V, expires: int)
      ensures this.key == key && this.value == value && this.expires == expires
    {
      this.key, this.value, this.expires := key, value, expires;
    }
  }

  ghost function ItemsOf<K, V>(l: seq<Entry<K, V>>): (r: seq<Item<K, V>>)
    reads l
    ensures |r| == |l|
  {
    if |l| == 0 then [] else [Item(l[0].key, l[0].value, l[0].expires)] + ItemsOf(l[1..])
  }

  /** What the eviction callback is told about items. */
  ghost function Pairs<K, V>(s: seq<Item<K, V>>): seq<(K, V)> {
    seq(|s|, i requires 0 <= i < |s| => (s[i].key, s[i].value))
  }

  ghost predicate DistinctKeys<K, V>(l: seq<Entry<K, V>>) {
    forall i, j :: 0 <= i < j < |l| ==> l[i].key != l[j].key
  }

  lemma {:induction false} ItemsAt<K, V>(l: seq<Entry<K, V>>)
    ensures forall i :: 0 <= i < |l| ==> ItemsOf(l)[i] == Item(l[i].key, l[i].value, l[i].expires)
    ensures DistinctKeys(l) <==> Distinct(ItemsOf(l))
  {
    if |l| > 0 {
      ItemsAt(l[1..]);
    }
  }

  lemma {:induction false} ItemsAppend<K, V>(l: seq<Entry<K, V>>, e: Entry<K, V>)
    ensures ItemsOf(l + [e]) == ItemsOf(l) + [Item(e.key, e.value, e.expires)]
  {
    if |l| > 0 {
      assert (l + [e])[1..] == l[1..] + [e];
      ItemsAppend(l[1..], e);
    } else {
      assert l + [e] == [e];
    }
  }

  lemma EntriesDiffer<K, V>(l: seq<Entry<K, V>>)
    requires DistinctKeys(l)
    ensures NoDup(l)
  {
  }

  lemma {:induction false} ItemOfDropped<K, V>(l: seq<Entry<K, V>>, e: Entry<K, V>)
    requires DistinctKeys(l) && e in l
    ensures ItemsOf(Drop(l, e)) == Without(ItemsOf(l), e.key)
    ensures Find(ItemsOf(l), e.key) == Some(Item(e.key, e.value, e.expires))
  {
    if l[0] != e {
      var i :| 0 <= i < |l| && l[i] == e;
      assert l[i].key != l[0].key;
      assert l[1..][i - 1] == e;
      ItemOfDropped(l[1..], e);
    }
  }

  /** Taking an entry off the list takes its item off the sequence. */
  lemma ItemsDrop<K, V>(l: seq<Entry<K, V>>, e: Entry<K, V>)
    requires DistinctKeys(l) && e in l
    ensures ItemsOf(Drop(l, e)) == Without(ItemsOf(l), e.key)
    ensures Find(ItemsOf(l), e.key) == Some(Item(e.key, e.value, e.expires))
    ensures DistinctKeys(Drop(l, e)) && e !in Drop(l, e)
    ensures forall x :: x in Drop(l, e) ==> x in l
    ensures forall x :: x in l && x != e ==> x in Drop(l, e)
  {
    ItemOfDropped(l, e);
    ItemsAt(l);
    WithoutFacts(ItemsOf(l), e.key);
    ItemsAt(Drop(l, e));
    EntriesDiffer(l);
    DropMembers(l, e, e);
    forall x | x in Drop(l, e)
      ensures x in l
    {
      DropMembers(l, e, x);
    }
    forall x | x in l && x != e
      ensures x in Drop(l, e)
    {
      DropMembers(l, e, x);
    }
  }

  class LruCache<K(==), V> {
    const config: Config
    var cache: map<K, Entry<K, V>>
    var lru: seq<Entry<K, V>>
    /** The calls of the eviction callback, oldest first. */
    var evicted: seq<(K, V)>

    ghost predicate Linked()
      reads this`cache, this`lru
    {
      && DistinctKeys(lru)
      && (forall e :: e in lru ==> e.key in cache && cache[e.key] == e)
      && (forall k :: k in cache ==> cache[k].key == k && cache[k] in lru)
    }

    ghost function Abs(): seq<Item<K, V>>
      reads this`lru, lru
    {
      ItemsOf(lru)
    }

    ghost predicate Valid()
      reads this`cache, this`lru, lru
    {
      Linked() && Inv(config, Abs())
    }

    constructor (config: Config)
      ensures Valid() && Abs() == [] && evicted == [] && this.config == config
    {
      this.config := config;
      cache, lru, evicted := map[], [], [];
    }

    method Clear()
      requires Valid()
      modifies this
      ensures Valid() && Abs() == [] && evicted == old(evicted)
    {
      cache, lru := map[], [];
    }

    lemma Known(k: K)
      requires Linked()
      ensures k in cache <==> Find(Abs(), k).Some?
      ensures k in cache ==> cache[k] in lru && Find(Abs(), k) == Some(Item(k, cache[k].value, cache[k].expires))
    {
      ItemsAt(lru);
      FindFacts(Abs(), k);
      if k in cache {
        ItemsDrop(lru, cache[k]);
      } else {
        forall i | 0 <= i < |lru|
          ensures Abs()[i].key != k
        {
          assert lru[i] in lru;
        }
      }
    }

    predicate Exist(k: K)
      requires Valid()
      reads this`cache, this`lru, lru
      ensures Exist(k) <==> Find(Abs(), k).Some?
    {
      Known(k);
      k in cache
    }

    method MoveToBack(le: Entry<K, V>)
      requires Linked() && le in lru
      modifies this`lru
      ensures Linked() && lru == Drop(old(lru), le) + [le]
      ensures Abs() == Without(old(Abs()), le.key) + [Item(le.key, le.value, le.expires)]
    {
      ItemsDrop(lru, le);
      ItemsAppend(Drop(lru, le), le);
      DropLacksKey(le);
      lru := Drop(lru, le) + [le];
    }

    lemma DropLacksKey(le: Entry<K, V>)
      requires Linked() && le in lru
      ensures forall i :: 0 <= i < |Drop(lru, le)| ==> Drop(lru, le)[i].key != le.key
    {
      ItemsDrop(lru, le);
      forall i | 0 <= i < |Drop(lru, le)|
        ensures Drop(lru, le)[i].key != le.key
      {
        assert Drop(lru, le)[i] in Drop(lru, le);
      }
    }

    method DeleteElement(le: Entry<K, V>)
      requires Linked() && le in lru
      modifies this
      ensures Linked() && lru == Drop(old(lru), le) && Abs() == Without(old(Abs()), le.key)
      ensures evicted == old(evicted) + [(le.key, le.value)]
    {
      ItemsDrop(lru, le);
      DropLacksKey(le);
      lru := Drop(lru, le);
      cache := cache - {le.key};
      evicted := evicted + [(le.key, le.value)];
    }

    method DeleteFront(ghost dropped: seq<Item<K, V>>) returns (ghost more: seq<Item<K, V>>)
      requires Linked() && |lru| > 0
      modifies this
      ensures Linked() && Abs() == old(Abs())[1..] && lru == old(lru)[1..]
      ensures dropped + old(Abs()) == more + Abs()
      ensures Pairs(more) == Pairs(dropped) + [(old(lru)[0].key, old(lru[0].value))]
      ensures evicted == old(evicted) + [(old(lru)[0].key, old(lru[0].value))]
    {
      var le := lru[0];
      ghost var front := Abs()[0];
      assert Abs() == [front] + Abs()[1..];
      assert dropped + Abs() == (dropped + [front]) + Abs()[1..];
      more := dropped + [front];
      DeleteElement(le);
    }

    /** Drops expired entries from the front; what is dropped is what the callback hears of, in order. */
    method MaybeDeleteOldest(now: int)
      requires Linked()
      modifies this
      ensures Linked() && Abs() == Sweep(config, old(Abs()), now)
      ensures exists dropped :: old(Abs()) == dropped + Abs() && evicted == old(evicted) + Pairs(dropped)
      ensures forall e :: e in lru ==> e in old(lru)
    {
      assert [] + Abs() == Abs() && evicted == evicted + Pairs<K, V>([]);
      if Ages(config) {
        SweepFront(now);
      }
    }

    method SweepFront(now: int)
      requires Linked() && Ages(config)
      modifies this
      ensures Linked() && Abs() == Sweep(config, old(Abs()), now)
      ensures exists dropped :: old(Abs()) == dropped + Abs() && evicted == old(evicted) + Pairs(dropped)
      ensures forall e :: e in lru ==> e in old(lru)
    {
      ghost var dropped: seq<Item<K, V>> := [];
      ghost var s, told := Abs(), evicted;
      assert [] + Abs() == Abs() && evicted == evicted + Pairs(dropped);
      while |lru| > 0 && lru[0].expires <= now
        invariant Linked() && Sweep(config, Abs(), now) == Sweep(config, s, now)
        invariant s == dropped + Abs() && evicted == told + Pairs(dropped)
        invariant forall e :: e in lru ==> e in old(lru)
        decreases |lru|
      {
        dropped := DeleteFront(dropped);
      }
    }

    /** Changes the entry at the back of the list. */
    method Overwrite(le: Entry<K, V>, value: V, expires: int)
      requires Linked() && |lru| > 0 && lru[|lru| - 1] == le
      modifies le
      ensures Linked() && Abs() == old(Abs())[..|lru| - 1] + [Item(le.key, value, expires)]
      ensures le.value == value && le.expires == expires
    {
      ghost var front := lru[..|lru| - 1];
      assert lru == front + [le];
      assert le !in front by {
        assert forall i :: 0 <= i < |front| ==> lru[i].key != lru[|lru| - 1].key;
      }
      ItemsAppend(front, le);
      le.value := value;
      le.expires := expires;
      ItemsAppend(front, le);
    }

    method Append(e: Entry<K, V>)
      requires Linked() && e.key !in cache
      modifies this`cache, this`lru
      ensures Linked() && lru == old(lru) + [e] && Abs() == old(Abs()) + [Item(e.key, e.value, e.expires)]
    {
      ItemsAppend(lru, e);
      assert forall i :: 0 <= i < |lru| ==> lru[i] in lru;
      cache := cache[e.key := e];
      lru := lru + [e];
    }

    /** The part of setWithExpire for a key that is known. */
    method Refresh(le: Entry<K, V>, value: V, expires: int)
      requires Linked() && le in lru
      modifies this`lru, le
      ensures Linked() && Abs() == Without(old(Abs()), le.key) + [Item(le.key, value, expires)]
      ensures forall e :: e in lru ==> e in old(lru)
    {
      ItemsDrop(lru, le);
      MoveToBack(le);
      Overwrite(le, value, expires);
    }

    /** The part of setWithExpire for a new key. */
    method Add(key: K, value: V, expires: int)
      requires Linked() && key !in cache
      modifies this
      ensures Linked()
      ensures var s := old(Abs()) + [Item(key, value, expires)]; var full := config.maxSize > 0 && |s| > config.maxSize;
        && Abs() == (if full then s[1..] else s)
        && evicted == old(evicted) + if full then Pairs(s[..1]) else []
      ensures forall e :: e in lru ==> e in old(lru) || fresh(e)
    {
      var e := new Entry(key, value, expires);
      Append(e);
      DropOverflow();
    }

    method DropOverflow()
      requires Linked()
      modifies this
      ensures Linked()
      ensures var s := old(Abs()); var full := config.maxSize > 0 && |s| > config.maxSize;
        && Abs() == (if full then s[1..] else s)
        && evicted == old(evicted) + if full then Pairs(s[..1]) else []
      ensures forall e :: e in lru ==> e in old(lru)
    {
      if config.maxSize > 0 && |lru| > config.maxSize {
        ghost var s := Abs();
        ghost var front := DeleteFront([]);
        assert |front| == |Pairs(front)| == 1;
        assert front == ([] + s)[..1] == s[..1];
      }
    }

    /** What the eviction callback hears of an insert: the least recently used item, on overflow. */
    ghost function Overflow(s: seq<Item<K, V>>, key: K, value: V, expires: int): seq<(K, V)> {
      if Find(s, key).None? && config.maxSize > 0 && |s| + 1 > config.maxSize then Pairs((s + [Item(key, value, expires)])[..1]) else []
    }

    /** setWithExpire up to its final sweep. */
    method Store(key: K, value: V, expires: int)
      requires Valid()
      modifies this, lru
      ensures Valid() && Abs() == Insert(config, old(Abs()), key, value, expires)
      ensures evicted == old(evicted) + Overflow(old(Abs()), key, value, expires)
      ensures forall e :: e in lru ==> e in old(lru) || fresh(e)
    {
      Known(key);
      InsertFacts(config, Abs(), key, value, expires);
      if key in cache {
        Refresh(cache[key], value, expires);
      } else {
        Add(key, value, expires);
      }
    }

    method SetWithExpire(key: K, value: V, expires: int, now: int)
      requires Valid()
      modifies this, lru
      ensures Valid() && Abs() == LruPolicy.SetWithExpire(config, old(Abs()), key, value, expires, now)
      ensures exists dropped ::
        && Insert(config, old(Abs()), key, value, expires) == dropped + Abs()
        && evicted == old(evicted) + Overflow(old(Abs()), key, value, expires) + Pairs(dropped)
      ensures forall e :: e in lru ==> e in old(lru) || fresh(e)
    {
      SetFacts(config, Abs(), key, value, expires, now);
      Store(key, value, expires);
      MaybeDeleteOldest(now);
    }

    /** set: the item lives for maxAge from the reading t on; without an age its expiry is 0. */
    method Set(key: K, value: V, t: int, now: int)
      requires Valid()
      modifies this, lru
      ensures Valid()
      ensures var expires := if config.maxAge > 0 then t + config.maxAge else 0;
        && Abs() == LruPolicy.SetWithExpire(config, old(Abs()), key, value, expires, now)
        && exists dropped ::
             && Insert(config, old(Abs()), key, value, expires) == dropped + Abs()
             && evicted == old(evicted) + Overflow(old(Abs()), key, value, expires) + Pairs(dropped)
      ensures forall e :: e in lru ==> e in old(lru) || fresh(e)
    {
      var expires := 0;
      if config.maxAge > 0 {
        expires := t + config.maxAge;
      }
      SetWithExpire(key, value, expires, now);
    }

    method Delete(key: K)
      requires Valid()
      modifies this
      ensures Valid() && Abs() == Without(old(Abs()), key)
      ensures evicted == old(evicted) + match Find(old(Abs()), key) { case None => [] case Some(e) => [(key, e.value)] }
      ensures forall e :: e in lru ==> e in old(lru)
    {
      Known(key);
      WithoutFacts(Abs(), key);
      if key in cache {
        ItemsDrop(lru, cache[key]);
        DeleteElement(cache[key]);
      } else {
        WithoutAbsent(Abs(), key);
      }
    }

    /** get: the entry found, or null; t0, t1 and t2 are the clock readings of its three uses. */
    method Get(key: K, t0: int, t1: int, t2: int) returns (r: Entry?<K, V>)
      requires Valid()
      modifies this, lru
      ensures Valid() && Abs() == LruPolicy.Get(config, old(Abs()), key, t0, t1, t2)
      ensures r == null <==> Hit(config, old(Abs()), key, t0, t2).None?
      ensures r != null ==> r in lru && Hit(config, old(Abs()), key, t0, t2) == Some(Item(r.key, r.value, r.expires)) && r.key == key
      ensures forall e :: e in lru ==> e in old(lru)
    {
      assert Inv(config, LruPolicy.Get(config, Abs(), key, t0, t1, t2)) by {
        GetFacts(config, Abs(), key, t0, t1, t2);
      }
      Known(key);
      if key !in cache {
        return null;
      }
      var le := cache[key];
      if Ages(config) && le.expires <= t0 {
        DropStale(le, t1);
        return null;
      }
      Touch(le, t2);
      return le;
    }

    /** The branch of get for an entry that is too old. */
    method DropStale(le: Entry<K, V>, t1: int)
      requires Linked() && le in lru
      modifies this
      ensures Linked() && Abs() == Sweep(config, Without(old(Abs()), le.key), t1)
      ensures forall e :: e in lru ==> e in old(lru)
    {
      ItemsDrop(lru, le);
      DeleteElement(le);
      MaybeDeleteOldest(t1);
    }

    /** The hit branch of get: the entry becomes the most recently used one and may be renewed. */
    method Touch(le: Entry<K, V>, t2: int)
      requires Linked() && le in lru
      modifies this`lru, le
      ensures Linked() && le in lru && forall e :: e in lru ==> e in old(lru)
      ensures var e := Item(le.key, old(le.value), old(le.expires));
        var e' := if config.maxAge > 0 && config.updateAgeOnGet then e.(expires := t2 + config.maxAge) else e;
        Abs() == Without(old(Abs()), le.key) + [e'] && Item(le.key, le.value, le.expires) == e'
    {
      ItemsDrop(lru, le);
      MoveToBack(le);
      if config.maxAge > 0 && config.updateAgeOnGet {
        Overwrite(le, le.value, t2 + config.maxAge);
      }
    }

    /** valueFn's verdict for Compute: a new value, or None to delete. */
    method Compute(key: K, valueFn: (V, bool) -> Option<V>, zero: V, t0: int, t1: int, t2: int, t: int, now: int)
      returns (actual: V, ok: bool)
      requires Valid()
      modifies this, lru
      ensures Valid()
      ensures var s := old(Abs()); var h := Hit(config, s, key, t0, t2); var g := LruPolicy.Get(config, s, key, t0, t1, t2);
        match valueFn(if h.Some? then h.value.value else zero, h.Some?) {
          case None => !ok && actual == zero && Abs() == (if h.Some? then Without(g, key) else g) && Find(Abs(), key).None?
          case Some(v) =>
            ok && actual == v && Abs() == LruPolicy.SetWithExpire(config, g, key, v, if config.maxAge > 0 then t + config.maxAge else 0, now)
        }
    {
      GetFacts(config, Abs(), key, t0, t1, t2);
      var el := Get(key, t0, t1, t2);
      actual, ok := zero, false;
      if el != null {
        actual, ok := el.value, true;
      }
      match valueFn(actual, ok) {
        case None =>
          if ok {
            WithoutFacts(Abs(), key);
            Delete(key);
          }
          return zero, false;
        case Some(v) =>
          Set(key, v, t, now);
          return v, true;
      }
    }
  }
}
