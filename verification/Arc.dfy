/**
 The Adaptive Replacement Cache as the program keeps it: entries that are shared between a map
 and four lists and changed in place. Every method is proved to compute the function of
 ArcPolicy that bears its name.
 */
module Arcs {
  import opened ArcPolicy
  import opened Lists
  import opened Options

  /** The four lists; an entry carries the name of the list it is on. */
  datatype ListName = T1 | B1 | T2 | B2

  class Entry<K, V> {
    const key: K
    var value: V
    var ll: Option<ListName>
    var isGhost: bool
    var expires: int

    constructor (key: K, value: V, expires: int)
      ensures this.key == key && this.value == value && this.expires == expires && !isGhost && ll == None
    {
      this.key, this.value, this.expires := key, value, expires;
      isGhost, ll := false, None;
    }
  }

  ghost function Keys<K, V>(l: seq<Entry<K, V>>): (r: seq<K>)
    ensures |r| == |l|
  {
    seq(|l|, i requires 0 <= i < |l| => l[i].key)
  }

  lemma KeysMember<K, V>(l: seq<Entry<K, V>>, e: Entry<K, V>)
    requires e in l
    ensures e.key in Keys(l)
  {
    var i :| 0 <= i < |l| && l[i] == e;
    assert Keys(l)[i] == e.key;
  }

  /** Dropping the entry drops exactly its key. */
  lemma {:induction false} KeysOfDrop<K, V>(l: seq<Entry<K, V>>, e: Entry<K, V>)
    requires NoDup(Keys(l)) && (e in l || e.key !in Keys(l))
    ensures Keys(Drop(l, e)) == Drop(Keys(l), e.key)
  {
    if |l| > 0 {
      assert Keys(l)[0] == l[0].key && Keys(l)[1..] == Keys(l[1..]);
      if l[0] != e {
        KeysOfTail(l, e);
        KeysOfDrop(l[1..], e);
        assert Keys([l[0]] + Drop(l[1..], e)) == [l[0].key] + Keys(Drop(l[1..], e));
      }
    }
  }

  lemma KeysOfTail<K, V>(l: seq<Entry<K, V>>, e: Entry<K, V>)
    requires |l| > 0 && l[0] != e && NoDup(Keys(l)) && (e in l || e.key !in Keys(l))
    ensures NoDup(Keys(l[1..])) && (e in l[1..] || e.key !in Keys(l[1..])) && l[0].key != e.key
  {
    assert Keys(l)[1..] == Keys(l[1..]);
    if e in l {
      var i :| 0 <= i < |l| && l[i] == e;
      assert l[1..][i - 1] == e && Keys(l)[0] != Keys(l)[i];
    } else {
      assert l[0].key == Keys(l)[0];
    }
  }

  lemma EntryDrop<K, V>(l: seq<Entry<K, V>>, e: Entry<K, V>)
    requires NoDup(Keys(l)) && (e in l || e.key !in Keys(l))
    ensures Keys(Drop(l, e)) == Drop(Keys(l), e.key)
    ensures forall x :: x in Drop(l, e) ==> x in l && x != e
    ensures forall x :: x in l && x != e ==> x in Drop(l, e)
    ensures e !in l ==> Drop(l, e) == l
  {
    KeysOfDrop(l, e);
    DistinctEntries(l);
    DropFacts(l, e);
    forall x | x in Drop(l, e)
      ensures x in l && x != e
    {
      DropMembers(l, e, x);
    }
    forall x | x in l && x != e
      ensures x in Drop(l, e)
    {
      DropMembers(l, e, x);
    }
  }

  /** The state with k moved to the front of a list, off whatever list it was on. */
  ghost function Moved<K, V>(s: State<K, V>, k: K, list: ListName): State<K, V> {
    var d := s.(t1 := Drop(s.t1, k), b1 := Drop(s.b1, k), t2 := Drop(s.t2, k), b2 := Drop(s.b2, k));
    match list
    case T1 => d.(t1 := [k] + d.t1)
    case B1 => d.(b1 := [k] + d.b1)
    case T2 => d.(t2 := [k] + d.t2)
    case B2 => d.(b2 := [k] + d.b2)
  }

  lemma MovedToTop<K, V>(s: State<K, V>, k: K)
    ensures Moved(s, k, T1) == ToT1(s, k) && Moved(s, k, T2) == ToT2(s, k)
  {
  }

  lemma {:induction false} DropOldest<T>(l: seq<T>)
    requires NoDup(l) && |l| > 0
    ensures Drop(l, l[|l| - 1]) == l[..|l| - 1]
  {
    if |l| > 1 {
      DropOldest(l[1..]);
      assert l[1..][..|l| - 2] == l[..|l| - 1][1..];
    }
  }

  lemma OnOneListOnly<K, V>(s: State<K, V>, k: K)
    requires Placed(s, s.cache.Keys)
    ensures k in s.t1 ==> Drop(s.b1, k) == s.b1 && Drop(s.t2, k) == s.t2 && Drop(s.b2, k) == s.b2 && k in s.cache
    ensures k in s.t2 ==> Drop(s.t1, k) == s.t1 && Drop(s.b1, k) == s.b1 && Drop(s.b2, k) == s.b2 && k in s.cache
  {
    DropFacts(s.t1, k);
    DropFacts(s.b1, k);
    DropFacts(s.t2, k);
    DropFacts(s.b2, k);
    assert k in s.t1 <==> k in Members(s.t1);
    assert k in s.t2 <==> k in Members(s.t2);
    assert k in s.b1 <==> k in Members(s.b1);
    assert k in s.b2 <==> k in Members(s.b2);
  }

  /** The state once v has lost its value, before it moves. */
  ghost function Faded<K, V>(s: State<K, V>, v: K, zero: V): State<K, V>
    requires v in s.cache
  {
    s.(len := s.len - 1, cache := s.cache[v := Item(zero, true, s.cache[v].expires)])
  }

  /** Demoting a key that lost its value is a move to b1 or b2. */
  lemma DemoteFromT1<K, V>(s: State<K, V>, k: K, zero: V)
    requires Placed(s, s.cache.Keys) && CanReplace(s, k) && DemotesT1(s, k)
    ensures Replace(s, k, zero) == Moved(Faded(s, s.t1[|s.t1| - 1], zero), s.t1[|s.t1| - 1], B1)
  {
    OnOneListOnly(s, s.t1[|s.t1| - 1]);
    DropOldest(s.t1);
  }

  lemma DemoteFromT2<K, V>(s: State<K, V>, k: K, zero: V)
    requires Placed(s, s.cache.Keys) && CanReplace(s, k) && !DemotesT1(s, k)
    ensures Replace(s, k, zero) == Moved(Faded(s, s.t2[|s.t2| - 1], zero), s.t2[|s.t2| - 1], B2)
  {
    OnOneListOnly(s, s.t2[|s.t2| - 1]);
    DropOldest(s.t2);
  }

  ghost function EntriesOf<K, V>(ls: map<ListName, seq<Entry<K, V>>>): set<Entry<K, V>> {
    set l, e | l in ls && e in ls[l] :: e
  }

  lemma ShorterLists<K, V>(ls: map<ListName, seq<Entry<K, V>>>, list: ListName)
    requires list in ls && |ls[list]| > 0
    ensures EntriesOf(ls[list := ls[list][..|ls[list]| - 1]]) <= EntriesOf(ls)
  {
    var shorter := ls[list := ls[list][..|ls[list]| - 1]];
    forall l, e | l in shorter && e in shorter[l]
      ensures e in ls[l]
    {
    }
  }

  class Arc<K(==), V> {
    const c: int
    const zero: V
    var p: int
    var len: int
    var lists: map<ListName, seq<Entry<K, V>>>
    var cache: map<K, Entry<K, V>>

    ghost function Entries(): set<Entry<K, V>>
      reads this`lists
    {
      EntriesOf(lists)
    }

    ghost predicate HasLists()
      reads this`lists
    {
      lists.Keys == {T1, B1, T2, B2}
    }

    /** Every entry on a list knows it, and the map knows the entry unless it is the one being added. */
    ghost predicate ListsLinked(ls: map<ListName, seq<Entry<K, V>>>, pending: Entry?<K, V>)
      reads this`cache, EntriesOf(ls)`ll
    {
      forall l, e :: l in ls && e in ls[l] ==> e.ll == Some(l) && (e == pending || (e.key in cache && cache[e.key] == e))
    }

    ghost predicate OnItsList(ls: map<ListName, seq<Entry<K, V>>>, e: Entry<K, V>)
      reads e`ll
    {
      e.ll.Some? && e.ll.value in ls && e in ls[e.ll.value]
    }

    /** Every entry of the map is stored under its key and is on a list, `apart` possibly not. */
    ghost predicate MapLinked(ls: map<ListName, seq<Entry<K, V>>>, apart: Entry?<K, V>)
      reads this`cache, cache.Values`ll
    {
      forall k :: k in cache ==> cache[k].key == k && (cache[k] == apart || OnItsList(ls, cache[k]))
    }

    /** Lists, map and entries fit together; `pending` is an entry that is not in the map yet. */
    ghost predicate Linked(pending: Entry?<K, V>)
      reads this`lists, this`cache, Entries()`ll, cache.Values`ll
    {
      HasLists() && ListsLinked(lists, pending) && MapLinked(lists, null) && (pending != null ==> pending.key !in cache)
    }

    ghost function Items(): map<K, Item<V>>
      reads this`cache, cache.Values`value, cache.Values`isGhost, cache.Values`expires
    {
      map k | k in cache :: Item(cache[k].value, cache[k].isGhost, cache[k].expires)
    }

    ghost function Abs(): State<K, V>
      requires HasLists()
      reads this, cache.Values`value, cache.Values`isGhost, cache.Values`expires
    {
      State(p, c, len, Keys(lists[T1]), Keys(lists[B1]), Keys(lists[T2]), Keys(lists[B2]), Items())
    }

    ghost predicate Valid()
      reads this, Entries(), cache.Values
    {
      Linked(null) && Inv(Abs(), zero)
    }

    constructor (c: int, zero: V)
      requires c >= 1
      ensures Valid() && Abs() == Empty(c) && this.c == c && this.zero == zero
    {
      this.c, this.zero := c, zero;
      p, len := 0, 0;
      lists := map[T1 := [], B1 := [], T2 := [], B2 := []];
      cache := map[];
    }

    method Clear()
      requires Valid()
      modifies this
      ensures Valid() && Abs() == Empty(c)
    {
      EmptyInv<K, V>(c, zero);
      p, len := 0, 0;
      lists := map[T1 := [], B1 := [], T2 := [], B2 := []];
      cache := map[];
      assert Abs() == Empty(c);
    }

    /** The entry is the map's entry for its key, or the one being added and not on a list yet. */
    ghost predicate Known(ent: Entry<K, V>, pending: Entry?<K, V>)
      reads this`cache, ent`ll
    {
      if ent == pending then ent.ll == None else ent.key in cache && cache[ent.key] == ent
    }

    /** A key is on one list only: that of its entry. */
    lemma KeyOnOneList(ent: Entry<K, V>, pending: Entry?<K, V>, l: ListName)
      requires Linked(pending) && Placed(Abs(), cache.Keys) && Known(ent, pending)
      ensures NoDup(Keys(lists[l])) && (ent.key in Keys(lists[l]) <==> ent.ll == Some(l)) && (ent in lists[l] <==> ent.ll == Some(l))
    {
      var k := ent.key;
      if ent.ll.Some? {
        KeysMember(lists[ent.ll.value], ent);
      }
      assert k in Keys(lists[T1]) <==> k in Members(Keys(lists[T1]));
      assert k in Keys(lists[B1]) <==> k in Members(Keys(lists[B1]));
      assert k in Keys(lists[T2]) <==> k in Members(Keys(lists[T2]));
      assert k in Keys(lists[B2]) <==> k in Members(Keys(lists[B2]));
      if ent == pending {
        assert k !in cache.Keys;
      }
      assert l == T1 || l == B1 || l == T2 || l == B2;
    }

    lemma EntryDropAt(ent: Entry<K, V>, pending: Entry?<K, V>, l: ListName)
      requires Linked(pending) && Placed(Abs(), cache.Keys) && Known(ent, pending)
      ensures Keys(Drop(lists[l], ent)) == Drop(Keys(lists[l]), ent.key)
      ensures forall x :: x in Drop(lists[l], ent) ==> x in lists[l] && x != ent
      ensures forall x :: x in lists[l] && x != ent ==> x in Drop(lists[l], ent)
      ensures ent.ll != Some(l) ==> Drop(lists[l], ent) == lists[l]
    {
      KeyOnOneList(ent, pending, l);
      EntryDrop(lists[l], ent);
    }

    /** The lists with `ent` taken off. */
    ghost function Without(ent: Entry<K, V>): map<ListName, seq<Entry<K, V>>>
      reads this`lists
    {
      map l | l in lists :: Drop(lists[l], ent)
    }

    lemma WithoutFacts(ent: Entry<K, V>, pending: Entry?<K, V>)
      requires Linked(pending) && Placed(Abs(), cache.Keys) && Known(ent, pending)
      ensures forall l :: l in lists ==> Keys(Without(ent)[l]) == Drop(Keys(lists[l]), ent.key)
      ensures forall l, x :: l in lists && x in Without(ent)[l] ==> x in lists[l] && x != ent
      ensures forall l, x :: l in lists && x in lists[l] && x != ent ==> x in Without(ent)[l]
    {
      forall l | l in lists
        ensures Keys(Without(ent)[l]) == Drop(Keys(lists[l]), ent.key)
        ensures forall x :: x in Without(ent)[l] ==> x in lists[l] && x != ent
        ensures forall x :: x in lists[l] && x != ent ==> x in Without(ent)[l]
      {
        EntryDropAt(ent, pending, l);
      }
    }

    lemma WithoutIsDrop(ent: Entry<K, V>, pending: Entry?<K, V>)
      requires Linked(pending) && Placed(Abs(), cache.Keys) && Known(ent, pending)
      ensures Without(ent) == if ent.ll.None? then lists else lists[ent.ll.value := Drop(lists[ent.ll.value], ent)]
    {
      forall l | l in lists
        ensures ent.ll != Some(l) ==> Without(ent)[l] == lists[l]
      {
        EntryDropAt(ent, pending, l);
      }
      var target := if ent.ll.None? then lists else lists[ent.ll.value := Drop(lists[ent.ll.value], ent)];
      assert Without(ent).Keys == target.Keys;
    }

    lemma FewerLinked(ls: map<ListName, seq<Entry<K, V>>>, ent: Entry<K, V>, pending: Entry?<K, V>)
      requires ListsLinked(lists, pending) && MapLinked(lists, null) && ls.Keys == lists.Keys
      requires forall l, x :: l in ls && x in ls[l] ==> x in lists[l] && x != ent
      requires forall l, x :: l in lists && x in lists[l] && x != ent ==> x in ls[l]
      ensures Apart(ls, ent, pending)
    {
      forall k | k in cache
        ensures cache[k].key == k && (cache[k] == ent || OnItsList(ls, cache[k]))
      {
        assert OnItsList(lists, cache[k]);
      }
    }

    /** Taking an entry off leaves the other links intact. */
    lemma WithoutLinked(ent: Entry<K, V>, pending: Entry?<K, V>)
      requires Linked(pending) && Placed(Abs(), cache.Keys) && Known(ent, pending)
      ensures Apart(Without(ent), ent, pending)
    {
      WithoutFacts(ent, pending);
      FewerLinked(Without(ent), ent, pending);
    }

    /** Takes the entry off its list, if it is on one. */
    method Detach(ent: Entry<K, V>, ghost pending: Entry?<K, V>)
      requires Linked(pending) && Placed(Abs(), cache.Keys) && Known(ent, pending)
      modifies this`lists
      ensures lists == old(Without(ent)) && HasLists() && Items() == old(Items())
      ensures Apart(lists, ent, pending)
    {
      WithoutIsDrop(ent, pending);
      WithoutLinked(ent, pending);
      ReplaceLists(if ent.ll.None? then lists else lists[ent.ll.value := Drop(lists[ent.ll.value], ent)], ent, pending);
    }

    method ReplaceLists(ls: map<ListName, seq<Entry<K, V>>>, ghost ent: Entry<K, V>, ghost pending: Entry?<K, V>)
      requires Apart(ls, ent, pending)
      modifies this`lists
      ensures lists == ls && Items() == old(Items()) && Apart(lists, ent, pending)
    {
      lists := ls;
    }

    /** Lists and map without `ent`, which may be filed anywhere. */
    ghost predicate Apart(ls: map<ListName, seq<Entry<K, V>>>, ent: Entry<K, V>, pending: Entry?<K, V>)
      reads this`cache, EntriesOf(ls)`ll, cache.Values`ll
    {
      ListsLinked(ls, pending) && MapLinked(ls, ent) && forall l :: l in ls ==> ent !in ls[l]
    }

    method Mark(ent: Entry<K, V>, list: ListName, ghost pending: Entry?<K, V>)
      requires Apart(lists, ent, pending)
      modifies ent`ll
      ensures ent.ll == Some(list) && Items() == old(Items()) && Apart(lists, ent, pending)
    {
      ent.ll := Some(list);
    }

    lemma PushLinks(ls: map<ListName, seq<Entry<K, V>>>, ent: Entry<K, V>, list: ListName, pending: Entry?<K, V>)
      requires Apart(ls, ent, pending) && list in ls && ent.ll == Some(list)
      requires ent == pending || (ent.key in cache && cache[ent.key] == ent)
      ensures var r := ls[list := [ent] + ls[list]]; ListsLinked(r, pending) && MapLinked(r, null) && OnItsList(r, ent)
    {
    }

    method StoreLists(ls: map<ListName, seq<Entry<K, V>>>, ghost pending: Entry?<K, V>)
      requires ls.Keys == {T1, B1, T2, B2} && ListsLinked(ls, pending) && MapLinked(ls, null)
      requires pending != null ==> pending.key !in cache
      modifies this`lists
      ensures Linked(pending) && lists == ls && Items() == old(Items())
    {
      lists := ls;
    }

    method PushFront(ent: Entry<K, V>, list: ListName, ghost pending: Entry?<K, V>)
      requires HasLists() && Apart(lists, ent, pending)
      requires ent == pending || (ent.key in cache && cache[ent.key] == ent)
      requires pending != null ==> pending.key !in cache
      modifies this`lists, ent`ll
      ensures Linked(pending) && lists == old(lists)[list := [ent] + old(lists)[list]] && Items() == old(Items()) && OnItsList(lists, ent)
    {
      Mark(ent, list, pending);
      PushLinks(lists, ent, list, pending);
      StoreLists(lists[list := [ent] + lists[list]], pending);
    }

    lemma KeysPrepend(l: seq<Entry<K, V>>, e: Entry<K, V>)
      ensures Keys([e] + l) == [e.key] + Keys(l)
    {
    }

    method Relink(ent: Entry<K, V>, list: ListName, ghost pending: Entry?<K, V>)
      requires Linked(pending) && Placed(Abs(), cache.Keys) && Known(ent, pending)
      modifies this`lists, ent`ll
      ensures Linked(pending) && lists == old(Without(ent))[list := [ent] + old(Without(ent))[list]]
      ensures Items() == old(Items()) && OnItsList(lists, ent)
    {
      Detach(ent, pending);
      PushFront(ent, list, pending);
    }

    /** Puts the entry in front of a list, off whatever list it was on. */
    method SetMRU(ent: Entry<K, V>, list: ListName, ghost pending: Entry?<K, V>)
      requires Linked(pending) && Placed(Abs(), cache.Keys) && Known(ent, pending)
      modifies this`lists, ent`ll
      ensures Linked(pending) && Abs() == Moved(old(Abs()), ent.key, list) && OnItsList(lists, ent)
    {
      ghost var w := Without(ent);
      WithoutKeys(ent, pending);
      MovedState(Abs(), w, ent, list);
      Relink(ent, list, pending);
    }

    lemma MovedState(s: State<K, V>, w: map<ListName, seq<Entry<K, V>>>, ent: Entry<K, V>, list: ListName)
      requires w.Keys == {T1, B1, T2, B2}
      requires Keys(w[T1]) == Drop(s.t1, ent.key) && Keys(w[B1]) == Drop(s.b1, ent.key)
      requires Keys(w[T2]) == Drop(s.t2, ent.key) && Keys(w[B2]) == Drop(s.b2, ent.key)
      ensures var n := w[list := [ent] + w[list]];
        Moved(s, ent.key, list) == s.(t1 := Keys(n[T1]), b1 := Keys(n[B1]), t2 := Keys(n[T2]), b2 := Keys(n[B2]))
    {
      KeysPrepend(w[list], ent);
    }

    lemma WithoutKeys(ent: Entry<K, V>, pending: Entry?<K, V>)
      requires Linked(pending) && Placed(Abs(), cache.Keys) && Known(ent, pending)
      ensures Keys(Without(ent)[T1]) == Drop(Keys(lists[T1]), ent.key) && Keys(Without(ent)[B1]) == Drop(Keys(lists[B1]), ent.key)
      ensures Keys(Without(ent)[T2]) == Drop(Keys(lists[T2]), ent.key) && Keys(Without(ent)[B2]) == Drop(Keys(lists[B2]), ent.key)
    {
      WithoutFacts(ent, pending);
    }

    /** The victim of replace gives up its value. */
    method Fade(lru: Entry<K, V>, ghost pending: Entry?<K, V>)
      requires Linked(pending) && lru.key in cache && cache[lru.key] == lru
      modifies this`len, lru`value, lru`isGhost
      ensures Linked(pending) && Abs() == Faded(old(Abs()), lru.key, zero)
    {
      lru.value := zero;
      lru.isGhost := true;
      len := len - 1;
      assert Items() == old(Items())[lru.key := Item(zero, true, lru.expires)];
    }

    /** A key that is on a list is that of the entry there, and known to the map. */
    lemma OldestEntry(list: ListName, pending: Entry?<K, V>)
      requires Linked(pending) && |lists[list]| > 0 && (pending == null || pending.ll == None)
      ensures var e := lists[list][|lists[list]| - 1];
        e in Entries() && e != pending && e.key in cache && cache[e.key] == e && e.key == Keys(lists[list])[|lists[list]| - 1]
    {
      var e := lists[list][|lists[list]| - 1];
      assert e in lists[list];
    }

    /** Takes the value of an entry and moves it to a ghost list. */
    method Demote(lru: Entry<K, V>, list: ListName, ghost pending: Entry?<K, V>)
      requires Linked(pending) && Placed(Abs(), cache.Keys) && lru.key in cache && cache[lru.key] == lru && lru != pending
      modifies this`lists, this`len, lru`ll, lru`value, lru`isGhost
      ensures Linked(pending) && Abs() == Moved(Faded(old(Abs()), lru.key, zero), lru.key, list)
    {
      Fade(lru, pending);
      assert Placed(Abs(), cache.Keys);
      SetMRU(lru, list, pending);
    }

    method DemoteOldest(from: ListName, to: ListName, ghost v: K, ghost pending: Entry?<K, V>)
      requires Linked(pending) && Placed(Abs(), cache.Keys) && |lists[from]| > 0 && (pending == null || pending.ll == None)
      requires v == Keys(lists[from])[|lists[from]| - 1]
      modifies this`lists, this`len, Entries()`ll, Entries()`value, Entries()`isGhost
      ensures Linked(pending) && v in old(Abs()).cache && Abs() == Moved(Faded(old(Abs()), v, zero), v, to)
    {
      OldestEntry(from, pending);
      var lru := lists[from][|lists[from]| - 1];
      assert lru.key == v;
      Demote(lru, to, pending);
    }

    method Replace(ent: Entry<K, V>, ghost pending: Entry?<K, V>)
      requires Linked(pending) && Placed(Abs(), cache.Keys) && Known(ent, pending) && (pending == null || pending == ent)
      requires CanReplace(Abs(), ent.key)
      modifies this`lists, this`len, Entries()`ll, Entries()`value, Entries()`isGhost
      ensures Linked(pending) && Abs() == ArcPolicy.Replace(old(Abs()), ent.key, zero) && Placed(Abs(), cache.Keys)
    {
      ReplacePlaced(Abs(), ent.key, zero);
      var fromT1 := |lists[T1]| > 0 && (|lists[T1]| > p || (ent.ll == Some(B2) && |lists[T1]| == p));
      assert fromT1 == DemotesT1(Abs(), ent.key) by {
        KeyOnOneList(ent, pending, B2);
      }
      if fromT1 {
        ReplaceT1(ent.key, pending);
      } else {
        ReplaceT2(ent.key, pending);
      }
    }

    method ReplaceT1(ghost k: K, ghost pending: Entry?<K, V>)
      requires Linked(pending) && Placed(Abs(), cache.Keys) && (pending == null || pending.ll == None)
      requires CanReplace(Abs(), k) && DemotesT1(Abs(), k)
      modifies this`lists, this`len, Entries()`ll, Entries()`value, Entries()`isGhost
      ensures Linked(pending) && Abs() == ArcPolicy.Replace(old(Abs()), k, zero)
    {
      DemoteFromT1(Abs(), k, zero);
      DemoteOldest(T1, B1, Abs().t1[|Abs().t1| - 1], pending);
    }

    method ReplaceT2(ghost k: K, ghost pending: Entry?<K, V>)
      requires Linked(pending) && Placed(Abs(), cache.Keys) && (pending == null || pending.ll == None)
      requires CanReplace(Abs(), k) && !DemotesT1(Abs(), k)
      modifies this`lists, this`len, Entries()`ll, Entries()`value, Entries()`isGhost
      ensures Linked(pending) && Abs() == ArcPolicy.Replace(old(Abs()), k, zero)
    {
      DemoteFromT2(Abs(), k, zero);
      DemoteOldest(T2, B2, Abs().t2[|Abs().t2| - 1], pending);
    }

    method Forget(lru: Entry<K, V>, ghost pending: Entry?<K, V>)
      requires HasLists() && Apart(lists, lru, pending) && lru.key in cache && cache[lru.key] == lru
      requires pending != null ==> pending.key !in cache
      modifies this`len, this`cache
      ensures Linked(pending) && len == old(len) - 1 && Items() == old(Items()) - {lru.key}
    {
      len := len - 1;
      cache := cache - {lru.key};
    }

    /** Takes the oldest entry off a list; the map still knows it. */
    method TakeOldest(list: ListName, ghost pending: Entry?<K, V>) returns (lru: Entry<K, V>)
      requires Linked(pending) && Placed(Abs(), cache.Keys) && |lists[list]| > 0 && (pending == null || pending.ll == None)
      modifies this`lists
      ensures HasLists() && Apart(lists, lru, pending) && lru.key in cache && cache[lru.key] == lru && Items() == old(Items())
      ensures lists == old(lists)[list := old(lists)[list][..|old(lists)[list]| - 1]]
      ensures lru.key == Keys(old(lists)[list])[|old(lists)[list]| - 1]
    {
      OldestEntry(list, pending);
      OldestDropped(list, pending);
      lru := lists[list][|lists[list]| - 1];
      Detach(lru, pending);
    }

    /** Forgets the oldest entry of a list. */
    method DelLRU(list: ListName, ghost pending: Entry?<K, V>)
      requires Linked(pending) && Placed(Abs(), cache.Keys) && |lists[list]| > 0 && (pending == null || pending.ll == None)
      modifies this`lists, this`len, this`cache
      ensures Linked(pending) && len == old(len) - 1
      ensures lists == old(lists)[list := old(lists)[list][..|old(lists)[list]| - 1]]
      ensures Items() == old(Items()) - {Keys(old(lists)[list])[|old(lists)[list]| - 1]}
    {
      var lru := TakeOldest(list, pending);
      Forget(lru, pending);
    }

    lemma OldestDropped(list: ListName, pending: Entry?<K, V>)
      requires Linked(pending) && Placed(Abs(), cache.Keys) && |lists[list]| > 0 && (pending == null || pending.ll == None)
      ensures var l := lists[list]; Without(l[|l| - 1]) == lists[list := l[..|l| - 1]]
    {
      OldestEntry(list, pending);
      var l := lists[list];
      var lru := l[|l| - 1];
      KeyOnOneList(lru, pending, list);
      WithoutIsDrop(lru, pending);
      DistinctEntries(l);
      DropOldest(l);
    }

    lemma PendingIsApart(pending: Entry<K, V>)
      requires Linked(pending) && pending.ll == None
      ensures pending !in Entries()
    {
    }

    /** Which case of req applies, read off the entry. */
    lemma CaseOf(ent: Entry<K, V>, pending: Entry?<K, V>)
      requires Linked(pending) && Placed(Abs(), cache.Keys) && Known(ent, pending)
      ensures ent.ll == Some(T1) <==> ent.key in Abs().t1
      ensures ent.ll == Some(B1) <==> ent.key in Abs().b1
      ensures ent.ll == Some(T2) <==> ent.key in Abs().t2
      ensures ent.ll == Some(B2) <==> ent.key in Abs().b2
    {
      KeyOnOneList(ent, pending, T1);
      KeyOnOneList(ent, pending, B1);
      KeyOnOneList(ent, pending, T2);
      KeyOnOneList(ent, pending, B2);
    }

    /** Cases II and III after the adaptation: make room, then promote the entry. */
    method ReplaceAndPromote(ent: Entry<K, V>)
      requires Linked(null) && Placed(Abs(), cache.Keys) && ent.key in cache && cache[ent.key] == ent
      requires CanReplace(Abs(), ent.key)
      modifies this`lists, this`len, Entries()`ll, Entries()`value, Entries()`isGhost, ent`ll
      ensures Linked(null) && Abs() == ToT2(ArcPolicy.Replace(old(Abs()), ent.key, zero), ent.key)
    {
      MovedToTop(ArcPolicy.Replace(Abs(), ent.key, zero), ent.key);
      Replace(ent, null);
      SetMRU(ent, T2, null);
    }

    /** The cases of a new entry that make room in t1 or t2 first. */
    method ReplaceAndAdd(ent: Entry<K, V>)
      requires Linked(ent) && Placed(Abs(), cache.Keys) && ent.ll == None
      requires CanReplace(Abs(), ent.key)
      modifies this`lists, this`len, Entries()`ll, Entries()`value, Entries()`isGhost, ent`ll
      ensures Linked(ent) && OnItsList(lists, ent) && Abs() == ToT1(ArcPolicy.Replace(old(Abs()), ent.key, zero), ent.key)
    {
      PendingIsApart(ent);
      MovedToTop(ArcPolicy.Replace(Abs(), ent.key, zero), ent.key);
      Replace(ent, ent);
      SetMRU(ent, T1, ent);
    }

    lemma PlacedAs(r: State<K, V>)
      requires HasLists() && Abs() == r && Placed(r, r.cache.Keys)
      ensures Placed(Abs(), cache.Keys)
    {
      assert Items().Keys == cache.Keys;
    }

    method ForgetT1(ghost pending: Entry<K, V>)
      requires Linked(pending) && Placed(Abs(), cache.Keys) && pending.ll == None && |lists[T1]| > 0
      modifies this`lists, this`len, this`cache
      ensures Linked(pending) && Entries() <= old(Entries()) && Abs() == ArcPolicy.ForgetT1(old(Abs()))
    {
      KeysPrefix(lists[T1]);
      ShorterLists(lists, T1);
      DelLRU(T1, pending);
    }

    method ForgetB1(ghost pending: Entry<K, V>)
      requires Linked(pending) && Placed(Abs(), cache.Keys) && pending.ll == None && |lists[B1]| > 0
      modifies this`lists, this`len, this`cache
      ensures Linked(pending) && Entries() <= old(Entries()) && Abs() == ArcPolicy.ForgetB1(old(Abs()))
    {
      KeysPrefix(lists[B1]);
      ShorterLists(lists, B1);
      DelLRU(B1, pending);
    }

    method ForgetB2(ghost pending: Entry<K, V>)
      requires Linked(pending) && Placed(Abs(), cache.Keys) && pending.ll == None && |lists[B2]| > 0
      modifies this`lists, this`len, this`cache
      ensures Linked(pending) && Entries() <= old(Entries()) && Abs() == ArcPolicy.ForgetB2(old(Abs()))
    {
      KeysPrefix(lists[B2]);
      ShorterLists(lists, B2);
      DelLRU(B2, pending);
    }

    lemma KeysPrefix(l: seq<Entry<K, V>>)
      requires |l| > 0
      ensures Keys(l[..|l| - 1]) == Keys(l)[..|l| - 1]
    {
    }

    /** The adaptation of the target, for an entry on b1 or b2. */
    method Adapt(ent: Entry<K, V>)
      requires Linked(null) && Placed(Abs(), cache.Keys) && ent.key in cache && cache[ent.key] == ent
      requires ent.ll == Some(B1) || ent.ll == Some(B2)
      modifies this`p
      ensures Linked(null) && Abs() == Adapted(old(Abs()), ent.key)
    {
      CaseOf(ent, null);
      assert ent in lists[ent.ll.value];
      var onB1, onB2 := |lists[B1]|, |lists[B2]|;
      var target;
      if ent.ll == Some(B1) {
        var d := if onB1 >= onB2 then 1 else onB2 / onB1;
        target := Min(p + d, c);
      } else {
        var d := if onB2 >= onB1 then 1 else onB1 / onB2;
        target := Max(p - d, 0);
      }
      SetTarget(target);
    }

    method SetTarget(target: int)
      requires Linked(null)
      modifies this`p
      ensures Linked(null) && Abs() == old(Abs()).(p := target)
    {
      p := target;
    }

    /** Case I of req. */
    method Promote(ent: Entry<K, V>)
      requires Linked(null) && Placed(Abs(), cache.Keys) && ent.key in cache && cache[ent.key] == ent
      modifies this`lists, ent`ll
      ensures Linked(null) && Abs() == ToT2(old(Abs()), ent.key)
    {
      MovedToTop(Abs(), ent.key);
      SetMRU(ent, T2, null);
    }

    /** req for an entry the map knows: cases I to III. */
    method ReqKnown(ent: Entry<K, V>)
      requires Linked(null) && Sizes(Abs()) && Placed(Abs(), cache.Keys) && ent.key in cache && cache[ent.key] == ent
      requires CanRequest(Abs(), ent.key)
      modifies this`p, this`lists, this`len, Entries()`ll, Entries()`value, Entries()`isGhost, ent`ll
      ensures Linked(null) && Abs() == Request(old(Abs()), ent.key, zero)
    {
      CaseOf(ent, null);
      if ent.ll == Some(T1) || ent.ll == Some(T2) {
        Promote(ent);
      } else {
        AdaptedFacts(Abs(), ent.key);
        Adapt(ent);
        ReplaceAndPromote(ent);
      }
    }

    /** The last branches of req: nothing has to make room. */
    method AddToT1(ent: Entry<K, V>)
      requires Linked(ent) && Placed(Abs(), cache.Keys) && ent.ll == None
      modifies this`lists, ent`ll
      ensures Linked(ent) && OnItsList(lists, ent) && Abs() == ToT1(old(Abs()), ent.key)
    {
      MovedToTop(Abs(), ent.key);
      SetMRU(ent, T1, ent);
    }

    method DropB1(ghost pending: Entry<K, V>)
      requires Linked(pending) && Placed(Abs(), cache.Keys) && pending.ll == None && |lists[B1]| > 0
      modifies this`lists, this`len, this`cache
      ensures Linked(pending) && Placed(Abs(), cache.Keys) && Entries() <= old(Entries()) && Abs() == ArcPolicy.ForgetB1(old(Abs()))
    {
      ghost var r := ArcPolicy.ForgetB1(Abs());
      ForgetB1Placed(Abs());
      ForgetB1(pending);
      PlacedAs(r);
    }

    method ForgetB1AndAdd(ent: Entry<K, V>)
      requires Linked(ent) && Placed(Abs(), cache.Keys) && ent.ll == None
      requires |lists[B1]| > 0 && CanReplace(ArcPolicy.ForgetB1(Abs()), ent.key)
      modifies this`lists, this`len, this`cache, Entries()`ll, Entries()`value, Entries()`isGhost, ent`ll
      ensures Linked(ent) && OnItsList(lists, ent)
      ensures Abs() == ToT1(ArcPolicy.Replace(ArcPolicy.ForgetB1(old(Abs())), ent.key, zero), ent.key)
    {
      DropB1(ent);
      ReplaceAndAdd(ent);
    }

    method DropB2(ghost pending: Entry<K, V>)
      requires Linked(pending) && Placed(Abs(), cache.Keys) && pending.ll == None && |lists[B2]| > 0
      modifies this`lists, this`len, this`cache
      ensures Linked(pending) && Placed(Abs(), cache.Keys) && Entries() <= old(Entries()) && Abs() == ArcPolicy.ForgetB2(old(Abs()))
    {
      ghost var r := ArcPolicy.ForgetB2(Abs());
      ForgetB2Placed(Abs());
      ForgetB2(pending);
      PlacedAs(r);
    }

    method ForgetB2AndAdd(ent: Entry<K, V>)
      requires Linked(ent) && Placed(Abs(), cache.Keys) && ent.ll == None
      requires |lists[B2]| > 0 && CanReplace(ArcPolicy.ForgetB2(Abs()), ent.key)
      modifies this`lists, this`len, this`cache, Entries()`ll, Entries()`value, Entries()`isGhost, ent`ll
      ensures Linked(ent) && OnItsList(lists, ent)
      ensures Abs() == ToT1(ArcPolicy.Replace(ArcPolicy.ForgetB2(old(Abs())), ent.key, zero), ent.key)
    {
      DropB2(ent);
      ReplaceAndAdd(ent);
    }

    method DropT1(ghost pending: Entry<K, V>)
      requires Linked(pending) && Placed(Abs(), cache.Keys) && pending.ll == None && |lists[T1]| > 0
      modifies this`lists, this`len, this`cache
      ensures Linked(pending) && Placed(Abs(), cache.Keys) && Entries() <= old(Entries()) && Abs() == ArcPolicy.ForgetT1(old(Abs()))
    {
      ghost var r := ArcPolicy.ForgetT1(Abs());
      ForgetT1Placed(Abs());
      ForgetT1(pending);
      PlacedAs(r);
    }

    method ForgetT1AndAdd(ent: Entry<K, V>)
      requires Linked(ent) && Placed(Abs(), cache.Keys) && ent.ll == None && |lists[T1]| > 0
      modifies this`lists, this`len, this`cache, Entries()`ll, Entries()`value, Entries()`isGhost, ent`ll
      ensures Linked(ent) && OnItsList(lists, ent) && Abs() == ToT1(ArcPolicy.ForgetT1(old(Abs())), ent.key)
    {
      DropT1(ent);
      AddToT1(ent);
    }

    /** Case IV A: t1 and b1 together are full. */
    method ReqFull(ent: Entry<K, V>)
      requires Linked(ent) && Sizes(Abs()) && Placed(Abs(), cache.Keys) && ent.ll == None
      requires |lists[T1]| + |lists[B1]| == c && CanRequest(Abs(), ent.key)
      modifies this`lists, this`len, this`cache, Entries()`ll, Entries()`value, Entries()`isGhost, ent`ll
      ensures Linked(ent) && OnItsList(lists, ent) && Abs() == Request(old(Abs()), ent.key, zero)
    {
      CaseOf(ent, ent);
      if |lists[T1]| < c {
        ForgetB1AndAdd(ent);
      } else {
        ForgetT1AndAdd(ent);
      }
    }

    /** Case IV B: t1 and b1 have room. */
    method ReqRoom(ent: Entry<K, V>)
      requires Linked(ent) && Sizes(Abs()) && Placed(Abs(), cache.Keys) && ent.ll == None
      requires |lists[T1]| + |lists[B1]| < c && CanRequest(Abs(), ent.key)
      modifies this`lists, this`len, this`cache, Entries()`ll, Entries()`value, Entries()`isGhost, ent`ll
      ensures Linked(ent) && OnItsList(lists, ent) && Abs() == Request(old(Abs()), ent.key, zero)
    {
      CaseOf(ent, ent);
      var total := |lists[T1]| + |lists[T2]| + |lists[B1]| + |lists[B2]|;
      if total >= c {
        if total == 2 * c {
          ForgetB2AndAdd(ent);
        } else {
          ReplaceAndAdd(ent);
        }
      } else {
        AddToT1(ent);
      }
    }

    /** req for a new entry: case IV. */
    method ReqNew(ent: Entry<K, V>)
      requires Linked(ent) && Sizes(Abs()) && Placed(Abs(), cache.Keys) && ent.ll == None
      requires CanRequest(Abs(), ent.key)
      modifies this`lists, this`len, this`cache, Entries()`ll, Entries()`value, Entries()`isGhost, ent`ll
      ensures Linked(ent) && OnItsList(lists, ent) && Abs() == Request(old(Abs()), ent.key, zero)
    {
      if |lists[T1]| + |lists[B1]| == c {
        ReqFull(ent);
      } else {
        // "not A nor B" cannot happen: the invariant keeps |t1| + |b1| <= c
        ReqRoom(ent);
      }
    }

    /** A new entry enters the map once it is on a list. */
    method Register(ent: Entry<K, V>)
      requires Linked(ent) && OnItsList(lists, ent)
      modifies this`cache
      ensures Linked(null)
      ensures var m := old(Abs()); Abs() == m.(cache := m.cache[ent.key := Item(ent.value, ent.isGhost, ent.expires)])
    {
      cache := cache[ent.key := ent];
      assert Items() == old(Items())[ent.key := Item(ent.value, ent.isGhost, ent.expires)];
    }

    lemma FreshIsPending(ent: Entry<K, V>)
      requires Linked(null) && ent.ll == None && ent.key !in cache
      ensures Linked(ent) && ent !in Entries()
    {
    }

    /** setWithExpire for a key the map does not know; `q` is the state with `len` counted up. */
    method SetNew(key: K, value: V, expires: int, ghost q: State<K, V>)
      requires Linked(null) && key !in cache && q == Abs()
      requires Sizes(q) && Placed(q, cache.Keys) && CanRequest(q, key)
      modifies this`len, this`lists, this`cache, Entries()
      ensures Linked(null)
      ensures var m := Request(q, key, zero); Abs() == m.(cache := m.cache[key := Item(value, false, expires)])
    {
      var ent := new Entry(key, value, expires);
      FreshIsPending(ent);
      assert Abs() == q;
      AddEntry(ent);
    }

    method AddEntry(ent: Entry<K, V>)
      requires Linked(ent) && Sizes(Abs()) && Placed(Abs(), cache.Keys) && ent.ll == None && CanRequest(Abs(), ent.key)
      modifies this`lists, this`len, this`cache, Entries()`ll, Entries()`value, Entries()`isGhost, ent`ll
      ensures Linked(null)
      ensures var m := Request(old(Abs()), ent.key, zero);
        Abs() == m.(cache := m.cache[ent.key := Item(old(ent.value), old(ent.isGhost), ent.expires)])
    {
      PlaceNew(ent);
      Register(ent);
    }

    /** req leaves the new entry's own fields alone. */
    method PlaceNew(ent: Entry<K, V>)
      requires Linked(ent) && Sizes(Abs()) && Placed(Abs(), cache.Keys) && ent.ll == None && CanRequest(Abs(), ent.key)
      modifies this`lists, this`len, this`cache, Entries()`ll, Entries()`value, Entries()`isGhost, ent`ll
      ensures Linked(ent) && OnItsList(lists, ent) && Abs() == Request(old(Abs()), ent.key, zero)
      ensures ent.value == old(ent.value) && ent.isGhost == old(ent.isGhost)
    {
      assert ent !in Entries() by {
        PendingIsApart(ent);
      }
      ReqNew(ent);
    }

    method Overwrite(ent: Entry<K, V>, value: V, expires: int)
      requires Linked(null) && ent.key in cache && cache[ent.key] == ent
      modifies this`len, ent`value, ent`isGhost, ent`expires
      ensures Linked(null) && Abs() == Prepared(old(Abs()), ent.key, value, expires)
    {
      if ent.isGhost {
        len := len + 1;
      }
      WriteItem(ent, value, expires);
    }

    method WriteItem(ent: Entry<K, V>, value: V, expires: int)
      requires Linked(null) && ent.key in cache && cache[ent.key] == ent
      modifies ent`value, ent`isGhost, ent`expires
      ensures Linked(null) && Items() == old(Items())[ent.key := Item(value, false, expires)]
    {
      ent.value := value;
      ent.isGhost := false;
      ent.expires := expires;
    }

    method SetKnown(ent: Entry<K, V>, value: V, expires: int)
      requires Linked(null) && ent.key in cache && cache[ent.key] == ent
      requires var q := Prepared(Abs(), ent.key, value, expires); Sizes(q) && Placed(q, cache.Keys) && CanRequest(q, ent.key)
      modifies this`p, this`len, this`lists, Entries(), ent
      ensures Linked(null) && Abs() == ArcPolicy.Set(old(Abs()), ent.key, value, expires, zero)
    {
      Overwrite(ent, value, expires);
      ReqKnown(ent);
    }

    lemma MapEntriesListed(key: K)
      requires Linked(null) && key in cache
      ensures cache[key] in Entries() && cache[key].key == key
    {
    }

    method SetSteps(key: K, value: V, expires: int)
      requires Linked(null)
      requires var q := Prepared(Abs(), key, value, expires); Sizes(q) && Placed(q, cache.Keys) && CanRequest(q, key)
      modifies this, Entries()
      ensures Linked(null) && Abs() == ArcPolicy.Set(old(Abs()), key, value, expires, zero)
    {
      if key !in cache {
        ghost var q := Prepared(Abs(), key, value, expires);
        len := len + 1;
        SetNew(key, value, expires, q);
      } else {
        MapEntriesListed(key);
        SetKnown(cache[key], value, expires);
      }
    }

    /** Set and SetWithExpire. */
    method SetWithExpire(key: K, value: V, expires: int)
      requires Valid()
      modifies this, Entries()
      ensures Valid() && CanRequest(Prepared(old(Abs()), key, value, expires), key)
      ensures Abs() == ArcPolicy.Set(old(Abs()), key, value, expires, zero)
    {
      PreparedReady(Abs(), key, value, expires, zero);
      SetKeepsInv(Abs(), key, value, expires, zero);
      SetSteps(key, value, expires);
    }

    method GetKnown(ent: Entry<K, V>) returns (r: Option<(V, int)>)
      requires Linked(null) && ent.key in cache && cache[ent.key] == ent
      requires Sizes(Abs()) && Placed(Abs(), cache.Keys) && CanRequest(Abs(), ent.key)
      modifies this`p, this`len, this`lists, Entries(), ent
      ensures Linked(null) && Abs() == Request(old(Abs()), ent.key, zero) && r == Hit(Abs(), ent.key)
    {
      ReqKnown(ent);
      r := if ent.isGhost then None else Some((ent.value, ent.expires));
      assert Items()[ent.key] == Item(ent.value, ent.isGhost, ent.expires);
    }

    /** get, and with it Get and GetWithExpire: the value and expiry, None for a miss. */
    method Get(key: K) returns (r: Option<(V, int)>)
      requires Valid()
      modifies this, Entries()
      ensures Valid() && r == Hit(old(Abs()), key)
      ensures (key in old(Abs()).cache ==> CanRequest(old(Abs()), key)) && Abs() == ArcPolicy.Get(old(Abs()), key, zero)
    {
      GetKeepsInv(Abs(), key, zero);
      if key !in cache {
        return None;
      }
      MapEntriesListed(key);
      r := GetKnown(cache[key]);
    }

    function Len(): int
      reads this
    {
      len
    }
  }

  lemma DistinctEntries<K, V>(l: seq<Entry<K, V>>)
    requires NoDup(Keys(l))
    ensures NoDup(l)
  {
    forall i, j | 0 <= i < j < |l|
      ensures l[i] != l[j]
    {
      assert Keys(l)[i] != Keys(l)[j];
    }
  }
}
