/**
 The LRU cache as the sequence of its items, least recently used first. The class LruCache is
 proved to compute these functions; here they are proved over whole runs: the size bound, the
 age check, agreement with a plain map, and that a larger cache hits whenever a smaller one does.
 */
module LruPolicy {
  import opened Options
  import opened Lists

  datatype Item<K, V> = Item(key: K, value: V, expires: int)

  datatype Config = Config(maxAge: int, maxSize: int, updateAgeOnGet: bool, staleReturn: bool)

  /** Whether items leave the cache because of their age. */
  predicate Ages(c: Config) {
    !c.staleReturn && c.maxAge > 0
  }

  function Find<K(==), V>(s: seq<Item<K, V>>, k: K): (r: Option<Item<K, V>>)
    ensures r.Some? ==> r.value.key == k && r.value in s
  {
    if |s| == 0 then None else if s[0].key == k then Some(s[0]) else Find(s[1..], k)
  }

  function Without<K(==), V>(s: seq<Item<K, V>>, k: K): (r: seq<Item<K, V>>)
    ensures |r| <= |s|
  {
    if |s| == 0 then [] else if s[0].key == k then s[1..] else [s[0]] + Without(s[1..], k)
  }

  // ----- the operations; clock readings are arguments -----

  /** maybeDeleteOldest: drops expired items from the front, up to the first that is not. */
  function Sweep<K, V>(c: Config, s: seq<Item<K, V>>, now: int): seq<Item<K, V>> {
    if Ages(c) && |s| > 0 && s[0].expires <= now then Sweep(c, s[1..], now) else s
  }

  /** setWithExpire without the final sweep. */
  function Insert<K(==), V>(c: Config, s: seq<Item<K, V>>, k: K, v: V, expires: int): seq<Item<K, V>> {
    if Find(s, k).Some? then Without(s, k) + [Item(k, v, expires)]
    else if c.maxSize > 0 && |s| + 1 > c.maxSize then (s + [Item(k, v, expires)])[1..]
    else s + [Item(k, v, expires)]
  }

  function SetWithExpire<K(==), V>(c: Config, s: seq<Item<K, V>>, k: K, v: V, expires: int, now: int): seq<Item<K, V>> {
    Sweep(c, Insert(c, s, k, v, expires), now)
  }

  /** get: the state afterwards; t0 is the reading of the age check, t1 of the sweep, t2 of the renewal. */
  function Get<K(==), V>(c: Config, s: seq<Item<K, V>>, k: K, t0: int, t1: int, t2: int): seq<Item<K, V>> {
    match Find(s, k)
    case None => s
    case Some(e) =>
      if Ages(c) && e.expires <= t0 then Sweep(c, Without(s, k), t1)
      else Without(s, k) + [if c.maxAge > 0 && c.updateAgeOnGet then e.(expires := t2 + c.maxAge) else e]
  }

  /** The item get hands out. */
  function Hit<K(==), V>(c: Config, s: seq<Item<K, V>>, k: K, t0: int, t2: int): Option<Item<K, V>> {
    match Find(s, k)
    case None => None
    case Some(e) =>
      if Ages(c) && e.expires <= t0 then None
      else Some(if c.maxAge > 0 && c.updateAgeOnGet then e.(expires := t2 + c.maxAge) else e)
  }

  // ----- facts about the sequences -----

  ghost predicate Distinct<K, V>(s: seq<Item<K, V>>) {
    forall i, j :: 0 <= i < j < |s| ==> s[i].key != s[j].key
  }

  lemma {:induction false} FindFacts<K, V>(s: seq<Item<K, V>>, k: K)
    ensures Find(s, k).None? <==> forall i :: 0 <= i < |s| ==> s[i].key != k
    ensures Distinct(s) ==> forall i :: 0 <= i < |s| && s[i].key == k ==> Find(s, k) == Some(s[i])
  {
    if |s| > 0 {
      FindFacts(s[1..], k);
      if Find(s, k).None? {
        forall i | 0 <= i < |s|
          ensures s[i].key != k
        {
          assert i > 0 ==> s[i] == s[1..][i - 1];
        }
      }
      if Distinct(s) {
        forall i | 0 <= i < |s| && s[i].key == k
          ensures Find(s, k) == Some(s[i])
        {
          assert i > 0 ==> s[i] == s[1..][i - 1];
        }
      }
    }
  }

  lemma {:induction false} WithoutFacts<K, V>(s: seq<Item<K, V>>, k: K)
    requires Distinct(s)
    ensures Distinct(Without(s, k)) && |Without(s, k)| == |s| - (if Find(s, k).Some? then 1 else 0)
    ensures forall i :: 0 <= i < |Without(s, k)| ==> Without(s, k)[i] in s && Without(s, k)[i].key != k
    ensures forall x :: x != k ==> Find(Without(s, k), x) == Find(s, x)
    ensures Find(Without(s, k), k) == None
  {
    FindFacts(s, k);
    if |s| > 0 {
      WithoutFacts(s[1..], k);
      if s[0].key != k {
        var r := Without(s[1..], k);
        forall i | 0 <= i < |r|
          ensures r[i].key != s[0].key
        {
          var j :| 0 <= j < |s[1..]| && s[1..][j] == r[i];
          assert s[j + 1].key != s[0].key;
        }
        FindFacts(Without(s, k), k);
      } else {
        FindFacts(s[1..], k);
      }
    }
  }

  lemma {:induction false} FindAppend<K, V>(s: seq<Item<K, V>>, e: Item<K, V>, k: K)
    ensures Find(s + [e], k) == if Find(s, k).Some? then Find(s, k) else if e.key == k then Some(e) else None
  {
    if |s| > 0 {
      assert (s + [e])[1..] == s[1..] + [e];
      FindAppend(s[1..], e, k);
    }
  }

  lemma TailFacts<K, V>(s: seq<Item<K, V>>)
    requires Distinct(s) && |s| > 0
    ensures Distinct(s[1..])
    ensures forall x :: Find(s[1..], x) == if x == s[0].key then None else Find(s, x)
  {
    forall x
      ensures Find(s[1..], x) == if x == s[0].key then None else Find(s, x)
    {
      FindFacts(s[1..], x);
    }
  }

  lemma {:induction false} SweepFacts<K, V>(c: Config, s: seq<Item<K, V>>, now: int)
    requires Distinct(s)
    ensures Distinct(Sweep(c, s, now)) && |Sweep(c, s, now)| <= |s|
    ensures forall x :: Find(Sweep(c, s, now), x).Some? ==> Find(Sweep(c, s, now), x) == Find(s, x)
    ensures Ages(c) && |Sweep(c, s, now)| > 0 ==> Sweep(c, s, now)[0].expires > now
    ensures !Ages(c) ==> Sweep(c, s, now) == s
  {
    if Ages(c) && |s| > 0 && s[0].expires <= now {
      TailFacts(s);
      SweepFacts(c, s[1..], now);
    }
  }

  // ----- one operation -----

  /** The invariant: no key twice, and never more than maxSize items when a size is set. */
  ghost predicate Inv<K, V>(c: Config, s: seq<Item<K, V>>) {
    Distinct(s) && (c.maxSize > 0 ==> |s| <= c.maxSize)
  }

  lemma AppendDistinct<K, V>(s: seq<Item<K, V>>, e: Item<K, V>)
    requires Distinct(s) && Find(s, e.key).None?
    ensures Distinct(s + [e])
  {
    FindFacts(s, e.key);
  }

  /** An item taken out and put back at the end, changed or not. */
  lemma MoveToEnd<K, V>(s: seq<Item<K, V>>, k: K, e: Item<K, V>)
    requires Distinct(s) && Find(s, k).Some? && e.key == k
    ensures Distinct(Without(s, k) + [e]) && |Without(s, k) + [e]| == |s|
    ensures forall x :: Find(Without(s, k) + [e], x) == if x == k then Some(e) else Find(s, x)
  {
    WithoutFacts(s, k);
    AppendDistinct(Without(s, k), e);
    forall x
      ensures Find(Without(s, k) + [e], x) == if x == k then Some(e) else Find(s, x)
    {
      FindAppend(Without(s, k), e, x);
    }
  }

  /** An insert keeps the invariant, stores the item last, and on overflow evicts exactly the
      least recently used item. */
  lemma InsertFacts<K, V>(c: Config, s: seq<Item<K, V>>, k: K, v: V, expires: int)
    requires Inv(c, s)
    ensures var r := Insert(c, s, k, v, expires);
      && Inv(c, r) && |r| > 0 && r[|r| - 1] == Item(k, v, expires) && Find(r, k) == Some(Item(k, v, expires))
      && (forall x :: x != k && Find(r, x).Some? ==> Find(r, x) == Find(s, x))
      && (forall x :: x != k && Find(r, x).None? && Find(s, x).Some? ==>
            Find(s, k).None? && c.maxSize > 0 && |s| == c.maxSize && x == s[0].key)
  {
    var e := Item(k, v, expires);
    if Find(s, k).Some? {
      MoveToEnd(s, k, e);
    } else {
      AppendDistinct(s, e);
      forall x
        ensures Find(s + [e], x) == if x == k then Some(e) else Find(s, x)
      {
        FindAppend(s, e, x);
      }
      if c.maxSize > 0 && |s| + 1 > c.maxSize {
        TailFacts(s + [e]);
      }
    }
  }

  lemma SetFacts<K, V>(c: Config, s: seq<Item<K, V>>, k: K, v: V, expires: int, now: int)
    requires Inv(c, s)
    ensures var r := SetWithExpire(c, s, k, v, expires, now);
      && Inv(c, r)
      && (forall x :: Find(r, x).Some? ==> Find(r, x) == if x == k then Some(Item(k, v, expires)) else Find(s, x))
      && (!Ages(c) || expires > now ==> Find(r, k) == Some(Item(k, v, expires)))
  {
    InsertFacts(c, s, k, v, expires);
    var i := Insert(c, s, k, v, expires);
    SweepFacts(c, i, now);
    if expires > now {
      SweepKeepsFresh(c, i, k, now);
    }
  }

  lemma {:induction false} SweepKeepsFresh<K, V>(c: Config, s: seq<Item<K, V>>, k: K, now: int)
    requires Find(s, k).Some? && Find(s, k).value.expires > now
    ensures Find(Sweep(c, s, now), k) == Find(s, k)
  {
    if Ages(c) && |s| > 0 && s[0].expires <= now {
      SweepKeepsFresh(c, s[1..], k, now);
    }
  }

  /** A get that finds the item and hands it out. */
  lemma HitFacts<K, V>(c: Config, s: seq<Item<K, V>>, k: K, t0: int, t1: int, t2: int)
    requires Inv(c, s) && Hit(c, s, k, t0, t2).Some?
    ensures var r := Get(c, s, k, t0, t1, t2); var h := Hit(c, s, k, t0, t2); var e := Find(s, k);
      && e.Some? && h.value.value == e.value.value && h.value.key == k && (Ages(c) ==> e.value.expires > t0)
      && Inv(c, r) && |r| == |s| && r[|r| - 1] == h.value
      && forall x :: Find(r, x) == if x == k then h else Find(s, x)
  {
    MoveToEnd(s, k, Hit(c, s, k, t0, t2).value);
  }

  /** A get that finds nothing, or only an item that is too old. */
  lemma MissFacts<K, V>(c: Config, s: seq<Item<K, V>>, k: K, t0: int, t1: int, t2: int)
    requires Inv(c, s) && Hit(c, s, k, t0, t2).None?
    ensures var r := Get(c, s, k, t0, t1, t2);
      Inv(c, r) && Find(r, k).None? && forall x :: Find(r, x).Some? ==> Find(r, x) == Find(s, x)
  {
    if Find(s, k).Some? {
      WithoutFacts(s, k);
      SweepFacts(c, Without(s, k), t1);
    }
  }

  /** A get keeps the invariant, hands out a live item and changes no value. */
  lemma GetFacts<K, V>(c: Config, s: seq<Item<K, V>>, k: K, t0: int, t1: int, t2: int)
    requires Inv(c, s)
    ensures var r := Get(c, s, k, t0, t1, t2); var h := Hit(c, s, k, t0, t2);
      && Inv(c, r)
      && (forall x :: Find(r, x).Some? ==> Find(s, x).Some? && Find(r, x).value.value == Find(s, x).value.value)
      && (forall x :: x != k && Find(r, x).Some? ==> Find(r, x) == Find(s, x))
      && (h.Some? ==> Find(s, k).Some? && h.value.value == Find(s, k).value.value && |r| == |s| && r[|r| - 1] == h.value)
      && (h.Some? && Ages(c) ==> Find(s, k).value.expires > t0)
      && (h.None? ==> Find(r, k).None?)
  {
    if Hit(c, s, k, t0, t2).Some? {
      HitFacts(c, s, k, t0, t1, t2);
    } else {
      MissFacts(c, s, k, t0, t1, t2);
    }
  }

  /** A hit ignores the age of its item, and leaves its expiry alone, exactly when the cache has no
      age at all or returns stale items without renewing them. */
  lemma AgeIgnoredIff<K, V>(c: Config, k: K, v: V)
    ensures (forall s: seq<Item<K, V>>, t0, t2 :: Hit(c, s, k, t0, t2) == Find(s, k)) <==> c.maxAge <= 0 || (c.staleReturn && !c.updateAgeOnGet)
  {
    var s := [Item(k, v, 0)];
    assert Find(s, k) == Some(s[0]);
    if c.maxAge > 0 && !c.staleReturn {
      assert Hit(c, s, k, 0, 0) != Find(s, k);
    } else if c.maxAge > 0 && c.updateAgeOnGet {
      assert Hit(c, s, k, 0, 0) != Find(s, k);
    }
  }

  // ----- whole runs -----

  datatype Op<K, V> =
    | SetOp(key: K, value: V, expires: int, now: int)
    | GetOp(key: K, t0: int, t1: int, t2: int)
    | DeleteOp(key: K)
    | ClearOp

  ghost function Step<K, V>(c: Config, s: seq<Item<K, V>>, op: Op<K, V>): seq<Item<K, V>> {
    match op
    case SetOp(k, v, expires, now) => SetWithExpire(c, s, k, v, expires, now)
    case GetOp(k, t0, t1, t2) => Get(c, s, k, t0, t1, t2)
    case DeleteOp(k) => Without(s, k)
    case ClearOp => []
  }

  ghost function Run<K, V>(c: Config, ops: seq<Op<K, V>>): seq<Item<K, V>> {
    if |ops| == 0 then [] else Step(c, Run(c, ops[..|ops| - 1]), ops[|ops| - 1])
  }

  /** The value last set for k and not deleted or cleared since. */
  ghost function LastSet<K, V>(ops: seq<Op<K, V>>, k: K): Option<V> {
    if |ops| == 0 then None
    else
      var before := ops[..|ops| - 1];
      match ops[|ops| - 1]
      case SetOp(x, v, _, _) => if x == k then Some(v) else LastSet(before, k)
      case GetOp(_, _, _, _) => LastSet(before, k)
      case DeleteOp(x) => if x == k then None else LastSet(before, k)
      case ClearOp => None
  }

  /** Whatever the run: at most maxSize items, no key twice, and what is found for a key is what was last set for it. */
  lemma {:induction false} RunAgreesWithMap<K, V>(c: Config, ops: seq<Op<K, V>>, k: K)
    ensures Inv(c, Run(c, ops))
    ensures Find(Run(c, ops), k).Some? ==> LastSet(ops, k) == Some(Find(Run(c, ops), k).value.value)
  {
    if |ops| > 0 {
      var before := ops[..|ops| - 1];
      RunAgreesWithMap(c, before, k);
      var s := Run(c, before);
      match ops[|ops| - 1]
      case SetOp(x, v, expires, now) => SetFacts(c, s, x, v, expires, now);
      case GetOp(x, t0, t1, t2) => GetFacts(c, s, x, t0, t1, t2);
      case DeleteOp(x) => WithoutFacts(s, x);
      case ClearOp =>
    }
  }

  // ----- a larger cache hits whenever a smaller one does -----

  /** s can be had from b by leaving items out. */
  ghost predicate Sub<K, V>(s: seq<Item<K, V>>, b: seq<Item<K, V>>)
    decreases |b|
  {
    if |s| == 0 then true
    else if |b| == 0 then false
    else if s[0] == b[0] then Sub(s[1..], b[1..])
    else Sub(s, b[1..])
  }

  lemma {:induction false} SubTail<K, V>(s: seq<Item<K, V>>, b: seq<Item<K, V>>)
    requires Sub(s, b) && |s| > 0
    ensures |b| > 0 && Sub(s[1..], b[1..])
    decreases |b|
  {
    if s[0] != b[0] {
      SubTail(s, b[1..]);
      SubWeaken(s[1..], b[1..]);
    }
  }

  /** Leaving out one more item in front of b is allowed when the tail already had room. */
  lemma {:induction false} SubWeaken<K, V>(s: seq<Item<K, V>>, b: seq<Item<K, V>>)
    requires |b| > 0 && Sub(s, b[1..])
    ensures Sub(s, b)
    decreases |b|
  {
    if |s| > 0 && s[0] == b[0] {
      SubTail(s, b[1..]);
      SubWeaken(s[1..], b[1..]);
    }
  }

  lemma {:induction false} SubAppend<K, V>(s: seq<Item<K, V>>, b: seq<Item<K, V>>, e: Item<K, V>)
    requires Sub(s, b)
    ensures Sub(s, b + [e]) && Sub(s + [e], b + [e])
    decreases |b|
  {
    if |b| > 0 {
      assert (b + [e])[1..] == b[1..] + [e];
      if |s| == 0 {
        SubAppend(s, b[1..], e);
        SubWeaken(s + [e], b + [e]);
      } else if s[0] == b[0] {
        assert (s + [e])[1..] == s[1..] + [e];
        SubAppend(s[1..], b[1..], e);
      } else {
        SubAppend(s, b[1..], e);
      }
    }
  }

  lemma {:induction false} WithoutAbsent<K, V>(s: seq<Item<K, V>>, k: K)
    requires Find(s, k).None?
    ensures Without(s, k) == s
  {
    if |s| > 0 {
      WithoutAbsent(s[1..], k);
    }
  }

  lemma {:induction false} SubWithout<K, V>(s: seq<Item<K, V>>, b: seq<Item<K, V>>, k: K)
    requires Sub(s, b) && Distinct(b)
    ensures Sub(Without(s, k), Without(b, k))
    decreases |b|
  {
    if |s| > 0 {
      if s[0] == b[0] {
        if s[0].key != k {
          SubWithout(s[1..], b[1..], k);
        }
      } else {
        SubWithout(s, b[1..], k);
        if b[0].key == k {
          SubFind(s, b[1..], k);
          FindFacts(b[1..], k);
          assert Find(b[1..], k).None? by {
            assert forall i :: 0 <= i < |b[1..]| ==> b[1..][i] == b[i + 1];
          }
          WithoutAbsent(s, k);
        } else {
          SubWeaken(Without(s, k), Without(b, k));
        }
      }
    }
  }

  lemma {:induction false} SubFind<K, V>(s: seq<Item<K, V>>, b: seq<Item<K, V>>, k: K)
    requires Sub(s, b) && Distinct(b)
    ensures Find(s, k).Some? ==> Find(b, k) == Find(s, k)
    decreases |b|
  {
    if |s| > 0 {
      if s[0] == b[0] {
        SubFind(s[1..], b[1..], k);
      } else {
        SubFind(s, b[1..], k);
        FindFacts(b[1..], k);
        if Find(s, k).Some? {
          var i :| 0 <= i < |b[1..]| && b[1..][i] == Find(b[1..], k).value;
          assert b[i + 1].key == k;
          FindFacts(b, k);
        }
      }
    }
  }

  /** c2 is c1 with at least as much room, and neither drops items because of their age. */
  predicate Larger(c1: Config, c2: Config) {
    && !Ages(c1) && c2 == c1.(maxSize := c2.maxSize)
    && (c2.maxSize <= 0 || 0 < c1.maxSize <= c2.maxSize)
  }

  /** The small cache's items are among the large one's, in the same order, and it is not far behind. */
  ghost predicate Included<K, V>(c1: Config, s: seq<Item<K, V>>, c2: Config, b: seq<Item<K, V>>) {
    Inv(c1, s) && Inv(c2, b) && Sub(s, b) && (c2.maxSize > 0 ==> |b| - |s| <= c2.maxSize - c1.maxSize)
  }

  lemma SetKeepsIncluded<K, V>(c1: Config, s: seq<Item<K, V>>, c2: Config, b: seq<Item<K, V>>, k: K, v: V, expires: int)
    requires Larger(c1, c2) && Included(c1, s, c2, b)
    ensures Included(c1, Insert(c1, s, k, v, expires), c2, Insert(c2, b, k, v, expires))
  {
    var e := Item(k, v, expires);
    InsertFacts(c1, s, k, v, expires);
    InsertFacts(c2, b, k, v, expires);
    SubFind(s, b, k);
    WithoutFacts(s, k);
    WithoutFacts(b, k);
    SubWithout(s, b, k);
    SubAppend(Without(s, k), Without(b, k), e);
    SubAppend(s, b, e);
    if Find(s, k).None? {
      WithoutAbsent(s, k);
      if |s| > 0 && c1.maxSize > 0 && |s| + 1 > c1.maxSize {
        SubTail(s + [e], b + [e]);
        if Find(b, k).Some? {
          SubTail(s + [e], Without(b, k) + [e]);
          SubWeaken((s + [e])[1..], Without(b, k) + [e]);
        } else {
          SubWeaken((s + [e])[1..], b + [e]);
        }
      }
    }
  }

  lemma GetKeepsIncluded<K, V>(c1: Config, s: seq<Item<K, V>>, c2: Config, b: seq<Item<K, V>>, k: K, t0: int, t1: int, t2: int)
    requires Larger(c1, c2) && Included(c1, s, c2, b)
    ensures Included(c1, Get(c1, s, k, t0, t1, t2), c2, Get(c2, b, k, t0, t1, t2))
    ensures Hit(c1, s, k, t0, t2).Some? ==> Hit(c2, b, k, t0, t2) == Hit(c1, s, k, t0, t2)
  {
    GetFacts(c1, s, k, t0, t1, t2);
    GetFacts(c2, b, k, t0, t1, t2);
    SubFind(s, b, k);
    WithoutFacts(s, k);
    WithoutFacts(b, k);
    SubWithout(s, b, k);
    if Find(b, k).Some? {
      var e := Find(b, k).value;
      SubAppend(Without(s, k), Without(b, k), if c2.maxAge > 0 && c2.updateAgeOnGet then e.(expires := t2 + c2.maxAge) else e);
      if Find(s, k).None? {
        WithoutAbsent(s, k);
      }
    }
  }

  lemma {:induction false} RunsIncluded<K, V>(c1: Config, c2: Config, ops: seq<Op<K, V>>)
    requires Larger(c1, c2)
    ensures Included(c1, Run(c1, ops), c2, Run(c2, ops))
  {
    if |ops| > 0 {
      var before := ops[..|ops| - 1];
      RunsIncluded(c1, c2, before);
      var s, b := Run(c1, before), Run(c2, before);
      match ops[|ops| - 1]
      case SetOp(k, v, expires, now) => SetKeepsIncluded(c1, s, c2, b, k, v, expires);
      case GetOp(k, t0, t1, t2) => GetKeepsIncluded(c1, s, c2, b, k, t0, t1, t2);
      case DeleteOp(k) =>
        WithoutFacts(s, k);
        WithoutFacts(b, k);
        SubWithout(s, b, k);
        SubFind(s, b, k);
      case ClearOp =>
    }
  }

  /** After the same operations a larger cache hits whenever a smaller one does, with the same item. */
  lemma LargerCacheHits<K, V>(c1: Config, c2: Config, ops: seq<Op<K, V>>, k: K, t0: int, t2: int)
    requires Larger(c1, c2) && Hit(c1, Run(c1, ops), k, t0, t2).Some?
    ensures Hit(c2, Run(c2, ops), k, t0, t2) == Hit(c1, Run(c1, ops), k, t0, t2)
  {
    RunsIncluded(c1, c2, ops);
    GetKeepsIncluded(c1, Run(c1, ops), c2, Run(c2, ops), k, t0, 0, t2);
  }
}
