/**
 When an LRU cache still has what was put into it: exactly which items a get hands out, and over
 runs, that an item set before is found again unless it was evicted, deleted, cleared or too old.
 */
module LruSurvival {
  import opened LruPolicy
  import opened Lists
  import opened Options

  /** A get hits exactly an item that is there and, unless stale items are returned or there is no age,
      has not expired; it hands out the value it found, renewed if the cache does that. */
  lemma HitIff<K, V>(c: Config, s: seq<Item<K, V>>, k: K, t0: int, t1: int, t2: int)
    requires Inv(c, s)
    ensures Hit(c, s, k, t0, t2).Some? <==> Find(s, k).Some? && (c.staleReturn || c.maxAge <= 0 || Find(s, k).value.expires > t0)
    ensures Hit(c, s, k, t0, t2).Some? ==>
      var e := Find(s, k).value;
      Hit(c, s, k, t0, t2) == Some(Item(k, e.value, if c.updateAgeOnGet && c.maxAge > 0 then t2 + c.maxAge else e.expires))
    ensures Hit(c, s, k, t0, t2).Some? ==> var r := Get(c, s, k, t0, t1, t2); Find(r, k) == Hit(c, s, k, t0, t2)
    ensures Hit(c, s, k, t0, t2).Some? ==> var r := Get(c, s, k, t0, t1, t2); forall x :: x != k ==> Find(r, x) == Find(s, x)
  {
    if Hit(c, s, k, t0, t2).Some? {
      HitFacts(c, s, k, t0, t1, t2);
    }
  }

  /** The operation pushes k out: it adds another key to a full cache in which k was used longest ago. */
  ghost predicate Evicts<K, V>(c: Config, s: seq<Item<K, V>>, op: Op<K, V>, k: K) {
    op.SetOp? && op.key != k && Find(s, op.key).None? && c.maxSize > 0 && |s| == c.maxSize && s[0].key == k
  }

  /** The operation does not set, delete or clear k. */
  predicate LeavesAlone<K(==), V>(op: Op<K, V>, k: K) {
    match op
    case SetOp(x, _, _, _) => x != k
    case GetOp(_, _, _, _) => true
    case DeleteOp(x) => x != k
    case ClearOp => false
  }

  /** The clock readings that the operation compares with expiries lie before `expires`. */
  predicate ReadsBefore<K, V>(op: Op<K, V>, expires: int) {
    match op
    case SetOp(_, _, _, now) => now < expires
    case GetOp(_, t0, t1, _) => t0 < expires && t1 < expires
    case DeleteOp(_) => true
    case ClearOp => true
  }

  /** The expiry of k's item after the operation: a get of k may renew it. */
  function Renewed<K(==), V>(c: Config, op: Op<K, V>, k: K, expires: int): int {
    if op.GetOp? && op.key == k && c.updateAgeOnGet && c.maxAge > 0 then op.t2 + c.maxAge else expires
  }

  lemma NotFoundMeansGone<K, V>(c: Config, s: seq<Item<K, V>>, op: Op<K, V>, k: K)
    requires Inv(c, s) && Find(s, k).None? && LeavesAlone(op, k)
    ensures Find(Step(c, s, op), k).None?
  {
    match op
    case SetOp(x, v, expires, now) => SetFacts(c, s, x, v, expires, now);
    case GetOp(x, t0, t1, t2) => GetFacts(c, s, x, t0, t1, t2);
    case DeleteOp(x) => WithoutFacts(s, x);
    case ClearOp =>
  }

  /** Another key is set: k's item stays exactly when it is not evicted. */
  lemma SetOfAnother<K, V>(c: Config, s: seq<Item<K, V>>, k: K, e: Item<K, V>, x: K, v: V, expires: int, now: int)
    requires Inv(c, s) && Find(s, k) == Some(e) && x != k && (Ages(c) ==> now < e.expires)
    ensures Find(SetWithExpire(c, s, x, v, expires, now), k) == if Evicts(c, s, SetOp(x, v, expires, now), k) then None else Some(e)
  {
    InsertFacts(c, s, x, v, expires);
    FindFacts(s, k);
    var i := Insert(c, s, x, v, expires);
    if Evicts(c, s, SetOp(x, v, expires, now), k) {
      PushedOut(c, s, k, x, v, expires);
      SweepFacts(c, i, now);
    } else {
      assert Find(i, k) == Some(e);
      if Ages(c) {
        SweepKeepsFresh(c, i, k, now);
      } else {
        SweepFacts(c, i, now);
      }
    }
  }

  lemma PushedOut<K, V>(c: Config, s: seq<Item<K, V>>, k: K, x: K, v: V, expires: int)
    requires Inv(c, s) && x != k && Find(s, x).None? && c.maxSize > 0 && |s| == c.maxSize && s[0].key == k
    ensures Find(Insert(c, s, x, v, expires), k).None?
  {
    AppendDistinct(s, Item(x, v, expires));
    assert (s + [Item(x, v, expires)])[0] == s[0];
    TailFacts(s + [Item(x, v, expires)]);
  }

  lemma GetKeeps<K, V>(c: Config, s: seq<Item<K, V>>, k: K, e: Item<K, V>, x: K, t0: int, t1: int, t2: int)
    requires Inv(c, s) && Find(s, k) == Some(e) && (Ages(c) ==> t0 < e.expires && t1 < e.expires)
    ensures Find(Get(c, s, x, t0, t1, t2), k) == Some(e.(expires := Renewed(c, Op<K, V>.GetOp(x, t0, t1, t2), k, e.expires)))
  {
    HitIff(c, s, x, t0, t1, t2);
    if Hit(c, s, x, t0, t2).None? && Find(s, x).Some? {
      WithoutFacts(s, x);
      SweepKeepsFresh(c, Without(s, x), k, t1);
    }
  }

  /** One operation before k's item expires: it keeps the item, renewed if it gets k, or evicts it. */
  lemma StepOnItem<K, V>(c: Config, s: seq<Item<K, V>>, op: Op<K, V>, k: K, e: Item<K, V>)
    requires Inv(c, s) && Find(s, k) == Some(e) && LeavesAlone(op, k) && (Ages(c) ==> ReadsBefore(op, e.expires))
    ensures Find(Step(c, s, op), k) == if Evicts(c, s, op, k) then None else Some(e.(expires := Renewed(c, op, k, e.expires)))
  {
    match op
    case SetOp(x, v, expires, now) => SetOfAnother(c, s, k, e, x, v, expires, now);
    case GetOp(x, t0, t1, t2) => GetKeeps(c, s, k, e, x, t0, t1, t2);
    case DeleteOp(x) => WithoutFacts(s, x);
    case ClearOp =>
  }

  // ----- over runs -----

  /** The operations behind the first n, up to m, leave k alone. */
  ghost predicate AloneSince<K, V>(ops: seq<Op<K, V>>, n: nat, k: K) {
    forall i :: n <= i < |ops| ==> LeavesAlone(ops[i], k)
  }

  /** One of them evicts k. */
  ghost predicate EvictedSince<K, V>(c: Config, ops: seq<Op<K, V>>, n: nat, k: K)
    decreases |ops|
  {
    |ops| > n && var m := |ops| - 1; EvictedSince(c, ops[..m], n, k) || Evicts(c, Run(c, ops[..m]), ops[m], k)
  }

  /** The expiry of an item for k that operation n - 1 set to expire at `expires`. */
  function ExpiryNow<K(==), V>(c: Config, ops: seq<Op<K, V>>, n: nat, k: K, expires: int): int
    decreases |ops|
  {
    if |ops| <= n then expires
    else Renewed(c, ops[|ops| - 1], k, ExpiryNow(c, ops[..|ops| - 1], n, k, expires))
  }

  /** Every operation since compares expiries with times before that of k's item at its turn. */
  predicate InTime<K(==), V>(c: Config, ops: seq<Op<K, V>>, n: nat, k: K, expires: int)
    decreases |ops|
  {
    |ops| > n ==>
      var m := |ops| - 1;
      InTime(c, ops[..m], n, k, expires) && ReadsBefore(ops[m], ExpiryNow(c, ops[..m], n, k, expires))
  }

  /**
   What was set before and neither set again, deleted nor cleared is found, with the value set and
   the expiry it was last given, if and only if no operation in between evicted it, as long as the
   item did not expire on the way. Without ageing there is no such condition.
   */
  lemma {:induction false} FoundUnlessEvicted<K, V>(c: Config, ops: seq<Op<K, V>>, n: nat, k: K, v: V, expires: int, now: int)
    requires 0 < n <= |ops| && ops[n - 1] == SetOp(k, v, expires, now) && AloneSince(ops, n, k)
    requires Ages(c) ==> now < expires && InTime(c, ops, n, k, expires)
    ensures Find(Run(c, ops), k) == if EvictedSince(c, ops, n, k) then None else Some(Item(k, v, ExpiryNow(c, ops, n, k, expires)))
    decreases |ops|
  {
    var m := |ops| - 1;
    var before := ops[..m];
    var s, op := Run(c, before), ops[m];
    RunAgreesWithMap(c, before, k);
    assert Run(c, ops) == Step(c, s, op);
    if |ops| == n {
      SetFacts(c, s, k, v, expires, now);
    } else {
      assert LeavesAlone(op, k);
      assert AloneSince(before, n, k);
      FoundUnlessEvicted(c, before, n, k, v, expires, now);
      if EvictedSince(c, before, n, k) {
        NotFoundMeansGone(c, s, op, k);
      } else {
        StepOnItem(c, s, op, k, Item(k, v, ExpiryNow(c, before, n, k, expires)));
      }
    }
  }

  /** So a get before the expiry hits, with the value that was set, if and only if the key was not evicted. */
  lemma GetFindsWhatWasSet<K, V>(c: Config, ops: seq<Op<K, V>>, n: nat, k: K, v: V, expires: int, now: int, t0: int, t2: int)
    requires 0 < n <= |ops| && ops[n - 1] == SetOp(k, v, expires, now) && AloneSince(ops, n, k)
    requires Ages(c) ==> now < expires && InTime(c, ops, n, k, expires) && t0 < ExpiryNow(c, ops, n, k, expires)
    ensures Hit(c, Run(c, ops), k, t0, t2).Some? <==> !EvictedSince(c, ops, n, k)
    ensures var h := Hit(c, Run(c, ops), k, t0, t2); h.Some? ==> h.value.value == v
  {
    RunAgreesWithMap(c, ops, k);
    FoundUnlessEvicted(c, ops, n, k, v, expires, now);
    HitIff(c, Run(c, ops), k, t0, t0, t2);
  }

  // ----- how much has to happen for an eviction -----

  ghost function KeysOf<K, V>(s: seq<Item<K, V>>): set<K> {
    set e | e in s :: e.key
  }

  /** The keys used more recently than k. */
  ghost function KeysBehind<K, V>(s: seq<Item<K, V>>, k: K): set<K> {
    if |s| == 0 then {} else if s[0].key == k then KeysOf(s[1..]) else KeysBehind(s[1..], k)
  }

  lemma {:induction false} BehindAbsent<K, V>(s: seq<Item<K, V>>, k: K)
    requires Find(s, k).None?
    ensures KeysBehind(s, k) == {}
  {
    if |s| > 0 {
      BehindAbsent(s[1..], k);
    }
  }

  lemma {:induction false} BehindAppend<K, V>(s: seq<Item<K, V>>, e: Item<K, V>, k: K)
    ensures KeysBehind(s + [e], k) <= KeysBehind(s, k) + {e.key}
    ensures Find(s, k).None? ==> KeysBehind(s + [e], k) == {}
  {
    if |s| > 0 {
      assert (s + [e])[1..] == s[1..] + [e];
      BehindAppend(s[1..], e, k);
    }
  }

  lemma {:induction false} BehindWithout<K, V>(s: seq<Item<K, V>>, x: K, k: K)
    requires x != k
    ensures KeysBehind(Without(s, x), k) <= KeysBehind(s, k)
  {
    if |s| > 0 {
      if s[0].key == k {
        KeysWithout(s[1..], x);
      } else {
        BehindWithout(s[1..], x, k);
      }
    }
  }

  lemma {:induction false} KeysWithout<K, V>(s: seq<Item<K, V>>, x: K)
    ensures KeysOf(Without(s, x)) <= KeysOf(s)
  {
    if |s| > 0 {
      KeysWithout(s[1..], x);
      var w := Without(s, x);
      forall e | e in w
        ensures e.key in KeysOf(s)
      {
        assert e == s[0] || e in s[1..] || e in Without(s[1..], x);
        assert e in Without(s[1..], x) ==> e.key in KeysOf(s[1..]);
      }
    }
  }

  lemma BehindTail<K, V>(s: seq<Item<K, V>>, k: K)
    requires |s| > 0 && Distinct(s)
    ensures KeysBehind(s[1..], k) <= KeysBehind(s, k)
  {
    if s[0].key == k {
      TailFacts(s);
      BehindAbsent(s[1..], k);
    }
  }

  lemma {:induction false} BehindSweep<K, V>(c: Config, s: seq<Item<K, V>>, now: int, k: K)
    requires Distinct(s)
    ensures KeysBehind(Sweep(c, s, now), k) <= KeysBehind(s, k)
  {
    if Ages(c) && |s| > 0 && s[0].expires <= now {
      BehindTail(s, k);
      TailFacts(s);
      BehindSweep(c, s[1..], now, k);
    }
  }

  /** The keys other than k that the operation sets or gets. */
  function Uses<K, V>(op: Op<K, V>, k: K): set<K> {
    if (op.SetOp? || op.GetOp?) && op.key != k then {op.key} else {}
  }

  function UsedSince<K, V>(ops: seq<Op<K, V>>, n: nat, k: K): set<K>
    decreases |ops|
  {
    if |ops| <= n then {} else UsedSince(ops[..|ops| - 1], n, k) + Uses(ops[|ops| - 1], k)
  }

  lemma BehindAfterSet<K, V>(c: Config, s: seq<Item<K, V>>, x: K, v: V, expires: int, now: int, k: K)
    requires Inv(c, s)
    ensures KeysBehind(SetWithExpire(c, s, x, v, expires, now), k) <= if x == k then {} else KeysBehind(s, k) + {x}
  {
    var e := Item(x, v, expires);
    InsertFacts(c, s, x, v, expires);
    BehindSweep(c, Insert(c, s, x, v, expires), now, k);
    if Find(s, x).Some? {
      WithoutFacts(s, x);
      BehindAppend(Without(s, x), e, k);
      if x != k {
        BehindWithout(s, x, k);
      }
    } else {
      BehindAppend(s, e, k);
      AppendDistinct(s, e);
      BehindTail(s + [e], k);
    }
  }

  lemma BehindAfterGet<K, V>(c: Config, s: seq<Item<K, V>>, x: K, t0: int, t1: int, t2: int, k: K)
    requires Inv(c, s)
    ensures KeysBehind(Get(c, s, x, t0, t1, t2), k) <= if x == k then {} else KeysBehind(s, k) + {x}
  {
    if Find(s, x).Some? {
      WithoutFacts(s, x);
      if Hit(c, s, x, t0, t2).Some? {
        BehindAppend(Without(s, x), Hit(c, s, x, t0, t2).value, k);
      } else {
        BehindSweep(c, Without(s, x), t1, k);
      }
      if x == k {
        BehindAbsent(Without(s, x), k);
      } else {
        BehindWithout(s, x, k);
      }
    } else if x == k {
      BehindAbsent(s, k);
    }
  }

  /** Whatever the run: who was used more recently than k was used since k was. */
  lemma {:induction false} BehindWasUsed<K, V>(c: Config, ops: seq<Op<K, V>>, n: nat, k: K)
    requires 0 < n <= |ops| && (ops[n - 1].SetOp? || ops[n - 1].GetOp?) && ops[n - 1].key == k
    ensures KeysBehind(Run(c, ops), k) <= UsedSince(ops, n, k)
    decreases |ops|
  {
    var m := |ops| - 1;
    var s := Run(c, ops[..m]);
    RunAgreesWithMap(c, ops[..m], k);
    if |ops| > n {
      BehindWasUsed(c, ops[..m], n, k);
    }
    match ops[m]
    case SetOp(x, v, expires, now) => BehindAfterSet(c, s, x, v, expires, now, k);
    case GetOp(x, t0, t1, t2) => BehindAfterGet(c, s, x, t0, t1, t2, k);
    case DeleteOp(x) =>
      if x == k {
        WithoutFacts(s, x);
        BehindAbsent(Without(s, x), k);
      } else {
        BehindWithout(s, x, k);
      }
    case ClearOp =>
  }

  lemma {:induction false} KeysCount<K, V>(s: seq<Item<K, V>>)
    requires Distinct(s)
    ensures |KeysOf(s)| == |s|
  {
    if |s| > 0 {
      TailFacts(s);
      KeysCount(s[1..]);
      assert s == [s[0]] + s[1..];
      assert KeysOf(s) == {s[0].key} + KeysOf(s[1..]);
      assert s[0].key !in KeysOf(s[1..]);
    }
  }

  /** An eviction of k takes the use of as many other keys since k was used itself as the cache has places. */
  lemma EvictionTakesOthers<K, V>(c: Config, ops: seq<Op<K, V>>, n: nat, k: K)
    requires 0 < n < |ops| && (ops[n - 1].SetOp? || ops[n - 1].GetOp?) && ops[n - 1].key == k
    requires Evicts(c, Run(c, ops[..|ops| - 1]), ops[|ops| - 1], k)
    ensures |UsedSince(ops, n, k)| >= c.maxSize
  {
    var m := |ops| - 1;
    var s := Run(c, ops[..m]);
    var x := ops[m].key;
    RunAgreesWithMap(c, ops[..m], k);
    BehindWasUsed(c, ops[..m], n, k);
    BehindOldest(s, k, x);
    SubsetSize(KeysBehind(s, k) + {x}, UsedSince(ops, n, k));
  }

  lemma BehindOldest<K, V>(s: seq<Item<K, V>>, k: K, x: K)
    requires Distinct(s) && |s| > 0 && s[0].key == k && Find(s, x).None?
    ensures |KeysBehind(s, k) + {x}| == |s|
  {
    TailFacts(s);
    KeysCount(s[1..]);
    FindFacts(s, x);
    assert x !in KeysOf(s[1..]);
  }

  lemma SubsetSize<K>(a: set<K>, b: set<K>)
    requires a <= b
    ensures |a| <= |b|
  {
    assert b == a + (b - a);
    assert a !! (b - a);
  }

  /** A key is safe until as many other keys have been used since as the cache has places. */
  lemma {:induction false} SafeAmongFew<K, V>(c: Config, ops: seq<Op<K, V>>, n: nat, k: K)
    requires 0 < n <= |ops| && (ops[n - 1].SetOp? || ops[n - 1].GetOp?) && ops[n - 1].key == k
    requires c.maxSize > 0 ==> |UsedSince(ops, n, k)| < c.maxSize
    ensures !EvictedSince(c, ops, n, k)
    decreases |ops|
  {
    if |ops| > n {
      var m := |ops| - 1;
      SubsetSize(UsedSince(ops[..m], n, k), UsedSince(ops, n, k));
      SafeAmongFew(c, ops[..m], n, k);
      if Evicts(c, Run(c, ops[..m]), ops[m], k) {
        EvictionTakesOthers(c, ops, n, k);
      }
    }
  }
}
