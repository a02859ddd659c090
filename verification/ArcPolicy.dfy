/**
 The Adaptive Replacement Cache as a state and its requests as functions on states: four lists
 of keys, most recent first, an adaptive target `p`, and one item per known key. The class Arc
 is proved to compute these functions; here they are proved to keep the cache's invariants and
 to agree with a plain map over every run.
 */
module ArcPolicy {
  import opened Lists
  import opened Options

  /** What the cache keeps for a key; a ghost is remembered without its value. */
  datatype Item<V> = Item(value: V, isGhost: bool, expires: int)

  datatype State<K, V> = State(
    p: int, c: int, len: int,
    t1: seq<K>, b1: seq<K>, t2: seq<K>, b2: seq<K>,
    cache: map<K, Item<V>>)

  function Empty<K, V>(c: int): State<K, V> {
    State(0, c, 0, [], [], [], [], map[])
  }

  function Min(a: int, b: int): int {
    if a < b then a else b
  }

  function Max(a: int, b: int): int {
    if a < b then b else a
  }

  // ----- the requests -----

  function Total<K, V>(s: State<K, V>): nat {
    |s.t1| + |s.t2| + |s.b1| + |s.b2|
  }

  /** setMRU: take the key off whatever list it is on and put it in front of t1 or t2. */
  function ToT1<K(==), V>(s: State<K, V>, k: K): State<K, V> {
    s.(t1 := [k] + Drop(s.t1, k), b1 := Drop(s.b1, k), t2 := Drop(s.t2, k), b2 := Drop(s.b2, k))
  }

  function ToT2<K(==), V>(s: State<K, V>, k: K): State<K, V> {
    s.(t1 := Drop(s.t1, k), b1 := Drop(s.b1, k), t2 := [k] + Drop(s.t2, k), b2 := Drop(s.b2, k))
  }

  /** Whether replace demotes the oldest key of t1 rather than that of t2. */
  predicate DemotesT1<K(==), V>(s: State<K, V>, k: K) {
    |s.t1| > 0 && (|s.t1| > s.p || (k in s.b2 && |s.t1| == s.p))
  }

  /** replace finds a key to demote, and the key has an item. */
  predicate CanReplace<K(==), V>(s: State<K, V>, k: K) {
    if DemotesT1(s, k) then s.t1[|s.t1| - 1] in s.cache
    else |s.t2| > 0 && s.t2[|s.t2| - 1] in s.cache
  }

  function Victim<K(==), V>(s: State<K, V>, k: K): K
    requires CanReplace(s, k)
  {
    if DemotesT1(s, k) then s.t1[|s.t1| - 1] else s.t2[|s.t2| - 1]
  }

  /** replace: the victim loses its value, becomes a ghost and moves to b1 or b2. */
  function Replace<K(==), V>(s: State<K, V>, k: K, zero: V): State<K, V>
    requires CanReplace(s, k)
  {
    var v := Victim(s, k);
    var demoted := s.(len := s.len - 1, cache := s.cache[v := Item(zero, true, s.cache[v].expires)]);
    if DemotesT1(s, k) then demoted.(t1 := s.t1[..|s.t1| - 1], b1 := [v] + s.b1)
    else demoted.(t2 := s.t2[..|s.t2| - 1], b2 := [v] + s.b2)
  }

  /** delLRU on b1, b2 and t1: the oldest key of the list is forgotten, and `len` goes down. */
  function ForgetB1<K(==), V>(s: State<K, V>): State<K, V>
    requires |s.b1| > 0
  {
    s.(b1 := s.b1[..|s.b1| - 1], len := s.len - 1, cache := s.cache - {s.b1[|s.b1| - 1]})
  }

  function ForgetB2<K(==), V>(s: State<K, V>): State<K, V>
    requires |s.b2| > 0
  {
    s.(b2 := s.b2[..|s.b2| - 1], len := s.len - 1, cache := s.cache - {s.b2[|s.b2| - 1]})
  }

  function ForgetT1<K(==), V>(s: State<K, V>): State<K, V>
    requires |s.t1| > 0
  {
    s.(t1 := s.t1[..|s.t1| - 1], len := s.len - 1, cache := s.cache - {s.t1[|s.t1| - 1]})
  }

  /** The adaptation of the target on a ghost hit. */
  function Adapted<K(==), V>(s: State<K, V>, k: K): State<K, V> {
    if k in s.b1 then
      s.(p := Min(s.p + if |s.b1| >= |s.b2| then 1 else |s.b2| / |s.b1|, s.c))
    else if k in s.b2 then
      s.(p := Max(s.p - if |s.b2| >= |s.b1| then 1 else |s.b1| / |s.b2|, 0))
    else s
  }

  /** What must hold for no step of a request to fail. */
  predicate CanRequest<K(==), V>(s: State<K, V>, k: K) {
    if k in s.t1 || k in s.t2 then true
    else if k in s.b1 || k in s.b2 then CanReplace(Adapted(s, k), k)
    else if |s.t1| + |s.b1| == s.c then
      if |s.t1| < s.c then |s.b1| > 0 && CanReplace(ForgetB1(s), k) else |s.t1| > 0
    else if |s.t1| + |s.b1| < s.c then
      if Total(s) >= s.c then
        if Total(s) == 2 * s.c then |s.b2| > 0 && CanReplace(ForgetB2(s), k) else CanReplace(s, k)
      else true
    else true
  }

  /** The branch of req that is commented "not A nor B". */
  predicate NeitherAnorB<K(==), V>(s: State<K, V>, k: K) {
    k !in s.t1 && k !in s.t2 && k !in s.b1 && k !in s.b2 && !(|s.t1| + |s.b1| == s.c) && !(|s.t1| + |s.b1| < s.c)
  }

  /** req. */
  function Request<K(==), V>(s: State<K, V>, k: K, zero: V): State<K, V>
    requires CanRequest(s, k)
  {
    if k in s.t1 || k in s.t2 then ToT2(s, k)                                   // case I
    else if k in s.b1 || k in s.b2 then ToT2(Replace(Adapted(s, k), k, zero), k) // cases II and III
    else if |s.t1| + |s.b1| == s.c then                                         // case IV A
      if |s.t1| < s.c then ToT1(Replace(ForgetB1(s), k, zero), k) else ToT1(ForgetT1(s), k)
    else if |s.t1| + |s.b1| < s.c then                                          // case IV B
      if Total(s) >= s.c then
        ToT1(Replace(if Total(s) == 2 * s.c then ForgetB2(s) else s, k, zero), k)
      else ToT1(s, k)
    else ToT1(s, k)                                                             // not A nor B
  }

  /** The state setWithExpire hands to req. */
  function Prepared<K(==), V>(s: State<K, V>, k: K, v: V, expires: int): State<K, V> {
    if k !in s.cache then s.(len := s.len + 1)
    else s.(len := s.len + (if s.cache[k].isGhost then 1 else 0), cache := s.cache[k := Item(v, false, expires)])
  }

  function Set<K(==), V>(s: State<K, V>, k: K, v: V, expires: int, zero: V): State<K, V>
    requires CanRequest(Prepared(s, k, v, expires), k)
  {
    var r := Request(Prepared(s, k, v, expires), k, zero);
    if k !in s.cache then r.(cache := r.cache[k := Item(v, false, expires)]) else r
  }

  function Get<K(==), V>(s: State<K, V>, k: K, zero: V): State<K, V>
    requires k in s.cache ==> CanRequest(s, k)
  {
    if k in s.cache then Request(s, k, zero) else s
  }

  /** The value and expiry a Get reports, None for a miss; a request never touches the item itself. */
  function Hit<K(==), V>(s: State<K, V>, k: K): Option<(V, int)> {
    if k in s.cache && !s.cache[k].isGhost then Some((s.cache[k].value, s.cache[k].expires)) else None
  }

  // ----- the invariant -----

  ghost predicate Sizes<K, V>(s: State<K, V>) {
    && s.c >= 1 && 0 <= s.p <= s.c
    && |s.t1| + |s.t2| <= s.c && |s.t1| + |s.b1| <= s.c && Total(s) <= 2 * s.c
    && (Total(s) < s.c ==> |s.b1| == 0 && |s.b2| == 0)
    && (Total(s) >= s.c ==> |s.t1| + |s.t2| == s.c)
  }

  /** The lists hold exactly `keys`, each once. */
  ghost predicate Placed<K, V>(s: State<K, V>, keys: set<K>) {
    && NoDup(s.t1) && NoDup(s.b1) && NoDup(s.t2) && NoDup(s.b2)
    && Members(s.t1) !! Members(s.b1) !! Members(s.t2) !! Members(s.b2)
    && keys == Members(s.t1) + Members(s.b1) + Members(s.t2) + Members(s.b2)
  }

  /** Items other than k: live in t1, ghosts in b1 and b2, and ghosts hold no value. */
  ghost predicate Flagged<K, V>(s: State<K, V>, k: Option<K>, zero: V) {
    && (forall x :: x in s.t1 && Some(x) != k && x in s.cache ==> !s.cache[x].isGhost)
    && (forall x :: x in s.b1 && Some(x) != k && x in s.cache ==> s.cache[x].isGhost)
    && (forall x :: x in s.b2 && Some(x) != k && x in s.cache ==> s.cache[x].isGhost)
    && (forall x :: x in s.cache && Some(x) != k && s.cache[x].isGhost ==> s.cache[x].value == zero)
  }

  ghost predicate Inv<K, V>(s: State<K, V>, zero: V) {
    Sizes(s) && Placed(s, s.cache.Keys) && Flagged(s, None, zero)
  }

  lemma EmptyInv<K, V>(c: int, zero: V)
    requires c >= 1
    ensures Inv(Empty<K, V>(c), zero)
  {
  }

  lemma ReplacePossible<K, V>(s: State<K, V>, k: K)
    requires Placed(s, s.cache.Keys) && 0 <= s.p && |s.t1| + |s.t2| > 0
    requires |s.t2| == 0 ==> |s.t1| > s.p || (k in s.b2 && |s.t1| == s.p)
    ensures CanReplace(s, k)
  {
  }

  lemma AdaptedFacts<K, V>(s: State<K, V>, k: K)
    requires Sizes(s) && Placed(s, s.cache.Keys)
    ensures var a := Adapted(s, k); a == s.(p := a.p) && 0 <= a.p <= s.c
    ensures k in s.b1 ==> Adapted(s, k).p >= s.p && (s.p < s.c ==> Adapted(s, k).p > s.p)
    ensures k in s.b2 ==> Adapted(s, k).p <= s.p && (s.p > 0 ==> Adapted(s, k).p < s.p)
  {
    assert k in Members(s.b2) <==> k in s.b2;
    assert k in Members(s.b1) <==> k in s.b1;
  }

  /** Under the invariant every step of a request finds what it needs. */
  lemma RequestPossible<K, V>(s: State<K, V>, k: K)
    requires Sizes(s) && Placed(s, s.cache.Keys)
    ensures CanRequest(s, k) && !NeitherAnorB(s, k)
  {
    AdaptedFacts(s, k);
    if k in s.t1 || k in s.t2 {
    } else if k in s.b1 || k in s.b2 {
      ReplacePossible(Adapted(s, k), k);
    } else if |s.t1| + |s.b1| == s.c {
      if |s.t1| < s.c {
        ForgetB1Placed(s);
        ReplacePossible(ForgetB1(s), k);
      }
    } else if Total(s) >= s.c {
      if Total(s) == 2 * s.c {
        ForgetB2Placed(s);
        ReplacePossible(ForgetB2(s), k);
      } else {
        ReplacePossible(s, k);
      }
    }
  }

  lemma ForgetB1Placed<K, V>(s: State<K, V>)
    requires |s.b1| > 0 && Placed(s, s.cache.Keys)
    ensures Placed(ForgetB1(s), ForgetB1(s).cache.Keys)
  {
    DropLast(s.b1);
  }

  lemma ForgetB2Placed<K, V>(s: State<K, V>)
    requires |s.b2| > 0 && Placed(s, s.cache.Keys)
    ensures Placed(ForgetB2(s), ForgetB2(s).cache.Keys)
  {
    DropLast(s.b2);
  }

  lemma ForgetT1Placed<K, V>(s: State<K, V>)
    requires |s.t1| > 0 && Placed(s, s.cache.Keys)
    ensures Placed(ForgetT1(s), ForgetT1(s).cache.Keys)
  {
    DropLast(s.t1);
  }

  lemma ReplacePlaced<K, V>(s: State<K, V>, k: K, zero: V)
    requires Placed(s, s.cache.Keys) && CanReplace(s, k)
    ensures var r := Replace(s, k, zero); Placed(r, r.cache.Keys) && r.cache.Keys == s.cache.Keys
  {
    if DemotesT1(s, k) {
      DropLast(s.t1);
      PrependFacts(s.b1, s.t1[|s.t1| - 1]);
    } else {
      DropLast(s.t2);
      PrependFacts(s.b2, s.t2[|s.t2| - 1]);
    }
  }

  lemma DetachedPlaced<K, V>(s: State<K, V>, k: K)
    requires Placed(s, s.cache.Keys)
    ensures Placed(s.(t1 := Drop(s.t1, k), b1 := Drop(s.b1, k), t2 := Drop(s.t2, k), b2 := Drop(s.b2, k)), s.cache.Keys - {k})
  {
    DropFacts(s.t1, k);
    DropFacts(s.b1, k);
    DropFacts(s.t2, k);
    DropFacts(s.b2, k);
  }

  lemma ToT1Placed<K, V>(s: State<K, V>, k: K)
    requires Placed(s, s.cache.Keys)
    ensures Placed(ToT1(s, k), s.cache.Keys + {k})
  {
    DetachedPlaced(s, k);
    DropFacts(s.t1, k);
    PrependFacts(Drop(s.t1, k), k);
  }

  lemma ToT2Placed<K, V>(s: State<K, V>, k: K)
    requires Placed(s, s.cache.Keys)
    ensures Placed(ToT2(s, k), s.cache.Keys + {k})
  {
    DetachedPlaced(s, k);
    DropFacts(s.t2, k);
    PrependFacts(Drop(s.t2, k), k);
  }

  /** The invariant with k's own item left open: it may be just about to be set. */
  ghost predicate Ready<K, V>(s: State<K, V>, k: K, zero: V) {
    Placed(s, s.cache.Keys) && Flagged(s, Some(k), zero)
  }

  /** Items other than k are kept, forgotten, or made ghosts; k's own item is untouched. */
  ghost predicate OthersOnlyFade<K, V>(s: State<K, V>, r: State<K, V>, k: K) {
    && (k in s.cache <==> k in r.cache) && (k in s.cache ==> r.cache[k] == s.cache[k])
    && forall x :: x in r.cache && x != k ==> x in s.cache && (r.cache[x] == s.cache[x] || r.cache[x].isGhost)
  }

  lemma ReplaceKeeps<K, V>(s: State<K, V>, k: K, zero: V)
    requires Ready(s, k, zero) && CanReplace(s, k) && k !in s.t1 && k !in s.t2
    ensures var r := Replace(s, k, zero);
      Ready(r, k, zero) && OthersOnlyFade(s, r, k) && Members(r.t1) <= Members(s.t1) && Members(r.t2) <= Members(s.t2)
  {
    ReplacePlaced(s, k, zero);
    var v := Victim(s, k);
    if DemotesT1(s, k) {
      DropLast(s.t1);
    } else {
      DropLast(s.t2);
    }
    var r := Replace(s, k, zero);
    assert forall x :: x in r.t1 ==> x in Members(r.t1);
    assert v != k;
    assert v in Members(r.b1) + Members(r.b2);
  }

  lemma ForgetKeeps<K, V>(s: State<K, V>, k: K, zero: V)
    requires Ready(s, k, zero) && k !in s.cache
    ensures |s.b1| > 0 ==> Ready(ForgetB1(s), k, zero) && OthersOnlyFade(s, ForgetB1(s), k)
    ensures |s.b2| > 0 ==> Ready(ForgetB2(s), k, zero) && OthersOnlyFade(s, ForgetB2(s), k)
    ensures |s.t1| > 0 ==> Ready(ForgetT1(s), k, zero) && OthersOnlyFade(s, ForgetT1(s), k)
  {
    if |s.b1| > 0 {
      ForgetB1Placed(s);
    }
    if |s.b2| > 0 {
      ForgetB2Placed(s);
    }
    if |s.t1| > 0 {
      ForgetT1Placed(s);
    }
  }

  /** After a move k is in front of its list and everything else is as before. */
  ghost predicate Arrived<K, V>(s: State<K, V>, r: State<K, V>, k: K, zero: V) {
    && Placed(r, s.cache.Keys + {k}) && Flagged(r, Some(k), zero) && r.cache == s.cache
    && ((|r.t1| > 0 && r.t1[0] == k) || (|r.t2| > 0 && r.t2[0] == k))
  }

  lemma FlagsSurvive<K, V>(s: State<K, V>, r: State<K, V>, k: K, zero: V)
    requires Flagged(s, Some(k), zero) && r.cache == s.cache
    requires Members(r.t1) <= Members(s.t1) + {k} && Members(r.b1) <= Members(s.b1) && Members(r.b2) <= Members(s.b2)
    ensures Flagged(r, Some(k), zero)
  {
    assert forall x :: x in r.t1 ==> x in Members(r.t1);
    assert forall x :: x in r.b1 ==> x in Members(r.b1);
    assert forall x :: x in r.b2 ==> x in Members(r.b2);
  }

  lemma MoveKeeps<K, V>(s: State<K, V>, k: K, zero: V)
    requires Ready(s, k, zero)
    ensures Arrived(s, ToT1(s, k), k, zero) && Arrived(s, ToT2(s, k), k, zero)
  {
    ToT1Placed(s, k);
    ToT2Placed(s, k);
    DropFacts(s.t1, k);
    DropFacts(s.b1, k);
    DropFacts(s.b2, k);
    PrependFacts(Drop(s.t1, k), k);
    FlagsSurvive(s, ToT1(s, k), k, zero);
    FlagsSurvive(s, ToT2(s, k), k, zero);
  }

  /** The effect of a request on everything but the sizes. */
  ghost predicate Served<K, V>(s: State<K, V>, r: State<K, V>, k: K, zero: V) {
    && Placed(r, r.cache.Keys + {k}) && Flagged(r, Some(k), zero) && OthersOnlyFade(s, r, k)
    && ((|r.t1| > 0 && r.t1[0] == k) || (|r.t2| > 0 && r.t2[0] == k))
  }

  lemma ServedByMove<K, V>(s: State<K, V>, m: State<K, V>, r: State<K, V>, k: K, zero: V)
    requires Ready(m, k, zero) && OthersOnlyFade(s, m, k) && (r == ToT1(m, k) || r == ToT2(m, k))
    ensures Served(s, r, k, zero)
  {
    MoveKeeps(m, k, zero);
  }

  lemma FadeTwice<K, V>(s: State<K, V>, m: State<K, V>, r: State<K, V>, k: K)
    requires OthersOnlyFade(s, m, k) && OthersOnlyFade(m, r, k)
    ensures OthersOnlyFade(s, r, k)
  {
  }

  /** What is left of s after making room serves a new key. */
  lemma ServedByReplace<K, V>(s: State<K, V>, m: State<K, V>, k: K, zero: V)
    requires Ready(m, k, zero) && OthersOnlyFade(s, m, k) && CanReplace(m, k) && k !in m.t1 && k !in m.t2
    ensures Served(s, ToT1(Replace(m, k, zero), k), k, zero) && Served(s, ToT2(Replace(m, k, zero), k), k, zero)
  {
    ReplaceKeeps(m, k, zero);
    FadeTwice(s, m, Replace(m, k, zero), k);
    ServedByMove(s, Replace(m, k, zero), ToT1(Replace(m, k, zero), k), k, zero);
    ServedByMove(s, Replace(m, k, zero), ToT2(Replace(m, k, zero), k), k, zero);
  }

  lemma RequestNewServes<K, V>(s: State<K, V>, k: K, zero: V)
    requires Ready(s, k, zero) && CanRequest(s, k) && k !in s.cache
    requires k !in s.t1 && k !in s.t2 && k !in s.b1 && k !in s.b2
    ensures Served(s, Request(s, k, zero), k, zero)
  {
    ForgetKeeps(s, k, zero);
    if |s.t1| + |s.b1| == s.c {
      if |s.t1| < s.c {
        ServedByReplace(s, ForgetB1(s), k, zero);
      } else {
        ServedByMove(s, ForgetT1(s), Request(s, k, zero), k, zero);
      }
    } else if |s.t1| + |s.b1| < s.c && Total(s) >= s.c {
      ServedByReplace(s, if Total(s) == 2 * s.c then ForgetB2(s) else s, k, zero);
    } else {
      ServedByMove(s, s, Request(s, k, zero), k, zero);
    }
  }

  lemma RequestServes<K, V>(s: State<K, V>, k: K, zero: V)
    requires Sizes(s) && Ready(s, k, zero) && CanRequest(s, k)
    ensures Served(s, Request(s, k, zero), k, zero)
  {
    if k in s.t1 || k in s.t2 {
      ServedByMove(s, s, Request(s, k, zero), k, zero);
    } else if k in s.b1 || k in s.b2 {
      AdaptedFacts(s, k);
      ServedByReplace(s, Adapted(s, k), k, zero);
    } else {
      assert k !in Members(s.t1) + Members(s.b1) + Members(s.t2) + Members(s.b2);
      RequestNewServes(s, k, zero);
    }
  }

  lemma SizesAfterMove<K, V>(s: State<K, V>, k: K)
    requires Placed(s, s.cache.Keys)
    ensures k in s.t1 || k in s.t2 ==>
      var r := ToT2(s, k); |r.t1| + |r.t2| == |s.t1| + |s.t2| && |r.t1| <= |s.t1| && r.b1 == s.b1 && r.b2 == s.b2
    ensures k in s.b1 || k in s.b2 ==>
      var r := ToT2(s, k); r.t1 == s.t1 && |r.t2| == |s.t2| + 1 && |r.b1| + |r.b2| == |s.b1| + |s.b2| - 1 && |r.b1| <= |s.b1|
    ensures k !in s.cache ==>
      var r := ToT1(s, k); |r.t1| == |s.t1| + 1 && r.t2 == s.t2 && r.b1 == s.b1 && r.b2 == s.b2
  {
    DropFacts(s.t1, k);
    DropFacts(s.b1, k);
    DropFacts(s.t2, k);
    DropFacts(s.b2, k);
    assert k in s.t1 <==> k in Members(s.t1);
    assert k in s.t2 <==> k in Members(s.t2);
    assert k in s.b1 <==> k in Members(s.b1);
    assert k in s.b2 <==> k in Members(s.b2);
  }

  lemma GhostHitSizes<K, V>(s: State<K, V>, k: K, zero: V)
    requires Sizes(s) && Placed(s, s.cache.Keys) && (k in s.b1 || k in s.b2) && CanReplace(Adapted(s, k), k)
    ensures Sizes(ToT2(Replace(Adapted(s, k), k, zero), k))
  {
    var a := Adapted(s, k);
    AdaptedFacts(s, k);
    ReplacePlaced(a, k, zero);
    SizesAfterMove(Replace(a, k, zero), k);
  }

  lemma NewKeySizes<K, V>(s: State<K, V>, m: State<K, V>, k: K, zero: V)
    requires Sizes(s) && Placed(m, m.cache.Keys) && k !in m.cache && CanReplace(m, k)
    requires m.p == s.p && m.c == s.c && m.t1 == s.t1 && m.t2 == s.t2 && |s.t1| + |s.t2| == s.c && |m.b1| <= |s.b1|
    requires |m.t1| + |m.b1| < s.c && Total(m) < 2 * s.c
    ensures Sizes(ToT1(Replace(m, k, zero), k))
  {
    ReplacePlaced(m, k, zero);
    SizesAfterMove(Replace(m, k, zero), k);
  }

  lemma RequestNewSizes<K, V>(s: State<K, V>, k: K, zero: V)
    requires Sizes(s) && Placed(s, s.cache.Keys) && CanRequest(s, k) && k !in s.cache
    requires k !in s.t1 && k !in s.t2 && k !in s.b1 && k !in s.b2
    ensures Sizes(Request(s, k, zero)) && Request(s, k, zero).c == s.c
  {
    if |s.t1| + |s.b1| == s.c {
      if |s.t1| < s.c {
        ForgetB1Placed(s);
        NewKeySizes(s, ForgetB1(s), k, zero);
      } else {
        ForgetT1Placed(s);
        SizesAfterMove(ForgetT1(s), k);
      }
    } else if Total(s) >= s.c {
      if Total(s) == 2 * s.c {
        ForgetB2Placed(s);
        NewKeySizes(s, ForgetB2(s), k, zero);
      } else {
        NewKeySizes(s, s, k, zero);
      }
    } else {
      SizesAfterMove(s, k);
    }
  }

  lemma RequestSizes<K, V>(s: State<K, V>, k: K, zero: V)
    requires Sizes(s) && Placed(s, s.cache.Keys) && CanRequest(s, k)
    ensures Sizes(Request(s, k, zero)) && Request(s, k, zero).c == s.c
  {
    if k in s.t1 || k in s.t2 {
      SizesAfterMove(s, k);
    } else if k in s.b1 || k in s.b2 {
      GhostHitSizes(s, k, zero);
    } else {
      assert k !in Members(s.t1) + Members(s.b1) + Members(s.t2) + Members(s.b2);
      RequestNewSizes(s, k, zero);
    }
  }

  // ----- the two operations keep the invariant -----

  lemma PreparedReady<K, V>(s: State<K, V>, k: K, v: V, expires: int, zero: V)
    requires Inv(s, zero)
    ensures var q := Prepared(s, k, v, expires); Sizes(q) && Ready(q, k, zero) && CanRequest(q, k)
  {
    var q := Prepared(s, k, v, expires);
    assert q.cache.Keys == s.cache.Keys;
    RequestPossible(q, k);
  }

  ghost predicate OtherItemsOnlyFade<K, V>(s: State<K, V>, r: State<K, V>, k: K) {
    forall x :: x in r.cache && x != k ==> x in s.cache && (r.cache[x] == s.cache[x] || r.cache[x].isGhost)
  }

  lemma FrontIsMember<K, V>(r: State<K, V>, k: K)
    requires Placed(r, r.cache.Keys + {k}) && ((|r.t1| > 0 && r.t1[0] == k) || (|r.t2| > 0 && r.t2[0] == k))
    ensures k !in r.b1 && k !in r.b2
  {
    assert k in Members(r.t1) + Members(r.t2);
    assert k in r.b1 <==> k in Members(r.b1);
    assert k in r.b2 <==> k in Members(r.b2);
  }

  /** Storing a live item for the key that was just served. */
  lemma StoreLive<K, V>(q: State<K, V>, m: State<K, V>, k: K, item: Item<V>, zero: V)
    requires Served(q, m, k, zero) && Sizes(m) && !item.isGhost
    ensures Inv(m.(cache := m.cache[k := item]), zero)
  {
    FrontIsMember(m, k);
    assert m.cache[k := item].Keys == m.cache.Keys + {k};
  }

  lemma SetServes<K, V>(s: State<K, V>, k: K, v: V, expires: int, zero: V)
    requires Inv(s, zero)
    ensures CanRequest(Prepared(s, k, v, expires), k)
    ensures var q := Prepared(s, k, v, expires); var m := Request(q, k, zero);
      Served(q, m, k, zero) && Sizes(m) && m.c == s.c && Set(s, k, v, expires, zero) == m.(cache := m.cache[k := Item(v, false, expires)])
  {
    PreparedReady(s, k, v, expires, zero);
    var q := Prepared(s, k, v, expires);
    RequestSizes(q, k, zero);
    RequestServes(q, k, zero);
    var m := Request(q, k, zero);
    if k in s.cache {
      assert m.cache[k := Item(v, false, expires)] == m.cache;
    }
  }

  lemma SetKeepsInv<K, V>(s: State<K, V>, k: K, v: V, expires: int, zero: V)
    requires Inv(s, zero)
    ensures CanRequest(Prepared(s, k, v, expires), k)
    ensures var r := Set(s, k, v, expires, zero);
      Inv(r, zero) && r.c == s.c && Hit(r, k) == Some((v, expires)) && OtherItemsOnlyFade(s, r, k)
  {
    SetServes(s, k, v, expires, zero);
    var q := Prepared(s, k, v, expires);
    StoreLive(q, Request(q, k, zero), k, Item(v, false, expires), zero);
  }

  lemma GetKeepsInv<K, V>(s: State<K, V>, k: K, zero: V)
    requires Inv(s, zero)
    ensures k in s.cache ==> CanRequest(s, k)
    ensures var r := Get(s, k, zero); Inv(r, zero) && r.c == s.c && Hit(r, k) == Hit(s, k) && OtherItemsOnlyFade(s, r, k)
  {
    RequestPossible(s, k);
    if k in s.cache {
      RequestSizes(s, k, zero);
      RequestServes(s, k, zero);
      ServedOnT2(s, k, zero);
    }
  }

  /** A key that is found goes to the front of t2, live or not: a ghost is on t2 then and still a ghost. */
  lemma GetServesT2<K, V>(s: State<K, V>, k: K, zero: V)
    requires Inv(s, zero) && k in s.cache
    ensures CanRequest(s, k)
    ensures var r := Get(s, k, zero); |r.t2| > 0 && r.t2[0] == k && k in r.cache && r.cache[k] == s.cache[k]
  {
    GetKeepsInv(s, k, zero);
    RequestServes(s, k, zero);
    FoundIsInFront(s, k, zero);
  }

  /** A key that is already known ends up on t2, so its item may stay a ghost there. */
  lemma ServedOnT2<K, V>(s: State<K, V>, k: K, zero: V)
    requires Inv(s, zero) && k in s.cache && CanRequest(s, k) && Served(s, Request(s, k, zero), k, zero)
    ensures var r := Request(s, k, zero); Placed(r, r.cache.Keys) && Flagged(r, None, zero)
  {
    var r := Request(s, k, zero);
    assert r.cache.Keys == r.cache.Keys + {k};
    FoundIsInFront(s, k, zero);
    assert k in Members(r.t2);
    assert k in r.t1 <==> k in Members(r.t1);
    FrontIsMember(r, k);
  }

  lemma FoundIsInFront<K, V>(s: State<K, V>, k: K, zero: V)
    requires Inv(s, zero) && k in s.cache && CanRequest(s, k)
    ensures var r := Request(s, k, zero); |r.t2| > 0 && r.t2[0] == k
  {
    assert k in s.cache.Keys;
    assert k in Members(s.t1) + Members(s.b1) + Members(s.t2) + Members(s.b2);
  }

  // ----- `len` against the live entries -----

  ghost function Live<K, V>(s: State<K, V>): set<K> {
    set x | x in s.cache && !s.cache[x].isGhost
  }

  /** By how much `len` falls short of the number of live entries. */
  ghost function Shortfall<K, V>(s: State<K, V>): int {
    |Live(s)| - s.len
  }

  function VictimWasGhost<K(==), V>(s: State<K, V>, k: K): nat
    requires CanReplace(s, k)
  {
    if s.cache[Victim(s, k)].isGhost then 1 else 0
  }

  /** How many ghosts a request for k forgets or demotes again, read off the state before it. */
  function GhostsDropped<K(==), V>(s: State<K, V>, k: K): nat
    requires CanRequest(s, k)
  {
    if k in s.t1 || k in s.t2 then 0
    else if k in s.b1 || k in s.b2 then VictimWasGhost(Adapted(s, k), k)
    else if |s.t1| + |s.b1| == s.c then
      if |s.t1| < s.c then 1 + VictimWasGhost(ForgetB1(s), k) else 0
    else if |s.t1| + |s.b1| < s.c && Total(s) >= s.c then
      if Total(s) == 2 * s.c then 1 + VictimWasGhost(ForgetB2(s), k) else VictimWasGhost(s, k)
    else 0
  }

  ghost function LiveBut<K, V>(cache: map<K, Item<V>>, k: K): set<K> {
    set x | x in cache && !cache[x].isGhost && x != k
  }

  lemma LiveButDemoted<K, V>(cache: map<K, Item<V>>, k: K, v: K, item: Item<V>)
    requires v in cache && v != k && item.isGhost
    ensures |LiveBut(cache[v := item], k)| == |LiveBut(cache, k)| - if cache[v].isGhost then 0 else 1
  {
    assert LiveBut(cache[v := item], k) == LiveBut(cache, k) - {v};
  }

  lemma LiveButForgotten<K, V>(cache: map<K, Item<V>>, k: K, v: K)
    requires v in cache && v != k
    ensures |LiveBut(cache - {v}, k)| == |LiveBut(cache, k)| - if cache[v].isGhost then 0 else 1
  {
    assert LiveBut(cache - {v}, k) == LiveBut(cache, k) - {v};
  }

  lemma LiveSplit<K, V>(s: State<K, V>, k: K)
    ensures |Live(s)| == |LiveBut(s.cache, k)| + if k in s.cache && !s.cache[k].isGhost then 1 else 0
  {
    if k in s.cache && !s.cache[k].isGhost {
      assert Live(s) == LiveBut(s.cache, k) + {k};
    } else {
      assert Live(s) == LiveBut(s.cache, k);
    }
  }

  /** Shortfall without k, whose own item a request does not look at. */
  ghost function OtherShortfall<K, V>(s: State<K, V>, k: K): int {
    |LiveBut(s.cache, k)| - s.len
  }

  lemma ReplaceShortfall<K, V>(s: State<K, V>, k: K, zero: V)
    requires CanReplace(s, k) && k !in s.t1 && k !in s.t2
    ensures OtherShortfall(Replace(s, k, zero), k) == OtherShortfall(s, k) + VictimWasGhost(s, k)
  {
    var v := Victim(s, k);
    LiveButDemoted(s.cache, k, v, Item(zero, true, s.cache[v].expires));
  }

  lemma ForgetB1Shortfall<K, V>(s: State<K, V>, k: K, zero: V)
    requires Ready(s, k, zero) && k !in s.cache && |s.b1| > 0
    ensures OtherShortfall(ForgetB1(s), k) == OtherShortfall(s, k) + 1
  {
    OldestKnown(s, s.b1);
    LiveButForgotten(s.cache, k, s.b1[|s.b1| - 1]);
  }

  lemma ForgetB2Shortfall<K, V>(s: State<K, V>, k: K, zero: V)
    requires Ready(s, k, zero) && k !in s.cache && |s.b2| > 0
    ensures OtherShortfall(ForgetB2(s), k) == OtherShortfall(s, k) + 1
  {
    OldestKnown(s, s.b2);
    LiveButForgotten(s.cache, k, s.b2[|s.b2| - 1]);
  }

  lemma ForgetT1Shortfall<K, V>(s: State<K, V>, k: K, zero: V)
    requires Ready(s, k, zero) && k !in s.cache && |s.t1| > 0
    ensures OtherShortfall(ForgetT1(s), k) == OtherShortfall(s, k)
  {
    OldestKnown(s, s.t1);
    LiveButForgotten(s.cache, k, s.t1[|s.t1| - 1]);
  }

  lemma OldestKnown<K, V>(s: State<K, V>, l: seq<K>)
    requires Placed(s, s.cache.Keys) && |l| > 0 && (l == s.t1 || l == s.b1 || l == s.t2 || l == s.b2)
    ensures l[|l| - 1] in s.cache
  {
    assert l[|l| - 1] in Members(l);
  }

  lemma GhostHitShortfall<K, V>(s: State<K, V>, k: K, zero: V)
    requires Sizes(s) && Placed(s, s.cache.Keys) && CanRequest(s, k) && k !in s.t1 && k !in s.t2 && (k in s.b1 || k in s.b2)
    ensures OtherShortfall(Request(s, k, zero), k) == OtherShortfall(s, k) + GhostsDropped(s, k)
  {
    AdaptedFacts(s, k);
    ReplaceShortfall(Adapted(s, k), k, zero);
  }

  lemma RequestShortfall<K, V>(s: State<K, V>, k: K, zero: V)
    requires Sizes(s) && Ready(s, k, zero) && CanRequest(s, k)
    ensures OtherShortfall(Request(s, k, zero), k) == OtherShortfall(s, k) + GhostsDropped(s, k)
  {
    if k in s.t1 || k in s.t2 {
    } else if k in s.b1 || k in s.b2 {
      GhostHitShortfall(s, k, zero);
    } else {
      assert k !in s.cache.Keys by {
        assert k !in Members(s.t1) + Members(s.b1) + Members(s.t2) + Members(s.b2);
      }
      if |s.t1| + |s.b1| == s.c {
        if |s.t1| < s.c {
          ForgetB1Shortfall(s, k, zero);
          ReplaceShortfall(ForgetB1(s), k, zero);
        } else {
          ForgetT1Shortfall(s, k, zero);
        }
      } else if Total(s) >= s.c {
        if Total(s) == 2 * s.c {
          ForgetB2Shortfall(s, k, zero);
        }
        ReplaceShortfall(if Total(s) == 2 * s.c then ForgetB2(s) else s, k, zero);
      }
    }
  }

  lemma PreparedShortfall<K, V>(s: State<K, V>, k: K, v: V, expires: int)
    ensures OtherShortfall(Prepared(s, k, v, expires), k) == Shortfall(s) - 1
  {
    LiveSplit(s, k);
    assert LiveBut(Prepared(s, k, v, expires).cache, k) == LiveBut(s.cache, k);
  }

  lemma StoredShortfall<K, V>(m: State<K, V>, k: K, item: Item<V>)
    requires !item.isGhost
    ensures Shortfall(m.(cache := m.cache[k := item])) == OtherShortfall(m, k) + 1
  {
    var r := m.(cache := m.cache[k := item]);
    LiveSplit(r, k);
    assert LiveBut(r.cache, k) == LiveBut(m.cache, k);
  }

  lemma SetShortfall<K, V>(s: State<K, V>, k: K, v: V, expires: int, zero: V)
    requires Inv(s, zero)
    ensures CanRequest(Prepared(s, k, v, expires), k)
    ensures Shortfall(Set(s, k, v, expires, zero)) == Shortfall(s) + GhostsDropped(Prepared(s, k, v, expires), k)
  {
    PreparedReady(s, k, v, expires, zero);
    SetServes(s, k, v, expires, zero);
    var q := Prepared(s, k, v, expires);
    PreparedShortfall(s, k, v, expires);
    RequestShortfall(q, k, zero);
    StoredShortfall(Request(q, k, zero), k, Item(v, false, expires));
  }

  lemma GetShortfall<K, V>(s: State<K, V>, k: K, zero: V)
    requires Inv(s, zero)
    ensures k in s.cache ==> CanRequest(s, k)
    ensures Shortfall(Get(s, k, zero)) == Shortfall(s) + if k in s.cache then GhostsDropped(s, k) else 0
  {
    RequestPossible(s, k);
    if k in s.cache {
      RequestShortfall(s, k, zero);
      RequestServes(s, k, zero);
      LiveSplit(s, k);
      LiveSplit(Request(s, k, zero), k);
    }
  }

  lemma LiveBounded<K, V>(s: State<K, V>, zero: V)
    requires Inv(s, zero)
    ensures |Live(s)| <= s.c
  {
    forall x | x in Live(s)
      ensures x in Members(s.t1) + Members(s.t2)
    {
      assert x in s.cache.Keys;
      assert x in Members(s.b1) ==> x in s.b1;
      assert x in Members(s.b2) ==> x in s.b2;
    }
    SubsetSize(Live(s), Members(s.t1) + Members(s.t2));
    MembersSize(s.t1);
    MembersSize(s.t2);
  }

  lemma {:induction false} MembersSize<K>(l: seq<K>)
    ensures |Members(l)| <= |l|
  {
    if |l| > 0 {
      MembersSize(l[1..]);
      assert Members(l) == Members(l[1..]) + {l[0]} by {
        assert l == [l[0]] + l[1..];
      }
    }
  }

  lemma SubsetSize<K>(a: set<K>, b: set<K>)
    requires a <= b
    ensures |a| <= |b|
  {
    assert b == a + (b - a);
    assert a !! (b - a);
  }

  // ----- whole runs -----

  datatype Op<K, V> = SetOp(key: K, value: V, expires: int) | GetOp(key: K) | ClearOp

  ghost function Step<K, V>(s: State<K, V>, op: Op<K, V>, zero: V): (r: State<K, V>)
    requires Inv(s, zero)
    ensures Inv(r, zero) && r.c == s.c
  {
    match op
    case SetOp(k, v, e) => SetKeepsInv(s, k, v, e, zero); Set(s, k, v, e, zero)
    case GetOp(k) => GetKeepsInv(s, k, zero); Get(s, k, zero)
    case ClearOp => Empty(s.c)
  }

  ghost function Run<K, V>(c: int, ops: seq<Op<K, V>>, zero: V): (r: State<K, V>)
    requires c >= 1
    ensures Inv(r, zero) && r.c == c
  {
    if |ops| == 0 then Empty(c) else Step(Run(c, ops[..|ops| - 1], zero), ops[|ops| - 1], zero)
  }

  /** The plain map the cache stands for: the last value and expiry set since the last Clear. */
  ghost function LastSet<K, V>(ops: seq<Op<K, V>>, k: K): Option<(V, int)> {
    if |ops| == 0 then None
    else match ops[|ops| - 1]
      case SetOp(x, v, e) => if x == k then Some((v, e)) else LastSet(ops[..|ops| - 1], k)
      case GetOp(_) => LastSet(ops[..|ops| - 1], k)
      case ClearOp => None
  }

  /** Ghosts dropped since the last Clear. */
  ghost function Dropped<K, V>(c: int, ops: seq<Op<K, V>>, zero: V): nat
    requires c >= 1
  {
    if |ops| == 0 then 0
    else
      var before := ops[..|ops| - 1];
      var s := Run(c, before, zero);
      match ops[|ops| - 1]
      case SetOp(k, v, e) => SetKeepsInv(s, k, v, e, zero); Dropped(c, before, zero) + GhostsDropped(Prepared(s, k, v, e), k)
      case GetOp(k) => GetKeepsInv(s, k, zero); Dropped(c, before, zero) + if k in s.cache then GhostsDropped(s, k) else 0
      case ClearOp => 0
  }

  /** Whatever the run, a hit reports what was last set for the key. */
  lemma {:induction false} HitsAgreeWithMap<K, V>(c: int, ops: seq<Op<K, V>>, k: K, zero: V)
    requires c >= 1
    ensures var h := Hit(Run(c, ops, zero), k); h.Some? ==> h == LastSet(ops, k)
  {
    if |ops| > 0 {
      var before := ops[..|ops| - 1];
      HitsAgreeWithMap(c, before, k, zero);
      var s := Run(c, before, zero);
      match ops[|ops| - 1]
      case SetOp(x, v, e) => SetKeepsInv(s, x, v, e, zero);
      case GetOp(x) => GetKeepsInv(s, x, zero);
      case ClearOp =>
    }
  }

  /** Whatever the run, `len` is at most the number of live entries, which is at most c; they agree
      exactly when no request since the last Clear has dropped a ghost. */
  lemma {:induction false} LenAgainstLive<K, V>(c: int, ops: seq<Op<K, V>>, zero: V)
    requires c >= 1
    ensures var s := Run(c, ops, zero); s.len <= |Live(s)| <= c && (s.len == |Live(s)| <==> Dropped(c, ops, zero) == 0)
    ensures Shortfall(Run(c, ops, zero)) == Dropped(c, ops, zero)
  {
    LiveBounded(Run(c, ops, zero), zero);
    if |ops| > 0 {
      var before := ops[..|ops| - 1];
      LenAgainstLive(c, before, zero);
      var s := Run(c, before, zero);
      match ops[|ops| - 1]
      case SetOp(k, v, e) => SetShortfall(s, k, v, e, zero);
      case GetOp(k) => GetShortfall(s, k, zero);
      case ClearOp => assert Live(Run(c, ops, zero)) == {};
    } else {
      assert Live(Run(c, ops, zero)) == {};
    }
  }

  /** A key that was just set is found, whatever came before. */
  lemma SetThenHit<K, V>(c: int, ops: seq<Op<K, V>>, k: K, v: V, expires: int, zero: V)
    requires c >= 1
    ensures Hit(Run(c, ops + [SetOp(k, v, expires)], zero), k) == Some((v, expires))
  {
    assert (ops + [SetOp(k, v, expires)])[..|ops|] == ops;
    SetKeepsInv(Run(c, ops, zero), k, v, expires, zero);
  }

  lemma RunSnoc<K, V>(c: int, ops: seq<Op<K, V>>, op: Op<K, V>, zero: V)
    requires c >= 1
    ensures Run(c, ops + [op], zero) == Step(Run(c, ops, zero), op, zero)
  {
    assert (ops + [op])[..|ops|] == ops;
  }

  lemma FirstGet(s: State<int, int>)
    requires s == State(0, 2, 1, [1], [], [], [], map[1 := Item(10, false, 0)]) && Inv(s, 0)
    ensures Step(s, GetOp(1), 0) == State(0, 2, 1, [], [], [1], [], map[1 := Item(10, false, 0)])
  {
  }

  lemma SecondSet(s: State<int, int>)
    requires s == State(0, 2, 1, [], [], [1], [], map[1 := Item(10, false, 0)]) && Inv(s, 0)
    ensures Step(s, SetOp(2, 20, 0), 0) == State(0, 2, 2, [2], [], [1], [], map[1 := Item(10, false, 0), 2 := Item(20, false, 0)])
  {
  }

  lemma ThirdSet(s: State<int, int>)
    requires s == State(0, 2, 2, [2], [], [1], [], map[1 := Item(10, false, 0), 2 := Item(20, false, 0)]) && Inv(s, 0)
    ensures Step(s, SetOp(3, 30, 0), 0)
      == State(0, 2, 2, [3], [2], [1], [], map[1 := Item(10, false, 0), 2 := Item(0, true, 0), 3 := Item(30, false, 0)])
  {
    SetKeepsInv(s, 3, 30, 0, 0);
    ThirdRequest(Prepared(s, 3, 30, 0));
  }

  lemma ThirdRequest(q: State<int, int>)
    requires q == State(0, 2, 3, [2], [], [1], [], map[1 := Item(10, false, 0), 2 := Item(20, false, 0)])
    requires CanRequest(q, 3)
    ensures Request(q, 3, 0) == State(0, 2, 2, [3], [2], [1], [], map[1 := Item(10, false, 0), 2 := Item(0, true, 0)])
  {
    assert DemotesT1(q, 3) && Victim(q, 3) == 2;
  }

  lemma FourthRequest(q: State<int, int>)
    requires q == State(0, 2, 3, [3], [2], [1], [], map[1 := Item(10, false, 0), 2 := Item(0, true, 0), 3 := Item(30, false, 0)])
    requires CanRequest(q, 4)
    ensures var m := Request(q, 4, 0); m.len == 1 && m.cache == map[1 := Item(10, false, 0), 3 := Item(0, true, 0)]
  {
    var f := ForgetB1(q);
    assert f == State(0, 2, 2, [3], [], [1], [], map[1 := Item(10, false, 0), 3 := Item(30, false, 0)]);
    assert DemotesT1(f, 4) && Victim(f, 4) == 3;
  }

  lemma FourthSet(s: State<int, int>)
    requires s == State(0, 2, 2, [3], [2], [1], [], map[1 := Item(10, false, 0), 2 := Item(0, true, 0), 3 := Item(30, false, 0)])
    requires Inv(s, 0)
    ensures var r := Step(s, SetOp(4, 40, 0), 0);
      r.len == 1 && r.cache == map[1 := Item(10, false, 0), 3 := Item(0, true, 0), 4 := Item(40, false, 0)]
  {
    SetKeepsInv(s, 4, 40, 0, 0);
    FourthRequest(Prepared(s, 4, 40, 0));
  }

  lemma AfterTwo() returns (ops: seq<Op<int, int>>)
    ensures ops == [SetOp(1, 10, 0), GetOp(1)]
    ensures Run(2, ops, 0) == State(0, 2, 1, [], [], [1], [], map[1 := Item(10, false, 0)])
  {
    RunSnoc<int, int>(2, [], SetOp(1, 10, 0), 0);
    ops := [] + [SetOp(1, 10, 0)];
    FirstGet(Run(2, ops, 0));
    RunSnoc(2, ops, GetOp(1), 0);
    ops := ops + [GetOp(1)];
  }

  lemma AfterThree() returns (ops: seq<Op<int, int>>)
    ensures ops == [SetOp(1, 10, 0), GetOp(1), SetOp(2, 20, 0)]
    ensures Run(2, ops, 0) == State(0, 2, 2, [2], [], [1], [], map[1 := Item(10, false, 0), 2 := Item(20, false, 0)])
  {
    var before := AfterTwo();
    SecondSet(Run(2, before, 0));
    RunSnoc(2, before, SetOp(2, 20, 0), 0);
    ops := before + [SetOp(2, 20, 0)];
  }

  lemma AfterFour() returns (ops: seq<Op<int, int>>)
    ensures ops == [SetOp(1, 10, 0), GetOp(1), SetOp(2, 20, 0), SetOp(3, 30, 0)]
    ensures Run(2, ops, 0)
      == State(0, 2, 2, [3], [2], [1], [], map[1 := Item(10, false, 0), 2 := Item(0, true, 0), 3 := Item(30, false, 0)])
  {
    var before := AfterThree();
    ThirdSet(Run(2, before, 0));
    RunSnoc(2, before, SetOp(3, 30, 0), 0);
    ops := before + [SetOp(3, 30, 0)];
  }

  lemma TwoAreLive(s: State<int, int>)
    requires s.cache == map[1 := Item(10, false, 0), 3 := Item(0, true, 0), 4 := Item(40, false, 0)]
    ensures Live(s) == {1, 4} && |Live(s)| == 2
  {
    assert Live(s) == {1, 4};
  }

  /** `len` is not the number of cached entries: after setting 1, getting 1, then setting 2, 3 and 4
      it says 1 while keys 1 and 4 are both cached. */
  lemma LenUndercounts() returns (ops: seq<Op<int, int>>)
    ensures var s := Run(2, ops, 0); s.len == 1 && Live(s) == {1, 4} && |Live(s)| == 2
  {
    var before := AfterFour();
    FourthSet(Run(2, before, 0));
    RunSnoc(2, before, SetOp(4, 40, 0), 0);
    ops := before + [SetOp(4, 40, 0)];
    TwoAreLive(Run(2, ops, 0));
  }
}
