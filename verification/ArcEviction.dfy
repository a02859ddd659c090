/**
 What an Adaptive Replacement Cache gives up: which key a request makes a ghost, which ghost it
 forgets, how the target moves, and that everything else stays where it was.
 */
module ArcEviction {
  import opened ArcPolicy
  import opened Lists
  import opened Options

  /** The request has to give up a live entry: it brings in a ghost or a new key, and t1 and t2 are full. */
  ghost predicate MakesRoom<K, V>(s: State<K, V>, k: K) {
    k !in s.t1 && k !in s.t2 && (k in s.b1 || k in s.b2 || (Total(s) >= s.c && |s.t1| < s.c))
  }

  /** t1 is over the target, or at it with a hit on b2. */
  predicate OverTarget<K(==), V>(s: State<K, V>, k: K, target: int) {
    |s.t1| > 0 && (|s.t1| > target || (|s.t1| == target && k in s.b2))
  }

  lemma KnownIffListed<K, V>(s: State<K, V>, k: K)
    requires Placed(s, s.cache.Keys)
    ensures k in s.cache <==> k in s.t1 || k in s.b1 || k in s.t2 || k in s.b2
    ensures k in s.t1 ==> k !in s.b1 && k !in s.t2 && k !in s.b2
    ensures k in s.b1 ==> k !in s.t2 && k !in s.b2
    ensures k in s.t2 ==> k !in s.b2
  {
    assert k in s.t1 <==> k in Members(s.t1);
    assert k in s.b1 <==> k in Members(s.b1);
    assert k in s.t2 <==> k in Members(s.t2);
    assert k in s.b2 <==> k in Members(s.b2);
    assert k in s.cache <==> k in s.cache.Keys;
  }

  /** How the target moves: towards c on a hit in b1, towards 0 on a hit in b2, by at least one, and
      by as many times more as the other ghost list is longer. */
  lemma TargetMoves<K, V>(s: State<K, V>, k: K, zero: V)
    requires Sizes(s) && Placed(s, s.cache.Keys)
    ensures CanRequest(s, k)
    ensures var p := Request(s, k, zero).p;
      if k in s.b1 then p == Min(s.p + Max(1, |s.b2| / |s.b1|), s.c)
      else if k in s.b2 then p == Max(s.p - Max(1, |s.b1| / |s.b2|), 0)
      else p == s.p
  {
    RequestPossible(s, k);
    KnownIffListed(s, k);
    if k in s.b1 && |s.b1| >= |s.b2| {
      AtMostOne(|s.b2|, |s.b1|);
    } else if k in s.b2 && |s.b2| >= |s.b1| {
      AtMostOne(|s.b1|, |s.b2|);
    } else if k in s.b1 {
      AtLeastOne(|s.b2|, |s.b1|);
    } else if k in s.b2 {
      AtLeastOne(|s.b1|, |s.b2|);
    }
  }

  lemma AtMostOne(a: nat, b: nat)
    requires 0 < b && a <= b
    ensures a / b <= 1
  {
  }

  lemma AtLeastOne(a: nat, b: nat)
    requires 0 < b <= a
    ensures a / b >= 1
  {
  }

  /** What a demotion leaves in t1 and t2, with k in front of one of them, and who is the newest ghost. */
  ghost predicate Demoted<K, V>(s: State<K, V>, k: K, r: State<K, V>, isNew: bool) {
    var front1, front2 := if isNew then [k] else [], if isNew then [] else [k];
    if OverTarget(s, k, r.p) then
      && r.t1 == front1 + s.t1[..|s.t1| - 1] && r.t2 == front2 + s.t2
      && |r.b1| > 0 && r.b1[0] == s.t1[|s.t1| - 1]
    else
      && |s.t2| > 0 && r.t1 == front1 + s.t1 && r.t2 == front2 + s.t2[..|s.t2| - 1]
      && |r.b2| > 0 && r.b2[0] == s.t2[|s.t2| - 1]
  }

  /** The oldest key of t1 becomes the newest ghost of b1 exactly when t1 is over the new target, or
      at it with a hit on b2; otherwise the oldest key of t2 becomes that of b2. Nobody else moves. */
  lemma RequestDemotes<K, V>(s: State<K, V>, k: K, zero: V)
    requires Sizes(s) && Placed(s, s.cache.Keys) && MakesRoom(s, k)
    ensures CanRequest(s, k) && Demoted(s, k, Request(s, k, zero), k !in s.cache)
  {
    RequestPossible(s, k);
    KnownIffListed(s, k);
    if k in s.cache {
      AdaptedFacts(s, k);
      GhostHitDemotes(s, Adapted(s, k), k, zero);
    } else if |s.t1| + |s.b1| == s.c {
      ForgetB1Placed(s);
      NewKeyDemotes(s, ForgetB1(s), k, zero);
    } else if Total(s) == 2 * s.c {
      ForgetB2Placed(s);
      NewKeyDemotes(s, ForgetB2(s), k, zero);
    } else {
      NewKeyDemotes(s, s, k, zero);
    }
  }

  lemma GhostHitDemotes<K, V>(s: State<K, V>, a: State<K, V>, k: K, zero: V)
    requires a == s.(p := a.p) && Placed(s, s.cache.Keys) && CanReplace(a, k) && 0 <= a.p
    requires (k in s.b1 || k in s.b2) && k !in s.t1 && k !in s.t2
    ensures Demoted(s, k, ToT2(Replace(a, k, zero), k), false)
  {
    var older1, older2 := s.t1, s.t2;
    if OverTarget(s, k, a.p) {
      older1 := s.t1[..|s.t1| - 1];
      StaysInFront([s.t1[|s.t1| - 1]] + s.b1, k);
    } else {
      older2 := s.t2[..|s.t2| - 1];
      StaysInFront([s.t2[|s.t2| - 1]] + s.b2, k);
    }
    StaysInFront(older1, k);
    StaysInFront(older2, k);
    assert [] + older1 == older1;
  }

  lemma StaysInFront<K>(l: seq<K>, k: K)
    ensures |l| > 0 && l[0] != k ==> |Drop(l, k)| > 0 && Drop(l, k)[0] == l[0]
    ensures k !in l ==> Drop(l, k) == l
  {
    if k !in l {
      DropAbsent(l, k);
    }
  }

  lemma {:induction false} DropAbsent<K>(l: seq<K>, k: K)
    requires k !in l
    ensures Drop(l, k) == l
  {
    if |l| > 0 {
      DropAbsent(l[1..], k);
    }
  }

  lemma NewKeyDemotes<K, V>(s: State<K, V>, m: State<K, V>, k: K, zero: V)
    requires Placed(m, m.cache.Keys) && k !in m.cache && k !in s.b2 && CanReplace(m, k)
    requires m.p == s.p && m.t1 == s.t1 && m.t2 == s.t2
    ensures Demoted(s, k, ToT1(Replace(m, k, zero), k), true)
  {
    var q := Replace(m, k, zero);
    ReplacePlaced(m, k, zero);
    KnownIffListed(m, k);
    KnownIffListed(q, k);
    DropFacts(q.t1, k);
    DropFacts(q.t2, k);
    DropFacts(q.b1, k);
    DropFacts(q.b2, k);
  }

  // ----- the two histories -----

  /** The keys seen once and those seen again since they were forgotten last, most recent first, live or not. */
  function Once<K, V>(s: State<K, V>): seq<K> {
    s.t1 + s.b1
  }

  function Again<K, V>(s: State<K, V>): seq<K> {
    s.t2 + s.b2
  }

  /** Taking out an element leaves the rest as it was. */
  lemma {:induction false} DropSplits<K>(a: seq<K>, k: K, b: seq<K>)
    requires k !in a
    ensures Drop(a + [k] + b, k) == a + b
  {
    var l := a + [k] + b;
    if |a| == 0 {
      assert l == [k] + b && l[1..] == b;
    } else {
      assert l[0] == a[0] && l[1..] == a[1..] + [k] + b;
      DropSplits(a[1..], k, b);
      assert [a[0]] + (a[1..] + b) == a + b;
    }
  }

  lemma {:induction false} DropJoins<K>(a: seq<K>, b: seq<K>, k: K)
    ensures Drop(a + b, k) == if k in a then Drop(a, k) + b else a + Drop(b, k)
  {
    if |a| == 0 {
      assert a + b == b;
    } else {
      var x, rest := a[0], a[1..];
      assert a == [x] + rest && (a + b)[0] == x && (a + b)[1..] == rest + b;
      DropJoins(rest, b, k);
      Associates([x], rest, Drop(b, k));
      Associates([x], Drop(rest, k), b);
    }
  }

  lemma Associates<K>(a: seq<K>, b: seq<K>, c: seq<K>)
    ensures a + (b + c) == (a + b) + c
  {
  }

  /** An element that is on at most one of two lists, taken out of both. */
  lemma DropFromBoth<K>(a: seq<K>, b: seq<K>, k: K)
    requires NoDup(a) && NoDup(b) && (k in a ==> k !in b)
    ensures Drop(a, k) + Drop(b, k) == Drop(a + b, k)
  {
    DropJoins(a, b, k);
    DropKeepsNoDup(a, k);
    DropKeepsNoDup(b, k);
  }

  lemma ReplaceKeepsHistories<K, V>(s: State<K, V>, k: K, zero: V)
    requires CanReplace(s, k)
    ensures var r := Replace(s, k, zero); Once(r) == Once(s) && Again(r) == Again(s)
  {
  }

  /** What a move to the front of t2 or t1 makes of the histories. */
  lemma AgainOnHistories<K, V>(s: State<K, V>, k: K)
    requires Placed(s, s.cache.Keys)
    ensures var r := ToT2(s, k); Once(r) == Drop(Once(s), k) && Again(r) == [k] + Drop(Again(s), k)
  {
    KnownIffListed(s, k);
    DropFromBoth(s.t1, s.b1, k);
    DropFromBoth(s.t2, s.b2, k);
    Associates([k], Drop(s.t2, k), Drop(s.b2, k));
  }

  lemma OnceOnHistories<K, V>(s: State<K, V>, k: K)
    requires Placed(s, s.cache.Keys) && k !in s.cache
    ensures var r := ToT1(s, k); Once(r) == [k] + Once(s) && Again(r) == Again(s)
  {
    KnownIffListed(s, k);
    DropKeepsNoDup(s.t1, k);
    DropKeepsNoDup(s.b1, k);
    DropKeepsNoDup(s.t2, k);
    DropKeepsNoDup(s.b2, k);
    Associates([k], s.t1, s.b1);
  }

  lemma ForgetOnHistories<K, V>(s: State<K, V>)
    ensures |s.b1| > 0 ==> Once(ForgetB1(s)) == Once(s)[..|Once(s)| - 1] && Again(ForgetB1(s)) == Again(s)
    ensures |s.b2| > 0 ==> Again(ForgetB2(s)) == Again(s)[..|Again(s)| - 1] && Once(ForgetB2(s)) == Once(s)
    ensures |s.t1| > 0 && |s.b1| == 0 ==> Once(ForgetT1(s)) == Once(s)[..|Once(s)| - 1] && Again(ForgetT1(s)) == Again(s)
  {
  }

  /**
   A known key moves to the front of the second history. A new one comes to the front of the first,
   which forgets its last key when it holds c keys already; otherwise the second forgets its last when
   both together hold 2c. The target has no say in who is remembered, only in who is live.
   */
  lemma RequestOnHistories<K, V>(s: State<K, V>, k: K, zero: V)
    requires Sizes(s) && Placed(s, s.cache.Keys)
    ensures CanRequest(s, k)
    ensures var r := Request(s, k, zero); var n := |Once(s)| + |Again(s)|;
      if k in s.cache then Once(r) == Drop(Once(s), k) && Again(r) == [k] + Drop(Again(s), k)
      else
        && Once(r) == [k] + (if |Once(s)| == s.c then Once(s)[..s.c - 1] else Once(s))
        && Again(r) == if |Once(s)| < s.c && n == 2 * s.c then Again(s)[..|Again(s)| - 1] else Again(s)
  {
    RequestPossible(s, k);
    KnownIffListed(s, k);
    if k in s.t1 || k in s.t2 {
      AgainOnHistories(s, k);
    } else if k in s.cache {
      AdaptedFacts(s, k);
      var a := Adapted(s, k);
      ReplacePlaced(a, k, zero);
      ReplaceKeepsHistories(a, k, zero);
      AgainOnHistories(Replace(a, k, zero), k);
    } else {
      NewKeyOnHistories(s, k, zero);
    }
  }

  lemma NewKeyOnHistories<K, V>(s: State<K, V>, k: K, zero: V)
    requires Sizes(s) && Placed(s, s.cache.Keys) && CanRequest(s, k) && k !in s.cache
    requires k !in s.t1 && k !in s.b1 && k !in s.t2 && k !in s.b2
    ensures var r := Request(s, k, zero); var n := |Once(s)| + |Again(s)|;
      && Once(r) == [k] + (if |Once(s)| == s.c then Once(s)[..s.c - 1] else Once(s))
      && Again(r) == if |Once(s)| < s.c && n == 2 * s.c then Again(s)[..|Again(s)| - 1] else Again(s)
  {
    if |s.t1| + |s.b1| == s.c {
      FullOnceForgets(s, k, zero);
    } else if Total(s) >= s.c {
      if Total(s) == 2 * s.c {
        ForgetOnHistories(s);
        ForgetB2Placed(s);
      }
      RoomOnHistories(if Total(s) == 2 * s.c then ForgetB2(s) else s, k, zero);
    } else {
      OnceOnHistories(s, k);
    }
  }

  lemma FullOnceForgets<K, V>(s: State<K, V>, k: K, zero: V)
    requires Sizes(s) && Placed(s, s.cache.Keys) && CanRequest(s, k) && k !in s.cache && |s.t1| + |s.b1| == s.c
    requires k !in s.t1 && k !in s.b1 && k !in s.t2 && k !in s.b2
    ensures var r := Request(s, k, zero); Once(r) == [k] + Once(s)[..s.c - 1] && Again(r) == Again(s)
  {
    ForgetOnHistories(s);
    if |s.t1| < s.c {
      ForgetB1Placed(s);
      RoomOnHistories(ForgetB1(s), k, zero);
    } else {
      ForgetT1Placed(s);
      OnceOnHistories(ForgetT1(s), k);
    }
  }

  lemma RoomOnHistories<K, V>(m: State<K, V>, k: K, zero: V)
    requires Placed(m, m.cache.Keys) && k !in m.cache && CanReplace(m, k)
    ensures var r := ToT1(Replace(m, k, zero), k); Once(r) == [k] + Once(m) && Again(r) == Again(m)
  {
    ReplacePlaced(m, k, zero);
    ReplaceKeepsHistories(m, k, zero);
    OnceOnHistories(Replace(m, k, zero), k);
  }

  // ----- the items -----

  /** The key that gives way in a demotion. */
  function GivesWay<K(==), V>(s: State<K, V>, k: K, target: int): Option<K> {
    if OverTarget(s, k, target) then Some(s.t1[|s.t1| - 1])
    else if |s.t2| > 0 then Some(s.t2[|s.t2| - 1]) else None
  }

  /** The item of every other key is as before, or its key is in neither history any more. */
  ghost predicate OnlyFades<K, V>(s: State<K, V>, r: State<K, V>, gone: Option<K>, zero: V) {
    && r.cache.Keys <= s.cache.Keys
    && (gone.Some? ==> gone.value in r.cache && r.cache[gone.value] == Item(zero, true, s.cache[gone.value].expires))
    && forall x :: x in r.cache && Some(x) != gone ==> r.cache[x] == s.cache[x]
  }

  /** A request takes the value of exactly the key that gives way, and of none when nobody has to. */
  lemma RequestItems<K, V>(s: State<K, V>, k: K, zero: V)
    requires Sizes(s) && Placed(s, s.cache.Keys)
    ensures CanRequest(s, k)
    ensures var r := Request(s, k, zero); OnlyFades(s, r, if MakesRoom(s, k) then GivesWay(s, k, r.p) else None, zero)
    ensures var r := Request(s, k, zero); MakesRoom(s, k) ==> GivesWay(s, k, r.p).Some?
  {
    RequestPossible(s, k);
    KnownIffListed(s, k);
    if k in s.t1 || k in s.t2 {
    } else if k in s.cache {
      AdaptedFacts(s, k);
      ItemsAfterReplace(s, Adapted(s, k), k, zero);
    } else if |s.t1| + |s.b1| == s.c {
      if |s.t1| < s.c {
        ForgetB1Placed(s);
        ItemsAfterReplace(s, ForgetB1(s), k, zero);
      }
    } else if Total(s) >= s.c {
      if Total(s) == 2 * s.c {
        ForgetB2Placed(s);
      }
      ItemsAfterReplace(s, if Total(s) == 2 * s.c then ForgetB2(s) else s, k, zero);
    }
  }

  lemma ItemsAfterReplace<K, V>(s: State<K, V>, m: State<K, V>, k: K, zero: V)
    requires CanReplace(m, k) && m.t1 == s.t1 && m.t2 == s.t2 && (k in m.b2 <==> k in s.b2)
    requires m.cache.Keys <= s.cache.Keys && forall x :: x in m.cache ==> m.cache[x] == s.cache[x]
    ensures GivesWay(s, k, m.p).Some? && OnlyFades(s, Replace(m, k, zero), GivesWay(s, k, m.p), zero)
  {
  }

  // ----- a run in which the target decides -----

  lemma FifthRequest(q: State<int, int>)
    requires q == State(0, 2, 3, [3], [2], [1], [], map[1 := Item(10, false, 0), 2 := Item(20, false, 0), 3 := Item(30, false, 0)])
    requires CanRequest(q, 2)
    ensures var r := Request(q, 2, 0); r.p == 1 && r.cache == map[1 := Item(0, true, 0), 2 := Item(20, false, 0), 3 := Item(30, false, 0)]
  {
    assert Adapted(q, 2) == q.(p := 1);
    assert !DemotesT1(q.(p := 1), 2) && Victim(q.(p := 1), 2) == 1;
  }

  lemma FifthSet(s: State<int, int>)
    requires s == State(0, 2, 2, [3], [2], [1], [], map[1 := Item(10, false, 0), 2 := Item(0, true, 0), 3 := Item(30, false, 0)])
    requires Inv(s, 0)
    ensures var r := Step(s, SetOp(2, 20, 0), 0);
      r.p == 1 && r.cache == map[1 := Item(0, true, 0), 2 := Item(20, false, 0), 3 := Item(30, false, 0)]
  {
    SetKeepsInv(s, 2, 20, 0, 0);
    SecondRevived(s.cache);
    FifthRequest(Prepared(s, 2, 20, 0));
  }

  lemma SecondRevived(cache: map<int, Item<int>>)
    requires cache == map[1 := Item(10, false, 0), 2 := Item(0, true, 0), 3 := Item(30, false, 0)]
    ensures cache[2 := Item(20, false, 0)] == map[1 := Item(10, false, 0), 2 := Item(20, false, 0), 3 := Item(30, false, 0)]
  {
  }

  lemma FifthHits(s: State<int, int>)
    requires s.cache == map[1 := Item(0, true, 0), 2 := Item(20, false, 0), 3 := Item(30, false, 0)]
    ensures Hit(s, 3) == Some((30, 0)) && Hit(s, 2) == Some((20, 0)) && Hit(s, 1) == None
  {
  }

  lemma FiveOps(before: seq<Op<int, int>>)
    requires before == [SetOp(1, 10, 0), GetOp(1), SetOp(2, 20, 0), SetOp(3, 30, 0)]
    ensures before + [SetOp(2, 20, 0)] == [SetOp(1, 10, 0), GetOp(1), SetOp(2, 20, 0), SetOp(3, 30, 0), SetOp(2, 20, 0)]
  {
  }

  /** Set 1, get 1, set 2, set 3 and set 2 again in a cache for two: the hit on ghost 2 raises the
      target to 1, so that 3, alone on t1, stays and 1 gives way. */
  lemma TargetKeepsThree()
    ensures var ops := [SetOp(1, 10, 0), GetOp(1), SetOp(2, 20, 0), SetOp(3, 30, 0), SetOp(2, 20, 0)];
      var s := Run(2, ops, 0); s.p == 1 && Hit(s, 3) == Some((30, 0)) && Hit(s, 2) == Some((20, 0)) && Hit(s, 1) == None
  {
    var before := AfterFour();
    FifthSet(Run(2, before, 0));
    RunSnoc(2, before, SetOp(2, 20, 0), 0);
    FiveOps(before);
    FifthHits(Run(2, before + [SetOp(2, 20, 0)], 0));
  }
}
