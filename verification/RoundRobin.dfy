/** Round robin over the proxies of a load-balance group that are alive. */
module RoundRobin {
  import opened Bits

  /** Whether the proxy i places after position idx, cyclically, is alive. */
  predicate AliveAt<P>(proxies: seq<P>, alive: P -> bool, idx: nat, i: nat)
    requires |proxies| > 0
  {
    alive(proxies[(idx + i) % |proxies|])
  }

  /** How many places after idx the first proxy alive is found; the length of the list if none is. */
  function FirstAlive<P>(proxies: seq<P>, alive: P -> bool, idx: nat, i: nat): (r: nat)
    requires |proxies| > 0 && i <= |proxies|
    ensures i <= r <= |proxies|
    ensures r < |proxies| ==> AliveAt(proxies, alive, idx, r)
    ensures forall k :: i <= k < r ==> !AliveAt(proxies, alive, idx, k)
    decreases |proxies| - i
  {
    if i == |proxies| || AliveAt(proxies, alive, idx, i) then i else FirstAlive(proxies, alive, idx, i + 1)
  }

  class Strategy {
    var idx: nat

    constructor ()
      ensures idx == 0
    {
      idx := 0;
    }

    method Pick<P>(proxies: seq<P>, alive: P -> bool, touch: bool) returns (r: P)
      requires |proxies| > 0
      modifies this
      ensures var o := FirstAlive(proxies, alive, old(idx), 0);
        && r == (if o < |proxies| then proxies[(old(idx) + o) % |proxies|] else proxies[0])
        && idx == (if !touch then old(idx) else NextIdx(proxies, alive, old(idx)))
    {
      var i := 0;
      var length := |proxies|;
      while i < length
        invariant i <= length && idx == old(idx) && FirstAlive(proxies, alive, idx, i) == FirstAlive(proxies, alive, idx, 0)
      {
        var id := (idx + i) % length;
        var proxy := proxies[id];
        if alive(proxy) {
          i := i + 1;
          if touch {
            idx := (idx + i) % length;
          }
          return proxy;
        }
        i := i + 1;
      }
      if touch {
        idx := (idx + i) % length;
      }
      return proxies[0];
    }
  }

  /** The position after a touching call: just behind the proxy picked, or one whole lap on. */
  function NextIdx<P>(proxies: seq<P>, alive: P -> bool, idx: nat): nat
    requires |proxies| > 0
  {
    var o := FirstAlive(proxies, alive, idx, 0);
    (idx + if o < |proxies| then o + 1 else o) % |proxies|
  }

  /** The positions picked by m touching calls in a row, each of which finds a proxy alive. */
  function Picks<P>(proxies: seq<P>, alive: P -> bool, idx: nat, m: nat): seq<nat>
    requires |proxies| > 0
    decreases m
  {
    if m == 0 then []
    else [(idx + FirstAlive(proxies, alive, idx, 0)) % |proxies|] + Picks(proxies, alive, NextIdx(proxies, alive, idx), m - 1)
  }

  /** The positions alive from place c of the lap that starts at idx, in the order of the lap. */
  function Lap<P>(proxies: seq<P>, alive: P -> bool, idx: nat, c: nat): seq<nat>
    requires |proxies| > 0 && c <= |proxies|
    decreases |proxies| - c
  {
    if c == |proxies| then []
    else (if AliveAt(proxies, alive, idx, c) then [(idx + c) % |proxies|] else []) + Lap(proxies, alive, idx, c + 1)
  }

  lemma ModOfSum(a: nat, b: nat, n: nat)
    requires n > 0
    ensures (a % n + b) % n == (a + b) % n
  {
    var q := a / n;
    assert a == n * q + a % n;
    var q' := (a % n + b) / n;
    assert a % n + b == n * q' + (a % n + b) % n;
    assert n * (q + q') == n * q + n * q';
    QuotientUnique(a + b, n, q + q', (a % n + b) % n);
  }

  /** A walk along the lap skips to the first position alive. */
  lemma {:induction false} LapFromFirst<P>(proxies: seq<P>, alive: P -> bool, idx: nat, c: nat, f: nat)
    requires |proxies| > 0 && c <= f < |proxies| && AliveAt(proxies, alive, idx, f)
    requires forall k :: c <= k < f ==> !AliveAt(proxies, alive, idx, k)
    ensures Lap(proxies, alive, idx, c) == [(idx + f) % |proxies|] + Lap(proxies, alive, idx, f + 1)
    decreases f - c
  {
    if c < f {
      LapFromFirst(proxies, alive, idx, c + 1, f);
    }
  }

  lemma ShiftAlive<P>(proxies: seq<P>, alive: P -> bool, idx: nat, c: nat, i: nat)
    requires |proxies| > 0
    ensures AliveAt(proxies, alive, (idx + c) % |proxies|, i) == AliveAt(proxies, alive, idx, c + i)
  {
    ModOfSum(idx + c, i, |proxies|);
  }

  /** Starting c places into a lap, the search finds the next position alive of that lap. */
  lemma {:induction false} FirstAliveInLap<P>(proxies: seq<P>, alive: P -> bool, idx: nat, c: nat, f: nat, i: nat)
    requires |proxies| > 0 && c + i <= f < |proxies| && AliveAt(proxies, alive, idx, f)
    requires forall k :: c <= k < f ==> !AliveAt(proxies, alive, idx, k)
    ensures FirstAlive(proxies, alive, (idx + c) % |proxies|, i) == f - c
    decreases f - i
  {
    ShiftAlive(proxies, alive, idx, c, i);
    if c + i < f {
      FirstAliveInLap(proxies, alive, idx, c, f, i + 1);
    }
  }

  lemma {:induction false} FirstInLap<P>(proxies: seq<P>, alive: P -> bool, idx: nat, c: nat) returns (f: nat)
    requires |proxies| > 0 && c <= |proxies| && Lap(proxies, alive, idx, c) != []
    ensures c <= f < |proxies| && AliveAt(proxies, alive, idx, f) && forall k :: c <= k < f ==> !AliveAt(proxies, alive, idx, k)
    decreases |proxies| - c
  {
    if AliveAt(proxies, alive, idx, c) {
      f := c;
    } else {
      f := FirstInLap(proxies, alive, idx, c + 1);
    }
  }

  /** One touching call c places into a lap: it picks the next position alive and stops behind it. */
  lemma PickInLap<P>(proxies: seq<P>, alive: P -> bool, idx: nat, c: nat, f: nat)
    requires |proxies| > 0 && c <= f < |proxies| && AliveAt(proxies, alive, idx, f)
    requires forall k :: c <= k < f ==> !AliveAt(proxies, alive, idx, k)
    ensures var start := (idx + c) % |proxies|;
      && (start + FirstAlive(proxies, alive, start, 0)) % |proxies| == (idx + f) % |proxies|
      && NextIdx(proxies, alive, start) == (idx + (f + 1)) % |proxies|
  {
    FirstAliveInLap(proxies, alive, idx, c, f, 0);
    WrapTwice(idx, c, f, |proxies|);
    WrapTwice(idx, c, f + 1, |proxies|);
  }

  lemma WrapTwice(idx: nat, c: nat, f: nat, n: nat)
    requires c <= f && n > 0
    ensures ((idx + c) % n + (f - c)) % n == (idx + f) % n
  {
    ModOfSum(idx + c, f - c, n);
  }

  /** Touching calls pick the rest of the lap in order. */
  lemma {:induction false} PicksFollowLap<P>(proxies: seq<P>, alive: P -> bool, idx: nat, c: nat)
    requires |proxies| > 0 && c <= |proxies|
    ensures Picks(proxies, alive, (idx + c) % |proxies|, |Lap(proxies, alive, idx, c)|) == Lap(proxies, alive, idx, c)
    decreases |proxies| - c
  {
    if Lap(proxies, alive, idx, c) != [] {
      var f := FirstInLap(proxies, alive, idx, c);
      LapFromFirst(proxies, alive, idx, c, f);
      PickInLap(proxies, alive, idx, c, f);
      PicksFollowLap(proxies, alive, idx, f + 1);
    }
  }

  lemma {:induction false} LapIsAlive<P>(proxies: seq<P>, alive: P -> bool, idx: nat, c: nat, x: nat) returns (k: nat)
    requires |proxies| > 0 && c <= |proxies| && x in Lap(proxies, alive, idx, c)
    ensures c <= k < |proxies| && x == (idx + k) % |proxies| && AliveAt(proxies, alive, idx, k)
    decreases |proxies| - c
  {
    if AliveAt(proxies, alive, idx, c) && x == (idx + c) % |proxies| {
      k := c;
    } else {
      k := LapIsAlive(proxies, alive, idx, c + 1, x);
    }
  }

  lemma {:induction false} AliveIsInLap<P>(proxies: seq<P>, alive: P -> bool, idx: nat, c: nat, k: nat)
    requires c <= k < |proxies| && AliveAt(proxies, alive, idx, k)
    ensures (idx + k) % |proxies| in Lap(proxies, alive, idx, c)
    decreases |proxies| - c
  {
    if c < k {
      AliveIsInLap(proxies, alive, idx, c + 1, k);
    }
  }

  lemma LapPlacesDiffer(idx: nat, k: nat, l: nat, n: nat)
    requires k < l < n
    ensures (idx + k) % n != (idx + l) % n
  {
    if (idx + k) % n == (idx + l) % n {
      var a, b := (idx + k) / n, (idx + l) / n;
      assert idx + k == n * a + (idx + k) % n && idx + l == n * b + (idx + l) % n;
      Distribute(n, b, a);
      if b - a >= 1 {
        MultipleAtLeast(n, b - a);
      } else if a - b >= 1 {
        Distribute(n, a, b);
        MultipleAtLeast(n, a - b);
      }
    }
  }

  ghost predicate Once(s: seq<nat>) {
    forall i, j :: 0 <= i < j < |s| ==> s[i] != s[j]
  }

  lemma {:induction false} LapOnce<P>(proxies: seq<P>, alive: P -> bool, idx: nat, c: nat)
    requires |proxies| > 0 && c <= |proxies|
    ensures Once(Lap(proxies, alive, idx, c))
    decreases |proxies| - c
  {
    if c < |proxies| {
      LapOnce(proxies, alive, idx, c + 1);
      var rest := Lap(proxies, alive, idx, c + 1);
      forall x | x in rest
        ensures x != (idx + c) % |proxies|
      {
        var k := LapIsAlive(proxies, alive, idx, c + 1, x);
        LapPlacesDiffer(idx, c, k, |proxies|);
      }
      PrependOnce((idx + c) % |proxies|, rest);
      assert [] + rest == rest;
    }
  }

  lemma PrependOnce(x: nat, rest: seq<nat>)
    requires Once(rest) && x !in rest
    ensures Once([x] + rest)
  {
  }

  /** Fairness: from any position, as many touching calls in a row as there are proxies alive pick
      each position alive exactly once. */
  lemma EachAliveOnce<P>(proxies: seq<P>, alive: P -> bool, idx: nat)
    requires |proxies| > 0
    ensures var picks := Picks(proxies, alive, idx, |Lap(proxies, alive, idx, 0)|);
      Once(picks) && forall x: nat :: x in picks <==> x < |proxies| && alive(proxies[x])
  {
    var lap := Lap(proxies, alive, idx, 0);
    LapOnce(proxies, alive, idx, 0);
    PicksFollowLap(proxies, alive, idx, 0);
    PicksModulo(proxies, alive, idx, |lap|);
    forall x: nat | x in lap
      ensures x < |proxies| && alive(proxies[x])
    {
      var k := LapIsAlive(proxies, alive, idx, 0, x);
    }
    forall x: nat | x < |proxies| && alive(proxies[x])
      ensures x in lap
    {
      var k := PlaceInLap(x, idx, |proxies|);
      AliveIsInLap(proxies, alive, idx, 0, k);
    }
  }

  lemma PlaceInLap(x: nat, idx: nat, n: nat) returns (k: nat)
    requires x < n
    ensures k < n && (idx + k) % n == x
  {
    k := (x + n - idx % n) % n;
    ModOfSum(idx, k, n);
    PlaceOf(x, idx % n, n);
  }

  lemma PlaceOf(x: nat, r: nat, n: nat)
    requires x < n && r < n
    ensures (r + (x + n - r) % n) % n == x
  {
    if x >= r {
      QuotientUnique(x + n - r, n, 1, x - r);
      QuotientUnique(x, n, 0, x);
    } else {
      QuotientUnique(x + n - r, n, 0, x + n - r);
      QuotientUnique(x + n, n, 1, x);
    }
  }

  /** Only the position modulo the length matters. */
  lemma PicksModulo<P>(proxies: seq<P>, alive: P -> bool, idx: nat, m: nat)
    requires |proxies| > 0
    ensures Picks(proxies, alive, idx % |proxies|, m) == Picks(proxies, alive, idx, m)
  {
    var n := |proxies|;
    SameFirst(proxies, alive, idx, 0);
    var o := FirstAlive(proxies, alive, idx, 0);
    ModOfSum(idx, o, n);
    ModOfSum(idx, o + 1, n);
  }

  lemma {:induction false} SameFirst<P>(proxies: seq<P>, alive: P -> bool, idx: nat, i: nat)
    requires |proxies| > 0 && i <= |proxies|
    ensures FirstAlive(proxies, alive, idx % |proxies|, i) == FirstAlive(proxies, alive, idx, i)
    decreases |proxies| - i
  {
    ModOfSum(idx, i, |proxies|);
    if i < |proxies| {
      SameFirst(proxies, alive, idx, i + 1);
    }
  }
}
