/**
 Directed graphs over names, as the configuration loader builds them: a map from a name to
 the names it refers to. A name outside the map refers to nothing.

 The module holds the graph theory shared by the proxy-group sort and by the reference-cycle
 checks: walks, cycles, and the pigeonhole argument that turns "everybody in a finite set has
 a predecessor in the set" into a cycle.
 */
module Graphs {

  type Graph = map<string, seq<string>>

  predicate Edge(g: Graph, u: string, v: string) {
    u in g && v in g[u]
  }

  ghost predicate Walk(g: Graph, p: seq<string>) {
    |p| > 0 && forall i :: 0 <= i < |p| - 1 ==> Edge(g, p[i], p[i + 1])
  }

  ghost predicate WalkFromTo(g: Graph, p: seq<string>, u: string, v: string) {
    Walk(g, p) && p[0] == u && p[|p| - 1] == v
  }

  /** A closed walk with at least one edge. */
  ghost predicate IsCycle(g: Graph, p: seq<string>) {
    Walk(g, p) && |p| >= 2 && p[0] == p[|p| - 1]
  }

  ghost predicate Acyclic(g: Graph) {
    forall p :: !IsCycle(g, p)
  }

  ghost predicate OnCycle(g: Graph, x: string) {
    exists p :: IsCycle(g, p) && p[0] == x
  }

  /** x has a cycle behind it: some walk leads from a name on a cycle to x. */
  ghost predicate BelowCycle(g: Graph, x: string) {
    exists p :: Walk(g, p) && OnCycle(g, p[0]) && p[|p| - 1] == x
  }

  /** x has a cycle ahead of it: some walk leads from x to a name on a cycle. */
  ghost predicate AboveCycle(g: Graph, x: string) {
    exists p :: Walk(g, p) && p[0] == x && OnCycle(g, p[|p| - 1])
  }

  ghost predicate HasPred(g: Graph, s: set<string>, x: string) {
    exists y :: y in s && Edge(g, y, x)
  }

  ghost predicate HasSucc(g: Graph, s: set<string>, x: string) {
    exists y :: y in s && Edge(g, x, y)
  }

  /** Every member of s has a predecessor in s. */
  ghost predicate PredClosed(g: Graph, s: set<string>) {
    forall x {:trigger HasPred(g, s, x)} :: x in s ==> HasPred(g, s, x)
  }

  /** Every member of s has a successor in s. */
  ghost predicate SuccClosed(g: Graph, s: set<string>) {
    forall x {:trigger HasSucc(g, s, x)} :: x in s ==> HasSucc(g, s, x)
  }

  ghost predicate Closed(g: Graph, s: set<string>) {
    PredClosed(g, s) && SuccClosed(g, s)
  }

  function ElementsOf(p: seq<string>): (s: set<string>) {
    set x | x in p
  }

  // ----- pigeonhole -----

  lemma SetSizeOfDistinct(p: seq<string>, s: set<string>)
    requires forall i, j :: 0 <= i < j < |p| ==> p[i] != p[j]
    requires forall i :: 0 <= i < |p| ==> p[i] in s
    ensures |p| <= |s|
  {
    if |p| > 0 {
      var q := p[..|p| - 1];
      var last := p[|p| - 1];
      SetSizeOfDistinct(q, s - {last});
      assert |s - {last}| == |s| - 1;
    }
  }

  lemma {:induction false} Repetition(p: seq<string>, s: set<string>) returns (i: nat, j: nat)
    requires forall k :: 0 <= k < |p| ==> p[k] in s
    requires |p| > |s|
    ensures i < j < |p| && p[i] == p[j]
  {
    if forall a, b :: 0 <= a < b < |p| ==> p[a] != p[b] {
      SetSizeOfDistinct(p, s);
      assert false;
    }
    i, j :| 0 <= i < j < |p| && p[i] == p[j];
  }

  // ----- walks -----

  lemma SubWalk(g: Graph, p: seq<string>, i: nat, j: nat)
    requires Walk(g, p) && i <= j < |p|
    ensures WalkFromTo(g, p[i..j + 1], p[i], p[j])
  {
    var q := p[i..j + 1];
    forall k | 0 <= k < |q| - 1
      ensures Edge(g, q[k], q[k + 1])
    {
      assert q[k] == p[i + k] && q[k + 1] == p[(i + k) + 1];
    }
  }

  lemma ExtendWalk(g: Graph, p: seq<string>, x: string)
    requires Walk(g, p) && Edge(g, p[|p| - 1], x)
    ensures WalkFromTo(g, p + [x], p[0], x)
  {
  }

  lemma PrependWalk(g: Graph, x: string, p: seq<string>)
    requires Walk(g, p) && Edge(g, x, p[0])
    ensures WalkFromTo(g, [x] + p, x, p[|p| - 1])
  {
    var q := [x] + p;
    forall k | 0 <= k < |q| - 1
      ensures Edge(g, q[k], q[k + 1])
    {
      if k > 0 {
        assert q[k] == p[k - 1] && q[k + 1] == p[(k - 1) + 1];
      }
    }
  }

  lemma JoinWalks(g: Graph, p: seq<string>, q: seq<string>)
    requires Walk(g, p) && Walk(g, q) && p[|p| - 1] == q[0]
    ensures WalkFromTo(g, p + q[1..], p[0], q[|q| - 1])
  {
    var r := p + q[1..];
    forall k | 0 <= k < |r| - 1
      ensures Edge(g, r[k], r[k + 1])
    {
      if k >= |p| - 1 {
        var m := k - (|p| - 1);
        assert r[k] == q[m] && r[k + 1] == q[m + 1];
      }
    }
  }

  /** A repeated name on a walk closes a cycle. */
  lemma RepetitionIsCycle(g: Graph, p: seq<string>, i: nat, j: nat)
    requires Walk(g, p) && i < j < |p| && p[i] == p[j]
    ensures IsCycle(g, p[i..j + 1]) && OnCycle(g, p[i])
  {
    SubWalk(g, p, i, j);
    assert p[i..j + 1][0] == p[i];
  }

  // ----- closed sets meet cycles -----

  lemma {:induction false} WalkBack(g: Graph, s: set<string>, x: string, n: nat) returns (p: seq<string>)
    requires PredClosed(g, s) && x in s
    ensures Walk(g, p) && |p| == n + 1 && p[n] == x
    ensures forall k :: 0 <= k < |p| ==> p[k] in s
    decreases n
  {
    if n == 0 {
      p := [x];
    } else {
      assert HasPred(g, s, x);
      var y :| y in s && Edge(g, y, x);
      var q := WalkBack(g, s, y, n - 1);
      ExtendWalk(g, q, x);
      p := q + [x];
    }
  }

  lemma {:induction false} WalkAhead(g: Graph, s: set<string>, x: string, n: nat) returns (p: seq<string>)
    requires SuccClosed(g, s) && x in s
    ensures Walk(g, p) && |p| == n + 1 && p[0] == x
    ensures forall k :: 0 <= k < |p| ==> p[k] in s
    decreases n
  {
    if n == 0 {
      p := [x];
    } else {
      assert HasSucc(g, s, x);
      var y :| y in s && Edge(g, x, y);
      var q := WalkAhead(g, s, y, n - 1);
      PrependWalk(g, x, q);
      p := [x] + q;
    }
  }

  /** In a finite set where everybody has a predecessor, everybody has a cycle behind it. */
  lemma PredClosedBelowCycle(g: Graph, s: set<string>, x: string)
    requires PredClosed(g, s) && x in s
    ensures BelowCycle(g, x)
  {
    var p := WalkBack(g, s, x, |s|);
    var i, j := Repetition(p, s);
    RepetitionIsCycle(g, p, i, j);
    SubWalk(g, p, i, |p| - 1);
    var q := p[i..];
    assert q == p[i..|p| - 1 + 1];
    assert Walk(g, q) && OnCycle(g, q[0]) && q[|q| - 1] == x;
  }

  lemma SuccClosedAboveCycle(g: Graph, s: set<string>, x: string)
    requires SuccClosed(g, s) && x in s
    ensures AboveCycle(g, x)
  {
    var p := WalkAhead(g, s, x, |s|);
    var i, j := Repetition(p, s);
    RepetitionIsCycle(g, p, i, j);
    SubWalk(g, p, 0, i);
    var q := p[..i + 1];
    assert q == p[0..i + 1];
    assert Walk(g, q) && q[0] == x && OnCycle(g, q[|q| - 1]);
  }

  lemma CycleFromBelow(g: Graph, x: string)
    requires BelowCycle(g, x) || AboveCycle(g, x)
    ensures !Acyclic(g)
  {
  }

  /** The names of a cycle have predecessors and successors among themselves. */
  lemma CycleIsClosed(g: Graph, p: seq<string>)
    requires IsCycle(g, p)
    ensures Closed(g, ElementsOf(p))
  {
    forall x | x in ElementsOf(p)
      ensures HasPred(g, ElementsOf(p), x) && HasSucc(g, ElementsOf(p), x)
    {
      var i :| 0 <= i < |p| && p[i] == x;
      var before := if i == 0 then |p| - 2 else i - 1;
      var here := if i == |p| - 1 then 0 else i;
      assert Edge(g, p[before], p[before + 1]) && p[before + 1] == x;
      assert Edge(g, p[here], p[here + 1]) && p[here] == x;
      assert p[before] in ElementsOf(p) && p[here + 1] in ElementsOf(p);
    }
  }

  lemma NeighboursGrow(g: Graph, s: set<string>, t: set<string>, y: string)
    requires s <= t && HasPred(g, s, y) && HasSucc(g, s, y)
    ensures HasPred(g, t, y) && HasSucc(g, t, y)
  {
    var a :| a in s && Edge(g, a, y);
    var b :| b in s && Edge(g, y, b);
    assert a in t && b in t;
  }

  lemma InnerNeighbours(g: Graph, w: seq<string>, i: nat)
    requires Walk(g, w) && 0 < i < |w| - 1
    ensures HasPred(g, ElementsOf(w), w[i]) && HasSucc(g, ElementsOf(w), w[i])
  {
    assert Edge(g, w[i - 1], w[i - 1 + 1]) && Edge(g, w[i], w[i + 1]);
    assert w[i - 1] in ElementsOf(w) && w[i + 1] in ElementsOf(w);
  }

  lemma ClosedGrows(g: Graph, s: set<string>, t: set<string>, y: string)
    requires Closed(g, s) && s <= t && y in s
    ensures HasPred(g, t, y) && HasSucc(g, t, y)
  {
    assert HasPred(g, s, y) && HasSucc(g, s, y);
    NeighboursGrow(g, s, t, y);
  }

  /** Two closed sets and a set that is closed outside them are closed together. */
  lemma BridgeClosed(g: Graph, a: set<string>, w: set<string>, b: set<string>, s: set<string>)
    requires Closed(g, a) && Closed(g, b)
    requires forall y {:trigger HasPred(g, w, y)} :: y in w - a - b ==> HasPred(g, w, y) && HasSucc(g, w, y)
    requires s == a + w + b
    ensures Closed(g, s)
  {
    forall y | y in s
      ensures HasPred(g, s, y) && HasSucc(g, s, y)
    {
      if y in a {
        ClosedGrows(g, a, s, y);
      } else if y in b {
        ClosedGrows(g, b, s, y);
      } else {
        assert HasPred(g, w, y);
        NeighboursGrow(g, w, s, y);
      }
    }
  }

  /** Whoever lies between two cycles lies in a closed set. */
  lemma {:induction false} BetweenCyclesClosed(g: Graph, x: string) returns (s: set<string>)
    requires BelowCycle(g, x) && AboveCycle(g, x)
    ensures x in s && Closed(g, s)
  {
    var p :| Walk(g, p) && OnCycle(g, p[0]) && p[|p| - 1] == x;
    var q :| Walk(g, q) && q[0] == x && OnCycle(g, q[|q| - 1]);
    var c :| IsCycle(g, c) && c[0] == p[0];
    var d :| IsCycle(g, d) && d[0] == q[|q| - 1];
    JoinWalks(g, p, q);
    var w := p + q[1..];
    assert w[|p| - 1] == x;
    var a, b := ElementsOf(c), ElementsOf(d);
    CycleIsClosed(g, c);
    CycleIsClosed(g, d);
    forall y | y in ElementsOf(w) - a - b
      ensures HasPred(g, ElementsOf(w), y) && HasSucc(g, ElementsOf(w), y)
    {
      var i :| 0 <= i < |w| && w[i] == y;
      assert w[0] == c[0] && w[|w| - 1] == d[0];
      InnerNeighbours(g, w, i);
    }
    s := a + ElementsOf(w) + b;
    BridgeClosed(g, a, ElementsOf(w), b, s);
  }

  /** Whoever has a cycle behind it lies in a set in which everybody has a predecessor. */
  lemma BelowCyclePredClosed(g: Graph, x: string) returns (s: set<string>)
    requires BelowCycle(g, x)
    ensures x in s && PredClosed(g, s)
  {
    var p :| Walk(g, p) && OnCycle(g, p[0]) && p[|p| - 1] == x;
    var c :| IsCycle(g, c) && c[0] == p[0];
    var a := ElementsOf(c);
    CycleIsClosed(g, c);
    s := a + ElementsOf(p);
    forall y | y in s
      ensures HasPred(g, s, y)
    {
      if y in a {
        ClosedGrows(g, a, s, y);
      } else {
        var i :| 0 <= i < |p| && p[i] == y;
        assert c[0] in a;
        assert Edge(g, p[i - 1], p[i - 1 + 1]) && p[i - 1] in s;
      }
    }
  }
}
