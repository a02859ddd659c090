/**
 The dependency sort of proxy groups and the loop locator that explains a failed sort.

 A proxy group lists other proxies by name; some of those names are groups themselves. The
 loader sorts the groups in place so that every group comes after the groups it lists, and
 rejects the configuration when that is impossible.
 */
module ProxyGroupSort {
  import opened Graphs
  import opened Options

  /** One raw entry of the configuration: whether it decodes, and the name and members it decodes to. */
  datatype Mapping = Mapping(decodes: bool, name: string, proxies: seq<string>)

  /** A node of the dependency graph; `group` is set for names that are groups. */
  datatype Node = Node(indegree: int, group: Option<Mapping>, outdegree: int, from: seq<string>)

  datatype Outcome =
    | Sorted
    | DecodeFailed(name: string)
    | DuplicateName(name: string)
    | LoopDetected(names: seq<string>)

  // ----- the configuration as a graph -----

  ghost predicate DistinctNames(ms: seq<Mapping>) {
    forall i, j :: 0 <= i < j < |ms| ==> ms[i].name != ms[j].name
  }

  ghost predicate WellFormed(ms: seq<Mapping>) {
    DistinctNames(ms) && forall i :: 0 <= i < |ms| ==> ms[i].decodes
  }

  /** Entry i is the first faulty one, and its fault is that it does not decode. */
  ghost predicate DecodeFaultAt(ms: seq<Mapping>, i: nat) {
    i < |ms| && WellFormed(ms[..i]) && !ms[i].decodes
  }

  /** Entry i is the first faulty one, and its fault is that it reuses an earlier name. */
  ghost predicate DuplicateAt(ms: seq<Mapping>, i: nat) {
    i < |ms| && WellFormed(ms[..i]) && ms[i].decodes && exists k :: 0 <= k < i && ms[k].name == ms[i].name
  }

  function GraphOf(ms: seq<Mapping>): Graph {
    if |ms| == 0 then map[]
    else GraphOf(ms[..|ms| - 1])[ms[|ms| - 1].name := ms[|ms| - 1].proxies]
  }

  function Nodes(ms: seq<Mapping>): set<string> {
    if |ms| == 0 then {}
    else Nodes(ms[..|ms| - 1]) + {ms[|ms| - 1].name} + ElementsOf(ms[|ms| - 1].proxies)
  }

  function GroupNamed(ms: seq<Mapping>, x: string): Option<Mapping> {
    if |ms| == 0 then None
    else if ms[|ms| - 1].name == x then Some(ms[|ms| - 1])
    else GroupNamed(ms[..|ms| - 1], x)
  }

  /** How often x is listed by groups outside `dead`. */
  function Occ(ms: seq<Mapping>, dead: set<string>, x: string): nat {
    if |ms| == 0 then 0
    else
      var m := ms[|ms| - 1];
      Occ(ms[..|ms| - 1], dead, x) + if m.name in dead then 0 else multiset(m.proxies)[x]
  }

  /** The groups outside `dead`, in configuration order. */
  function Remaining(ms: seq<Mapping>, dead: set<string>): seq<Mapping> {
    if |ms| == 0 then []
    else
      var m := ms[|ms| - 1];
      Remaining(ms[..|ms| - 1], dead) + if m.name in dead then [] else [m]
  }

  /** How many entries of a member list are outside `dead`. */
  function CountOutside(ps: seq<string>, dead: set<string>): nat {
    if |ps| == 0 then 0
    else CountOutside(ps[..|ps| - 1], dead) + if ps[|ps| - 1] in dead then 0 else 1
  }

  function Reversed<T>(s: seq<T>): (r: seq<T>)
    ensures |r| == |s|
  {
    if |s| == 0 then [] else [s[|s| - 1]] + Reversed(s[..|s| - 1])
  }

  /** Every group comes strictly after the groups it lists. */
  ghost predicate DependencySorted(ms: seq<Mapping>) {
    forall i, j :: 0 <= i <= j < |ms| ==> ms[j].name !in ms[i].proxies
  }

  // ----- facts about the counting functions -----

  lemma {:induction false} GroupNamedAt(ms: seq<Mapping>, x: string)
    requires DistinctNames(ms)
    ensures GroupNamed(ms, x).None? ==> forall i :: 0 <= i < |ms| ==> ms[i].name != x
    ensures GroupNamed(ms, x).Some? ==> GroupNamed(ms, x).value in ms && GroupNamed(ms, x).value.name == x
    ensures forall i :: 0 <= i < |ms| && ms[i].name == x ==> GroupNamed(ms, x) == Some(ms[i])
  {
    if |ms| > 0 {
      GroupNamedAt(ms[..|ms| - 1], x);
    }
  }

  lemma {:induction false} GraphOfKnows(ms: seq<Mapping>, x: string)
    ensures x in GraphOf(ms) <==> GroupNamed(ms, x).Some?
    ensures x in GraphOf(ms) ==> GraphOf(ms)[x] == GroupNamed(ms, x).value.proxies
  {
    if |ms| > 0 {
      GraphOfKnows(ms[..|ms| - 1], x);
    }
  }

  lemma {:induction false} NodesKnow(ms: seq<Mapping>, x: string)
    ensures x in Nodes(ms) <==> exists i :: 0 <= i < |ms| && (ms[i].name == x || x in ms[i].proxies)
  {
    if |ms| > 0 {
      var n := |ms| - 1;
      NodesKnow(ms[..n], x);
      if x in Nodes(ms[..n]) {
        var i :| 0 <= i < n && (ms[..n][i].name == x || x in ms[..n][i].proxies);
        assert ms[i] == ms[..n][i];
      }
      if i :| 0 <= i < |ms| && (ms[i].name == x || x in ms[i].proxies) {
        if i < n {
          assert ms[..n][i] == ms[i];
        }
      }
    }
  }

  lemma {:induction false} OccPositive(ms: seq<Mapping>, dead: set<string>, x: string)
    ensures Occ(ms, dead, x) > 0 <==> exists i :: 0 <= i < |ms| && ms[i].name !in dead && x in ms[i].proxies
  {
    if |ms| > 0 {
      var n := |ms| - 1;
      OccPositive(ms[..n], dead, x);
      if i :| 0 <= i < |ms| && ms[i].name !in dead && x in ms[i].proxies {
        if i < n {
          assert ms[..n][i] == ms[i];
        }
      }
      if i :| 0 <= i < n && ms[..n][i].name !in dead && x in ms[..n][i].proxies {
        assert ms[..n][i] == ms[i];
      }
    }
  }

  lemma {:induction false} OccWithoutGroup(ms: seq<Mapping>, dead: set<string>, name: string, x: string)
    requires forall i :: 0 <= i < |ms| ==> ms[i].name != name
    ensures Occ(ms, dead + {name}, x) == Occ(ms, dead, x)
    ensures Remaining(ms, dead + {name}) == Remaining(ms, dead)
  {
    if |ms| > 0 {
      OccWithoutGroup(ms[..|ms| - 1], dead, name, x);
    }
  }

  lemma SplitLast(ms: seq<Mapping>, m: Mapping)
    requires DistinctNames(ms) && m in ms && ms[|ms| - 1] != m
    ensures m in ms[..|ms| - 1] && DistinctNames(ms[..|ms| - 1]) && ms[|ms| - 1].name != m.name
  {
    var i :| 0 <= i < |ms| && ms[i] == m;
    assert ms[..|ms| - 1][i] == m;
  }

  /** Retiring a live group takes exactly its own listings out of the count. */
  lemma {:induction false} OccDrop(ms: seq<Mapping>, dead: set<string>, m: Mapping, x: string)
    requires DistinctNames(ms) && m in ms && m.name !in dead
    ensures Occ(ms, dead, x) == Occ(ms, dead + {m.name}, x) + multiset(m.proxies)[x]
  {
    var n := |ms| - 1;
    if ms[n] == m {
      OccWithoutGroup(ms[..n], dead, m.name, x);
    } else {
      SplitLast(ms, m);
      OccDrop(ms[..n], dead, m, x);
    }
  }

  lemma {:induction false} RemainingDrop(ms: seq<Mapping>, dead: set<string>, m: Mapping)
    requires DistinctNames(ms) && m in ms && m.name !in dead
    ensures multiset(Remaining(ms, dead)) == multiset(Remaining(ms, dead + {m.name})) + multiset{m}
  {
    var n := |ms| - 1;
    if ms[n] == m {
      OccWithoutGroup(ms[..n], dead, m.name, "");
    } else {
      SplitLast(ms, m);
      RemainingDrop(ms[..n], dead, m);
    }
  }

  lemma {:induction false} AllRemain(ms: seq<Mapping>)
    ensures Remaining(ms, {}) == ms
  {
    if |ms| > 0 {
      AllRemain(ms[..|ms| - 1]);
      assert ms == ms[..|ms| - 1] + [ms[|ms| - 1]];
    }
  }

  lemma {:induction false} NoneRemain(ms: seq<Mapping>, dead: set<string>)
    requires forall i :: 0 <= i < |ms| ==> ms[i].name in dead
    ensures Remaining(ms, dead) == []
  {
    if |ms| > 0 {
      NoneRemain(ms[..|ms| - 1], dead);
    }
  }

  lemma {:induction false} CountDrop(ps: seq<string>, dead: set<string>, x: string)
    requires x !in dead
    ensures CountOutside(ps, dead) == CountOutside(ps, dead + {x}) + multiset(ps)[x]
  {
    if |ps| > 0 {
      CountDrop(ps[..|ps| - 1], dead, x);
      assert ps == ps[..|ps| - 1] + [ps[|ps| - 1]];
    }
  }

  lemma {:induction false} CountPositive(ps: seq<string>, dead: set<string>)
    ensures CountOutside(ps, dead) > 0 <==> exists x :: x in ps && x !in dead
    ensures dead == {} ==> CountOutside(ps, dead) == |ps|
  {
    if |ps| > 0 {
      var n := |ps| - 1;
      CountPositive(ps[..n], dead);
      assert ps == ps[..n] + [ps[n]];
      if x :| x in ps && x !in dead {
        if x != ps[n] {
          assert x in ps[..n];
        }
      }
    }
  }

  lemma {:induction false} ReversedFacts<T>(s: seq<T>)
    ensures multiset(Reversed(s)) == multiset(s)
    ensures forall i {:trigger Reversed(s)[i]} :: 0 <= i < |s| ==> Reversed(s)[i] == s[|s| - 1 - i]
  {
    if |s| > 0 {
      var n := |s| - 1;
      ReversedFacts(s[..n]);
      assert s == s[..n] + [s[n]];
      forall i | 0 <= i < |s|
        ensures Reversed(s)[i] == s[n - i]
      {
        if i > 0 {
          assert Reversed(s)[i] == Reversed(s[..n])[i - 1];
        }
      }
    }
  }

  lemma EdgeMeansListed(ms: seq<Mapping>, u: string, v: string)
    requires DistinctNames(ms)
    ensures Edge(GraphOf(ms), u, v) <==> exists i :: 0 <= i < |ms| && ms[i].name == u && v in ms[i].proxies
  {
    GraphOfKnows(ms, u);
    GroupNamedAt(ms, u);
    if Edge(GraphOf(ms), u, v) {
      var m := GroupNamed(ms, u).value;
      var i :| 0 <= i < |ms| && ms[i] == m;
    }
  }

  // ----- step 1.1: build the graph -----

  ghost predicate FreshGraph(ms: seq<Mapping>, graph: map<string, Node>) {
    LiveGraph(ms, {}, graph)
  }

  /** The nodes outside `dead`, each with the number of listings that are still live. */
  ghost predicate LiveGraph(ms: seq<Mapping>, dead: set<string>, graph: map<string, Node>) {
    && graph.Keys == Nodes(ms) - dead
    && forall x :: x in graph ==> graph[x] == Node(Occ(ms, dead, x), GroupNamed(ms, x), 0, [])
  }

  /** As FreshGraph for the first i entries, with entry i added and its first j listings counted. */
  ghost predicate PartlyBuilt(ms: seq<Mapping>, i: nat, j: nat, graph: map<string, Node>)
    requires i < |ms| && j <= |ms[i].proxies|
  {
    && graph.Keys == Nodes(ms[..i]) + {ms[i].name} + ElementsOf(ms[i].proxies[..j])
    && forall x :: x in graph ==> graph[x] == PartNode(ms, i, j, x)
  }

  function PartNode(ms: seq<Mapping>, i: nat, j: nat, x: string): Node
    requires i < |ms| && j <= |ms[i].proxies|
  {
    Node(Occ(ms[..i], {}, x) + multiset(ms[i].proxies[..j])[x],
         if x == ms[i].name then Some(ms[i]) else GroupNamed(ms[..i], x), 0, [])
  }

  lemma UnknownName(ms: seq<Mapping>, x: string)
    requires x !in Nodes(ms) && DistinctNames(ms)
    ensures Occ(ms, {}, x) == 0 && GroupNamed(ms, x).None?
  {
    NodesKnow(ms, x);
    OccPositive(ms, {}, x);
    GroupNamedAt(ms, x);
  }

  lemma PartlyBuiltDone(ms: seq<Mapping>, i: nat, graph: map<string, Node>)
    requires i < |ms| && PartlyBuilt(ms, i, |ms[i].proxies|, graph)
    ensures FreshGraph(ms[..i + 1], graph)
  {
    var prefix := ms[..i + 1];
    assert prefix[..|prefix| - 1] == ms[..i] && prefix[|prefix| - 1] == ms[i];
    assert ms[i].proxies[..|ms[i].proxies|] == ms[i].proxies;
  }

  lemma PartlyBuiltStarts(ms: seq<Mapping>, i: nat, before: map<string, Node>, graph: map<string, Node>)
    requires i < |ms| && DistinctNames(ms[..i]) && FreshGraph(ms[..i], before)
    requires var name := ms[i].name;
      if name in before then before[name].group.None? && graph == before[name := before[name].(group := Some(ms[i]))]
      else graph == before[name := Node(0, Some(ms[i]), 0, [])]
    ensures PartlyBuilt(ms, i, 0, graph)
  {
    assert ms[i].proxies[..0] == [];
    forall x | x in graph
      ensures graph[x] == PartNode(ms, i, 0, x)
    {
      if x != ms[i].name || x in before {
        assert before[x] == Node(Occ(ms[..i], {}, x), GroupNamed(ms[..i], x), 0, []);
      } else {
        UnknownName(ms[..i], x);
      }
    }
  }

  lemma PrefixGrows(ps: seq<string>, j: nat)
    requires j < |ps|
    ensures ElementsOf(ps[..j + 1]) == ElementsOf(ps[..j]) + {ps[j]}
    ensures forall x :: multiset(ps[..j + 1])[x] == multiset(ps[..j])[x] + if x == ps[j] then 1 else 0
    ensures ps[j] !in ElementsOf(ps[..j]) ==> multiset(ps[..j])[ps[j]] == 0
  {
    assert ps[..j + 1] == ps[..j] + [ps[j]];
    assert ps[j] in multiset(ps[..j]) ==> ps[j] in ElementsOf(ps[..j]);
  }

  /** Counting one listing, for a name already in the graph or a new one. */
  lemma PartlyBuiltStep(ms: seq<Mapping>, i: nat, j: nat, before: map<string, Node>, graph: map<string, Node>)
    requires i < |ms| && DistinctNames(ms[..i]) && j < |ms[i].proxies| && PartlyBuilt(ms, i, j, before)
    requires var proxy := ms[i].proxies[j];
      if proxy in before then graph == before[proxy := before[proxy].(indegree := before[proxy].indegree + 1)]
      else graph == before[proxy := Node(1, None, 0, [])]
    ensures PartlyBuilt(ms, i, j + 1, graph)
  {
    PrefixGrows(ms[i].proxies, j);
    forall x | x in graph
      ensures graph[x] == PartNode(ms, i, j + 1, x)
    {
      PartlyBuiltNode(ms, i, j, before, graph, x);
    }
  }

  lemma PartlyBuiltNode(ms: seq<Mapping>, i: nat, j: nat, before: map<string, Node>, graph: map<string, Node>, x: string)
    requires i < |ms| && DistinctNames(ms[..i]) && j < |ms[i].proxies| && PartlyBuilt(ms, i, j, before)
    requires var proxy := ms[i].proxies[j];
      if proxy in before then graph == before[proxy := before[proxy].(indegree := before[proxy].indegree + 1)]
      else graph == before[proxy := Node(1, None, 0, [])]
    requires x in graph
    ensures graph[x] == PartNode(ms, i, j + 1, x)
  {
    var proxy := ms[i].proxies[j];
    PrefixGrows(ms[i].proxies, j);
    if x != proxy || proxy in before {
      assert before[x] == PartNode(ms, i, j, x);
    } else {
      UnknownName(ms[..i], proxy);
    }
  }

  lemma DuplicateSeen(ms: seq<Mapping>, i: nat)
    requires i < |ms| && WellFormed(ms[..i]) && ms[i].decodes && GroupNamed(ms[..i], ms[i].name).Some?
    ensures DuplicateAt(ms, i)
  {
    GroupNamedAt(ms[..i], ms[i].name);
    var k :| 0 <= k < i && ms[..i][k] == GroupNamed(ms[..i], ms[i].name).value;
    assert ms[k].name == ms[i].name;
  }

  lemma NewNameKeepsDistinct(ms: seq<Mapping>, i: nat)
    requires i < |ms| && WellFormed(ms[..i]) && ms[i].decodes && GroupNamed(ms[..i], ms[i].name).None?
    ensures WellFormed(ms[..i + 1])
  {
    GroupNamedAt(ms[..i], ms[i].name);
    var next := ms[..i + 1];
    forall k | 0 <= k < i
      ensures next[k] == ms[..i][k] && next[k].name != ms[i].name && next[k].decodes
    {
    }
    forall j, k | 0 <= j < k < |next|
      ensures next[j].name != next[k].name
    {
      if k < i {
        assert ms[..i][j].name != ms[..i][k].name;
      }
    }
  }

  lemma AbsentMeansUnnamed(ms: seq<Mapping>, x: string, graph: map<string, Node>)
    requires DistinctNames(ms) && FreshGraph(ms, graph)
    ensures x !in graph ==> GroupNamed(ms, x).None?
  {
    if x !in graph {
      UnknownName(ms, x);
    }
  }

  ghost predicate FirstFault(ms: seq<Mapping>, r: Outcome) {
    match r
    case DecodeFailed(name) => exists i: nat :: DecodeFaultAt(ms, i) && ms[i].name == name
    case DuplicateName(name) => exists i: nat :: DuplicateAt(ms, i) && ms[i].name == name
    case _ => false
  }

  method BuildGraph(groupsConfig: array<Mapping>) returns (r: Outcome, graph: map<string, Node>)
    ensures r.Sorted? || FirstFault(groupsConfig[..], r)
    ensures r.Sorted? ==> WellFormed(groupsConfig[..]) && FreshGraph(groupsConfig[..], graph)
  {
    graph := map[];
    ghost var ms := groupsConfig[..];
    for i := 0 to groupsConfig.Length
      invariant WellFormed(ms[..i])
      invariant FreshGraph(ms[..i], graph)
    {
      var option := groupsConfig[i];
      if !option.decodes {
        assert DecodeFaultAt(ms, i);
        return DecodeFailed(option.name), graph;
      }
      ghost var before := graph;
      if option.name in graph {
        var node := graph[option.name];
        if node.group.Some? {
          DuplicateSeen(ms, i);
          return DuplicateName(option.name), graph;
        }
        graph := graph[option.name := node.(group := Some(option))];
      } else {
        graph := graph[option.name := Node(0, Some(option), 0, [])];
      }
      AbsentMeansUnnamed(ms[..i], option.name, before);
      NewNameKeepsDistinct(ms, i);
      PartlyBuiltStarts(ms, i, before, graph);
      graph := CountListings(ms, i, option, graph);
    }
    assert ms[..groupsConfig.Length] == ms;
    return Sorted, graph;
  }

  /** Counts what one group lists. */
  method CountListings(ghost ms: seq<Mapping>, ghost i: nat, option: Mapping, graph0: map<string, Node>) returns (graph: map<string, Node>)
    requires i < |ms| && option == ms[i] && DistinctNames(ms[..i]) && PartlyBuilt(ms, i, 0, graph0)
    ensures FreshGraph(ms[..i + 1], graph)
  {
    graph := graph0;
    for j := 0 to |option.proxies|
      invariant PartlyBuilt(ms, i, j, graph)
    {
      var proxy := option.proxies[j];
      ghost var before := graph;
      if proxy in graph {
        var node := graph[proxy];
        graph := graph[proxy := node.(indegree := node.indegree + 1)];
      } else {
        graph := graph[proxy := Node(1, None, 0, [])];
      }
      PartlyBuiltStep(ms, i, j, before, graph);
    }
    PartlyBuiltDone(ms, i, graph);
  }

  // ----- step 1.2: topological sort -----

  /** No set in which everybody is listed by a member has lost anyone. */
  ghost predicate SparesPredClosed(g: Graph, dead: set<string>) {
    forall s: set<string> {:trigger PredClosed(g, s)} :: PredClosed(g, s) ==> s !! dead
  }

  /** The queue holds each live node without live listings exactly once. */
  ghost predicate QueueHolds(queue: seq<string>, ready: set<string>) {
    && (forall i, j :: 0 <= i < j < |queue| ==> queue[i] != queue[j])
    && ElementsOf(queue) == ready
  }

  ghost function Sources(graph: map<string, Node>): set<string> {
    set x | x in graph && graph[x].indegree == 0
  }

  ghost function Sinks(graph: map<string, Node>): set<string> {
    set x | x in graph && graph[x].outdegree == 0
  }

  /** As LiveGraph for `dead` and m, with the listings of m from j on still counted. */
  ghost predicate PartlyRetired(ms: seq<Mapping>, dead: set<string>, m: Mapping, j: nat, graph: map<string, Node>)
    requires j <= |m.proxies|
  {
    && graph.Keys == Nodes(ms) - dead
    && forall x :: x in graph ==>
         graph[x] == Node(Occ(ms, dead + {m.name}, x) + multiset(m.proxies[j..])[x], GroupNamed(ms, x), 0, [])
  }

  ghost predicate NobodyLists(ms: seq<Mapping>, dead: set<string>, retired: set<string>) {
    forall x :: x in retired ==> Occ(ms, dead, x) == 0
  }

  /** What has been emitted is sorted, retired, and with the remaining groups makes up the input. */
  ghost predicate Emission(ms: seq<Mapping>, dead: set<string>, emitted: seq<Mapping>) {
    && (forall i :: 0 <= i < |emitted| ==> emitted[i].name in dead && emitted[i] in ms)
    && (forall i, j :: 0 <= i <= j < |emitted| ==> emitted[i].name !in emitted[j].proxies)
    && multiset(emitted) + multiset(Remaining(ms, dead)) == multiset(ms)
  }

  lemma EmissionSize(ms: seq<Mapping>, dead: set<string>, emitted: seq<Mapping>)
    requires Emission(ms, dead, emitted)
    ensures |emitted| + |Remaining(ms, dead)| == |ms|
  {
    assert |multiset(emitted) + multiset(Remaining(ms, dead))| == |multiset(ms)|;
  }

  lemma EmitNext(ms: seq<Mapping>, dead: set<string>, emitted: seq<Mapping>, m: Mapping)
    requires DistinctNames(ms) && m in ms && m.name !in dead
    requires NobodyLists(ms, dead, dead) && Occ(ms, dead, m.name) == 0
    requires Emission(ms, dead, emitted)
    ensures Emission(ms, dead + {m.name}, emitted + [m])
    ensures |emitted| < |ms|
  {
    RemainingDrop(ms, dead, m);
    EmissionSize(ms, dead, emitted);
    var k :| 0 <= k < |ms| && ms[k] == m;
    forall i | 0 <= i < |emitted|
      ensures emitted[i].name !in m.proxies
    {
      OccPositive(ms, dead, emitted[i].name);
    }
    OccPositive(ms, dead, m.name);
    EmissionOrder(ms, dead, emitted, m);
  }

  lemma EmissionOrder(ms: seq<Mapping>, dead: set<string>, emitted: seq<Mapping>, m: Mapping)
    requires Emission(ms, dead, emitted) && m.name !in m.proxies
    requires forall i :: 0 <= i < |emitted| ==> emitted[i].name !in m.proxies
    ensures var next := emitted + [m]; forall i, j :: 0 <= i <= j < |next| ==> next[i].name !in next[j].proxies
  {
  }

  lemma SkipNonGroup(ms: seq<Mapping>, dead: set<string>, emitted: seq<Mapping>, name: string)
    requires DistinctNames(ms) && GroupNamed(ms, name).None? && Emission(ms, dead, emitted)
    ensures Emission(ms, dead + {name}, emitted)
  {
    GroupNamedAt(ms, name);
    OccWithoutGroup(ms, dead, name, "");
  }

  lemma SparedStep(ms: seq<Mapping>, dead: set<string>, name: string)
    requires DistinctNames(ms) && SparesPredClosed(GraphOf(ms), dead) && Occ(ms, dead, name) == 0
    ensures SparesPredClosed(GraphOf(ms), dead + {name})
  {
    var g := GraphOf(ms);
    forall s: set<string> | PredClosed(g, s)
      ensures s !! dead + {name}
    {
      if name in s {
        assert HasPred(g, s, name);
        var y :| y in s && Edge(g, y, name);
        EdgeMeansListed(ms, y, name);
        OccPositive(ms, dead, name);
        assert false;
      }
    }
  }

  /** A live group only lists live nodes, because a retired node has no live listing left. */
  lemma MembersAreLive(ms: seq<Mapping>, dead: set<string>, m: Mapping, p: string)
    requires DistinctNames(ms) && NobodyLists(ms, dead, dead)
    requires m in ms && m.name !in dead && p in m.proxies
    ensures p in Nodes(ms) - dead
  {
    var i :| 0 <= i < |ms| && ms[i] == m;
    NodesKnow(ms, p);
    OccPositive(ms, dead, p);
  }

  lemma RetireStarts(ms: seq<Mapping>, dead: set<string>, m: Mapping, graph: map<string, Node>)
    requires DistinctNames(ms) && m in ms && m.name !in dead && LiveGraph(ms, dead, graph)
    ensures PartlyRetired(ms, dead, m, 0, graph)
  {
    assert m.proxies[0..] == m.proxies;
    forall x | x in graph
      ensures graph[x].indegree == Occ(ms, dead + {m.name}, x) + multiset(m.proxies)[x]
    {
      OccDrop(ms, dead, m, x);
    }
  }

  lemma RetireStep(ms: seq<Mapping>, dead: set<string>, m: Mapping, j: nat, before: map<string, Node>, after: map<string, Node>)
    requires j < |m.proxies| && PartlyRetired(ms, dead, m, j, before) && m.proxies[j] in before
    requires after == before[m.proxies[j] := before[m.proxies[j]].(indegree := before[m.proxies[j]].indegree - 1)]
    ensures before[m.proxies[j]].indegree >= 1
    ensures PartlyRetired(ms, dead, m, j + 1, after)
  {
    assert m.proxies[j..] == [m.proxies[j]] + m.proxies[j + 1..];
  }

  lemma RetireEnds(ms: seq<Mapping>, dead: set<string>, name: string, graph: map<string, Node>)
    requires DistinctNames(ms) && name !in dead && name in graph && Occ(ms, dead, name) == 0
    requires NobodyLists(ms, dead, dead)
    requires graph.Keys == Nodes(ms) - dead
    requires forall x :: x in graph ==> graph[x] == Node(Occ(ms, dead + {name}, x), GroupNamed(ms, x), 0, [])
    requires forall x :: Occ(ms, dead + {name}, x) <= Occ(ms, dead, x)
    ensures LiveGraph(ms, dead + {name}, graph - {name})
    ensures NobodyLists(ms, dead + {name}, dead + {name})
  {
  }

  lemma {:induction false} OccShrinks(ms: seq<Mapping>, dead: set<string>, name: string, x: string)
    ensures Occ(ms, dead + {name}, x) <= Occ(ms, dead, x)
  {
    if |ms| > 0 {
      OccShrinks(ms[..|ms| - 1], dead, name, x);
    }
  }

  lemma OccShrinksForAll(ms: seq<Mapping>, dead: set<string>, name: string)
    ensures forall x :: Occ(ms, dead + {name}, x) <= Occ(ms, dead, x)
  {
    forall x
      ensures Occ(ms, dead + {name}, x) <= Occ(ms, dead, x)
    {
      OccShrinks(ms, dead, name, x);
    }
  }

  /** Appends to the queue the nodes of `graph` without listings, in some order. */
  method CollectSources(graph: map<string, Node>) returns (queue: seq<string>)
    ensures QueueHolds(queue, Sources(graph))
  {
    queue := [];
    var todo := graph.Keys;
    while todo != {}
      invariant todo <= graph.Keys
      invariant QueueHolds(queue, Sources(graph) - todo)
    {
      var name :| name in todo;
      ghost var seen := Sources(graph) - todo;
      todo := todo - {name};
      if graph[name].indegree == 0 {
        queue := queue + [name];
        assert Sources(graph) - todo == seen + {name};
      } else {
        assert Sources(graph) - todo == seen;
      }
    }
    assert Sources(graph) - todo == Sources(graph);
  }

  /** A node whose last listing was just counted off joins the queue. */
  method QueueIfSource(ghost before: map<string, Node>, graph: map<string, Node>, queue0: seq<string>, proxy: string) returns (queue: seq<string>)
    requires proxy in before && before[proxy].indegree >= 1 && QueueHolds(queue0, Sources(before))
    requires graph == before[proxy := before[proxy].(indegree := before[proxy].indegree - 1)]
    ensures queue0 <= queue && QueueHolds(queue, Sources(graph))
  {
    queue := queue0;
    if graph[proxy].indegree == 0 {
      assert proxy !in ElementsOf(queue);
      queue := queue + [proxy];
      assert Sources(graph) == Sources(before) + {proxy};
    } else {
      assert Sources(graph) == Sources(before);
    }
  }

  /** Takes one group off the counts of its members; members left without listings join the queue. */
  method RetireMembers(ghost ms: seq<Mapping>, ghost dead: set<string>, m: Mapping, graph0: map<string, Node>, queue0: seq<string>)
    returns (graph: map<string, Node>, queue: seq<string>)
    requires DistinctNames(ms) && m in ms && m.name !in dead
    requires LiveGraph(ms, dead, graph0) && NobodyLists(ms, dead, dead)
    requires QueueHolds(queue0, Sources(graph0))
    ensures PartlyRetired(ms, dead, m, |m.proxies|, graph)
    ensures queue0 <= queue && QueueHolds(queue, Sources(graph))
  {
    graph, queue := graph0, queue0;
    RetireStarts(ms, dead, m, graph);
    for j := 0 to |m.proxies|
      invariant PartlyRetired(ms, dead, m, j, graph)
      invariant queue0 <= queue && QueueHolds(queue, Sources(graph))
    {
      var proxy := m.proxies[j];
      MembersAreLive(ms, dead, m, proxy);
      var child := graph[proxy];
      ghost var before := graph;
      graph := graph[proxy := child.(indegree := child.indegree - 1)];
      RetireStep(ms, dead, m, j, before, graph);
      queue := QueueIfSource(before, graph, queue, proxy);
    }
  }

  ghost predicate SortState(ms: seq<Mapping>, dead: set<string>, graph: map<string, Node>, queue: seq<string>, emitted: seq<Mapping>) {
    && LiveGraph(ms, dead, graph) && NobodyLists(ms, dead, dead)
    && SparesPredClosed(GraphOf(ms), dead)
    && QueueHolds(queue, Sources(graph))
    && Emission(ms, dead, emitted)
  }

  /** Handles the front of the queue: counts its members down and takes it out of the graph. */
  method RetireFront(ghost ms: seq<Mapping>, ghost dead: set<string>, graph0: map<string, Node>, queue0: seq<string>, ghost emitted0: seq<Mapping>)
    returns (graph: map<string, Node>, queue: seq<string>)
    requires DistinctNames(ms) && SortState(ms, dead, graph0, queue0, emitted0) && |queue0| > 0
    ensures queue0[0] in graph0
    ensures var node := graph0[queue0[0]];
      && (node.group.Some? ==> |emitted0| < |ms|)
      && SortState(ms, dead + {queue0[0]}, graph, queue, emitted0 + if node.group.Some? then [node.group.value] else [])
    ensures graph.Keys == graph0.Keys - {queue0[0]}
  {
    var name := queue0[0];
    assert name in ElementsOf(queue0);
    var node := graph0[name];
    GroupNamedAt(ms, name);
    OccShrinksForAll(ms, dead, name);
    SparedStep(ms, dead, name);
    graph, queue := graph0, queue0;
    if node.group.Some? {
      var m := node.group.value;
      EmitNext(ms, dead, emitted0, m);
      graph, queue := RetireMembers(ms, dead, m, graph0, queue0);
      assert m.proxies[|m.proxies|..] == [];
    } else {
      assert emitted0 + [] == emitted0;
      SkipNonGroup(ms, dead, emitted0, name);
      forall x
        ensures Occ(ms, dead + {name}, x) == Occ(ms, dead, x)
      {
        OccWithoutGroup(ms, dead, name, x);
      }
    }
    RetireEnds(ms, dead, name, graph);
    PopQueue(queue, graph, name);
    graph, queue := graph - {name}, queue[1..];
  }

  lemma UpdateBeforeTail<T>(prefix: seq<T>, r: seq<T>, k: nat, m: T)
    requires k < |prefix|
    ensures (prefix[..k + 1] + r)[k := m] == prefix[..k] + ([m] + r)
  {
  }

  lemma TailGrows(ms: seq<Mapping>, emitted: seq<Mapping>, m: Mapping)
    requires |emitted| < |ms|
    ensures (ms[..|ms| - |emitted|] + Reversed(emitted))[|ms| - |emitted| - 1 := m] == ms[..|ms| - (|emitted| + 1)] + Reversed(emitted + [m])
  {
    assert (emitted + [m])[..|emitted|] == emitted;
    assert Reversed(emitted + [m]) == [m] + Reversed(emitted);
    UpdateBeforeTail(ms, Reversed(emitted), |ms| - |emitted| - 1, m);
  }

  lemma SortStarts(ms: seq<Mapping>, graph: map<string, Node>, queue: seq<string>)
    requires FreshGraph(ms, graph) && QueueHolds(queue, Sources(graph))
    ensures SortState(ms, {}, graph, queue, [])
    ensures StoredBackwards(ms, [], ms)
  {
    AllRemain(ms);
  }

  /** Stores the next emitted group in front of the groups emitted before. */
  method StoreGroup(groupsConfig: array<Mapping>, index: nat, m: Mapping, ghost ms: seq<Mapping>, ghost emitted: seq<Mapping>)
    requires |ms| == groupsConfig.Length && index == |emitted| + 1 && |emitted| < |ms|
    requires groupsConfig[..] == ms[..|ms| - |emitted|] + Reversed(emitted)
    modifies groupsConfig
    ensures groupsConfig[..] == ms[..|ms| - index] + Reversed(emitted + [m])
  {
    TailGrows(ms, emitted, m);
    groupsConfig[groupsConfig.Length - index] := m;
  }

  /** The groups emitted so far fill the end of the array, last one first; the rest is untouched. */
  ghost predicate StoredBackwards(ms: seq<Mapping>, emitted: seq<Mapping>, contents: seq<Mapping>) {
    |emitted| <= |ms| && contents == ms[..|ms| - |emitted|] + Reversed(emitted)
  }

  /** One turn of the queue loop. */
  method SortFront(groupsConfig: array<Mapping>, index0: nat, ghost ms: seq<Mapping>, ghost dead: set<string>,
                   graph0: map<string, Node>, queue0: seq<string>, ghost emitted0: seq<Mapping>)
    returns (index: nat, graph: map<string, Node>, queue: seq<string>, ghost emitted: seq<Mapping>)
    requires DistinctNames(ms) && SortState(ms, dead, graph0, queue0, emitted0) && |queue0| > 0
    requires |ms| == groupsConfig.Length && index0 == |emitted0| && StoredBackwards(ms, emitted0, groupsConfig[..])
    modifies groupsConfig
    ensures SortState(ms, dead + {queue0[0]}, graph, queue, emitted)
    ensures graph.Keys < graph0.Keys
    ensures index == |emitted| && StoredBackwards(ms, emitted, groupsConfig[..])
  {
    graph, queue := RetireFront(ms, dead, graph0, queue0, emitted0);
    index, emitted := index0, emitted0;
    var node := graph0[queue0[0]];
    if node.group.Some? {
      index := index + 1;
      StoreGroup(groupsConfig, index, node.group.value, ms, emitted);
      emitted := emitted + [node.group.value];
    } else {
      assert emitted + [] == emitted;
    }
  }

  method TopologicalSort(groupsConfig: array<Mapping>, graph0: map<string, Node>)
    returns (graph: map<string, Node>, ghost dead: set<string>, ghost emitted: seq<Mapping>)
    requires WellFormed(groupsConfig[..]) && FreshGraph(groupsConfig[..], graph0)
    modifies groupsConfig
    ensures SortState(old(groupsConfig[..]), dead, graph, [], emitted)
    ensures StoredBackwards(old(groupsConfig[..]), emitted, groupsConfig[..])
  {
    graph := graph0;
    ghost var ms := groupsConfig[..];
    var index := 0;
    dead, emitted := {}, [];
    var queue := CollectSources(graph);
    SortStarts(ms, graph, queue);
    while |queue| > 0
      invariant SortState(ms, dead, graph, queue, emitted)
      invariant index == |emitted| && StoredBackwards(ms, emitted, groupsConfig[..])
      decreases graph.Keys
    {
      ghost var name := queue[0];
      index, graph, queue, emitted := SortFront(groupsConfig, index, ms, dead, graph, queue, emitted);
      dead := dead + {name};
    }
    assert queue == [];
  }

  lemma PopQueue(queue: seq<string>, graph: map<string, Node>, name: string)
    requires |queue| > 0 && queue[0] == name && QueueHolds(queue, Sources(graph))
    ensures QueueHolds(queue[1..], Sources(graph - {name}))
  {
    assert Sources(graph - {name}) == Sources(graph) - {name};
    assert ElementsOf(queue) == {name} + ElementsOf(queue[1..]);
  }

  // ----- what the finished queue loop means -----

  /** Nodes left over are each listed by a node left over. */
  lemma LeftoverPredClosed(ms: seq<Mapping>, dead: set<string>, graph: map<string, Node>, emitted: seq<Mapping>)
    requires DistinctNames(ms) && SortState(ms, dead, graph, [], emitted)
    ensures PredClosed(GraphOf(ms), graph.Keys)
  {
    forall x | x in graph.Keys
      ensures HasPred(GraphOf(ms), graph.Keys, x)
    {
      assert x !in Sources(graph);
      OccPositive(ms, dead, x);
      var i :| 0 <= i < |ms| && ms[i].name !in dead && x in ms[i].proxies;
      EdgeMeansListed(ms, ms[i].name, x);
      NodesKnow(ms, ms[i].name);
    }
  }

  lemma EverythingEmitted(ms: seq<Mapping>, dead: set<string>, emitted: seq<Mapping>)
    requires Nodes(ms) <= dead && Emission(ms, dead, emitted)
    ensures |emitted| == |ms| && multiset(Reversed(emitted)) == multiset(ms) && DependencySorted(Reversed(emitted))
  {
    forall i | 0 <= i < |ms|
      ensures ms[i].name in dead
    {
      NodesKnow(ms, ms[i].name);
    }
    NoneRemain(ms, dead);
    EmissionSize(ms, dead, emitted);
    ReversedFacts(emitted);
  }

  lemma CycleStaysInNodes(ms: seq<Mapping>, p: seq<string>)
    requires DistinctNames(ms) && IsCycle(GraphOf(ms), p)
    ensures ElementsOf(p) <= Nodes(ms)
  {
    CycleIsClosed(GraphOf(ms), p);
    forall x | x in ElementsOf(p)
      ensures x in Nodes(ms)
    {
      assert HasSucc(GraphOf(ms), ElementsOf(p), x);
      var y :| y in ElementsOf(p) && Edge(GraphOf(ms), x, y);
      EdgeMeansListed(ms, x, y);
      NodesKnow(ms, x);
    }
  }

  lemma NothingLeftMeansAcyclic(ms: seq<Mapping>, dead: set<string>)
    requires DistinctNames(ms) && SparesPredClosed(GraphOf(ms), dead) && Nodes(ms) <= dead
    ensures Acyclic(GraphOf(ms))
  {
    forall p
      ensures !IsCycle(GraphOf(ms), p)
    {
      if IsCycle(GraphOf(ms), p) {
        assert p[0] in ElementsOf(p);
        CycleStaysInNodes(ms, p);
        CycleIsClosed(GraphOf(ms), p);
        assert false;
      }
    }
  }

  lemma {:induction false} RemainingAreLive(ms: seq<Mapping>, dead: set<string>, m: Mapping)
    requires m in Remaining(ms, dead)
    ensures m.name !in dead
  {
    if |ms| > 0 && m in Remaining(ms[..|ms| - 1], dead) {
      RemainingAreLive(ms[..|ms| - 1], dead, m);
    }
  }

  /** The groups retired by the queue loop are those with no loop behind them. */
  lemma RetiredIffNoCycleBehind(ms: seq<Mapping>, dead: set<string>, graph: map<string, Node>, emitted: seq<Mapping>, m: Mapping)
    requires DistinctNames(ms) && SortState(ms, dead, graph, [], emitted) && m in ms
    ensures m in emitted <==> !BelowCycle(GraphOf(ms), m.name)
  {
    assert m in emitted <==> m.name in dead by {
      assert m in multiset(ms);
      if m.name in dead && m in Remaining(ms, dead) {
        RemainingAreLive(ms, dead, m);
      }
    }
    if m.name in dead {
      if BelowCycle(GraphOf(ms), m.name) {
        var s := BelowCyclePredClosed(GraphOf(ms), m.name);
        assert false;
      }
    } else {
      var i :| 0 <= i < |ms| && ms[i] == m;
      NodesKnow(ms, m.name);
      LeftoverPredClosed(ms, dead, graph, emitted);
      PredClosedBelowCycle(GraphOf(ms), graph.Keys, m.name);
    }
  }

  /**
   What a failed sort leaves in the array: from `kept` on, each group with no loop behind it, in
   dependency order; before that, the input, so that some groups may now be there twice and others not at all.
   */
  ghost predicate PartlySorted(ms: seq<Mapping>, contents: seq<Mapping>, kept: nat) {
    && kept <= |ms| == |contents| && contents[..kept] == ms[..kept]
    && DependencySorted(contents[kept..]) && multiset(contents[kept..]) <= multiset(ms)
    && forall m :: m in contents[kept..] <==> m in ms && !BelowCycle(GraphOf(ms), m.name)
  }

  lemma LoopLeavesPartlySorted(ms: seq<Mapping>, dead: set<string>, graph: map<string, Node>, emitted: seq<Mapping>, contents: seq<Mapping>)
    requires DistinctNames(ms) && SortState(ms, dead, graph, [], emitted) && StoredBackwards(ms, emitted, contents)
    ensures PartlySorted(ms, contents, |ms| - |emitted|)
  {
    TailIsEmitted(ms, dead, emitted, contents);
    forall m
      ensures m in Reversed(emitted) <==> m in ms && !BelowCycle(GraphOf(ms), m.name)
    {
      assert m in Reversed(emitted) <==> m in multiset(Reversed(emitted));
      assert m in emitted <==> m in multiset(emitted);
      assert m in ms <==> m in multiset(ms);
      if m in ms {
        RetiredIffNoCycleBehind(ms, dead, graph, emitted, m);
      }
    }
  }

  lemma TailIsEmitted(ms: seq<Mapping>, dead: set<string>, emitted: seq<Mapping>, contents: seq<Mapping>)
    requires Emission(ms, dead, emitted) && StoredBackwards(ms, emitted, contents)
    ensures var kept := |ms| - |emitted|; |contents| == |ms| && contents[..kept] == ms[..kept] && contents[kept..] == Reversed(emitted)
    ensures multiset(Reversed(emitted)) == multiset(emitted) <= multiset(ms) && DependencySorted(Reversed(emitted))
  {
    ReversedFacts(emitted);
    assert multiset(emitted) <= multiset(emitted) + multiset(Remaining(ms, dead));
  }

  // ----- step 2.1: out-degrees and predecessors of what is left -----

  function MembersOf(ms: seq<Mapping>, x: string): seq<string> {
    match GroupNamed(ms, x)
    case None => []
    case Some(m) => m.proxies
  }

  /** `from` of x records every listing of x by f, provided f has been entered. */
  ghost predicate Recorded(ms: seq<Mapping>, done: set<string>, graph: map<string, Node>, x: string, f: string)
    requires x in graph
  {
    multiset(graph[x].from)[f] == if f in done then multiset(MembersOf(ms, f))[x] else 0
  }

  ghost predicate PredsRecorded(ms: seq<Mapping>, done: set<string>, graph: map<string, Node>) {
    forall x, f {:trigger Recorded(ms, done, graph, x, f)} :: x in graph ==> Recorded(ms, done, graph, x, f)
  }

  /** `done` are the nodes whose member lists have been entered. */
  ghost predicate EdgesEntered(ms: seq<Mapping>, live: set<string>, done: set<string>, graph: map<string, Node>) {
    && graph.Keys == live
    && (forall x :: x in live ==> graph[x].group == GroupNamed(ms, x))
    && (forall x :: x in live ==> graph[x].outdegree == if x in done then |MembersOf(ms, x)| else 0)
    && PredsRecorded(ms, done, graph)
  }

  ghost predicate PartlyRecorded(ms: seq<Mapping>, done: set<string>, name: string, j: nat, graph: map<string, Node>, x: string, f: string)
    requires x in graph && j <= |MembersOf(ms, name)|
  {
    multiset(graph[x].from)[f] == if f == name then multiset(MembersOf(ms, name)[..j])[x]
                                  else if f in done then multiset(MembersOf(ms, f))[x] else 0
  }

  ghost predicate EdgesPartlyEntered(ms: seq<Mapping>, live: set<string>, done: set<string>, name: string, j: nat, graph: map<string, Node>)
    requires j <= |MembersOf(ms, name)|
  {
    && graph.Keys == live
    && (forall x :: x in live ==> graph[x].group == GroupNamed(ms, x))
    && (forall x :: x in live ==> graph[x].outdegree == if x == name then j else if x in done then |MembersOf(ms, x)| else 0)
    && (forall x, f {:trigger PartlyRecorded(ms, done, name, j, graph, x, f)} :: x in graph ==> PartlyRecorded(ms, done, name, j, graph, x, f))
  }

  lemma EnterStarts(ms: seq<Mapping>, live: set<string>, done: set<string>, name: string, graph: map<string, Node>)
    requires EdgesEntered(ms, live, done, graph) && name !in done
    ensures EdgesPartlyEntered(ms, live, done, name, 0, graph)
  {
    forall x, f | x in graph
      ensures PartlyRecorded(ms, done, name, 0, graph, x, f)
    {
      assert Recorded(ms, done, graph, x, f);
    }
  }

  lemma EnterEnds(ms: seq<Mapping>, live: set<string>, done: set<string>, name: string, graph: map<string, Node>)
    requires EdgesPartlyEntered(ms, live, done, name, |MembersOf(ms, name)|, graph)
    ensures EdgesEntered(ms, live, done + {name}, graph)
  {
    var ps := MembersOf(ms, name);
    assert ps[..|ps|] == ps;
    forall x, f | x in graph
      ensures Recorded(ms, done + {name}, graph, x, f)
    {
      assert PartlyRecorded(ms, done, name, |ps|, graph, x, f);
    }
  }

  lemma EnterStep(ms: seq<Mapping>, live: set<string>, done: set<string>, name: string, j: nat,
                  before: map<string, Node>, middle: map<string, Node>, after: map<string, Node>)
    requires j < |MembersOf(ms, name)| && EdgesPartlyEntered(ms, live, done, name, j, before)
    requires name in live && MembersOf(ms, name)[j] in live
    requires middle == before[name := before[name].(outdegree := before[name].outdegree + 1)]
    requires var proxy := MembersOf(ms, name)[j]; after == middle[proxy := middle[proxy].(from := middle[proxy].from + [name])]
    ensures EdgesPartlyEntered(ms, live, done, name, j + 1, after)
  {
    var proxy, k := MembersOf(ms, name)[j], j + 1;
    forall x, f | x in after
      ensures PartlyRecorded(ms, done, name, k, after, x, f)
    {
      assert after[x].from == if x == proxy then before[x].from + [name] else before[x].from;
      EnterOne(ms, done, name, j, before, after, x, f);
    }
  }

  lemma EnterOne(ms: seq<Mapping>, done: set<string>, name: string, j: nat, before: map<string, Node>, after: map<string, Node>,
                 x: string, f: string)
    requires j < |MembersOf(ms, name)| && x in before && x in after && PartlyRecorded(ms, done, name, j, before, x, f)
    requires after[x].from == if x == MembersOf(ms, name)[j] then before[x].from + [name] else before[x].from
    ensures PartlyRecorded(ms, done, name, j + 1, after, x, f)
  {
    PrefixGrows(MembersOf(ms, name), j);
  }

  method RebuildEdges(ghost ms: seq<Mapping>, ghost dead: set<string>, graph0: map<string, Node>)
    returns (graph: map<string, Node>)
    requires DistinctNames(ms) && LiveGraph(ms, dead, graph0) && NobodyLists(ms, dead, dead)
    ensures EdgesEntered(ms, graph0.Keys, graph0.Keys, graph)
  {
    graph := graph0;
    ghost var live := graph0.Keys;
    var todo := graph.Keys;
    while todo != {}
      invariant todo <= live
      invariant EdgesEntered(ms, live, live - todo, graph)
    {
      var name :| name in todo;
      var proxies := if graph[name].group.Some? then graph[name].group.value.proxies else [];
      ghost var done := live - todo;
      GroupNamedAt(ms, name);
      assert proxies == MembersOf(ms, name);
      EnterStarts(ms, live, done, name, graph);
      for j := 0 to |proxies|
        invariant EdgesPartlyEntered(ms, live, done, name, j, graph)
      {
        var proxy := proxies[j];
        MembersAreLive(ms, dead, GroupNamed(ms, name).value, proxy);
        ghost var before := graph;
        graph := graph[name := graph[name].(outdegree := graph[name].outdegree + 1)];
        ghost var middle := graph;
        graph := graph[proxy := graph[proxy].(from := graph[proxy].from + [name])];
        EnterStep(ms, live, done, name, j, before, middle, graph);
      }
      EnterEnds(ms, live, done, name, graph);
      todo := todo - {name};
      assert live - todo == done + {name};
    }
    assert live - todo == live;
  }

  // ----- step 2.2: remove nodes that lead nowhere -----

  function OutLeft(ms: seq<Mapping>, x: string, gone: set<string>): nat {
    CountOutside(MembersOf(ms, x), gone)
  }

  ghost predicate Outdegrees(ms: seq<Mapping>, live: set<string>, gone: set<string>, graph: map<string, Node>) {
    && graph.Keys == live - gone
    && forall x :: x in graph ==> graph[x].outdegree == OutLeft(ms, x, gone)
  }

  ghost predicate DeadEnds(ms: seq<Mapping>, gone: set<string>) {
    forall x :: x in gone ==> OutLeft(ms, x, gone) == 0
  }

  /** No set in which everybody lists a member has lost anyone. */
  ghost predicate SparesSuccClosed(g: Graph, gone: set<string>) {
    forall s: set<string> {:trigger SuccClosed(g, s)} :: SuccClosed(g, s) ==> s !! gone
  }

  ghost predicate PeelState(ms: seq<Mapping>, live: set<string>, gone: set<string>, graph: map<string, Node>, queue: seq<string>) {
    && PredsRecorded(ms, live, graph) && Outdegrees(ms, live, gone, graph) && DeadEnds(ms, gone)
    && SparesSuccClosed(GraphOf(ms), gone)
    && QueueHolds(queue, Sinks(graph))
  }

  ghost predicate PartlyPeeled(ms: seq<Mapping>, live: set<string>, gone: set<string>, name: string, from: seq<string>, j: nat, graph: map<string, Node>)
    requires j <= |from|
  {
    && PredsRecorded(ms, live, graph) && graph.Keys == live - gone
    && forall x :: x in graph ==> graph[x].outdegree == OutLeft(ms, x, gone + {name}) + multiset(from[j..])[x]
  }

  lemma {:induction false} CountShrinks(ps: seq<string>, dead: set<string>, x: string)
    ensures CountOutside(ps, dead + {x}) <= CountOutside(ps, dead)
  {
    if |ps| > 0 {
      CountShrinks(ps[..|ps| - 1], dead, x);
    }
  }

  lemma MembersAreEdges(ms: seq<Mapping>, u: string, v: string)
    ensures Edge(GraphOf(ms), u, v) <==> v in MembersOf(ms, u)
  {
    GraphOfKnows(ms, u);
  }

  /** Everybody recorded as listing a node that is still there is still there. */
  lemma RecordedIsPresent(ms: seq<Mapping>, live: set<string>, gone: set<string>, graph: map<string, Node>, name: string, f: string)
    requires PredsRecorded(ms, live, graph) && graph.Keys == live - gone && DeadEnds(ms, gone)
    requires name in graph && f in graph[name].from
    ensures f in graph && name in MembersOf(ms, f)
  {
    assert Recorded(ms, live, graph, name, f);
    assert multiset(graph[name].from)[f] > 0;
    CountPositive(MembersOf(ms, f), gone);
  }

  lemma PeelStarts(ms: seq<Mapping>, live: set<string>, gone: set<string>, graph: map<string, Node>, name: string)
    requires PredsRecorded(ms, live, graph) && Outdegrees(ms, live, gone, graph) && name in graph
    ensures PartlyPeeled(ms, live, gone, name, graph[name].from, 0, graph)
  {
    var from := graph[name].from;
    assert from[0..] == from;
    forall x | x in graph
      ensures graph[x].outdegree == OutLeft(ms, x, gone + {name}) + multiset(from)[x]
    {
      CountDrop(MembersOf(ms, x), gone, name);
      assert Recorded(ms, live, graph, name, x);
    }
  }

  lemma KeepsRecords(ms: seq<Mapping>, live: set<string>, before: map<string, Node>, after: map<string, Node>)
    requires PredsRecorded(ms, live, before) && after.Keys <= before.Keys
    requires forall x :: x in after ==> after[x].from == before[x].from
    ensures PredsRecorded(ms, live, after)
  {
    forall x, f | x in after
      ensures Recorded(ms, live, after, x, f)
    {
      assert Recorded(ms, live, before, x, f);
    }
  }

  lemma PeelStep(ms: seq<Mapping>, live: set<string>, gone: set<string>, name: string, from: seq<string>, j: nat,
                 before: map<string, Node>, after: map<string, Node>)
    requires j < |from| && PartlyPeeled(ms, live, gone, name, from, j, before) && from[j] in before
    requires after == before[from[j] := before[from[j]].(outdegree := before[from[j]].outdegree - 1)]
    ensures before[from[j]].outdegree >= 1
    ensures PartlyPeeled(ms, live, gone, name, from, j + 1, after)
  {
    assert from[j..] == [from[j]] + from[j + 1..];
    KeepsRecords(ms, live, before, after);
  }

  lemma PeelSpares(ms: seq<Mapping>, gone: set<string>, name: string)
    requires SparesSuccClosed(GraphOf(ms), gone) && OutLeft(ms, name, gone) == 0
    ensures SparesSuccClosed(GraphOf(ms), gone + {name})
  {
    var g := GraphOf(ms);
    forall s: set<string> | SuccClosed(g, s)
      ensures s !! gone + {name}
    {
      if name in s {
        assert HasSucc(g, s, name);
        var y :| y in s && Edge(g, name, y);
        MembersAreEdges(ms, name, y);
        CountPositive(MembersOf(ms, name), gone);
        assert false;
      }
    }
  }

  lemma PeelEnds(ms: seq<Mapping>, live: set<string>, gone: set<string>, graph: map<string, Node>, queue: seq<string>, name: string, from: seq<string>)
    requires PartlyPeeled(ms, live, gone, name, from, |from|, graph) && DeadEnds(ms, gone)
    requires SparesSuccClosed(GraphOf(ms), gone) && OutLeft(ms, name, gone) == 0
    requires |queue| > 0 && queue[0] == name && name in graph && QueueHolds(queue, Sinks(graph))
    ensures PeelState(ms, live, gone + {name}, graph - {name}, queue[1..])
  {
    assert from[|from|..] == [];
    PeelSpares(ms, gone, name);
    assert Sinks(graph - {name}) == Sinks(graph) - {name};
    assert ElementsOf(queue) == {name} + ElementsOf(queue[1..]);
    forall x | x in gone + {name}
      ensures OutLeft(ms, x, gone + {name}) == 0
    {
      CountShrinks(MembersOf(ms, x), gone, name);
    }
    KeepsRecords(ms, live, graph, graph - {name});
  }

  method CollectSinks(graph: map<string, Node>) returns (queue: seq<string>)
    ensures QueueHolds(queue, Sinks(graph))
  {
    queue := [];
    var todo := graph.Keys;
    while todo != {}
      invariant todo <= graph.Keys
      invariant QueueHolds(queue, Sinks(graph) - todo)
    {
      var name :| name in todo;
      ghost var seen := Sinks(graph) - todo;
      todo := todo - {name};
      if graph[name].outdegree == 0 {
        queue := queue + [name];
        assert Sinks(graph) - todo == seen + {name};
      } else {
        assert Sinks(graph) - todo == seen;
      }
    }
    assert Sinks(graph) - todo == Sinks(graph);
  }

  /** Counts one node off everybody that lists it; nodes left without members join the queue. */
  method PeelListers(ghost ms: seq<Mapping>, ghost live: set<string>, ghost gone: set<string>, name: string,
                     graph0: map<string, Node>, queue0: seq<string>)
    returns (graph: map<string, Node>, queue: seq<string>)
    requires PeelState(ms, live, gone, graph0, queue0) && name in graph0
    ensures PartlyPeeled(ms, live, gone, name, graph0[name].from, |graph0[name].from|, graph)
    ensures queue0 <= queue && QueueHolds(queue, Sinks(graph))
  {
    graph, queue := graph0, queue0;
    var from := graph[name].from;
    PeelStarts(ms, live, gone, graph, name);
    for j := 0 to |from|
      invariant PartlyPeeled(ms, live, gone, name, from, j, graph)
      invariant queue0 <= queue && QueueHolds(queue, Sinks(graph))
    {
      RecordedIsPresent(ms, live, gone, graph0, name, from[j]);
      graph, queue := PeelLister(ms, live, gone, name, from, j, graph, queue);
    }
  }

  method PeelLister(ghost ms: seq<Mapping>, ghost live: set<string>, ghost gone: set<string>, ghost name: string,
                    from: seq<string>, j: nat, graph0: map<string, Node>, queue0: seq<string>)
    returns (graph: map<string, Node>, queue: seq<string>)
    requires j < |from| && PartlyPeeled(ms, live, gone, name, from, j, graph0) && from[j] in graph0
    requires QueueHolds(queue0, Sinks(graph0))
    ensures PartlyPeeled(ms, live, gone, name, from, j + 1, graph)
    ensures queue0 <= queue && QueueHolds(queue, Sinks(graph))
  {
    var f := from[j];
    graph := graph0[f := graph0[f].(outdegree := graph0[f].outdegree - 1)];
    PeelStep(ms, live, gone, name, from, j, graph0, graph);
    queue := QueueIfSink(graph0, graph, queue0, f);
  }

  method QueueIfSink(ghost before: map<string, Node>, graph: map<string, Node>, queue0: seq<string>, f: string) returns (queue: seq<string>)
    requires f in before && before[f].outdegree >= 1 && QueueHolds(queue0, Sinks(before))
    requires graph == before[f := before[f].(outdegree := before[f].outdegree - 1)]
    ensures queue0 <= queue && QueueHolds(queue, Sinks(graph))
  {
    queue := queue0;
    if graph[f].outdegree == 0 {
      assert f !in ElementsOf(queue);
      queue := queue + [f];
      assert Sinks(graph) == Sinks(before) + {f};
    } else {
      assert Sinks(graph) == Sinks(before);
    }
  }

  /** Takes a node without members left out of the graph. */
  method PeelFront(ghost ms: seq<Mapping>, ghost live: set<string>, ghost gone: set<string>, graph0: map<string, Node>, queue0: seq<string>)
    returns (graph: map<string, Node>, queue: seq<string>)
    requires PeelState(ms, live, gone, graph0, queue0) && |queue0| > 0
    ensures PeelState(ms, live, gone + {queue0[0]}, graph, queue)
    ensures graph.Keys < graph0.Keys
  {
    var name := queue0[0];
    assert name in ElementsOf(queue0);
    graph, queue := PeelListers(ms, live, gone, name, graph0, queue0);
    PeelEnds(ms, live, gone, graph, queue, name, graph0[name].from);
    graph, queue := graph - {name}, queue[1..];
  }

  lemma PeelBegins(ms: seq<Mapping>, live: set<string>, graph: map<string, Node>, queue: seq<string>)
    requires EdgesEntered(ms, live, live, graph) && QueueHolds(queue, Sinks(graph))
    ensures PeelState(ms, live, {}, graph, queue)
  {
    forall x | x in graph
      ensures graph[x].outdegree == OutLeft(ms, x, {})
    {
      CountPositive(MembersOf(ms, x), {});
    }
  }

  /** The greatest set of names that are each listed by, and each list, a member of the set. */
  ghost predicate IsLoopCore(g: Graph, core: set<string>) {
    Closed(g, core) && forall s {:trigger Closed(g, s)} :: Closed(g, s) ==> s <= core
  }

  ghost predicate ListsOnly(ms: seq<Mapping>, live: set<string>) {
    forall x, y :: x in live && y in MembersOf(ms, x) ==> y in live
  }

  lemma LiveListsOnlyLive(ms: seq<Mapping>, dead: set<string>)
    requires DistinctNames(ms) && NobodyLists(ms, dead, dead)
    ensures ListsOnly(ms, Nodes(ms) - dead)
  {
    forall x, y | x in Nodes(ms) - dead && y in MembersOf(ms, x)
      ensures y in Nodes(ms) - dead
    {
      GroupNamedAt(ms, x);
      MembersAreLive(ms, dead, GroupNamed(ms, x).value, y);
    }
  }

  /** Whoever lists a node that is still there is still there. */
  lemma PeeledPredClosed(ms: seq<Mapping>, live: set<string>, gone: set<string>)
    requires PredClosed(GraphOf(ms), live) && DeadEnds(ms, gone)
    ensures PredClosed(GraphOf(ms), live - gone)
  {
    var g := GraphOf(ms);
    forall x | x in live - gone
      ensures HasPred(g, live - gone, x)
    {
      assert HasPred(g, live, x);
      var f :| f in live && Edge(g, f, x);
      MembersAreEdges(ms, f, x);
      CountPositive(MembersOf(ms, f), gone);
      assert f in live - gone;
    }
  }

  lemma PeeledSuccClosed(ms: seq<Mapping>, live: set<string>, gone: set<string>)
    requires ListsOnly(ms, live) && forall x :: x in live - gone ==> OutLeft(ms, x, gone) > 0
    ensures SuccClosed(GraphOf(ms), live - gone)
  {
    var g := GraphOf(ms);
    forall x | x in live - gone
      ensures HasSucc(g, live - gone, x)
    {
      CountPositive(MembersOf(ms, x), gone);
      var y :| y in MembersOf(ms, x) && y !in gone;
      MembersAreEdges(ms, x, y);
      assert y in live - gone;
    }
  }

  /** What is left after both queue loops is the loop core of the whole configuration. */
  lemma PeeledIsCore(ms: seq<Mapping>, dead: set<string>, gone: set<string>, graph: map<string, Node>)
    requires DistinctNames(ms) && NobodyLists(ms, dead, dead) && SparesPredClosed(GraphOf(ms), dead)
    requires PredClosed(GraphOf(ms), Nodes(ms) - dead) && PeelState(ms, Nodes(ms) - dead, gone, graph, [])
    ensures graph.Keys == Nodes(ms) - dead - gone && IsLoopCore(GraphOf(ms), graph.Keys)
  {
    var live := Nodes(ms) - dead;
    PeeledPredClosed(ms, live, gone);
    LiveListsOnlyLive(ms, dead);
    forall x | x in live - gone
      ensures OutLeft(ms, x, gone) > 0
    {
      assert x !in Sinks(graph);
    }
    PeeledSuccClosed(ms, live, gone);
    forall s: set<string> | Closed(GraphOf(ms), s)
      ensures s <= live - gone
    {
      ClosedIsInNodes(ms, s);
      assert s !! dead && s !! gone;
    }
  }

  lemma ClosedIsInNodes(ms: seq<Mapping>, s: set<string>)
    requires DistinctNames(ms) && Closed(GraphOf(ms), s)
    ensures s <= Nodes(ms)
  {
    forall x | x in s
      ensures x in Nodes(ms)
    {
      assert HasSucc(GraphOf(ms), s, x);
      var y :| y in s && Edge(GraphOf(ms), x, y);
      EdgeMeansListed(ms, x, y);
      NodesKnow(ms, x);
    }
  }

  /** Empties the graph into a list of names, in some order. */
  method ReportNames(graph0: map<string, Node>) returns (names: seq<string>)
    ensures QueueHolds(names, graph0.Keys)
  {
    var graph := graph0;
    names := [];
    while graph.Keys != {}
      invariant graph.Keys <= graph0.Keys
      invariant QueueHolds(names, graph0.Keys - graph.Keys)
      decreases graph.Keys
    {
      var name :| name in graph.Keys;
      ghost var before := graph0.Keys - graph.Keys;
      names := names + [name];
      graph := graph - {name};
      assert graph0.Keys - graph.Keys == before + {name};
    }
    assert graph0.Keys - graph.Keys == graph0.Keys;
  }

  method LocateLoop(ghost ms: seq<Mapping>, ghost dead: set<string>, ghost emitted: seq<Mapping>, graph0: map<string, Node>)
    returns (names: seq<string>)
    requires DistinctNames(ms) && SortState(ms, dead, graph0, [], emitted)
    ensures forall i, j :: 0 <= i < j < |names| ==> names[i] != names[j]
    ensures IsLoopCore(GraphOf(ms), ElementsOf(names))
  {
    LeftoverPredClosed(ms, dead, graph0, emitted);
    ghost var live := Nodes(ms) - dead;
    var graph := RebuildEdges(ms, dead, graph0);
    var queue := CollectSinks(graph);
    PeelBegins(ms, live, graph, queue);
    ghost var gone: set<string> := {};
    while |queue| > 0
      invariant PeelState(ms, live, gone, graph, queue)
      decreases graph.Keys
    {
      ghost var name := queue[0];
      graph, queue := PeelFront(ms, live, gone, graph, queue);
      gone := gone + {name};
    }
    assert queue == [];
    PeeledIsCore(ms, dead, gone, graph);
    names := ReportNames(graph);
  }

  // ----- the whole sort -----

  /**
   Sorts the groups in place, or says why that is impossible. On a loop the groups sorted so far
   have overwritten the end of the array, from `kept` on.
   */
  method SortProxyGroups(groupsConfig: array<Mapping>) returns (r: Outcome, ghost kept: nat)
    modifies groupsConfig
    ensures r.Sorted? <==> WellFormed(old(groupsConfig[..])) && Acyclic(GraphOf(old(groupsConfig[..])))
    ensures r.Sorted? ==> multiset(groupsConfig[..]) == multiset(old(groupsConfig[..])) && DependencySorted(groupsConfig[..])
    ensures r.LoopDetected? ==> WellFormed(old(groupsConfig[..])) && IsLoopCore(GraphOf(old(groupsConfig[..])), ElementsOf(r.names))
    ensures r.LoopDetected? ==> |r.names| > 0 && forall i, j :: 0 <= i < j < |r.names| ==> r.names[i] != r.names[j]
    ensures r.LoopDetected? ==> PartlySorted(old(groupsConfig[..]), groupsConfig[..], kept)
    ensures r.DecodeFailed? || r.DuplicateName? ==>
      FirstFault(old(groupsConfig[..]), r) && groupsConfig[..] == old(groupsConfig[..])
  {
    ghost var ms := groupsConfig[..];
    kept := 0;
    var graph;
    r, graph := BuildGraph(groupsConfig);
    if !r.Sorted? {
      FaultIsNotWellFormed(ms, r);
      return;
    }
    ghost var dead, emitted;
    graph, dead, emitted := TopologicalSort(groupsConfig, graph);
    if |graph| == 0 {
      NothingLeftMeansSorted(ms, dead, graph, emitted, groupsConfig[..]);
      r := Sorted;
      return;
    }
    var names := ReportLoop(ms, dead, emitted, graph);
    LoopLeavesPartlySorted(ms, dead, graph, emitted, groupsConfig[..]);
    r, kept := LoopDetected(names), |ms| - |emitted|;
  }

  lemma NothingLeftMeansSorted(ms: seq<Mapping>, dead: set<string>, graph: map<string, Node>, emitted: seq<Mapping>, contents: seq<Mapping>)
    requires DistinctNames(ms) && SortState(ms, dead, graph, [], emitted) && StoredBackwards(ms, emitted, contents) && |graph| == 0
    ensures Acyclic(GraphOf(ms)) && multiset(contents) == multiset(ms) && DependencySorted(contents)
  {
    NobodyLeft(ms, dead, graph);
    EverythingEmitted(ms, dead, emitted);
    EverythingStored(ms, emitted, contents);
    NothingLeftMeansAcyclic(ms, dead);
  }

  lemma NobodyLeft(ms: seq<Mapping>, dead: set<string>, graph: map<string, Node>)
    requires LiveGraph(ms, dead, graph) && |graph| == 0
    ensures Nodes(ms) <= dead
  {
    assert graph.Keys == {};
  }

  lemma EverythingStored(ms: seq<Mapping>, emitted: seq<Mapping>, contents: seq<Mapping>)
    requires StoredBackwards(ms, emitted, contents) && |emitted| == |ms|
    ensures contents == Reversed(emitted)
  {
    assert ms[..0] + Reversed(emitted) == Reversed(emitted);
  }

  method ReportLoop(ghost ms: seq<Mapping>, ghost dead: set<string>, ghost emitted: seq<Mapping>, graph: map<string, Node>) returns (names: seq<string>)
    requires DistinctNames(ms) && SortState(ms, dead, graph, [], emitted) && |graph| != 0
    ensures !Acyclic(GraphOf(ms)) && IsLoopCore(GraphOf(ms), ElementsOf(names))
    ensures |names| > 0 && forall i, j :: 0 <= i < j < |names| ==> names[i] != names[j]
  {
    LeftoverIsCyclic(ms, dead, graph, emitted);
    names := LocateLoop(ms, dead, emitted, graph);
    CoreOfCyclic(GraphOf(ms), ElementsOf(names));
    assert ElementsOf(names) != {};
  }

  lemma FaultIsNotWellFormed(ms: seq<Mapping>, r: Outcome)
    requires FirstFault(ms, r)
    ensures !WellFormed(ms)
  {
  }

  lemma LeftoverIsCyclic(ms: seq<Mapping>, dead: set<string>, graph: map<string, Node>, emitted: seq<Mapping>)
    requires DistinctNames(ms) && SortState(ms, dead, graph, [], emitted) && |graph| != 0
    ensures !Acyclic(GraphOf(ms))
  {
    LeftoverPredClosed(ms, dead, graph, emitted);
    var x :| x in graph.Keys;
    PredClosedBelowCycle(GraphOf(ms), graph.Keys, x);
    CycleFromBelow(GraphOf(ms), x);
  }

  lemma CoreOfCyclic(g: Graph, core: set<string>)
    requires IsLoopCore(g, core)
    ensures core == {} <==> Acyclic(g)
    ensures forall p :: IsCycle(g, p) ==> ElementsOf(p) <= core
  {
    forall p | IsCycle(g, p)
      ensures ElementsOf(p) <= core && core != {}
    {
      CycleIsClosed(g, p);
      assert p[0] in ElementsOf(p);
    }
    if core != {} {
      var x :| x in core;
      PredClosedBelowCycle(g, core, x);
      CycleFromBelow(g, x);
    }
  }

  // ----- what the reported names are -----

  /**
   The locator reports exactly the names with a cycle behind them and a cycle ahead of them:
   every name on a cycle, and every name on a walk from one cycle to another.
   */
  lemma ReportedIffBetweenCycles(g: Graph, core: set<string>, x: string)
    requires IsLoopCore(g, core)
    ensures x in core <==> BelowCycle(g, x) && AboveCycle(g, x)
  {
    if x in core {
      PredClosedBelowCycle(g, core, x);
      SuccClosedAboveCycle(g, core, x);
    }
    if BelowCycle(g, x) && AboveCycle(g, x) {
      var s := BetweenCyclesClosed(g, x);
    }
  }

  /** Every reported name is a group. */
  lemma ReportedAreGroups(ms: seq<Mapping>, core: set<string>, x: string)
    requires DistinctNames(ms) && IsLoopCore(GraphOf(ms), core) && x in core
    ensures exists i :: 0 <= i < |ms| && ms[i].name == x
  {
    assert HasSucc(GraphOf(ms), core, x);
    var y :| y in core && Edge(GraphOf(ms), x, y);
    EdgeMeansListed(ms, x, y);
  }

  /** Reported names need not be on a loop themselves: "m" only joins two of them. */
  lemma ReportedButOnNoCycle(core: set<string>) returns (ms: seq<Mapping>)
    requires IsLoopCore(map["a" := ["a", "m"], "m" := ["z"], "z" := ["z"]], core)
    ensures WellFormed(ms) && IsLoopCore(GraphOf(ms), core) && "m" in core && !OnCycle(GraphOf(ms), "m")
  {
    var g: Graph := map["a" := ["a", "m"], "m" := ["z"], "z" := ["z"]];
    ms := ThreeGroups();
    assert IsCycle(g, ["a", "a"]) && IsCycle(g, ["z", "z"]);
    assert ["a", "a"][0] == "a" && ["z", "z"][0] == "z";
    assert Walk(g, ["a", "m"]) && Walk(g, ["m", "z"]);
    assert ["a", "m"][0] == "a" && ["m", "z"][1] == "z";
    ReportedIffBetweenCycles(g, core, "m");
    if p :| IsCycle(g, p) && p[0] == "m" {
      assert Edge(g, p[0], p[0 + 1]);
      StaysAtZ(g, p, |p| - 1);
    }
  }

  lemma ThreeGroups() returns (ms: seq<Mapping>)
    ensures WellFormed(ms) && GraphOf(ms) == map["a" := ["a", "m"], "m" := ["z"], "z" := ["z"]]
  {
    var a, m, z := Mapping(true, "a", ["a", "m"]), Mapping(true, "m", ["z"]), Mapping(true, "z", ["z"]);
    ms := [a, m, z];
    assert ms[..2] == [a, m] && [a, m][..1] == [a] && [a][..0] == [];
    assert GraphOf([a]) == map["a" := ["a", "m"]];
    assert GraphOf([a, m]) == map["a" := ["a", "m"], "m" := ["z"]];
  }

  lemma {:induction false} StaysAtZ(g: Graph, p: seq<string>, i: nat)
    requires g == map["a" := ["a", "m"], "m" := ["z"], "z" := ["z"]]
    requires Walk(g, p) && p[0] == "m" && 0 < i < |p|
    ensures p[i] == "z"
  {
    if i > 1 {
      StaysAtZ(g, p, i - 1);
    }
    assert Edge(g, p[i - 1], p[i - 1 + 1]);
  }
}
