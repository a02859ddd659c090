/**
 The two recursive reference checks of the configuration loader: dialer-proxy references
 between proxies, and SUB-RULE references between named rule lists. Both walk the references
 depth first with the path so far at hand.
 */
module DialerProxyCheck {
  import opened Graphs

  datatype Outcome =
    | Valid
    | NotFound(name: string, dialerProxy: string)
    | Circular(name: string)

  /** The dialer-proxy references as a graph with at most one edge per name. */
  function References(graph: map<string, string>): Graph {
    map x | x in graph :: [graph[x]]
  }

  /** The references of all proxies that configure a dialer-proxy. */
  function DialerGraph(proxies: map<string, string>): map<string, string> {
    map x | x in proxies && proxies[x] != "" :: proxies[x]
  }

  /** Following the only reference neither gains nor loses a cycle ahead. */
  lemma FollowReference(graph: map<string, string>, x: string)
    requires x in graph
    ensures AboveCycle(References(graph), x) <==> AboveCycle(References(graph), graph[x])
  {
    var g := References(graph);
    var y := graph[x];
    if AboveCycle(g, y) {
      var p :| Walk(g, p) && p[0] == y && OnCycle(g, p[|p| - 1]);
      PrependWalk(g, x, p);
    }
    if AboveCycle(g, x) {
      var p :| Walk(g, p) && p[0] == x && OnCycle(g, p[|p| - 1]);
      if |p| == 1 {
        var c :| IsCycle(g, c) && c[0] == x;
        SubWalk(g, c, 1, |c| - 1);
        assert Edge(g, c[0], c[0 + 1]);
        assert WalkFromTo(g, c[1..|c| - 1 + 1], y, x);
      } else {
        SubWalk(g, p, 1, |p| - 1);
        assert Edge(g, p[0], p[0 + 1]);
        assert WalkFromTo(g, p[1..|p| - 1 + 1], y, p[|p| - 1]);
      }
    }
  }

  lemma NoReferenceNoCycle(graph: map<string, string>, x: string)
    requires x !in graph
    ensures !AboveCycle(References(graph), x)
  {
    var g := References(graph);
    if p :| Walk(g, p) && p[0] == x && OnCycle(g, p[|p| - 1]) {
      if |p| == 1 {
        var c :| IsCycle(g, c) && c[0] == x;
        assert Edge(g, c[0], c[0 + 1]);
      } else {
        assert Edge(g, p[0], p[0 + 1]);
      }
    }
  }

  /** The path so far leads along references to `current`, and names visited off the path are harmless. */
  ghost predicate Exploring(graph: map<string, string>, current: string, visited: set<string>, path: seq<string>) {
    && Walk(References(graph), path + [current])
    && ElementsOf(path) <= visited
    && forall v :: v in visited && v !in path ==> !AboveCycle(References(graph), v)
  }

  /** Whether following references from `current` runs into a cycle; `visited` is a table the calls share. */
  method HasCycle(current: string, graph: map<string, string>, visited0: set<string>, path0: seq<string>)
    returns (found: bool, visited: set<string>)
    requires Exploring(graph, current, visited0, path0)
    ensures found <==> AboveCycle(References(graph), current)
    decreases graph.Keys - visited0
  {
    visited := visited0;
    ghost var g := References(graph);
    for i := 0 to |path0|
      invariant forall k :: 0 <= k < i ==> path0[k] != current
    {
      if path0[i] == current {
        var p := path0 + [current];
        RepetitionIsCycle(g, p, i, |path0|);
        assert Walk(g, [current]) && OnCycle(g, current);
        return true, visited;
      }
    }
    if current in visited {
      return false, visited;
    }
    visited := visited + {current};
    var path := path0 + [current];
    if current in graph {
      var dialerProxy := graph[current];
      ExtendWalk(g, path, dialerProxy);
      FollowReference(graph, current);
      found, visited := HasCycle(dialerProxy, graph, visited, path);
      return found, visited;
    }
    NoReferenceNoCycle(graph, current);
    return false, visited;
  }

  lemma CycleIffSomeAbove(graph: map<string, string>)
    ensures Acyclic(References(graph)) <==> forall x :: x in graph ==> !AboveCycle(References(graph), x)
  {
    var g := References(graph);
    forall x | x in graph && AboveCycle(g, x)
      ensures !Acyclic(g)
    {
      CycleFromBelow(g, x);
    }
    forall p | IsCycle(g, p)
      ensures exists x :: x in graph && AboveCycle(g, x)
    {
      assert Edge(g, p[0], p[0 + 1]);
      assert Walk(g, [p[0]]) && OnCycle(g, p[0]);
      assert AboveCycle(g, p[0]);
    }
  }

  /** Checks every proxy's dialer-proxy; `proxies` maps each proxy to its dialer-proxy, "" for none. */
  method ValidateDialerProxies(proxies: map<string, string>) returns (r: Outcome)
    ensures r.Valid? <==>
      (forall x :: x in DialerGraph(proxies) ==> proxies[x] in proxies) && Acyclic(References(DialerGraph(proxies)))
    ensures r.NotFound? ==> r.name in proxies && proxies[r.name] == r.dialerProxy != "" && r.dialerProxy !in proxies
    ensures r.Circular? ==> r.name in proxies && AboveCycle(References(DialerGraph(proxies)), r.name)
  {
    var graph: map<string, string> := map[];
    var todo := proxies.Keys;
    while todo != {}
      invariant todo <= proxies.Keys
      invariant graph == map x | x in DialerGraph(proxies) && x !in todo :: proxies[x]
      invariant forall x :: x in graph ==> proxies[x] in proxies
    {
      var name :| name in todo;
      todo := todo - {name};
      var dialerProxy := proxies[name];
      if dialerProxy != "" {
        if dialerProxy !in proxies {
          assert name in DialerGraph(proxies);
          return NotFound(name, dialerProxy);
        }
        graph := graph[name := dialerProxy];
      }
    }
    assert graph == DialerGraph(proxies);
    CycleIffSomeAbove(graph);
    todo := graph.Keys;
    while todo != {}
      invariant todo <= graph.Keys
      invariant forall x :: x in graph && x !in todo ==> !AboveCycle(References(graph), x)
    {
      var name :| name in todo;
      todo := todo - {name};
      var found, _ := HasCycle(name, graph, {}, []);
      if found {
        return Circular(name);
      }
    }
    return Valid;
  }
}

module SubRuleCheck {
  import opened Graphs

  /** One rule of a list: whether it is a SUB-RULE, and the name it hands over to. */
  datatype Rule = Rule(isSubRule: bool, adapter: string)

  datatype Outcome =
    | Valid
    | NotFound(index: nat, list: string, adapter: string)
    | Circular(chain: seq<string>)

  function SubRuleNames(rules: seq<Rule>): seq<string> {
    if |rules| == 0 then []
    else
      var last := rules[|rules| - 1];
      SubRuleNames(rules[..|rules| - 1]) + if last.isSubRule then [last.adapter] else []
  }

  function References(subRules: map<string, seq<Rule>>): Graph {
    map n | n in subRules :: SubRuleNames(subRules[n])
  }

  lemma {:induction false} SubRuleNamesKnow(rules: seq<Rule>, a: string)
    ensures a in SubRuleNames(rules) <==> exists i :: 0 <= i < |rules| && rules[i].isSubRule && rules[i].adapter == a
  {
    if |rules| > 0 {
      var n := |rules| - 1;
      SubRuleNamesKnow(rules[..n], a);
      if i :| 0 <= i < |rules| && rules[i].isSubRule && rules[i].adapter == a {
        if i < n {
          assert rules[..n][i] == rules[i];
        }
      }
      if i :| 0 <= i < n && rules[..n][i].isSubRule && rules[..n][i].adapter == a {
        assert rules[..n][i] == rules[i];
      }
    }
  }

  lemma EdgeMeansRule(subRules: map<string, seq<Rule>>, n: string, a: string)
    ensures Edge(References(subRules), n, a) <==>
      n in subRules && exists i :: 0 <= i < |subRules[n]| && subRules[n][i].isSubRule && subRules[n][i].adapter == a
  {
    if n in subRules {
      SubRuleNamesKnow(subRules[n], a);
    }
  }

  /** The names of a chain are distinct existing lists, each referring to the next. */
  ghost predicate IsPath(subRules: map<string, seq<Rule>>, arr: seq<string>) {
    && Walk(References(subRules), arr)
    && (forall i :: 0 <= i < |arr| ==> arr[i] in subRules)
    && forall i, j :: 0 <= i < j < |arr| ==> arr[i] != arr[j]
  }

  /** Every walk from n stays inside the existing lists and never comes to a list of `arr`. */
  ghost predicate CleanFrom(subRules: map<string, seq<Rule>>, n: string, arr: seq<string>) {
    forall p :: Walk(References(subRules), p) && p[0] == n ==>
      p[|p| - 1] in subRules && (|p| >= 2 ==> p[|p| - 1] !in arr)
  }

  lemma CleanStep(subRules: map<string, seq<Rule>>, n: string, arr: seq<string>)
    requires n in subRules
    requires forall i :: 0 <= i < |subRules[n]| && subRules[n][i].isSubRule ==>
      subRules[n][i].adapter !in arr && CleanFrom(subRules, subRules[n][i].adapter, arr + [subRules[n][i].adapter])
    ensures CleanFrom(subRules, n, arr)
  {
    var g := References(subRules);
    forall p | Walk(g, p) && p[0] == n
      ensures p[|p| - 1] in subRules && (|p| >= 2 ==> p[|p| - 1] !in arr)
    {
      if |p| >= 2 {
        assert Edge(g, p[0], p[0 + 1]);
        EdgeMeansRule(subRules, n, p[1]);
        SubWalk(g, p, 1, |p| - 1);
        var q := p[1..|p| - 1 + 1];
        assert Walk(g, q) && q[0] == p[1];
      }
    }
  }

  /** What an error says about the references. */
  ghost predicate ErrorHolds(subRules: map<string, seq<Rule>>, r: Outcome) {
    match r
    case Valid => true
    case NotFound(index, list, adapter) =>
      list in subRules && index < |subRules[list]| && subRules[list][index] == Rule(true, adapter) && adapter !in subRules
    case Circular(chain) => |chain| >= 2 && Walk(References(subRules), chain) && chain[|chain| - 1] in chain[..|chain| - 1]
  }

  /** A rule that is no SUB-RULE, or one after which no walk leaves the lists or comes back to the path. */
  ghost predicate CleanRule(subRules: map<string, seq<Rule>>, rule: Rule, arr: seq<string>) {
    rule.isSubRule ==> rule.adapter !in arr && CleanFrom(subRules, rule.adapter, arr + [rule.adapter])
  }

  lemma PathGoesOn(subRules: map<string, seq<Rule>>, n: string, i: nat, arr0: seq<string>)
    requires IsPath(subRules, arr0 + [n]) && n in subRules && i < |subRules[n]| && subRules[n][i].isSubRule
    ensures Walk(References(subRules), arr0 + [n] + [subRules[n][i].adapter])
    ensures subRules[n][i].adapter in subRules && subRules[n][i].adapter !in arr0 + [n] ==> IsPath(subRules, arr0 + [n] + [subRules[n][i].adapter])
  {
    EdgeMeansRule(subRules, n, subRules[n][i].adapter);
    ExtendWalk(References(subRules), arr0 + [n], subRules[n][i].adapter);
  }

  lemma FewerLeft(subRules: map<string, seq<Rule>>, n: string, arr0: seq<string>)
    requires IsPath(subRules, arr0 + [n])
    ensures n in subRules && subRules.Keys - ElementsOf(arr0 + [n]) < subRules.Keys - ElementsOf(arr0)
  {
    var arr := arr0 + [n];
    assert arr[|arr0|] == n;
    forall i | 0 <= i < |arr0|
      ensures arr0[i] != n
    {
      assert arr[i] != arr[|arr0|];
    }
    assert n in subRules.Keys - ElementsOf(arr0) && n in arr && ElementsOf(arr0) <= ElementsOf(arr);
  }

  /** `arr` is extended by n, the list being checked; a nil error is Valid. */
  method VerifyCircularReferences(n: string, subRules: map<string, seq<Rule>>, arr0: seq<string>) returns (r: Outcome)
    requires IsPath(subRules, arr0 + [n])
    ensures r.Valid? ==> CleanFrom(subRules, n, arr0 + [n])
    ensures ErrorHolds(subRules, r) && (r.Circular? ==> arr0 + [n] <= r.chain)
    decreases subRules.Keys - ElementsOf(arr0), 1
  {
    var arr := arr0 + [n];
    FewerLeft(subRules, n, arr0);
    var rules := subRules[n];
    for i := 0 to |rules|
      invariant forall k :: 0 <= k < i ==> CleanRule(subRules, rules[k], arr)
    {
      if rules[i].isSubRule {
        r := FollowSubRule(n, i, subRules, arr0);
        if !r.Valid? {
          return r;
        }
      }
    }
    assert forall k :: 0 <= k < |rules| ==> CleanRule(subRules, rules[k], arr);
    CleanStep(subRules, n, arr);
    return Valid;
  }

  /** One turn of the loop, for a SUB-RULE. */
  method FollowSubRule(n: string, i: nat, subRules: map<string, seq<Rule>>, arr0: seq<string>) returns (r: Outcome)
    requires IsPath(subRules, arr0 + [n]) && n in subRules && i < |subRules[n]| && subRules[n][i].isSubRule
    ensures r.Valid? ==> CleanRule(subRules, subRules[n][i], arr0 + [n])
    ensures ErrorHolds(subRules, r) && (r.Circular? ==> arr0 + [n] <= r.chain)
    decreases subRules.Keys - ElementsOf(arr0), 0
  {
    var arr := arr0 + [n];
    var rule := subRules[n][i];
    if rule.adapter !in subRules {
      return NotFound(i, n, rule.adapter);
    }
    PathGoesOn(subRules, n, i, arr0);
    if rule.adapter in arr {
      assert (arr + [rule.adapter])[..|arr|] == arr;
      return Circular(arr + [rule.adapter]);
    }
    FewerLeft(subRules, n, arr0);
    r := VerifyCircularReferences(rule.adapter, subRules, arr);
  }

  ghost predicate AllReferencesExist(subRules: map<string, seq<Rule>>) {
    forall n, a :: Edge(References(subRules), n, a) ==> a in subRules
  }

  lemma ChainClosesCycle(g: Graph, chain: seq<string>)
    requires Walk(g, chain) && |chain| >= 2 && chain[|chain| - 1] in chain[..|chain| - 1]
    ensures !Acyclic(g)
  {
    var i :| 0 <= i < |chain| - 1 && chain[..|chain| - 1][i] == chain[|chain| - 1];
    RepetitionIsCycle(g, chain, i, |chain| - 1);
  }

  lemma AllCleanMeansValid(subRules: map<string, seq<Rule>>)
    requires forall n {:trigger CleanFrom(subRules, n, [n])} :: n in subRules ==> CleanFrom(subRules, n, [n])
    ensures AllReferencesExist(subRules) && Acyclic(References(subRules))
  {
    var g := References(subRules);
    forall n, a | Edge(g, n, a)
      ensures a in subRules
    {
      assert CleanFrom(subRules, n, [n]);
      assert Walk(g, [n, a]) && [n, a][0] == n;
    }
    forall p
      ensures !IsCycle(g, p)
    {
      if |p| >= 2 && Edge(g, p[0], p[0 + 1]) {
        assert CleanFrom(subRules, p[0], [p[0]]);
      }
    }
  }

  lemma ErrorMeansInvalid(subRules: map<string, seq<Rule>>, r: Outcome)
    requires ErrorHolds(subRules, r) && !r.Valid?
    ensures !(AllReferencesExist(subRules) && Acyclic(References(subRules)))
  {
    if r.NotFound? {
      EdgeMeansRule(subRules, r.list, r.adapter);
    } else {
      ChainClosesCycle(References(subRules), r.chain);
    }
  }

  /** Nil exactly when every reference exists and no list refers back to itself, directly or not. */
  method VerifySubRules(subRules: map<string, seq<Rule>>) returns (r: Outcome)
    ensures r.Valid? <==> AllReferencesExist(subRules) && Acyclic(References(subRules))
    ensures ErrorHolds(subRules, r)
  {
    var todo := subRules.Keys;
    while todo != {}
      invariant todo <= subRules.Keys
      invariant forall n {:trigger CleanFrom(subRules, n, [n])} :: n in subRules && n !in todo ==> CleanFrom(subRules, n, [n])
    {
      var name :| name in todo;
      todo := todo - {name};
      assert [] + [name] == [name];
      r := VerifyCircularReferences(name, subRules, []);
      if !r.Valid? {
        ErrorMeansInvalid(subRules, r);
        return r;
      }
    }
    AllCleanMeansValid(subRules);
    return Valid;
  }
}
