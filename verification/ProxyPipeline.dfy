/**
 How a proxy group makes its proxy list out of its providers' lists: filter, reorder by filter,
 exclude by name and by type.
 */
module ProxyPipeline {
  import opened Options

  datatype Proxy = Proxy(name: string, kind: string, id: nat)

  /** `compatible` has one entry per provider; compatible providers are not filtered. */
  datatype Config = Config(
    compatible: seq<bool>, filters: seq<string -> bool>, excludes: seq<string -> bool>, excludeKind: Option<string -> bool>)

  /** How often the list of provider i is read: once for each filter, or once. */
  function Calls(cfg: Config, i: nat): nat
    requires i < |cfg.compatible|
  {
    if |cfg.filters| == 0 || cfg.compatible[i] then 1 else |cfg.filters|
  }

  /** The lists read, provider by provider. */
  type Reads = seq<seq<seq<Proxy>>>

  predicate ReadsFit(cfg: Config, lists: Reads) {
    |lists| == |cfg.compatible| && forall i :: 0 <= i < |lists| ==> |lists[i]| == Calls(cfg, i)
  }

  function NamesOf(ps: seq<Proxy>): set<string> {
    set p | p in ps :: p.name
  }

  /** One pass with one filter: the first proxy of each new name that matches. */
  function Sift(ps: seq<Proxy>, mat: string -> bool, seen: set<string>): seq<Proxy> {
    if |ps| == 0 then []
    else if mat(ps[0].name) && ps[0].name !in seen then [ps[0]] + Sift(ps[1..], mat, seen + {ps[0].name})
    else Sift(ps[1..], mat, seen)
  }

  /** One pass for each filter, each over the list read for it. */
  function Passes(filters: seq<string -> bool>, lists: seq<seq<Proxy>>, seen: set<string>): seq<Proxy>
    requires |lists| == |filters|
  {
    if |filters| == 0 then []
    else
      var r := Sift(lists[0], filters[0], seen);
      r + Passes(filters[1..], lists[1..], seen + NamesOf(r))
  }

  function FromProvider(cfg: Config, i: nat, lists: seq<seq<Proxy>>): seq<Proxy>
    requires i < |cfg.compatible| && |lists| == Calls(cfg, i)
  {
    if |cfg.filters| == 0 || cfg.compatible[i] then lists[0] else Passes(cfg.filters, lists, {})
  }

  function Gathered(cfg: Config, lists: Reads, n: nat): seq<Proxy>
    requires ReadsFit(cfg, lists) && n <= |lists|
  {
    if n == 0 then [] else Gathered(cfg, lists, n - 1) + FromProvider(cfg, n - 1, lists[n - 1])
  }

  const MATCH_ALL: string -> bool := (name: string) => true

  /** The list reordered as a whole by first matching filter, unmatched names last. */
  function Reordered(filters: seq<string -> bool>, ps: seq<Proxy>): seq<Proxy> {
    Passes(filters + [MATCH_ALL], seq(|filters| + 1, _ => ps), {})
  }

  predicate Excluded(excludes: seq<string -> bool>, name: string) {
    exists i :: 0 <= i < |excludes| && excludes[i](name)
  }

  /** The list without the proxies that are ruled out. */
  function Keep(ps: seq<Proxy>, out: Proxy -> bool): seq<Proxy> {
    if |ps| == 0 then []
    else (if out(ps[0]) then [] else [ps[0]]) + Keep(ps[1..], out)
  }

  function ByName(excludes: seq<string -> bool>): Proxy -> bool {
    (p: Proxy) => Excluded(excludes, p.name)
  }

  function ByKind(kind: string -> bool): Proxy -> bool {
    (p: Proxy) => kind(p.kind)
  }

  /** The whole pipeline; an empty result is replaced by the fallback later. */
  function Pipeline(cfg: Config, lists: Reads): seq<Proxy>
    requires ReadsFit(cfg, lists)
  {
    var gathered := Gathered(cfg, lists, |lists|);
    var ordered := if |cfg.compatible| > 1 && |cfg.filters| > 1 then Reordered(cfg.filters, gathered) else gathered;
    var named := if |cfg.excludes| > 0 then Keep(ordered, ByName(cfg.excludes)) else ordered;
    if cfg.excludeKind.Some? then Keep(named, ByKind(cfg.excludeKind.value)) else named
  }

  // ----- what the passes produce -----

  ghost predicate DistinctNames(ps: seq<Proxy>) {
    forall i, j :: 0 <= i < j < |ps| ==> ps[i].name != ps[j].name
  }

  /** The position of the first filter that matches; the number of filters if none does. */
  function Rank(filters: seq<string -> bool>, name: string): (r: nat)
    ensures r <= |filters|
  {
    if |filters| == 0 || filters[0](name) then 0 else 1 + Rank(filters[1..], name)
  }

  ghost predicate SortedByRank(filters: seq<string -> bool>, ps: seq<Proxy>) {
    forall i, j :: 0 <= i < j < |ps| ==> Rank(filters, ps[i].name) <= Rank(filters, ps[j].name)
  }

  lemma {:induction false} SiftFacts(ps: seq<Proxy>, mat: string -> bool, seen: set<string>)
    ensures var r := Sift(ps, mat, seen);
      && DistinctNames(r) && NamesOf(r) !! seen
      && (forall p :: p in r ==> p in ps && mat(p.name))
      && (forall p :: p in ps && mat(p.name) ==> p.name in NamesOf(r) + seen)
  {
    if |ps| > 0 {
      var p := ps[0];
      if mat(p.name) && p.name !in seen {
        SiftFacts(ps[1..], mat, seen + {p.name});
        var rest := Sift(ps[1..], mat, seen + {p.name});
        assert forall q :: q in rest ==> q.name in NamesOf(rest);
        assert NamesOf([p] + rest) == {p.name} + NamesOf(rest);
      } else {
        SiftFacts(ps[1..], mat, seen);
      }
    }
  }

  lemma NamesJoin(a: seq<Proxy>, b: seq<Proxy>)
    ensures NamesOf(a + b) == NamesOf(a) + NamesOf(b)
  {
  }

  lemma JoinDistinct(a: seq<Proxy>, b: seq<Proxy>)
    requires DistinctNames(a) && DistinctNames(b) && NamesOf(a) !! NamesOf(b)
    ensures DistinctNames(a + b)
  {
    var r := a + b;
    forall i, j | 0 <= i < j < |r|
      ensures r[i].name != r[j].name
    {
      if i < |a| && |a| <= j {
        assert a[i] in a && b[j - |a|] in b;
        assert a[i].name in NamesOf(a) && b[j - |a|].name in NamesOf(b);
      }
    }
  }

  /** Whatever was read for the different passes, no name comes out twice. */
  lemma {:induction false} PassesDistinct(filters: seq<string -> bool>, lists: seq<seq<Proxy>>, seen: set<string>)
    requires |lists| == |filters|
    ensures var r := Passes(filters, lists, seen); DistinctNames(r) && NamesOf(r) !! seen
  {
    if |filters| > 0 {
      SiftFacts(lists[0], filters[0], seen);
      var r := Sift(lists[0], filters[0], seen);
      PassesDistinct(filters[1..], lists[1..], seen + NamesOf(r));
      var rest := Passes(filters[1..], lists[1..], seen + NamesOf(r));
      JoinDistinct(r, rest);
      NamesJoin(r, rest);
    }
  }

  /** Passes over one list: exactly the names that some filter matches, and nothing new. */
  lemma {:induction false} PassesMembers(filters: seq<string -> bool>, ps: seq<Proxy>, seen: set<string>)
    ensures var r := Passes(filters, seq(|filters|, _ => ps), seen);
      && (forall p :: p in r ==> p in ps && Rank(filters, p.name) < |filters|)
      && (forall p :: p in ps && Rank(filters, p.name) < |filters| ==> p.name in NamesOf(r) + seen)
  {
    if |filters| > 0 {
      SiftFacts(ps, filters[0], seen);
      var r := Sift(ps, filters[0], seen);
      var lists := seq(|filters|, _ => ps);
      assert lists[1..] == seq(|filters[1..]|, _ => ps);
      PassesMembers(filters[1..], ps, seen + NamesOf(r));
      NamesJoin(r, Passes(filters[1..], lists[1..], seen + NamesOf(r)));
    }
  }

  /** Passes over one list come out in the order of the first matching filter. */
  lemma {:induction false} PassesSorted(filters: seq<string -> bool>, ps: seq<Proxy>, seen: set<string>)
    ensures SortedByRank(filters, Passes(filters, seq(|filters|, _ => ps), seen))
  {
    if |filters| > 0 {
      var lists := seq(|filters|, _ => ps);
      var r := Sift(ps, filters[0], seen);
      SiftFacts(ps, filters[0], seen);
      assert lists[1..] == seq(|filters[1..]|, _ => ps);
      var rest := Passes(filters[1..], lists[1..], seen + NamesOf(r));
      PassesSorted(filters[1..], ps, seen + NamesOf(r));
      PassesMembers(filters[1..], ps, seen + NamesOf(r));
      PassesDistinct(filters[1..], lists[1..], seen + NamesOf(r));
      forall p | p in rest
        ensures Rank(filters, p.name) == 1 + Rank(filters[1..], p.name)
      {
        assert p.name in NamesOf(rest) && p in ps;
      }
      JoinSorted(filters, r, rest);
    }
  }

  lemma JoinSorted(filters: seq<string -> bool>, r: seq<Proxy>, rest: seq<Proxy>)
    requires |filters| > 0 && SortedByRank(filters[1..], rest)
    requires forall p :: p in r ==> Rank(filters, p.name) == 0
    requires forall p :: p in rest ==> Rank(filters, p.name) == 1 + Rank(filters[1..], p.name)
    ensures SortedByRank(filters, r + rest)
  {
    var all := r + rest;
    forall i, j | 0 <= i < j < |all|
      ensures Rank(filters, all[i].name) <= Rank(filters, all[j].name)
    {
      if i < |r| {
        assert all[i] in r;
      } else {
        assert all[i] == rest[i - |r|] && all[j] == rest[j - |r|];
        assert all[i] in rest && all[j] in rest;
      }
    }
  }

  lemma {:induction false} RankWithMatchAll(filters: seq<string -> bool>, name: string)
    ensures Rank(filters + [MATCH_ALL], name) == Rank(filters, name)
  {
    if |filters| > 0 {
      assert (filters + [MATCH_ALL])[1..] == filters[1..] + [MATCH_ALL];
      RankWithMatchAll(filters[1..], name);
    }
  }

  /** Reordering keeps exactly the names, each once, in the order of the first matching filter. */
  lemma ReorderedFacts(filters: seq<string -> bool>, ps: seq<Proxy>)
    ensures var r := Reordered(filters, ps);
      DistinctNames(r) && SortedByRank(filters, r) && NamesOf(r) == NamesOf(ps) && forall p :: p in r ==> p in ps
  {
    var all := filters + [MATCH_ALL];
    var r := Reordered(filters, ps);
    PassesDistinct(all, seq(|all|, _ => ps), {});
    PassesMembers(all, ps, {});
    PassesSorted(all, ps, {});
    forall i, j | 0 <= i < j < |r|
      ensures Rank(filters, r[i].name) <= Rank(filters, r[j].name)
    {
      RankWithMatchAll(filters, r[i].name);
      RankWithMatchAll(filters, r[j].name);
    }
    forall p | p in ps
      ensures p.name in NamesOf(r)
    {
      RankWithMatchAll(filters, p.name);
    }
  }

  lemma {:induction false} KeepMembers(ps: seq<Proxy>, out: Proxy -> bool)
    ensures forall p :: p in Keep(ps, out) <==> p in ps && !out(p)
  {
    if |ps| > 0 {
      KeepMembers(ps[1..], out);
      assert ps == [ps[0]] + ps[1..];
    }
  }

  lemma {:induction false} KeepDistinct(ps: seq<Proxy>, out: Proxy -> bool)
    requires DistinctNames(ps)
    ensures DistinctNames(Keep(ps, out))
  {
    if |ps| > 0 {
      KeepDistinct(ps[1..], out);
      KeepMembers(ps[1..], out);
      var rest := Keep(ps[1..], out);
      forall k | 0 <= k < |rest|
        ensures rest[k].name != ps[0].name
      {
        assert rest[k] in rest;
        var j :| 0 <= j < |ps[1..]| && ps[1..][j] == rest[k];
        assert ps[j + 1].name != ps[0].name;
      }
    }
  }

  lemma {:induction false} KeepSorted(filters: seq<string -> bool>, ps: seq<Proxy>, out: Proxy -> bool)
    requires SortedByRank(filters, ps)
    ensures SortedByRank(filters, Keep(ps, out))
  {
    if |ps| > 0 {
      KeepSorted(filters, ps[1..], out);
      KeepMembers(ps[1..], out);
      var rest := Keep(ps[1..], out);
      forall k | 0 <= k < |rest|
        ensures Rank(filters, ps[0].name) <= Rank(filters, rest[k].name)
      {
        assert rest[k] in rest;
        var j :| 0 <= j < |ps[1..]| && ps[1..][j] == rest[k];
        assert Rank(filters, ps[0].name) <= Rank(filters, ps[j + 1].name);
      }
    }
  }

  /** With several providers and several filters, whatever was read from the providers: no name
      twice, ordered by first matching filter, and nobody who is excluded. */
  lemma PipelineOrdered(cfg: Config, lists: Reads)
    requires ReadsFit(cfg, lists) && |cfg.compatible| > 1 && |cfg.filters| > 1
    ensures var r := Pipeline(cfg, lists); DistinctNames(r) && SortedByRank(cfg.filters, r)
  {
    var gathered := Gathered(cfg, lists, |lists|);
    ReorderedFacts(cfg.filters, gathered);
    var ordered := Reordered(cfg.filters, gathered);
    KeepDistinct(ordered, ByName(cfg.excludes));
    KeepSorted(cfg.filters, ordered, ByName(cfg.excludes));
    if cfg.excludeKind.Some? {
      var named := if |cfg.excludes| > 0 then Keep(ordered, ByName(cfg.excludes)) else ordered;
      KeepDistinct(named, ByKind(cfg.excludeKind.value));
      KeepSorted(cfg.filters, named, ByKind(cfg.excludeKind.value));
    }
  }

  // ----- who is in the list -----

  /** The list read for pass j holds p, and the filter of that pass matches its name. */
  predicate MatchedIn(filters: seq<string -> bool>, lists: seq<seq<Proxy>>, j: nat, p: Proxy) {
    j < |filters| && j < |lists| && p in lists[j] && filters[j](p.name)
  }

  /** What passes over different lists keep: only proxies matched in their own pass, and each name so matched. */
  lemma {:induction false} PassesMatched(filters: seq<string -> bool>, lists: seq<seq<Proxy>>, seen: set<string>, p: Proxy)
    requires |lists| == |filters|
    ensures p in Passes(filters, lists, seen) ==> exists j: nat :: MatchedIn(filters, lists, j, p)
    ensures (exists j: nat :: MatchedIn(filters, lists, j, p)) ==> p.name in NamesOf(Passes(filters, lists, seen)) + seen
  {
    if |filters| > 0 {
      SiftFacts(lists[0], filters[0], seen);
      var r := Sift(lists[0], filters[0], seen);
      var rest := Passes(filters[1..], lists[1..], seen + NamesOf(r));
      PassesMatched(filters[1..], lists[1..], seen + NamesOf(r), p);
      NamesJoin(r, rest);
      if p in r {
        assert MatchedIn(filters, lists, 0, p);
      } else if p in rest {
        var j: nat :| MatchedIn(filters[1..], lists[1..], j, p);
        assert MatchedIn(filters, lists, j + 1, p);
      }
      if j: nat :| MatchedIn(filters, lists, j, p) {
        if j > 0 {
          assert MatchedIn(filters[1..], lists[1..], j - 1, p);
        }
      }
    }
  }

  /** Provider i supplies p: as a whole, or in a pass whose filter matches. */
  ghost predicate Supplies(cfg: Config, lists: Reads, i: nat, p: Proxy)
    requires ReadsFit(cfg, lists)
  {
    i < |lists| && if |cfg.filters| == 0 || cfg.compatible[i] then p in lists[i][0] else exists j: nat :: MatchedIn(cfg.filters, lists[i], j, p)
  }

  lemma FromProviderFacts(cfg: Config, lists: Reads, i: nat, p: Proxy)
    requires ReadsFit(cfg, lists) && i < |lists|
    ensures p in FromProvider(cfg, i, lists[i]) ==> Supplies(cfg, lists, i, p)
    ensures Supplies(cfg, lists, i, p) ==> p.name in NamesOf(FromProvider(cfg, i, lists[i]))
  {
    if |cfg.filters| > 0 && !cfg.compatible[i] {
      PassesMatched(cfg.filters, lists[i], {}, p);
    }
  }

  lemma {:induction false} GatheredFacts(cfg: Config, lists: Reads, n: nat, p: Proxy)
    requires ReadsFit(cfg, lists) && n <= |lists|
    ensures p in Gathered(cfg, lists, n) ==> SuppliedBefore(cfg, lists, n, p)
    ensures SuppliedBefore(cfg, lists, n, p) ==> p.name in NamesOf(Gathered(cfg, lists, n))
  {
    if n > 0 {
      GatheredFacts(cfg, lists, n - 1, p);
      FromProviderFacts(cfg, lists, n - 1, p);
      NamesJoin(Gathered(cfg, lists, n - 1), FromProvider(cfg, n - 1, lists[n - 1]));
      SuppliedOneMore(cfg, lists, n - 1, p);
    }
  }

  /** One of the first n providers supplies p. */
  ghost predicate SuppliedBefore(cfg: Config, lists: Reads, n: nat, p: Proxy)
    requires ReadsFit(cfg, lists)
  {
    exists i: nat :: i < n && Supplies(cfg, lists, i, p)
  }

  lemma SuppliedOneMore(cfg: Config, lists: Reads, n: nat, p: Proxy)
    requires ReadsFit(cfg, lists)
    ensures SuppliedBefore(cfg, lists, n + 1, p) <==> SuppliedBefore(cfg, lists, n, p) || Supplies(cfg, lists, n, p)
  {
    if Supplies(cfg, lists, n, p) {
      assert n < n + 1 && Supplies(cfg, lists, n, p);
    }
  }

  /** Who is in the list: a proxy some provider supplies and no exclusion names. */
  lemma PipelineMembers(cfg: Config, lists: Reads, p: Proxy)
    requires ReadsFit(cfg, lists) && p in Pipeline(cfg, lists)
    ensures (exists i: nat :: Supplies(cfg, lists, i, p)) && !Excluded(cfg.excludes, p.name)
    ensures cfg.excludeKind.Some? ==> !cfg.excludeKind.value(p.kind)
  {
    var gathered := Gathered(cfg, lists, |lists|);
    GatheredFacts(cfg, lists, |lists|, p);
    ReorderedFacts(cfg.filters, gathered);
    var ordered := if |cfg.compatible| > 1 && |cfg.filters| > 1 then Reordered(cfg.filters, gathered) else gathered;
    KeepMembers(ordered, ByName(cfg.excludes));
    if cfg.excludeKind.Some? {
      KeepMembers(if |cfg.excludes| > 0 then Keep(ordered, ByName(cfg.excludes)) else ordered, ByKind(cfg.excludeKind.value));
    }
  }

  /** Some provider supplies a proxy of this name. */
  ghost predicate NameSupplied(cfg: Config, lists: Reads, name: string)
    requires ReadsFit(cfg, lists)
  {
    exists i: nat, p :: Supplies(cfg, lists, i, p) && p.name == name
  }

  lemma GatheredNames(cfg: Config, lists: Reads, name: string)
    requires ReadsFit(cfg, lists)
    ensures name in NamesOf(Gathered(cfg, lists, |lists|)) <==> NameSupplied(cfg, lists, name)
  {
    var gathered := Gathered(cfg, lists, |lists|);
    if name in NamesOf(gathered) {
      var p :| p in gathered && p.name == name;
      GatheredFacts(cfg, lists, |lists|, p);
    }
    if i: nat, p :| Supplies(cfg, lists, i, p) && p.name == name {
      GatheredFacts(cfg, lists, |lists|, p);
    }
  }

  /** Without an exclusion by type, the names in the list are exactly the names supplied and not excluded. */
  lemma PipelineNames(cfg: Config, lists: Reads, name: string)
    requires ReadsFit(cfg, lists) && cfg.excludeKind.None?
    ensures name in NamesOf(Pipeline(cfg, lists)) <==> NameSupplied(cfg, lists, name) && !Excluded(cfg.excludes, name)
  {
    var gathered := Gathered(cfg, lists, |lists|);
    GatheredNames(cfg, lists, name);
    ReorderedFacts(cfg.filters, gathered);
    var ordered := if |cfg.compatible| > 1 && |cfg.filters| > 1 then Reordered(cfg.filters, gathered) else gathered;
    KeepMembers(ordered, ByName(cfg.excludes));
    var r := Pipeline(cfg, lists);
    assert r == if |cfg.excludes| > 0 then Keep(ordered, ByName(cfg.excludes)) else ordered;
    if name in NamesOf(gathered) && !Excluded(cfg.excludes, name) {
      assert name in NamesOf(ordered);
      var p :| p in ordered && p.name == name;
      assert p in r;
    }
  }

  // ----- the loops -----

  /** One pass of a filter over a list, adding to what earlier passes kept. */
  method SiftInto(ps: seq<Proxy>, mat: string -> bool, kept0: seq<Proxy>, seen0: set<string>)
    returns (kept: seq<Proxy>, seen: set<string>)
    ensures kept == kept0 + Sift(ps, mat, seen0) && seen == seen0 + NamesOf(Sift(ps, mat, seen0))
  {
    kept, seen := kept0, seen0;
    assert ps[0..] == ps;
    for i := 0 to |ps|
      invariant kept + Sift(ps[i..], mat, seen) == kept0 + Sift(ps, mat, seen0)
      invariant seen + NamesOf(Sift(ps[i..], mat, seen)) == seen0 + NamesOf(Sift(ps, mat, seen0))
    {
      var p := ps[i];
      ghost var here := Sift(ps[i..], mat, seen);
      assert ps[i..][1..] == ps[i + 1..];
      if mat(p.name) && p.name !in seen {
        ghost var rest := Sift(ps[i + 1..], mat, seen + {p.name});
        assert here == [p] + rest;
        NamesJoin([p], rest);
        assert kept + here == (kept + [p]) + rest;
        seen := seen + {p.name};
        kept := kept + [p];
      }
    }
    assert Sift(ps[|ps|..], mat, seen) == [];
  }

  method RunPasses(filters: seq<string -> bool>, lists: seq<seq<Proxy>>) returns (kept: seq<Proxy>)
    requires |lists| == |filters|
    ensures kept == Passes(filters, lists, {})
  {
    kept := [];
    var seen: set<string> := {};
    assert filters[0..] == filters && lists[0..] == lists;
    for f := 0 to |filters|
      invariant kept + Passes(filters[f..], lists[f..], seen) == Passes(filters, lists, {})
    {
      ghost var before, r := kept, Sift(lists[f], filters[f], seen);
      assert filters[f..][1..] == filters[f + 1..] && lists[f..][1..] == lists[f + 1..];
      ghost var rest := Passes(filters[f + 1..], lists[f + 1..], seen + NamesOf(r));
      assert kept + (r + rest) == (kept + r) + rest;
      kept, seen := SiftInto(lists[f], filters[f], kept, seen);
    }
  }

  method KeepLoop(ps: seq<Proxy>, out: Proxy -> bool) returns (kept: seq<Proxy>)
    ensures kept == Keep(ps, out)
  {
    kept := [];
    assert ps[0..] == ps;
    for i := 0 to |ps|
      invariant kept + Keep(ps[i..], out) == Keep(ps, out)
    {
      assert ps[i..][1..] == ps[i + 1..];
      if !out(ps[i]) {
        assert kept + ([ps[i]] + Keep(ps[i + 1..], out)) == (kept + [ps[i]]) + Keep(ps[i + 1..], out);
        kept := kept + [ps[i]];
      } else {
        assert [] + Keep(ps[i + 1..], out) == Keep(ps[i + 1..], out);
      }
    }
  }

  /** The part of GetProxies between the reads and the cache. */
  method BuildList(cfg: Config, lists: Reads) returns (proxies: seq<Proxy>)
    requires ReadsFit(cfg, lists)
    ensures proxies == Pipeline(cfg, lists)
  {
    proxies := [];
    for i := 0 to |lists|
      invariant proxies == Gathered(cfg, lists, i)
    {
      if |cfg.filters| == 0 || cfg.compatible[i] {
        proxies := proxies + lists[i][0];
      } else {
        var newProxies := RunPasses(cfg.filters, lists[i]);
        proxies := proxies + newProxies;
      }
    }
    if |cfg.compatible| > 1 && |cfg.filters| > 1 {
      proxies := RunPasses(cfg.filters + [MATCH_ALL], seq(|cfg.filters| + 1, _ => proxies));
    }
    if |cfg.excludes| > 0 {
      proxies := KeepLoop(proxies, ByName(cfg.excludes));
    }
    if cfg.excludeKind.Some? {
      proxies := KeepLoop(proxies, ByKind(cfg.excludeKind.value));
    }
  }
}
