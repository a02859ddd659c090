/**
 Which proxies a group's list holds and in which order, without the recursions that compute it:
 every stage of the pipeline picks positions of the list it is given and keeps their order.
 */
module ProxyOrder {
  import opened Options
  import opened ProxyPipeline

  /** How many of the first n positions are picked. */
  function Count(picked: nat -> bool, n: nat): nat {
    if n == 0 then 0 else Count(picked, n - 1) + if picked(n - 1) then 1 else 0
  }

  /** r holds what stands at the picked positions of ps and nothing else, in the same order: each as
      far back as there are picked positions in front of it. */
  ghost predicate Picks(ps: seq<Proxy>, picked: nat -> bool, r: seq<Proxy>) {
    && |r| == Count(picked, |ps|)
    && forall j: nat :: j < |ps| && picked(j) ==> Count(picked, j) < |r| && r[Count(picked, j)] == ps[j]
  }

  lemma {:induction false} CountSame(p: nat -> bool, q: nat -> bool, n: nat)
    requires forall i: nat :: i < n ==> p(i) == q(i)
    ensures Count(p, n) == Count(q, n)
  {
    if n > 0 {
      CountSame(p, q, n - 1);
    }
  }

  lemma PicksSame(ps: seq<Proxy>, p: nat -> bool, q: nat -> bool, r: seq<Proxy>)
    requires Picks(ps, p, r) && forall i: nat :: i < |ps| ==> p(i) == q(i)
    ensures Picks(ps, q, r)
  {
    CountSame(p, q, |ps|);
    forall j: nat | j < |ps| && q(j)
      ensures Count(q, j) < |r| && r[Count(q, j)] == ps[j]
    {
      CountSame(p, q, j);
    }
  }

  /** One position more at the end. */
  lemma PicksOneMore(ps: seq<Proxy>, picked: nat -> bool, r: seq<Proxy>, r': seq<Proxy>)
    requires |ps| > 0 && Picks(ps[..|ps| - 1], picked, r)
    requires r' == if picked(|ps| - 1) then r + [ps[|ps| - 1]] else r
    ensures Picks(ps, picked, r')
  {
  }

  // ----- the providers, one after another -----

  /** One after another. */
  function Joined(parts: seq<seq<Proxy>>): seq<Proxy> {
    if |parts| == 0 then [] else parts[0] + Joined(parts[1..])
  }

  lemma {:induction false} JoinedOneMore(parts: seq<seq<Proxy>>, part: seq<Proxy>)
    ensures Joined(parts + [part]) == Joined(parts) + part
  {
    if |parts| == 0 {
      assert parts + [part] == [part];
      assert Joined([part]) == part + Joined([]);
    } else {
      assert (parts + [part])[1..] == parts[1..] + [part];
      JoinedOneMore(parts[1..], part);
      assert parts[0] + (Joined(parts[1..]) + part) == parts[0] + Joined(parts[1..]) + part;
    }
  }

  function PartsFrom(cfg: Config, lists: Reads, n: nat): (parts: seq<seq<Proxy>>)
    requires ReadsFit(cfg, lists) && n <= |lists|
    ensures |parts| == n
  {
    seq(n, i requires 0 <= i < n => FromProvider(cfg, i, lists[i]))
  }

  lemma {:induction false} GatheredInOrder(cfg: Config, lists: Reads, n: nat)
    requires ReadsFit(cfg, lists) && n <= |lists|
    ensures Gathered(cfg, lists, n) == Joined(PartsFrom(cfg, lists, n))
  {
    if n > 0 {
      GatheredInOrder(cfg, lists, n - 1);
      var before, last := PartsFrom(cfg, lists, n - 1), FromProvider(cfg, n - 1, lists[n - 1]);
      assert PartsFrom(cfg, lists, n) == before + [last];
      JoinedOneMore(before, last);
      assert Gathered(cfg, lists, n) == Joined(before) + last;
    }
  }

  // ----- exclusions -----

  lemma {:induction false} KeepOneMore(ps: seq<Proxy>, x: Proxy, out: Proxy -> bool)
    ensures Keep(ps + [x], out) == if out(x) then Keep(ps, out) else Keep(ps, out) + [x]
  {
    if |ps| > 0 {
      assert (ps + [x])[1..] == ps[1..] + [x];
      KeepOneMore(ps[1..], x, out);
      var front, rest := if out(ps[0]) then [] else [ps[0]], Keep(ps[1..], out);
      assert front + (rest + [x]) == (front + rest) + [x];
    }
  }

  lemma {:induction false} KeepPicks(ps: seq<Proxy>, out: Proxy -> bool, left: nat -> bool)
    requires forall i: nat :: i < |ps| ==> left(i) == !out(ps[i])
    ensures Picks(ps, left, Keep(ps, out))
  {
    if |ps| > 0 {
      var n := |ps| - 1;
      KeepPicks(ps[..n], out, left);
      assert ps == ps[..n] + [ps[n]];
      KeepOneMore(ps[..n], ps[n], out);
      PicksOneMore(ps, left, Keep(ps[..n], out), Keep(ps, out));
    }
  }

  lemma ReadsIgnoreExclusions(cfg: Config, plain: Config, lists: Reads)
    requires ReadsFit(cfg, lists) && plain.compatible == cfg.compatible && plain.filters == cfg.filters
    ensures ReadsFit(plain, lists)
  {
    assert forall i :: 0 <= i < |lists| ==> Calls(plain, i) == Calls(cfg, i);
  }

  lemma ProviderIgnoresExclusions(cfg: Config, plain: Config, i: nat, lists: seq<seq<Proxy>>)
    requires plain.compatible == cfg.compatible && plain.filters == cfg.filters && i < |cfg.compatible| && |lists| == Calls(cfg, i)
    ensures |lists| == Calls(plain, i) && FromProvider(plain, i, lists) == FromProvider(cfg, i, lists)
  {
  }

  lemma GatheredIgnoresExclusions(cfg: Config, plain: Config, lists: Reads)
    requires ReadsFit(cfg, lists) && ReadsFit(plain, lists) && plain.filters == cfg.filters && plain.compatible == cfg.compatible
    ensures Gathered(plain, lists, |lists|) == Gathered(cfg, lists, |lists|)
  {
    GatheredInOrder(cfg, lists, |lists|);
    GatheredInOrder(plain, lists, |lists|);
    forall i | 0 <= i < |lists|
      ensures FromProvider(plain, i, lists[i]) == FromProvider(cfg, i, lists[i])
    {
      ProviderIgnoresExclusions(cfg, plain, i, lists[i]);
    }
    assert PartsFrom(plain, lists, |lists|) == PartsFrom(cfg, lists, |lists|);
  }

  /** The positions of the proxies that are not of the type. */
  function OfOtherKind(ps: seq<Proxy>, kind: string -> bool): nat -> bool {
    (i: nat) => i < |ps| && !kind(ps[i].kind)
  }

  /** An exclusion by type takes away exactly the proxies of that type and leaves the others in order. */
  lemma ExcludesByType(cfg: Config, lists: Reads, kind: string -> bool)
    requires ReadsFit(cfg, lists) && cfg.excludeKind == Some(kind)
    ensures ReadsFit(cfg.(excludeKind := None), lists)
    ensures var all := Pipeline(cfg.(excludeKind := None), lists); var r := Pipeline(cfg, lists);
      (forall p :: p in r <==> p in all && !kind(p.kind)) && Picks(all, OfOtherKind(all, kind), r)
  {
    var plain := cfg.(excludeKind := None);
    ReadsIgnoreExclusions(cfg, plain, lists);
    GatheredIgnoresExclusions(cfg, plain, lists);
    var all := Pipeline(plain, lists);
    assert Pipeline(cfg, lists) == Keep(all, ByKind(kind));
    KeepMembers(all, ByKind(kind));
    KeepPicks(all, ByKind(kind), OfOtherKind(all, kind));
  }

  lemma {:induction false} KeepAll(ps: seq<Proxy>, out: Proxy -> bool)
    requires forall p :: !out(p)
    ensures Keep(ps, out) == ps
  {
    if |ps| > 0 {
      KeepAll(ps[1..], out);
    }
  }

  /** The positions of the proxies whose name no exclusion matches. */
  function NotNamed(ps: seq<Proxy>, excludes: seq<string -> bool>): nat -> bool {
    (i: nat) => i < |ps| && forall e :: 0 <= e < |excludes| ==> !excludes[e](ps[i].name)
  }

  /** The exclusions by name take away exactly the proxies whose name one of them matches. */
  lemma ExcludesByName(cfg: Config, lists: Reads)
    requires ReadsFit(cfg, lists) && cfg.excludeKind.None?
    ensures ReadsFit(cfg.(excludes := []), lists)
    ensures var all := Pipeline(cfg.(excludes := []), lists); Picks(all, NotNamed(all, cfg.excludes), Pipeline(cfg, lists))
  {
    var plain := cfg.(excludes := []);
    ReadsIgnoreExclusions(cfg, plain, lists);
    GatheredIgnoresExclusions(cfg, plain, lists);
    var all := Pipeline(plain, lists);
    if |cfg.excludes| == 0 {
      KeepAll(all, ByName(cfg.excludes));
    }
    assert Pipeline(cfg, lists) == Keep(all, ByName(cfg.excludes));
    KeepPicks(all, ByName(cfg.excludes), NotNamed(all, cfg.excludes));
  }

  // ----- filters -----

  /** Position i holds the first proxy of its name that matches in this pass, and the name was not seen before. */
  predicate FirstInPass(ps: seq<Proxy>, mat: string -> bool, seen: set<string>, i: nat) {
    && i < |ps| && mat(ps[i].name) && ps[i].name !in seen
    && forall j :: 0 <= j < i && mat(ps[j].name) ==> ps[j].name != ps[i].name
  }

  lemma {:induction false} SiftOneMore(ps: seq<Proxy>, x: Proxy, mat: string -> bool, seen: set<string>)
    ensures var r := Sift(ps, mat, seen);
      Sift(ps + [x], mat, seen) == if mat(x.name) && x.name !in seen + NamesOf(r) then r + [x] else r
  {
    if |ps| > 0 {
      var p := ps[0];
      assert (ps + [x])[1..] == ps[1..] + [x];
      if mat(p.name) && p.name !in seen {
        SiftOneMore(ps[1..], x, mat, seen + {p.name});
        NamesJoin([p], Sift(ps[1..], mat, seen + {p.name}));
      } else {
        SiftOneMore(ps[1..], x, mat, seen);
      }
    }
  }

  lemma {:induction false} SiftPicks(ps: seq<Proxy>, mat: string -> bool, seen: set<string>, first: nat -> bool)
    requires forall i: nat :: i < |ps| ==> first(i) == FirstInPass(ps, mat, seen, i)
    ensures Picks(ps, first, Sift(ps, mat, seen))
  {
    if |ps| > 0 {
      var n := |ps| - 1;
      var before := ps[..n];
      forall i: nat | i < n
        ensures first(i) == FirstInPass(before, mat, seen, i)
      {
      }
      SiftPicks(before, mat, seen, first);
      assert ps == before + [ps[n]];
      SiftOneMore(before, ps[n], mat, seen);
      if mat(ps[n].name) {
        SeenBefore(before, mat, seen, ps[n].name);
      }
      PicksOneMore(ps, first, Sift(before, mat, seen), Sift(ps, mat, seen));
    }
  }

  /** A matching name is new after a pass exactly when it was before and nothing in the list has it. */
  lemma SeenBefore(ps: seq<Proxy>, mat: string -> bool, seen: set<string>, name: string)
    requires mat(name)
    ensures name !in seen + NamesOf(Sift(ps, mat, seen)) <==>
      name !in seen && forall j :: 0 <= j < |ps| && mat(ps[j].name) ==> ps[j].name != name
  {
    SiftFacts(ps, mat, seen);
    var r := Sift(ps, mat, seen);
    if name in NamesOf(r) {
      var p :| p in r && p.name == name;
      var j :| 0 <= j < |ps| && ps[j] == p;
      assert mat(ps[j].name);
    }
    forall j | 0 <= j < |ps| && mat(ps[j].name) && ps[j].name == name
      ensures name in seen + NamesOf(r)
    {
      assert ps[j] in ps;
    }
  }

  /** Position i of the list read for pass f holds the first match of its name in all passes so far,
      and the name was not seen before. */
  predicate FirstOfName(filters: seq<string -> bool>, lists: seq<seq<Proxy>>, seen: set<string>, f: nat, i: nat)
    requires |lists| == |filters| && f < |filters|
  {
    && FirstInPass(lists[f], filters[f], seen, i)
    && forall g :: 0 <= g < f ==> NotMatched(lists[g], filters[g], lists[f][i].name)
  }

  predicate NotMatched(ps: seq<Proxy>, mat: string -> bool, name: string) {
    forall j :: 0 <= j < |ps| && mat(ps[j].name) ==> ps[j].name != name
  }

  function FirstsOf(filters: seq<string -> bool>, lists: seq<seq<Proxy>>, seen: set<string>, f: nat): nat -> bool
    requires |lists| == |filters| && f < |filters|
  {
    (i: nat) => FirstOfName(filters, lists, seen, f, i)
  }

  /** Part f holds the first matches of pass f, in the order of the list it was given. */
  ghost predicate PartsOf(filters: seq<string -> bool>, lists: seq<seq<Proxy>>, seen: set<string>, parts: seq<seq<Proxy>>) {
    && |parts| == |lists| == |filters|
    && forall f :: 0 <= f < |filters| ==> Picks(lists[f], FirstsOf(filters, lists, seen, f), parts[f])
  }

  lemma FirstsBehind(filters: seq<string -> bool>, lists: seq<seq<Proxy>>, seen: set<string>, f: nat, i: nat)
    requires |lists| == |filters| && f + 1 < |filters|
    ensures var seen' := seen + NamesOf(Sift(lists[0], filters[0], seen));
      FirstOfName(filters, lists, seen, f + 1, i) <==> FirstOfName(filters[1..], lists[1..], seen', f, i)
  {
    if i < |lists[f + 1]| {
      var name := lists[f + 1][i].name;
      SeenAfterPass(lists[0], filters[0], seen, name);
      var fs, ls := filters[1..], lists[1..];
      if forall g :: 0 <= g < f ==> NotMatched(ls[g], fs[g], name) {
        forall g | 1 <= g < f + 1
          ensures NotMatched(lists[g], filters[g], name)
        {
          assert NotMatched(ls[g - 1], fs[g - 1], name);
        }
      }
      if forall g :: 0 <= g < f + 1 ==> NotMatched(lists[g], filters[g], name) {
        forall g | 0 <= g < f
          ensures NotMatched(ls[g], fs[g], name)
        {
          assert NotMatched(lists[g + 1], filters[g + 1], name);
        }
      }
    }
  }

  lemma SeenAfterPass(ps: seq<Proxy>, mat: string -> bool, seen: set<string>, name: string)
    ensures name !in seen + NamesOf(Sift(ps, mat, seen)) <==> name !in seen && NotMatched(ps, mat, name)
  {
    if mat(name) {
      SeenBefore(ps, mat, seen, name);
    } else {
      SiftFacts(ps, mat, seen);
    }
  }

  lemma {:induction false} PassesPick(filters: seq<string -> bool>, lists: seq<seq<Proxy>>, seen: set<string>) returns (parts: seq<seq<Proxy>>)
    requires |lists| == |filters|
    ensures PartsOf(filters, lists, seen, parts) && Passes(filters, lists, seen) == Joined(parts)
  {
    if |filters| == 0 {
      parts := [];
    } else {
      var r := Sift(lists[0], filters[0], seen);
      var seen' := seen + NamesOf(r);
      var rest := PassesPick(filters[1..], lists[1..], seen');
      parts := [r] + rest;
      assert parts[1..] == rest;
      PartsBehind(filters, lists, seen, seen', rest, parts);
    }
  }

  lemma PartsBehind(filters: seq<string -> bool>, lists: seq<seq<Proxy>>, seen: set<string>, seen': set<string>,
      rest: seq<seq<Proxy>>, parts: seq<seq<Proxy>>)
    requires |lists| == |filters| > 0 && seen' == seen + NamesOf(Sift(lists[0], filters[0], seen))
    requires PartsOf(filters[1..], lists[1..], seen', rest)
    requires |parts| == |rest| + 1 && parts[0] == Sift(lists[0], filters[0], seen) && forall f :: 0 <= f < |rest| ==> parts[f + 1] == rest[f]
    ensures PartsOf(filters, lists, seen, parts)
  {
    FirstPassPicks(filters, lists, seen);
    forall f | 0 <= f < |filters|
      ensures Picks(lists[f], FirstsOf(filters, lists, seen, f), parts[f])
    {
      if f > 0 {
        PicksBehind(filters, lists, seen, seen', f - 1, rest);
        assert parts[f - 1 + 1] == rest[f - 1];
      }
    }
  }

  lemma FirstPassPicks(filters: seq<string -> bool>, lists: seq<seq<Proxy>>, seen: set<string>)
    requires |lists| == |filters| > 0
    ensures Picks(lists[0], FirstsOf(filters, lists, seen, 0), Sift(lists[0], filters[0], seen))
  {
    SiftPicks(lists[0], filters[0], seen, FirstsOf(filters, lists, seen, 0));
  }

  lemma PicksBehind(filters: seq<string -> bool>, lists: seq<seq<Proxy>>, seen: set<string>, seen': set<string>, f: nat, rest: seq<seq<Proxy>>)
    requires |lists| == |filters| && f + 1 < |filters| && seen' == seen + NamesOf(Sift(lists[0], filters[0], seen))
    requires PartsOf(filters[1..], lists[1..], seen', rest)
    ensures Picks(lists[f + 1], FirstsOf(filters, lists, seen, f + 1), rest[f])
  {
    var p, q := FirstsOf(filters[1..], lists[1..], seen', f), FirstsOf(filters, lists, seen, f + 1);
    assert Picks(lists[1..][f], p, rest[f]);
    forall i: nat | i < |lists[f + 1]|
      ensures p(i) == q(i)
    {
      FirstsBehind(filters, lists, seen, f, i);
    }
    PicksSame(lists[f + 1], p, q, rest[f]);
  }

  // ----- the whole list -----

  /** What one provider contributes: its list as it is, or the first matches of its passes. */
  ghost predicate Contributes(cfg: Config, lists: seq<seq<Proxy>>, compatible: bool, part: seq<Proxy>) {
    if |cfg.filters| == 0 || compatible then |lists| == 1 && part == lists[0]
    else exists parts :: PartsOf(cfg.filters, lists, {}, parts) && part == Joined(parts)
  }

  lemma FromProviderContributes(cfg: Config, i: nat, lists: seq<seq<Proxy>>)
    requires i < |cfg.compatible| && |lists| == Calls(cfg, i)
    ensures Contributes(cfg, lists, cfg.compatible[i], FromProvider(cfg, i, lists))
  {
    if |cfg.filters| > 0 && !cfg.compatible[i] {
      var parts := PassesPick(cfg.filters, lists, {});
    }
  }

  /** ps with each name once, by first matching filter, names that none matches last, and otherwise as in ps. */
  ghost predicate ByFirstFilter(filters: seq<string -> bool>, ps: seq<Proxy>, r: seq<Proxy>) {
    exists parts :: PartsOf(filters + [MATCH_ALL], seq(|filters| + 1, _ => ps), {}, parts) && r == Joined(parts)
  }

  lemma ReorderedByFirstFilter(filters: seq<string -> bool>, ps: seq<Proxy>)
    ensures ByFirstFilter(filters, ps, Reordered(filters, ps))
  {
    var passes := PassesPick(filters + [MATCH_ALL], seq(|filters| + 1, _ => ps), {});
  }

  /** Without exclusions: what the providers contribute, one after another; with several providers and
      filters, once more by first matching filter. */
  lemma PipelineInOrder(cfg: Config, lists: Reads) returns (parts: seq<seq<Proxy>>)
    requires ReadsFit(cfg, lists) && cfg.excludes == [] && cfg.excludeKind.None?
    ensures |parts| == |lists| && forall i :: 0 <= i < |lists| ==> Contributes(cfg, lists[i], cfg.compatible[i], parts[i])
    ensures if |cfg.compatible| > 1 && |cfg.filters| > 1 then ByFirstFilter(cfg.filters, Joined(parts), Pipeline(cfg, lists))
            else Pipeline(cfg, lists) == Joined(parts)
  {
    parts := PartsFrom(cfg, lists, |lists|);
    GatheredInOrder(cfg, lists, |lists|);
    forall i | 0 <= i < |lists|
      ensures Contributes(cfg, lists[i], cfg.compatible[i], parts[i])
    {
      FromProviderContributes(cfg, i, lists[i]);
    }
    ReorderedByFirstFilter(cfg.filters, Joined(parts));
  }
}
