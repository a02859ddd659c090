/**
 Building the proxy groups in sorted order, and the walks from a group to the proxy it stands
 for that rule matching takes. A group can only refer to what was built before it, so every walk
 goes strictly back in the order of building and comes to an end.
 */
module GroupBuilding {
  import opened Graphs
  import opened Options
  import opened ProxyGroupSort

  datatype Kind = Pass | PassRule | OtherKind

  /** What has been built, in the order of building; members and fallback are positions in that order. */
  datatype Built =
    | Base(name: string, kind: Kind, udp: bool)
    | Group(name: string, serves: GroupUdp, members: seq<nat>, fallback: nat, hasProviders: bool)

  /** Whether a group serves UDP: not at all, always (load balancing), or as its choice of the moment does. */
  datatype GroupUdp = Disabled | Always | AsChosen

  /** The options of a group that decide whether it can be built. `allProxies` are the base proxies
      that include-all would add. */
  datatype GroupSpec = GroupSpec(
    mapping: Mapping, emptyFallback: string, hasProviders: bool, includeAll: bool, allProxies: seq<string>, serves: GroupUdp)

  datatype BuildOutcome =
    | AllBuilt
    | FallbackNotFound(index: nat)
    | NoMembers(index: nat)
    | MemberNotFound(index: nat, name: string)
    | NameTaken(index: nat)

  function FallbackOf(spec: GroupSpec): string {
    if spec.emptyFallback == "" then "COMPATIBLE" else spec.emptyFallback
  }

  function MembersOfSpec(spec: GroupSpec): seq<string> {
    var listed := spec.mapping.proxies + if spec.includeAll then spec.allProxies else [];
    if spec.includeAll && listed == [] && !spec.hasProviders then [FallbackOf(spec)] else listed
  }

  // ----- when a group can be built -----

  ghost predicate IsBaseName(base: seq<Built>, name: string) {
    exists j :: 0 <= j < |base| && base[j].name == name
  }

  ghost predicate IsEarlierGroup(specs: seq<GroupSpec>, i: nat, name: string) {
    exists j :: 0 <= j < i && j < |specs| && specs[j].mapping.name == name
  }

  /** The name is built before group i. */
  ghost predicate Known(base: seq<Built>, specs: seq<GroupSpec>, i: nat, name: string) {
    IsBaseName(base, name) || IsEarlierGroup(specs, i, name)
  }

  ghost predicate CanBuild(base: seq<Built>, specs: seq<GroupSpec>, i: nat)
    requires i < |specs|
  {
    var spec := specs[i];
    && Known(base, specs, i, FallbackOf(spec))
    && (MembersOfSpec(spec) != [] || spec.hasProviders)
    && (forall m :: m in MembersOfSpec(spec) ==> Known(base, specs, i, m))
    && !Known(base, specs, i, spec.mapping.name)
  }

  /** Groups only refer back. */
  ghost predicate RefersBack(world: seq<Built>) {
    forall x :: 0 <= x < |world| && world[x].Group? ==> world[x].fallback < x && forall m :: m in world[x].members ==> m < x
  }

  /** The table finds exactly what has been built so far. */
  ghost predicate TableOk(base: seq<Built>, specs: seq<GroupSpec>, i: nat, world: seq<Built>, table: map<string, nat>) {
    && (forall name :: name in table <==> Known(base, specs, i, name))
    && (forall name :: name in table ==> table[name] < |world| && world[table[name]].name == name)
  }

  lemma KnownGrows(base: seq<Built>, specs: seq<GroupSpec>, i: nat, name: string)
    requires i < |specs|
    ensures Known(base, specs, i + 1, name) <==> Known(base, specs, i, name) || specs[i].mapping.name == name
  {
    if IsEarlierGroup(specs, i, name) {
      var j :| 0 <= j < i && j < |specs| && specs[j].mapping.name == name;
      assert 0 <= j < i + 1;
    }
    if specs[i].mapping.name == name {
      assert 0 <= i < i + 1;
    }
  }

  method BaseTable(base: seq<Built>) returns (table: map<string, nat>)
    ensures TableOk(base, [], 0, base, table)
  {
    table := map[];
    for j := 0 to |base|
      invariant forall name :: name in table <==> exists k :: 0 <= k < j && base[k].name == name
      invariant forall name :: name in table ==> table[name] < |base| && base[table[name]].name == name
    {
      table := table[base[j].name := j];
    }
  }

  /** getProxies: the listed names looked up one by one, up to the first that is missing. */
  method LookUpMembers(names: seq<string>, table: map<string, nat>) returns (missing: Option<nat>, members: seq<nat>)
    ensures missing.Some? ==>
      missing.value < |names| && names[missing.value] !in table && forall j :: 0 <= j < missing.value ==> names[j] in table
    ensures missing.None? ==> |members| == |names| && forall k :: 0 <= k < |names| ==> names[k] in table && members[k] == table[names[k]]
  {
    members := [];
    for k := 0 to |names|
      invariant |members| == k && forall j :: 0 <= j < k ==> names[j] in table && members[j] == table[names[j]]
    {
      if names[k] !in table {
        return Some(k), members;
      }
      members := members + [table[names[k]]];
    }
    return None, members;
  }

  lemma KnownGrowsForAll(base: seq<Built>, specs: seq<GroupSpec>, i: nat)
    requires i < |specs|
    ensures forall name :: Known(base, specs, i + 1, name) <==> Known(base, specs, i, name) || specs[i].mapping.name == name
  {
    forall name
      ensures Known(base, specs, i + 1, name) <==> Known(base, specs, i, name) || specs[i].mapping.name == name
    {
      KnownGrows(base, specs, i, name);
    }
  }

  /** Position k of the list is the first whose name is not known before group i. */
  ghost predicate FirstUnknown(base: seq<Built>, specs: seq<GroupSpec>, i: nat, names: seq<string>, k: nat) {
    k < |names| && !Known(base, specs, i, names[k]) && forall j :: 0 <= j < k ==> Known(base, specs, i, names[j])
  }

  /** Why a group is refused: the first of its checks that fails. */
  ghost predicate RefusedFor(base: seq<Built>, specs: seq<GroupSpec>, r: BuildOutcome)
    requires !r.AllBuilt? && r.index < |specs|
  {
    var i, spec := r.index, specs[r.index];
    var names := MembersOfSpec(spec);
    if r.FallbackNotFound? then !Known(base, specs, i, FallbackOf(spec))
    else
      && Known(base, specs, i, FallbackOf(spec))
      && if r.NoMembers? then names == [] && !spec.hasProviders
         else
           && (names != [] || spec.hasProviders)
           && if r.MemberNotFound? then exists k: nat :: FirstUnknown(base, specs, i, names, k) && r.name == names[k]
              else (forall m :: m in names ==> Known(base, specs, i, m)) && Known(base, specs, i, spec.mapping.name)
  }

  /** ParseProxyGroup as far as references go, and the check for taken names behind it. */
  method ParseGroup(base: seq<Built>, specs: seq<GroupSpec>, i: nat, world: seq<Built>, table: map<string, nat>)
    returns (failed: Option<BuildOutcome>, members: seq<nat>)
    requires i < |specs| && TableOk(base, specs, i, world, table)
    ensures failed.None? <==> CanBuild(base, specs, i)
    ensures failed.None? ==> FallbackOf(specs[i]) in table && specs[i].mapping.name !in table && Names(world, members, MembersOfSpec(specs[i]))
    ensures failed.Some? ==> !failed.value.AllBuilt? && failed.value.index == i && RefusedFor(base, specs, failed.value)
  {
    var spec := specs[i];
    members := [];
    if FallbackOf(spec) !in table {
      return Some(FallbackNotFound(i)), members;
    }
    var names := MembersOfSpec(spec);
    if names == [] && !spec.hasProviders {
      return Some(NoMembers(i)), members;
    }
    var missing;
    missing, members := LookUpMembers(names, table);
    if missing.Some? {
      assert FirstUnknown(base, specs, i, names, missing.value);
      return Some(MemberNotFound(i, names[missing.value])), members;
    }
    if spec.mapping.name in table {
      return Some(NameTaken(i)), members;
    }
    return None, members;
  }

  /** The positions hold proxies of the given names, in that order. */
  ghost predicate Names(world: seq<Built>, members: seq<nat>, names: seq<string>) {
    |members| == |names| && forall k :: 0 <= k < |names| ==> members[k] < |world| && world[members[k]].name == names[k]
  }

  /** A built group is what its options ask for. */
  ghost predicate BuiltFrom(world: seq<Built>, spec: GroupSpec, g: Built) {
    && g.Group? && g.name == spec.mapping.name && g.serves == spec.serves && g.hasProviders == spec.hasProviders
    && g.fallback < |world| && world[g.fallback].name == FallbackOf(spec)
    && Names(world, g.members, MembersOfSpec(spec))
  }

  /** Whose members a built group has: those it lists and then, with include-all, the base proxies; its
      fallback alone when include-all finds nothing at all. The fallback is COMPATIBLE unless named. */
  lemma MembersOfBuilt(world: seq<Built>, spec: GroupSpec, g: Built)
    requires BuiltFrom(world, spec, g)
    ensures world[g.fallback].name == if spec.emptyFallback == "" then "COMPATIBLE" else spec.emptyFallback
    ensures var own, all := spec.mapping.proxies, spec.allProxies; var n := |own|;
      if !spec.includeAll then Names(world, g.members, own)
      else if own == [] && all == [] && !spec.hasProviders then |g.members| == 1 && Names(world, g.members, [world[g.fallback].name])
      else
        && |g.members| == n + |all| && Names(world, g.members[..n], own) && Names(world, g.members[n..], all)
  {
  }

  /** When a group can be built, in the words of its options. */
  lemma CanBuildIff(base: seq<Built>, specs: seq<GroupSpec>, i: nat)
    requires i < |specs|
    ensures var spec := specs[i]; var fallback := if spec.emptyFallback == "" then "COMPATIBLE" else spec.emptyFallback;
      CanBuild(base, specs, i) <==>
        && Known(base, specs, i, fallback) && !Known(base, specs, i, spec.mapping.name)
        && (spec.mapping.proxies != [] || spec.hasProviders || spec.includeAll)
        && (forall m :: m in spec.mapping.proxies ==> Known(base, specs, i, m))
        && (spec.includeAll ==> forall m :: m in spec.allProxies ==> Known(base, specs, i, m))
  {
    var spec := specs[i];
    var listed := spec.mapping.proxies + if spec.includeAll then spec.allProxies else [];
    assert listed == [] <==> spec.mapping.proxies == [] && (spec.includeAll ==> spec.allProxies == []);
    assert forall m :: m in listed <==> m in spec.mapping.proxies || (spec.includeAll && m in spec.allProxies);
  }

  /** The groups follow the base proxies, in order, each as its options ask for. */
  ghost predicate BuiltInOrder(base: seq<Built>, specs: seq<GroupSpec>, i: nat, world: seq<Built>) {
    && i <= |specs| && base <= world && |world| == |base| + i && RefersBack(world)
    && forall j :: 0 <= j < i ==> BuiltFrom(world, specs[j], world[|base| + j])
  }

  /** Stores a parsed group and registers its name. */
  method AddGroup(ghost base: seq<Built>, specs: seq<GroupSpec>, i: nat, world0: seq<Built>, table0: map<string, nat>, members: seq<nat>)
    returns (world: seq<Built>, table: map<string, nat>)
    requires i < |specs| && BuiltInOrder(base, specs, i, world0) && TableOk(base, specs, i, world0, table0)
    requires FallbackOf(specs[i]) in table0 && specs[i].mapping.name !in table0 && Names(world0, members, MembersOfSpec(specs[i]))
    ensures BuiltInOrder(base, specs, i + 1, world) && TableOk(base, specs, i + 1, world, table)
  {
    var spec := specs[i];
    KnownGrowsForAll(base, specs, i);
    table := table0[spec.mapping.name := |world0|];
    var group := Group(spec.mapping.name, spec.serves, members, table0[FallbackOf(spec)], spec.hasProviders);
    world := world0 + [group];
    BuiltOneMore(base, specs, i, world0, group);
  }

  lemma BuiltOneMore(base: seq<Built>, specs: seq<GroupSpec>, i: nat, world: seq<Built>, g: Built)
    requires i < |specs| && BuiltInOrder(base, specs, i, world) && BuiltFrom(world, specs[i], g)
    ensures BuiltInOrder(base, specs, i + 1, world + [g])
  {
    NamesKeep(world, specs[i], g, g);
    assert forall m :: m in g.members ==> m < |world|;
    forall j | 0 <= j < i
      ensures BuiltFrom(world + [g], specs[j], (world + [g])[|base| + j])
    {
      NamesKeep(world, specs[j], world[|base| + j], g);
    }
  }

  lemma NamesKeep(world: seq<Built>, spec: GroupSpec, h: Built, g: Built)
    requires BuiltFrom(world, spec, h)
    ensures BuiltFrom(world + [g], spec, h)
  {
  }

  method BuildNext(base: seq<Built>, specs: seq<GroupSpec>, i: nat, world0: seq<Built>, table0: map<string, nat>)
    returns (failed: Option<BuildOutcome>, world: seq<Built>, table: map<string, nat>)
    requires i < |specs| && BuiltInOrder(base, specs, i, world0) && TableOk(base, specs, i, world0, table0)
    ensures failed.None? <==> CanBuild(base, specs, i)
    ensures failed.None? ==> BuiltInOrder(base, specs, i + 1, world) && TableOk(base, specs, i + 1, world, table)
    ensures failed.Some? ==> !failed.value.AllBuilt? && failed.value.index == i && RefusedFor(base, specs, failed.value)
  {
    var members;
    world, table := world0, table0;
    failed, members := ParseGroup(base, specs, i, world, table);
    if failed.None? {
      world, table := AddGroup(base, specs, i, world, table, members);
    }
  }

  ghost predicate CanBuildBefore(base: seq<Built>, specs: seq<GroupSpec>, i: nat) {
    forall j :: 0 <= j < i && j < |specs| ==> CanBuild(base, specs, j)
  }

  /** The group loop of parseProxies. */
  method BuildGroups(base: seq<Built>, specs: seq<GroupSpec>) returns (r: BuildOutcome, world: seq<Built>, table: map<string, nat>)
    requires forall j :: 0 <= j < |base| ==> base[j].Base?
    ensures r.AllBuilt? <==> CanBuildBefore(base, specs, |specs|)
    ensures r.AllBuilt? ==> BuiltInOrder(base, specs, |specs|, world) && TableOk(base, specs, |specs|, world, table)
    ensures !r.AllBuilt? ==> r.index < |specs| && RefusedFor(base, specs, r) && CanBuildBefore(base, specs, r.index)
  {
    world := base;
    table := BaseTable(base);
    for i := 0 to |specs|
      invariant BuiltInOrder(base, specs, i, world) && TableOk(base, specs, i, world, table)
      invariant CanBuildBefore(base, specs, i)
    {
      var failed;
      failed, world, table := BuildNext(base, specs, i, world, table);
      if failed.Some? {
        return failed.value, world, table;
      }
    }
    return AllBuilt, world, table;
  }

  // ----- what the dependency sort buys -----

  function MappingsOf(specs: seq<GroupSpec>): (r: seq<Mapping>)
    ensures |r| == |specs|
  {
    seq(|specs|, i requires 0 <= i < |specs| => specs[i].mapping)
  }

  /** In sorted order a listed name is found exactly when it is a base proxy or a group anywhere. */
  lemma SortedMembersFound(base: seq<Built>, specs: seq<GroupSpec>, i: nat, name: string)
    requires DependencySorted(MappingsOf(specs)) && i < |specs| && name in specs[i].mapping.proxies
    ensures Known(base, specs, i, name) <==> IsBaseName(base, name) || IsEarlierGroup(specs, |specs|, name)
  {
    if IsEarlierGroup(specs, |specs|, name) {
      var j :| 0 <= j < |specs| && specs[j].mapping.name == name;
      var ms := MappingsOf(specs);
      assert ms[j].name == name && name in ms[i].proxies;
      assert j < i;
    }
  }

  /** The name exists: as a base proxy or as a group anywhere in the configuration. */
  ghost predicate Exists(base: seq<Built>, specs: seq<GroupSpec>, name: string) {
    IsBaseName(base, name) || IsEarlierGroup(specs, |specs|, name)
  }

  /** The parts of CanBuild that do not depend on the order of the groups, and the fallback, which does. */
  ghost predicate Complete(base: seq<Built>, specs: seq<GroupSpec>, i: nat)
    requires i < |specs|
  {
    && !IsBaseName(base, specs[i].mapping.name) && Known(base, specs, i, FallbackOf(specs[i]))
    && (MembersOfSpec(specs[i]) != [] || specs[i].hasProviders)
    && forall m :: m in specs[i].mapping.proxies ==> Exists(base, specs, m)
  }

  /**
   What the sort is for: a sorted configuration is built as a whole if and only if every listed name
   exists anywhere, every fallback is a base proxy or an earlier group, no group has the name of a
   base proxy, and none is left without members and providers.
   */
  lemma SortedConfigurationBuilds(base: seq<Built>, specs: seq<GroupSpec>)
    requires WellFormed(MappingsOf(specs)) && DependencySorted(MappingsOf(specs))
    requires forall i, m :: 0 <= i < |specs| && m in specs[i].allProxies ==> IsBaseName(base, m)
    ensures CanBuildBefore(base, specs, |specs|) <==> forall i :: 0 <= i < |specs| ==> Complete(base, specs, i)
  {
    forall i | 0 <= i < |specs|
      ensures CanBuild(base, specs, i) <==> Complete(base, specs, i)
    {
      if !IsBaseName(base, specs[i].mapping.name) {
        NameIsFree(base, specs, i);
      }
      forall m | m in specs[i].mapping.proxies
        ensures Known(base, specs, i, m) <==> Exists(base, specs, m)
      {
        SortedMembersFound(base, specs, i, m);
      }
      assert forall m :: m in specs[i].mapping.proxies ==> m in MembersOfSpec(specs[i]);
    }
  }

  lemma NameIsFree(base: seq<Built>, specs: seq<GroupSpec>, i: nat)
    requires WellFormed(MappingsOf(specs)) && i < |specs| && !IsBaseName(base, specs[i].mapping.name)
    ensures !Known(base, specs, i, specs[i].mapping.name)
  {
    var ms := MappingsOf(specs);
    forall j | 0 <= j < i
      ensures specs[j].mapping.name != specs[i].mapping.name
    {
      assert ms[j].name != ms[i].name;
    }
  }

  /** The sort does not look at fallbacks: a group listed in a sorted configuration can still name a
      fallback that is a group and yet not built in time. */
  lemma FallbackGroupTooLate(base: seq<Built>) returns (specs: seq<GroupSpec>)
    requires IsBaseName(base, "d") && !IsBaseName(base, "a") && !IsBaseName(base, "b")
    ensures WellFormed(MappingsOf(specs)) && DependencySorted(MappingsOf(specs))
    ensures |specs| > 0 && IsEarlierGroup(specs, |specs|, FallbackOf(specs[0])) && !CanBuild(base, specs, 0)
  {
    var a := GroupSpec(Mapping(true, "a", ["d"]), "b", false, false, [], AsChosen);
    var b := GroupSpec(Mapping(true, "b", ["d"]), "d", false, false, [], AsChosen);
    specs := [a, b];
    assert specs[1].mapping.name == "b";
    assert MappingsOf(specs) == [Mapping(true, "a", ["d"]), Mapping(true, "b", ["d"])];
  }

  // ----- walking from a group to what it stands for -----

  /** One Unwrap: nothing, something built earlier, or a proxy from a provider, which is never a group. */
  datatype Target = Nothing | Earlier(index: nat) | Provided(kind: Kind, udp: bool)

  /** What Unwrap may return, whatever is selected or alive at the moment. */
  ghost predicate MayUnwrap(world: seq<Built>, x: nat, target: Target)
    requires x < |world|
  {
    match world[x]
    case Base(_, _, _) => target.Nothing?
    case Group(_, _, members, fallback, hasProviders) =>
      match target {
        case Nothing => false
        case Earlier(y) => y in members || y == fallback
        case Provided(_, _) => hasProviders
      }
  }

  /** The choices made during one walk; a walk never comes to the same place twice. */
  ghost predicate Choices(world: seq<Built>, unwrap: nat -> Target) {
    forall x {:trigger unwrap(x)} :: 0 <= x < |world| ==> MayUnwrap(world, x, unwrap(x))
  }

  function KindOf(world: seq<Built>, x: nat): Kind
    requires x < |world|
  {
    if world[x].Base? then world[x].kind else OtherKind
  }

  /** Whether the walk from x meets a proxy of the given kind. */
  predicate Meets(world: seq<Built>, unwrap: nat -> Target, x: nat, kind: Kind)
    requires x < |world|
    decreases x
  {
    KindOf(world, x) == kind ||
    match unwrap(x)
    case Nothing => false
    case Provided(k, _) => k == kind
    case Earlier(y) => y < x && Meets(world, unwrap, y, kind)
  }

  /** A walk over Unwrap, place by place. */
  ghost predicate IsWalk(world: seq<Built>, unwrap: nat -> Target, path: seq<nat>, x: nat) {
    && |path| > 0 && path[0] == x && (forall i :: 0 <= i < |path| ==> path[i] < |world|)
    && forall i :: 0 <= i < |path| - 1 ==> unwrap(path[i]) == Earlier(path[i + 1])
  }

  /** A proxy of the kind stands here, or is what a provider supplies next. */
  ghost predicate ShowsKind(world: seq<Built>, unwrap: nat -> Target, y: nat, kind: Kind)
    requires y < |world|
  {
    || (world[y].Base? && world[y].kind == kind)
    || (world[y].Group? && kind == OtherKind)
    || (unwrap(y).Provided? && unwrap(y).kind == kind)
  }

  ghost predicate WalksTo(world: seq<Built>, unwrap: nat -> Target, path: seq<nat>, x: nat, kind: Kind) {
    IsWalk(world, unwrap, path, x) && ShowsKind(world, unwrap, path[|path| - 1], kind)
  }

  /** The kind is met exactly when some walk from x leads to it, however many groups lie in between. */
  lemma MeetsIffWalk(world: seq<Built>, unwrap: nat -> Target, x: nat, kind: Kind)
    requires x < |world| && RefersBack(world) && Choices(world, unwrap)
    ensures Meets(world, unwrap, x, kind) <==> exists path :: WalksTo(world, unwrap, path, x, kind)
  {
    if Meets(world, unwrap, x, kind) {
      var path := MetOnWalk(world, unwrap, x, kind);
    }
    if path :| WalksTo(world, unwrap, path, x, kind) {
      WalkIsMet(world, unwrap, path, x, kind);
    }
  }

  lemma {:induction false} MetOnWalk(world: seq<Built>, unwrap: nat -> Target, x: nat, kind: Kind) returns (path: seq<nat>)
    requires x < |world| && Meets(world, unwrap, x, kind)
    ensures WalksTo(world, unwrap, path, x, kind)
    decreases x
  {
    path := [x];
    if KindOf(world, x) != kind && unwrap(x).Earlier? {
      var rest := MetOnWalk(world, unwrap, unwrap(x).index, kind);
      path := [x] + rest;
    }
  }

  lemma {:induction false} WalkIsMet(world: seq<Built>, unwrap: nat -> Target, path: seq<nat>, x: nat, kind: Kind)
    requires RefersBack(world) && Choices(world, unwrap) && WalksTo(world, unwrap, path, x, kind)
    ensures Meets(world, unwrap, x, kind)
    decreases |path|
  {
    assert MayUnwrap(world, x, unwrap(x));
    if |path| > 1 {
      WalkIsMet(world, unwrap, path[1..], path[1], kind);
    }
  }

  /** The loop over Unwrap in match and in CheckPassRule. It ends because every step goes to
      something built strictly earlier. */
  method WalkMeets(world: seq<Built>, unwrap: nat -> Target, x: nat, kind: Kind) returns (found: bool)
    requires x < |world| && RefersBack(world) && Choices(world, unwrap)
    ensures found == Meets(world, unwrap, x, kind)
    ensures found <==> exists path :: WalksTo(world, unwrap, path, x, kind)
  {
    MeetsIffWalk(world, unwrap, x, kind);
    var a := Earlier(x);
    while !a.Nothing?
      invariant a.Earlier? ==> a.index <= x && Meets(world, unwrap, x, kind) == Meets(world, unwrap, a.index, kind)
      invariant a.Provided? ==> Meets(world, unwrap, x, kind) == (a.kind == kind)
      invariant a.Nothing? ==> !Meets(world, unwrap, x, kind)
      decreases match a { case Earlier(y) => y + 2 case Provided(_, _) => 1 case Nothing => 0 }
    {
      match a
      case Provided(k, _) =>
        if k == kind {
          return true;
        }
        a := Nothing;
      case Earlier(y) =>
        if KindOf(world, y) == kind {
          return true;
        }
        assert MayUnwrap(world, y, unwrap(y));
        a := unwrap(y);
    }
    return false;
  }

  /** SupportUDP: asked of whatever is chosen at the moment, from group to group. */
  predicate SupportsUdp(world: seq<Built>, chosen: nat -> Target, x: nat)
    requires x < |world|
    decreases x
  {
    match world[x]
    case Base(_, _, udp) => udp
    case Group(_, Disabled, _, _, _) => false
    case Group(_, Always, _, _, _) => true
    case Group(_, AsChosen, _, _, _) =>
      match chosen(x) {
        case Nothing => false
        case Provided(_, udp) => udp
        case Earlier(y) => y < x && SupportsUdp(world, chosen, y)
      }
  }

  /** The positions at which SupportUDP is asked, from x on. */
  ghost function Asked(world: seq<Built>, chosen: nat -> Target, x: nat): (r: seq<nat>)
    requires x < |world|
    ensures |r| > 0 && r[0] == x && forall i :: 0 <= i < |r| ==> r[i] <= x
    decreases x
  {
    if world[x].Group? && world[x].serves.AsChosen? && chosen(x).Earlier? && chosen(x).index < x then
      [x] + Asked(world, chosen, chosen(x).index)
    else [x]
  }

  /** Whether the last one asked serves UDP, without asking on. */
  ghost predicate LastServesUdp(world: seq<Built>, chosen: nat -> Target, y: nat)
    requires y < |world|
  {
    match world[y]
    case Base(_, _, udp) => udp
    case Group(_, serves, _, _, _) => serves.Always? || (serves.AsChosen? && chosen(y).Provided? && chosen(y).udp)
  }

  /** The question goes strictly back from choice to choice, and its answer is that of the last one asked:
      no group on the way there has UDP disabled. */
  lemma {:induction false} UdpIsThatOfTheLast(world: seq<Built>, chosen: nat -> Target, x: nat)
    requires x < |world| && RefersBack(world) && Choices(world, chosen)
    ensures var asked := Asked(world, chosen, x); var last := asked[|asked| - 1];
      && (SupportsUdp(world, chosen, x) <==> LastServesUdp(world, chosen, last))
      && forall i :: 0 <= i < |asked| - 1 ==> asked[i + 1] < asked[i] < |world| && chosen(asked[i]) == Earlier(asked[i + 1])
    decreases x
  {
    assert MayUnwrap(world, x, chosen(x));
    var asked := Asked(world, chosen, x);
    if |asked| > 1 {
      var y := chosen(x).index;
      UdpIsThatOfTheLast(world, chosen, y);
      var rest := Asked(world, chosen, y);
      assert asked == [x] + rest;
      forall i | 0 <= i < |asked| - 1
        ensures asked[i + 1] < asked[i] < |world| && chosen(asked[i]) == Earlier(asked[i + 1])
      {
        if i > 0 {
          assert asked[i] == rest[i - 1] && asked[i + 1] == rest[i - 1 + 1];
        }
      }
    }
  }

  /** A walk over choices that passes the question for UDP on, to one that answers for itself with yes. */
  ghost predicate UdpServedAlong(world: seq<Built>, chosen: nat -> Target, path: seq<nat>, x: nat) {
    && IsWalk(world, chosen, path, x) && LastServesUdp(world, chosen, path[|path| - 1])
    && forall i :: 0 <= i < |path| - 1 ==> world[path[i]].Group? && world[path[i]].serves.AsChosen?
  }

  /** UDP is served exactly when the question can be passed on to one who says yes. */
  lemma UdpIffServedAlong(world: seq<Built>, chosen: nat -> Target, x: nat)
    requires x < |world| && RefersBack(world) && Choices(world, chosen)
    ensures SupportsUdp(world, chosen, x) <==> exists path :: UdpServedAlong(world, chosen, path, x)
  {
    if SupportsUdp(world, chosen, x) {
      var path := ServedOnWalk(world, chosen, x);
    }
    if path :| UdpServedAlong(world, chosen, path, x) {
      ServedAlongSupports(world, chosen, path, x);
    }
  }

  lemma {:induction false} ServedOnWalk(world: seq<Built>, chosen: nat -> Target, x: nat) returns (path: seq<nat>)
    requires x < |world| && SupportsUdp(world, chosen, x)
    ensures UdpServedAlong(world, chosen, path, x)
    decreases x
  {
    path := [x];
    if world[x].Group? && world[x].serves.AsChosen? && chosen(x).Earlier? {
      var rest := ServedOnWalk(world, chosen, chosen(x).index);
      path := [x] + rest;
    }
  }

  lemma {:induction false} ServedAlongSupports(world: seq<Built>, chosen: nat -> Target, path: seq<nat>, x: nat)
    requires RefersBack(world) && Choices(world, chosen) && UdpServedAlong(world, chosen, path, x)
    ensures SupportsUdp(world, chosen, x)
    decreases |path|
  {
    assert MayUnwrap(world, x, chosen(x));
    if |path| > 1 {
      ServedAlongSupports(world, chosen, path[1..], path[1]);
    }
  }

  // ----- rule matching -----

  /** A rule as matched against one connection. */
  datatype Rule = Rule(matches: bool, adapter: string)

  /** The rule decides: it matches, its adapter exists, nothing on the walk passes, and UDP is served if needed. */
  predicate Decides(rule: Rule, world: seq<Built>, table: map<string, nat>, unwrap: nat -> Target, chosen: nat -> Target, isUdp: bool)
    requires forall name :: name in table ==> table[name] < |world|
  {
    && rule.matches && rule.adapter in table
    && !Meets(world, unwrap, table[rule.adapter], Pass)
    && (isUdp ==> SupportsUdp(world, chosen, table[rule.adapter]))
  }

  /** What is chosen while a rule is tried: during the walk over Unwrap, and when UDP is asked for. */
  datatype Moment = Moment(unwrap: nat -> Target, chosen: nat -> Target)

  /** The rule decides, given the choices of the moment at which it is tried. */
  predicate DecidesAt(rule: Rule, world: seq<Built>, table: map<string, nat>, m: Moment, isUdp: bool)
    requires forall name :: name in table ==> table[name] < |world|
  {
    Decides(rule, world, table, m.unwrap, m.chosen, isUdp)
  }

  /** When a rule decides, by the walks from its adapter alone: none of them leads to Pass, and if UDP
      is needed one of them leads to somebody who serves it. */
  lemma DecidesIff(rule: Rule, world: seq<Built>, table: map<string, nat>, m: Moment, isUdp: bool)
    requires RefersBack(world) && forall name :: name in table ==> table[name] < |world|
    requires Choices(world, m.unwrap) && Choices(world, m.chosen)
    ensures DecidesAt(rule, world, table, m, isUdp) <==>
      && rule.matches && rule.adapter in table
      && (forall path :: !WalksTo(world, m.unwrap, path, table[rule.adapter], Pass))
      && (isUdp ==> exists path :: UdpServedAlong(world, m.chosen, path, table[rule.adapter]))
  {
    if rule.adapter in table {
      MeetsIffWalk(world, m.unwrap, table[rule.adapter], Pass);
      UdpIffServedAlong(world, m.chosen, table[rule.adapter]);
    }
  }

  /** match: the first rule that decides, or DIRECT. What is chosen may change from rule to rule. */
  method Match(rules: seq<Rule>, world: seq<Built>, table: map<string, nat>, moments: seq<Moment>, isUdp: bool)
    returns (adapter: nat, rule: Option<nat>)
    requires RefersBack(world) && "DIRECT" in table && forall name :: name in table ==> table[name] < |world|
    requires |moments| == |rules|
    requires forall i :: 0 <= i < |moments| ==> Choices(world, moments[i].unwrap) && Choices(world, moments[i].chosen)
    ensures rule.Some? ==>
      && rule.value < |rules| && DecidesAt(rules[rule.value], world, table, moments[rule.value], isUdp)
      && adapter == table[rules[rule.value].adapter]
      && forall i :: 0 <= i < rule.value ==> !DecidesAt(rules[i], world, table, moments[i], isUdp)
    ensures rule.None? ==>
      adapter == table["DIRECT"] && forall i :: 0 <= i < |rules| ==> !DecidesAt(rules[i], world, table, moments[i], isUdp)
  {
    for i := 0 to |rules|
      invariant forall k :: 0 <= k < i ==> !DecidesAt(rules[k], world, table, moments[k], isUdp)
    {
      if rules[i].matches && rules[i].adapter in table {
        var x := table[rules[i].adapter];
        var passed := WalkMeets(world, moments[i].unwrap, x, Pass);
        if !passed && !(isUdp && !SupportsUdp(world, moments[i].chosen, x)) {
          return x, Some(i);
        }
      }
    }
    return table["DIRECT"], None;
  }
}
