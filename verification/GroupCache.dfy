/**
 The version-keyed cache of a group's proxy list, with providers that are updated meanwhile. A
 call reads the providers' versions one by one, takes the group's mutex, and either returns the
 cached list or reads the providers' lists one by one and caches what comes out. Between any two
 of these steps any provider may be given a new list.
 */
module GroupCache {
  import opened ProxyPipeline
  import opened Options

  type Tid = nat

  /** Versions are 32-bit counters. */
  const VERSIONS := 0x1_0000_0000

  function VersionOf(epoch: nat): nat {
    epoch % VERSIONS
  }

  datatype Pc =
    | ReadingVersions(epochs: seq<nat>)                     // the epochs whose versions have been read
    | Building(epochs: seq<nat>, got: seq<nat>)             // under the mutex, with the lists read so far

  /**
   history[i] are the lists provider i has had, the current one last; the number of updates is its
   epoch, of which the program only keeps the version. cacheEpochs and cacheGot record what the
   cached list was made from; the program keeps only cacheVersions and cacheList.
   */
  datatype State = State(
    history: seq<seq<seq<Proxy>>>, locked: bool, threads: map<Tid, Pc>,
    cacheVersions: seq<nat>, cacheList: seq<Proxy>, cacheEpochs: seq<nat>, cacheGot: seq<nat>)

  datatype Step =
    | SetProxies(i: nat, proxies: seq<Proxy>)
    | Start(t: Tid)
    | ReadVersion(t: Tid)
    | Acquire(t: Tid)
    | ReadList(t: Tid)
    | Finish(t: Tid)

  datatype Event = Quiet | Returned(t: Tid, epochs: seq<nat>, proxies: seq<Proxy>)

  /** The providers in the order in which their lists are read. */
  function Plan(cfg: Config, n: nat): (r: seq<nat>)
    requires n <= |cfg.compatible|
    ensures forall j :: 0 <= j < |r| ==> r[j] < n
  {
    if n == 0 then [] else Plan(cfg, n - 1) + seq(Calls(cfg, n - 1), _ => n - 1)
  }

  function Offset(cfg: Config, n: nat): nat
    requires n <= |cfg.compatible|
  {
    |Plan(cfg, n)|
  }

  lemma {:induction false} PlanAt(cfg: Config, n: nat, i: nat, k: nat)
    requires i < n <= |cfg.compatible| && k < Calls(cfg, i)
    ensures Offset(cfg, i) + k < |Plan(cfg, n)| && Plan(cfg, n)[Offset(cfg, i) + k] == i
  {
    if i < n - 1 {
      PlanAt(cfg, n - 1, i, k);
    }
  }

  ghost predicate EpochsExist(cfg: Config, history: seq<seq<seq<Proxy>>>, got: seq<nat>) {
    && |history| == |cfg.compatible| && |got| <= |Plan(cfg, |cfg.compatible|)|
    && forall j :: 0 <= j < |got| ==> Plan(cfg, |cfg.compatible|)[j] < |history| && got[j] < |history[Plan(cfg, |cfg.compatible|)[j]]|
  }

  /** The lists that reading at the given epochs gives, provider by provider. */
  ghost function ReadsAt(cfg: Config, history: seq<seq<seq<Proxy>>>, got: seq<nat>): (lists: Reads)
    requires EpochsExist(cfg, history, got) && |got| == |Plan(cfg, |cfg.compatible|)|
    ensures ReadsFit(cfg, lists)
  {
    seq(|cfg.compatible|, i requires 0 <= i < |cfg.compatible| =>
      seq(Calls(cfg, i), k requires 0 <= k < Calls(cfg, i) =>
        PlanAt(cfg, |cfg.compatible|, i, k);
        history[i][got[Offset(cfg, i) + k]]))
  }

  predicate Enabled(cfg: Config, s: State, step: Step) {
    match step
    case SetProxies(i, _) => i < |s.history|
    case Start(t) => t !in s.threads
    case ReadVersion(t) => t in s.threads && s.threads[t].ReadingVersions? && |s.threads[t].epochs| < |s.history|
    case Acquire(t) => t in s.threads && s.threads[t].ReadingVersions? && |s.threads[t].epochs| == |s.history| && !s.locked
    case ReadList(t) => t in s.threads && s.threads[t].Building? && |s.threads[t].got| < |Plan(cfg, |cfg.compatible|)|
    case Finish(t) => t in s.threads && s.threads[t].Building? && |s.threads[t].got| == |Plan(cfg, |cfg.compatible|)|
  }

  function Versions(epochs: seq<nat>): (r: seq<nat>)
    ensures |r| == |epochs|
  {
    seq(|epochs|, i requires 0 <= i < |epochs| => VersionOf(epochs[i]))
  }

  function Cached(s: State, epochs: seq<nat>, got: seq<nat>, proxies: seq<Proxy>): State {
    s.(cacheVersions := Versions(epochs), cacheList := proxies, cacheEpochs := epochs, cacheGot := got)
  }

  /** A call after reading the next list, at the epoch its provider is at. */
  function AfterRead(cfg: Config, history: seq<seq<seq<Proxy>>>, pc: Pc): Pc
    requires pc.Building? && |pc.got| < |Plan(cfg, |cfg.compatible|)| && Plan(cfg, |cfg.compatible|)[|pc.got|] < |history|
    requires |history[Plan(cfg, |cfg.compatible|)[|pc.got|]]| > 0
  {
    Building(pc.epochs, pc.got + [|history[Plan(cfg, |cfg.compatible|)[|pc.got|]]| - 1])
  }

  ghost function Next(cfg: Config, fallback: Proxy, s: State, step: Step): (State, Event)
    requires Inv(cfg, s) && Enabled(cfg, s, step)
  {
    match step
    case SetProxies(i, proxies) => (s.(history := s.history[i := s.history[i] + [proxies]]), Quiet)
    case Start(t) => (s.(threads := s.threads[t := ReadingVersions([])]), Quiet)
    case ReadVersion(t) =>
      var epochs := s.threads[t].epochs;
      (s.(threads := s.threads[t := ReadingVersions(epochs + [|s.history[|epochs|]| - 1])]), Quiet)
    case Acquire(t) =>
      var epochs := s.threads[t].epochs;
      if Versions(epochs) == s.cacheVersions then (s.(threads := s.threads - {t}), Returned(t, epochs, s.cacheList))
      else (s.(locked := true, threads := s.threads[t := Building(epochs, [])]), Quiet)
    case ReadList(t) =>
      (s.(threads := s.threads[t := AfterRead(cfg, s.history, s.threads[t])]), Quiet)
    case Finish(t) =>
      var pc := s.threads[t];
      var proxies := Pipeline(cfg, ReadsAt(cfg, s.history, pc.got));
      var done := s.(locked := false, threads := s.threads - {t});
      if |proxies| == 0 then (done, Returned(t, pc.epochs, [fallback]))
      else (Cached(done, pc.epochs, pc.got, proxies), Returned(t, pc.epochs, proxies))
  }

  /** Each list was read no earlier than the version of its provider. */
  ghost predicate NoOlder(cfg: Config, epochs: seq<nat>, got: seq<nat>) {
    && |epochs| == |cfg.compatible| && |got| <= |Plan(cfg, |cfg.compatible|)|
    && forall j :: 0 <= j < |got| ==> Plan(cfg, |cfg.compatible|)[j] < |epochs| && epochs[Plan(cfg, |cfg.compatible|)[j]] <= got[j]
  }

  ghost predicate PcOk(cfg: Config, s: State, pc: Pc) {
    && |pc.epochs| <= |s.history| && (forall i :: 0 <= i < |pc.epochs| ==> pc.epochs[i] < |s.history[i]|)
    && (pc.Building? ==> |pc.epochs| == |s.history| && EpochsExist(cfg, s.history, pc.got) && NoOlder(cfg, pc.epochs, pc.got))
  }

  /** The cached list comes from lists no older than the versions it is kept under. */
  ghost predicate CacheOk(cfg: Config, s: State) {
    s.cacheVersions != [] ==>
      && |s.cacheEpochs| == |s.history| && s.cacheVersions == Versions(s.cacheEpochs)
      && (forall i :: 0 <= i < |s.history| ==> s.cacheEpochs[i] < |s.history[i]|)
      && EpochsExist(cfg, s.history, s.cacheGot) && |s.cacheGot| == |Plan(cfg, |cfg.compatible|)|
      && NoOlder(cfg, s.cacheEpochs, s.cacheGot)
      && s.cacheList == Pipeline(cfg, ReadsAt(cfg, s.history, s.cacheGot)) && s.cacheList != []
  }

  ghost predicate SomeBuilding(threads: map<Tid, Pc>) {
    exists t :: t in threads && threads[t].Building?
  }

  ghost predicate OneBuilding(threads: map<Tid, Pc>) {
    forall t, u :: t in threads && u in threads && threads[t].Building? && threads[u].Building? ==> t == u
  }

  ghost predicate Inv(cfg: Config, s: State) {
    && |s.history| == |cfg.compatible| >= 1 && (forall i :: 0 <= i < |s.history| ==> |s.history[i]| >= 1)
    && (forall t :: t in s.threads ==> PcOk(cfg, s, s.threads[t]))
    && OneBuilding(s.threads) && (s.locked <==> SomeBuilding(s.threads))
    && CacheOk(cfg, s)
  }

  // ----- every step keeps the invariant -----

  /** Providers only ever append to their history. */
  ghost predicate Grows(before: seq<seq<seq<Proxy>>>, after: seq<seq<seq<Proxy>>>) {
    |before| == |after| && forall i :: 0 <= i < |before| ==> before[i] <= after[i]
  }

  lemma ReadsAtGrows(cfg: Config, before: seq<seq<seq<Proxy>>>, after: seq<seq<seq<Proxy>>>, got: seq<nat>)
    requires Grows(before, after) && EpochsExist(cfg, before, got)
    ensures EpochsExist(cfg, after, got)
    ensures |got| == |Plan(cfg, |cfg.compatible|)| ==> ReadsAt(cfg, before, got) == ReadsAt(cfg, after, got)
  {
    if |got| == |Plan(cfg, |cfg.compatible|)| {
      var a, b := ReadsAt(cfg, before, got), ReadsAt(cfg, after, got);
      forall i | 0 <= i < |a|
        ensures a[i] == b[i]
      {
        forall k | 0 <= k < |a[i]|
          ensures a[i][k] == b[i][k]
        {
          PlanAt(cfg, |cfg.compatible|, i, k);
        }
      }
    }
  }

  lemma SetProxiesKeepsInv(cfg: Config, fallback: Proxy, s: State, i: nat, proxies: seq<Proxy>)
    requires Inv(cfg, s) && i < |s.history|
    ensures Inv(cfg, Next(cfg, fallback, s, SetProxies(i, proxies)).0)
  {
    var r := Next(cfg, fallback, s, SetProxies(i, proxies)).0;
    assert Grows(s.history, r.history);
    forall t | t in r.threads
      ensures PcOk(cfg, r, r.threads[t])
    {
      assert PcOk(cfg, s, s.threads[t]);
      if s.threads[t].Building? {
        ReadsAtGrows(cfg, s.history, r.history, s.threads[t].got);
      }
    }
    if s.cacheVersions != [] {
      ReadsAtGrows(cfg, s.history, r.history, s.cacheGot);
    }
  }

  /** A call that moves on without taking or giving up the mutex. */
  lemma MovedOn(threads: map<Tid, Pc>, t: Tid, pc: Pc)
    requires OneBuilding(threads) && if t in threads then threads[t].Building? == pc.Building? else !pc.Building?
    ensures OneBuilding(threads[t := pc]) && (SomeBuilding(threads[t := pc]) <==> SomeBuilding(threads))
  {
    var after := threads[t := pc];
    if u :| u in threads && threads[u].Building? {
      assert u in after && after[u].Building?;
    }
    if u :| u in after && after[u].Building? {
      assert u in threads && threads[u].Building?;
    }
  }

  lemma ThreadMovedKeepsInv(cfg: Config, s: State, t: Tid, pc: Pc)
    requires Inv(cfg, s) && PcOk(cfg, s, pc) && (pc.Building? <==> t in s.threads && s.threads[t].Building?)
    ensures Inv(cfg, s.(threads := s.threads[t := pc]))
  {
    var r := s.(threads := s.threads[t := pc]);
    MovedOn(s.threads, t, pc);
    forall u | u in r.threads
      ensures PcOk(cfg, r, r.threads[u])
    {
      if u != t {
        assert PcOk(cfg, s, s.threads[u]);
      }
    }
  }

  lemma StartKeepsInv(cfg: Config, fallback: Proxy, s: State, t: Tid)
    requires Inv(cfg, s) && Enabled(cfg, s, Start(t))
    ensures Inv(cfg, Next(cfg, fallback, s, Start(t)).0)
  {
    ThreadMovedKeepsInv(cfg, s, t, ReadingVersions([]));
  }

  lemma ReadVersionKeepsInv(cfg: Config, fallback: Proxy, s: State, t: Tid)
    requires Inv(cfg, s) && Enabled(cfg, s, ReadVersion(t))
    ensures Inv(cfg, Next(cfg, fallback, s, ReadVersion(t)).0)
  {
    var epochs := s.threads[t].epochs;
    assert PcOk(cfg, s, s.threads[t]);
    ThreadMovedKeepsInv(cfg, s, t, ReadingVersions(epochs + [|s.history[|epochs|]| - 1]));
  }

  lemma ReadListKeepsInv(cfg: Config, fallback: Proxy, s: State, t: Tid)
    requires Inv(cfg, s) && Enabled(cfg, s, ReadList(t))
    ensures Inv(cfg, Next(cfg, fallback, s, ReadList(t)).0)
  {
    assert PcOk(cfg, s, s.threads[t]);
    AfterReadOk(cfg, s, s.threads[t]);
    ThreadMovedKeepsInv(cfg, s, t, AfterRead(cfg, s.history, s.threads[t]));
  }

  lemma AfterReadOk(cfg: Config, s: State, pc: Pc)
    requires |s.history| == |cfg.compatible| && (forall i :: 0 <= i < |s.history| ==> |s.history[i]| >= 1)
    requires pc.Building? && PcOk(cfg, s, pc) && |pc.got| < |Plan(cfg, |cfg.compatible|)|
    ensures PcOk(cfg, s, AfterRead(cfg, s.history, pc))
  {
  }

  lemma AcquireKeepsInv(cfg: Config, fallback: Proxy, s: State, t: Tid)
    requires Inv(cfg, s) && Enabled(cfg, s, Acquire(t))
    ensures Inv(cfg, Next(cfg, fallback, s, Acquire(t)).0)
  {
    var r := Next(cfg, fallback, s, Acquire(t)).0;
    assert PcOk(cfg, s, s.threads[t]);
    if r.locked {
      assert t in r.threads && r.threads[t].Building?;
    }
  }

  lemma FinishKeepsInv(cfg: Config, fallback: Proxy, s: State, t: Tid)
    requires Inv(cfg, s) && Enabled(cfg, s, Finish(t))
    ensures Inv(cfg, Next(cfg, fallback, s, Finish(t)).0)
  {
    var r := Next(cfg, fallback, s, Finish(t)).0;
    assert PcOk(cfg, s, s.threads[t]);
    assert CacheOk(cfg, r);
    forall u | u in r.threads
      ensures PcOk(cfg, r, r.threads[u]) && !r.threads[u].Building?
    {
      assert PcOk(cfg, s, s.threads[u]);
    }
  }

  lemma StepKeepsInv(cfg: Config, fallback: Proxy, s: State, step: Step)
    requires Inv(cfg, s) && Enabled(cfg, s, step)
    ensures var r := Next(cfg, fallback, s, step).0; Inv(cfg, r) && Grows(s.history, r.history)
  {
    match step
    case SetProxies(i, proxies) => SetProxiesKeepsInv(cfg, fallback, s, i, proxies);
    case Acquire(t) => AcquireKeepsInv(cfg, fallback, s, t);
    case Finish(t) => FinishKeepsInv(cfg, fallback, s, t);
    case Start(t) => StartKeepsInv(cfg, fallback, s, t);
    case ReadVersion(t) => ReadVersionKeepsInv(cfg, fallback, s, t);
    case ReadList(t) => ReadListKeepsInv(cfg, fallback, s, t);
  }

  // ----- runs -----

  ghost predicate Init(cfg: Config, s: State) {
    && |s.history| == |cfg.compatible| >= 1 && (forall i :: 0 <= i < |s.history| ==> |s.history[i]| == 1)
    && !s.locked && s.threads == map[] && s.cacheVersions == [] && s.cacheList == []
  }

  ghost predicate IsRun(cfg: Config, fallback: Proxy, ss: seq<State>, steps: seq<Step>) {
    && |ss| == |steps| + 1 && Init(cfg, ss[0]) && (forall i :: 0 <= i < |ss| ==> Inv(cfg, ss[i]))
    && forall i {:trigger steps[i]} :: 0 <= i < |steps| ==> Enabled(cfg, ss[i], steps[i]) && Next(cfg, fallback, ss[i], steps[i]).0 == ss[i + 1]
  }

  /** Runs exist from every initial state and can always go on: the invariant asked of their states is not a restriction. */
  lemma RunsExtend(cfg: Config, fallback: Proxy, ss: seq<State>, steps: seq<Step>, step: Step)
    requires IsRun(cfg, fallback, ss, steps) && Enabled(cfg, ss[|steps|], step)
    ensures IsRun(cfg, fallback, ss + [Next(cfg, fallback, ss[|steps|], step).0], steps + [step])
  {
    StepKeepsInv(cfg, fallback, ss[|steps|], step);
  }

  lemma InitialRun(cfg: Config, fallback: Proxy, s: State)
    requires Init(cfg, s)
    ensures IsRun(cfg, fallback, [s], [])
  {
  }

  /** A list the pipeline makes from lists that were each current at some moment after the version
      of their provider was read; the fallback stands in for an empty one. */
  ghost predicate MadeFrom(cfg: Config, fallback: Proxy, s: State, epochs: seq<nat>, got: seq<nat>, proxies: seq<Proxy>) {
    && EpochsExist(cfg, s.history, got) && |got| == |Plan(cfg, |cfg.compatible|)| && NoOlder(cfg, epochs, got)
    && var made := Pipeline(cfg, ReadsAt(cfg, s.history, got)); proxies == if made == [] then [fallback] else made
  }

  /** The call finds the versions it has read in the cache. */
  ghost predicate Hits(cfg: Config, s: State, step: Step)
    requires Enabled(cfg, s, step)
  {
    step.Acquire? && Versions(s.threads[step.t].epochs) == s.cacheVersions
  }

  /** No provider had been updated 2^32 times between the version in the cache and the one that was read. */
  ghost predicate Recent(epochs: seq<nat>, cacheEpochs: seq<nat>) {
    |epochs| == |cacheEpochs| && forall i :: 0 <= i < |epochs| ==> epochs[i] < cacheEpochs[i] + VERSIONS
  }

  lemma SameVersionNoLater(a: nat, b: nat)
    requires VersionOf(a) == VersionOf(b) && a < b + VERSIONS
    ensures a <= b
  {
  }

  lemma HitEpochs(cfg: Config, s: State, step: Step)
    requires Inv(cfg, s) && Enabled(cfg, s, step) && Hits(cfg, s, step)
    ensures s.cacheVersions != [] && |s.threads[step.t].epochs| == |s.cacheEpochs| == |cfg.compatible|
    ensures var epochs := s.threads[step.t].epochs; forall i :: 0 <= i < |epochs| ==> VersionOf(epochs[i]) == VersionOf(s.cacheEpochs[i])
  {
    var epochs := s.threads[step.t].epochs;
    assert PcOk(cfg, s, s.threads[step.t]);
    assert |s.cacheVersions| == |epochs| >= 1;
    forall i | 0 <= i < |epochs|
      ensures VersionOf(epochs[i]) == VersionOf(s.cacheEpochs[i])
    {
      assert Versions(epochs)[i] == Versions(s.cacheEpochs)[i];
    }
  }

  /** A hit within 2^32 updates: the lists behind the cached one are no older than the versions read. */
  lemma RecentHitIsFresh(cfg: Config, fallback: Proxy, s: State, step: Step)
    requires Inv(cfg, s) && Enabled(cfg, s, step) && Hits(cfg, s, step) && Recent(s.threads[step.t].epochs, s.cacheEpochs)
    ensures MadeFrom(cfg, fallback, s, s.threads[step.t].epochs, s.cacheGot, s.cacheList) && s.cacheList != []
  {
    HitEpochs(cfg, s, step);
    var epochs := s.threads[step.t].epochs;
    forall i | 0 <= i < |epochs|
      ensures epochs[i] <= s.cacheEpochs[i]
    {
      SameVersionNoLater(epochs[i], s.cacheEpochs[i]);
    }
  }

  /** The cached list was read within 2^32 updates of the versions it is kept under. */
  ghost predicate ReadInTime(cfg: Config, s: State)
    requires CacheOk(cfg, s) && s.cacheVersions != [] && |s.history| == |cfg.compatible|
  {
    forall j :: 0 <= j < |s.cacheGot| ==> s.cacheGot[j] < s.cacheEpochs[Plan(cfg, |cfg.compatible|)[j]] + VERSIONS
  }

  /** Exactly then: a hit returns lists no older than the versions read if and only if no provider had
      been updated 2^32 times since the versions the list is kept under. */
  lemma HitIsFreshIff(cfg: Config, s: State, step: Step)
    requires Inv(cfg, s) && Enabled(cfg, s, step) && Hits(cfg, s, step)
    ensures s.cacheVersions != []
    ensures ReadInTime(cfg, s) ==>
      (NoOlder(cfg, s.threads[step.t].epochs, s.cacheGot) <==> Recent(s.threads[step.t].epochs, s.cacheEpochs))
  {
    HitEpochs(cfg, s, step);
    var epochs := s.threads[step.t].epochs;
    if ReadInTime(cfg, s) && NoOlder(cfg, epochs, s.cacheGot) {
      forall i | 0 <= i < |epochs|
        ensures epochs[i] < s.cacheEpochs[i] + VERSIONS
      {
        PlanAt(cfg, |cfg.compatible|, i, 0);
        var j := Offset(cfg, i);
        assert epochs[i] <= s.cacheGot[j] < s.cacheEpochs[i] + VERSIONS;
      }
    }
    if Recent(epochs, s.cacheEpochs) {
      RecentHitIsFresh(cfg, Proxy("", "", 0), s, step);
    }
  }

  /** What the step returns, if it returns, is not empty and made from lists as new as the versions read. */
  ghost predicate FreshReturn(cfg: Config, fallback: Proxy, s: State, step: Step)
    requires Inv(cfg, s) && Enabled(cfg, s, step)
  {
    var e := Next(cfg, fallback, s, step).1;
    e.Returned? ==> e.proxies != [] && exists got :: MadeFrom(cfg, fallback, s, e.epochs, got, e.proxies)
  }

  lemma ReturnedIsFresh(cfg: Config, fallback: Proxy, s: State, step: Step)
    requires Inv(cfg, s) && Enabled(cfg, s, step)
    requires Hits(cfg, s, step) ==> Recent(s.threads[step.t].epochs, s.cacheEpochs)
    ensures FreshReturn(cfg, fallback, s, step)
  {
    if Hits(cfg, s, step) {
      RecentHitIsFresh(cfg, fallback, s, step);
    } else if step.Finish? {
      var pc := s.threads[step.t];
      assert PcOk(cfg, s, pc);
      assert MadeFrom(cfg, fallback, s, pc.epochs, pc.got, Next(cfg, fallback, s, step).1.proxies);
    }
  }

  /** In every interleaving with provider updates: what a call returns is the pipeline applied to lists
      none of which is older than the version the call read for its provider, and it is never empty,
      unless the call hits a cached list 2^32 or more updates of some provider ago. */
  lemma ReturnsFreshLists(cfg: Config, fallback: Proxy, ss: seq<State>, steps: seq<Step>, k: nat)
    requires IsRun(cfg, fallback, ss, steps) && k < |steps|
    ensures Enabled(cfg, ss[k], steps[k])
    ensures (Hits(cfg, ss[k], steps[k]) ==> Recent(ss[k].threads[steps[k].t].epochs, ss[k].cacheEpochs)) ==>
      FreshReturn(cfg, fallback, ss[k], steps[k])
  {
    assert Enabled(cfg, ss[k], steps[k]);
    if Hits(cfg, ss[k], steps[k]) ==> Recent(ss[k].threads[steps[k].t].epochs, ss[k].cacheEpochs) {
      ReturnedIsFresh(cfg, fallback, ss[k], steps[k]);
    }
  }

  /** Whatever is returned is the pipeline applied to some lists the providers had, or the fallback. */
  lemma ReturnedIsMade(cfg: Config, fallback: Proxy, s: State, step: Step) returns (got: seq<nat>)
    requires Inv(cfg, s) && Enabled(cfg, s, step) && Next(cfg, fallback, s, step).1.Returned?
    ensures EpochsExist(cfg, s.history, got) && |got| == |Plan(cfg, |cfg.compatible|)|
    ensures var r := Next(cfg, fallback, s, step).1.proxies; r == [fallback] || r == Pipeline(cfg, ReadsAt(cfg, s.history, got))
  {
    assert PcOk(cfg, s, s.threads[step.t]);
    if step.Acquire? {
      HitEpochs(cfg, s, step);
      got := s.cacheGot;
    } else {
      got := s.threads[step.t].got;
    }
  }

  /** With several providers and filters every returned list is free of repetitions and ordered by
      first matching filter, even when the providers changed between the reads or the versions wrapped. */
  lemma ReturnsOrderedLists(cfg: Config, fallback: Proxy, ss: seq<State>, steps: seq<Step>, k: nat)
    requires IsRun(cfg, fallback, ss, steps) && k < |steps| && |cfg.compatible| > 1 && |cfg.filters| > 1
    ensures Enabled(cfg, ss[k], steps[k])
    ensures var e := Next(cfg, fallback, ss[k], steps[k]).1;
      e.Returned? ==> DistinctNames(e.proxies) && SortedByRank(cfg.filters, e.proxies)
  {
    assert Enabled(cfg, ss[k], steps[k]);
    if Next(cfg, fallback, ss[k], steps[k]).1.Returned? {
      var got := ReturnedIsMade(cfg, fallback, ss[k], steps[k]);
      PipelineOrdered(cfg, ReadsAt(cfg, ss[k].history, got));
    }
  }

  // ----- a run in which the versions wrap -----

  /** One provider, whose list is taken as it is. */
  const ONE_PROVIDER := Config([true], [], [], None)

  lemma OnePlan()
    ensures Plan(ONE_PROVIDER, 1) == [0]
  {
    assert Plan(ONE_PROVIDER, 0) == [];
    assert seq(Calls(ONE_PROVIDER, 0), _ => 0 as nat) == [0];
  }

  lemma OneList(history: seq<seq<seq<Proxy>>>, got: seq<nat>)
    requires EpochsExist(ONE_PROVIDER, history, got) && |got| == |Plan(ONE_PROVIDER, 1)|
    ensures |got| == 1 && got[0] < |history[0]| && Pipeline(ONE_PROVIDER, ReadsAt(ONE_PROVIDER, history, got)) == history[0][got[0]]
  {
    OnePlan();
    var lists := ReadsAt(ONE_PROVIDER, history, got);
    assert Offset(ONE_PROVIDER, 0) == 0;
    assert lists[0][0] == history[0][got[0]];
    assert Gathered(ONE_PROVIDER, lists, 0) == [];
    assert Gathered(ONE_PROVIDER, lists, 1) == [] + lists[0][0] == lists[0][0];
  }

  lemma ExtendRun(fallback: Proxy, ss: seq<State>, steps: seq<Step>, step: Step) returns (ss': seq<State>, steps': seq<Step>)
    requires IsRun(ONE_PROVIDER, fallback, ss, steps) && Enabled(ONE_PROVIDER, ss[|steps|], step)
    ensures IsRun(ONE_PROVIDER, fallback, ss', steps') && steps' == steps + [step]
    ensures ss' == ss + [Next(ONE_PROVIDER, fallback, ss[|steps|], step).0]
  {
    RunsExtend(ONE_PROVIDER, fallback, ss, steps, step);
    ss', steps' := ss + [Next(ONE_PROVIDER, fallback, ss[|steps|], step).0], steps + [step];
  }

  /** Idle, with a cached list that was made at epoch 0. */
  ghost predicate CachedAtStart(s: State, p: Proxy) {
    && |s.history| == 1 && !s.locked && s.threads == map[]
    && s.cacheVersions == [0] && s.cacheList == [p] && s.cacheEpochs == [0] && s.cacheGot == [0]
  }

  /** An idle group after a call has started and read the version. */
  lemma BeginCall(fallback: Proxy, ss0: seq<State>, steps0: seq<Step>, t: Tid) returns (ss: seq<State>, steps: seq<Step>)
    requires IsRun(ONE_PROVIDER, fallback, ss0, steps0) && ss0[|steps0|].threads == map[] && |ss0[|steps0|].history| == 1
    ensures IsRun(ONE_PROVIDER, fallback, ss, steps)
    ensures var s := ss0[|steps0|]; ss[|steps|] == s.(threads := map[t := ReadingVersions([|s.history[0]| - 1])])
  {
    ss, steps := ExtendRun(fallback, ss0, steps0, Start(t));
    assert ss[|steps|].threads == map[t := ReadingVersions([])];
    ss, steps := ExtendRun(fallback, ss, steps, ReadVersion(t));
    assert [] + [|ss[|steps|].history[0]| - 1] == [|ss[|steps|].history[0]| - 1];
  }

  lemma MissAcquires(fallback: Proxy, ss0: seq<State>, steps0: seq<Step>, p: Proxy) returns (ss: seq<State>, steps: seq<Step>)
    requires IsRun(ONE_PROVIDER, fallback, ss0, steps0)
    requires ss0[|steps0|] == State([[[p]]], false, map[1 := ReadingVersions([0])], [], [], [], [])
    ensures IsRun(ONE_PROVIDER, fallback, ss, steps)
    ensures ss[|steps|] == State([[[p]]], true, map[1 := Building([0], [])], [], [], [], [])
  {
    assert |Versions([0])| == 1;
    ss, steps := ExtendRun(fallback, ss0, steps0, Acquire(1));
    assert ss[|steps|].threads == map[1 := Building([0], [])];
  }

  lemma ReadsFirstList(fallback: Proxy, ss0: seq<State>, steps0: seq<Step>, p: Proxy) returns (ss: seq<State>, steps: seq<Step>)
    requires IsRun(ONE_PROVIDER, fallback, ss0, steps0)
    requires ss0[|steps0|] == State([[[p]]], true, map[1 := Building([0], [])], [], [], [], [])
    ensures IsRun(ONE_PROVIDER, fallback, ss, steps)
    ensures ss[|steps|] == State([[[p]]], true, map[1 := Building([0], [0])], [], [], [], [])
  {
    FirstAfterRead(p);
    var s := ss0[|steps0|];
    assert s.threads[1] == Building([0], []) && AfterRead(ONE_PROVIDER, s.history, s.threads[1]) == Building([0], [0]);
    ss, steps := ExtendRun(fallback, ss0, steps0, ReadList(1));
    assert ss[|steps|] == Next(ONE_PROVIDER, fallback, s, ReadList(1)).0;
    assert ss[|steps|].threads == s.threads[1 := Building([0], [0])];
    OneThread(1, Building([0], []), Building([0], [0]));
  }

  lemma OneThread(t: Tid, before: Pc, after: Pc)
    ensures map[t := before][t := after] == map[t := after]
  {
  }

  lemma FirstAfterRead(p: Proxy)
    ensures |ONE_PROVIDER.compatible| == 1 && Plan(ONE_PROVIDER, 1) == [0]
    ensures AfterRead(ONE_PROVIDER, [[[p]]], Building([0], [])) == Building([0], [0])
  {
    OnePlan();
    assert |ONE_PROVIDER.compatible| == 1;
    assert [] + [|[[[p]]][0]| - 1] == [0];
  }

  lemma FirstListIs(history: seq<seq<seq<Proxy>>>, p: Proxy)
    requires history == [[[p]]]
    ensures FirstMade(history, p)
  {
    OnePlan();
    assert |ONE_PROVIDER.compatible| == 1;
    OneList(history, [0]);
  }

  lemma FinishesFirst(fallback: Proxy, ss0: seq<State>, steps0: seq<Step>, p: Proxy) returns (ss: seq<State>, steps: seq<Step>)
    requires IsRun(ONE_PROVIDER, fallback, ss0, steps0)
    requires ss0[|steps0|] == State([[[p]]], true, map[1 := Building([0], [0])], [], [], [], [])
    ensures IsRun(ONE_PROVIDER, fallback, ss, steps)
    ensures ss[|steps|] == State([[[p]]], false, map[], [0], [p], [0], [0])
  {
    FirstListIs([[[p]]], p);
    FinishGives(fallback, ss0[|steps0|], p);
    ss, steps := ExtendRun(fallback, ss0, steps0, Finish(1));
    assert Versions([0]) == [0];
  }

  lemma FinishGives(fallback: Proxy, s: State, p: Proxy)
    requires Inv(ONE_PROVIDER, s) && Enabled(ONE_PROVIDER, s, Finish(1))
    requires s.threads == map[1 := Building([0], [0])] && FirstMade(s.history, p)
    ensures Next(ONE_PROVIDER, fallback, s, Finish(1)).0 == Cached(s.(locked := false, threads := map[]), [0], [0], [p])
  {
    FinishCaches(ONE_PROVIDER, fallback, s, 1, [0], [0], [p]);
    assert s.threads - {1} == map[];
  }

  /** Reading the only provider at epoch 0 makes the list [p]. */
  ghost predicate FirstMade(history: seq<seq<seq<Proxy>>>, p: Proxy) {
    && EpochsExist(ONE_PROVIDER, history, [0]) && |Plan(ONE_PROVIDER, |ONE_PROVIDER.compatible|)| == 1
    && Pipeline(ONE_PROVIDER, ReadsAt(ONE_PROVIDER, history, [0])) == [p]
  }

  lemma FinishCaches(cfg: Config, fallback: Proxy, s: State, t: Tid, epochs: seq<nat>, got: seq<nat>, proxies: seq<Proxy>)
    requires Inv(cfg, s) && Enabled(cfg, s, Finish(t)) && s.threads[t] == Building(epochs, got)
    requires EpochsExist(cfg, s.history, got) && Pipeline(cfg, ReadsAt(cfg, s.history, got)) == proxies != []
    ensures Next(cfg, fallback, s, Finish(t)).0 == Cached(s.(locked := false, threads := s.threads - {t}), epochs, got, proxies)
  {
  }

  lemma FirstCall(fallback: Proxy, p: Proxy) returns (ss: seq<State>, steps: seq<Step>)
    ensures IsRun(ONE_PROVIDER, fallback, ss, steps) && CachedAtStart(ss[|steps|], p) && ss[|steps|].history == [[[p]]]
  {
    var s := State([[[p]]], false, map[], [], [], [], []);
    InitialRun(ONE_PROVIDER, fallback, s);
    ss, steps := BeginCall(fallback, [s], [], 1);
    ss, steps := CallBuilds(fallback, ss, steps, p);
  }

  lemma CallBuilds(fallback: Proxy, ss0: seq<State>, steps0: seq<Step>, p: Proxy) returns (ss: seq<State>, steps: seq<Step>)
    requires IsRun(ONE_PROVIDER, fallback, ss0, steps0)
    requires ss0[|steps0|] == State([[[p]]], false, map[1 := ReadingVersions([0])], [], [], [], [])
    ensures IsRun(ONE_PROVIDER, fallback, ss, steps) && CachedAtStart(ss[|steps|], p) && ss[|steps|].history == [[[p]]]
  {
    ss, steps := MissAcquires(fallback, ss0, steps0, p);
    ss, steps := ReadsFirstList(fallback, ss, steps, p);
    ss, steps := FinishesFirst(fallback, ss, steps, p);
  }

  /** n updates of the provider, all with the same new list. */
  lemma {:induction false} Updates(fallback: Proxy, p: Proxy, q: Proxy, n: nat) returns (ss: seq<State>, steps: seq<Step>)
    ensures IsRun(ONE_PROVIDER, fallback, ss, steps) && CachedAtStart(ss[|steps|], p)
    ensures ss[|steps|].history == [[[p]] + seq(n, _ => [q])]
  {
    if n == 0 {
      ss, steps := FirstCall(fallback, p);
      assert [[p]] + seq(0, _ => [q]) == [[p]];
    } else {
      ss, steps := Updates(fallback, p, q, n - 1);
      var h := ss[|steps|].history[0];
      ss, steps := ExtendRun(fallback, ss, steps, SetProxies(0, [q]));
      assert ss[|steps|].history == [h + [[q]]];
      assert ([[p]] + seq(n - 1, _ => [q])) + [[q]] == [[p]] + seq(n, _ => [q]);
    }
  }

  /** The step returns [p], which is not made from any lists as new as the version that was read. */
  ghost predicate StaleReturn(fallback: Proxy, s: State, step: Step, p: Proxy)
    requires Inv(ONE_PROVIDER, s) && Enabled(ONE_PROVIDER, s, step)
  {
    var e := Next(ONE_PROVIDER, fallback, s, step).1;
    e.Returned? && e.proxies == [p] && forall got :: !MadeFrom(ONE_PROVIDER, fallback, s, e.epochs, got, e.proxies)
  }

  /**
   The bound on updates is needed: after 2^32 of them the version is that of the cached list again,
   and a call returns that list although the provider has supplied another one ever since.
   */
  lemma WrappedVersionIsStale(fallback: Proxy, p: Proxy, q: Proxy) returns (ss: seq<State>, steps: seq<Step>)
    requires p != q
    ensures |steps| > 0 && IsRun(ONE_PROVIDER, fallback, ss, steps)
    ensures |ss[|steps| - 1].history| == 1 && |ss[|steps| - 1].history[0]| == VERSIONS + 1
    ensures Enabled(ONE_PROVIDER, ss[|steps| - 1], steps[|steps| - 1]) && StaleReturn(fallback, ss[|steps| - 1], steps[|steps| - 1], p)
  {
    ss, steps := Updates(fallback, p, q, VERSIONS);
    ss, steps := BeginCall(fallback, ss, steps, 2);
    OnlyNewLists(fallback, ss[|steps|], p, q);
    HitReturnsCached(fallback, ss[|steps|], p);
    ss, steps := ExtendRun(fallback, ss, steps, Acquire(2));
  }

  lemma HitReturnsCached(fallback: Proxy, s: State, p: Proxy)
    requires Inv(ONE_PROVIDER, s) && !s.locked && |s.history| == 1 && s.threads == map[2 := ReadingVersions([VERSIONS])]
    requires s.cacheVersions == [0] && s.cacheList == [p]
    ensures Enabled(ONE_PROVIDER, s, Acquire(2)) && Next(ONE_PROVIDER, fallback, s, Acquire(2)).1 == Returned(2, [VERSIONS], [p])
  {
    assert Versions([VERSIONS]) == [0];
  }

  lemma OnlyNewLists(fallback: Proxy, s: State, p: Proxy, q: Proxy)
    requires p != q && s.history == [[[p]] + seq(VERSIONS, _ => [q])]
    ensures forall got :: !MadeFrom(ONE_PROVIDER, fallback, s, [VERSIONS], got, [p])
  {
    OnePlan();
    forall got | EpochsExist(ONE_PROVIDER, s.history, got) && |got| == |Plan(ONE_PROVIDER, 1)| && NoOlder(ONE_PROVIDER, [VERSIONS], got)
      ensures !MadeFrom(ONE_PROVIDER, fallback, s, [VERSIONS], got, [p])
    {
      OneList(s.history, got);
      assert got[0] == VERSIONS && s.history[0][VERSIONS] == [q];
    }
  }

  /** Every step of every run returns a fresh list as long as the only provider has had at most n lists. */
  ghost predicate FreshUpTo(fallback: Proxy, n: nat) {
    forall ss: seq<State>, steps: seq<Step>, k: nat {:trigger FreshAt(fallback, ss, steps, k, n)} :: FreshAt(fallback, ss, steps, k, n)
  }

  ghost predicate FreshAt(fallback: Proxy, ss: seq<State>, steps: seq<Step>, k: nat, n: nat) {
    IsRun(ONE_PROVIDER, fallback, ss, steps) && k < |steps| && |ss[k].history[0]| <= n ==>
      Enabled(ONE_PROVIDER, ss[k], steps[k]) && FreshReturn(ONE_PROVIDER, fallback, ss[k], steps[k])
  }

  lemma FewListsAreRecent(fallback: Proxy, ss: seq<State>, steps: seq<Step>, k: nat)
    requires IsRun(ONE_PROVIDER, fallback, ss, steps) && k < |steps| && |ss[k].history[0]| <= VERSIONS
    ensures Enabled(ONE_PROVIDER, ss[k], steps[k]) && FreshReturn(ONE_PROVIDER, fallback, ss[k], steps[k])
  {
    ReturnsFreshLists(ONE_PROVIDER, fallback, ss, steps, k);
    if Hits(ONE_PROVIDER, ss[k], steps[k]) {
      HitEpochs(ONE_PROVIDER, ss[k], steps[k]);
      assert PcOk(ONE_PROVIDER, ss[k], ss[k].threads[steps[k].t]);
    }
  }

  /** How many lists a provider may have had for every return to be sure to be fresh: 2^32, the number of versions. */
  lemma FreshUpToIff(fallback: Proxy, n: nat)
    ensures FreshUpTo(fallback, n) <==> n <= VERSIONS
  {
    if n <= VERSIONS {
      forall ss: seq<State>, steps: seq<Step>, k: nat
        ensures FreshAt(fallback, ss, steps, k, n)
      {
        if IsRun(ONE_PROVIDER, fallback, ss, steps) && k < |steps| && |ss[k].history[0]| <= n {
          FewListsAreRecent(fallback, ss, steps, k);
        }
      }
    } else {
      var p := Proxy("", "", 0);
      var ss, steps := WrappedVersionIsStale(fallback, p, Proxy("", "", 1));
      assert !FreshAt(fallback, ss, steps, |steps| - 1, n);
    }
  }
}
