/**
 The life cycle of the socket-protect hook in the OpenHarmony bridge: dialers call the hook, the
 embedder starts, stops, enables and disables it, and everything meets at one mutex. Each step
 below is one critical section; waiting on the condition variable gives the mutex away, so a wait
 is a blocked thread between two steps and any other step may come in between.
 */
module ProtectHook {

  type Tid = nat

  /** A callback pointer; 0 is nil. */
  type Fn = nat

  datatype Waiter = Stop | Disable | GracefulStop

  /** Where a thread is; threads not in the table are outside the bridge. */
  datatype Pc =
    | InCallback(fn: Fn)                                       // between the hook's two critical sections
    | Waiting(waiter: Waiter, deadline: int, blocked: bool)    // inside waitProtectIdleLocked
    | Reloading                                                // GracefulStop, re-parsing the stopped config

  datatype State = State(
    started: bool, protectOn: bool, hookInstalled: bool, protectFn: Fn, busy: int,
    activeTunFd: int, now: int, threads: map<Tid, Pc>)

  datatype ReloadResult = ReloadOk | ReloadFailed | ReloadTimedOut

  datatype Step =
    | HookEnter(t: Tid)
    | HookExit(t: Tid)
    | SetBridge(fn: Fn)
    | EnableHook
    | StartOk(tunFd: int)
    | StopBegin(t: Tid)
    | DisableBegin(t: Tid)
    | GracefulBegin(t: Tid)
    | Wake(t: Tid)
    | TimerFires
    | Reloaded(t: Tid, result: ReloadResult)
    | Tick(ms: nat)

  /** What a step makes a call return, if anything. */
  datatype Event = Quiet | Returned(t: Tid, waiter: Waiter, code: int)

  /** Waiting times in milliseconds. */
  const STOP_TIMEOUT := 3000
  const DISABLE_TIMEOUT := 5000

  function Init(): State {
    State(false, false, false, 0, 0, 0, 0, map[])
  }

  // ----- the critical sections -----

  /** Broadcast: every blocked waiter may run again. */
  function Broadcast(threads: map<Tid, Pc>): map<Tid, Pc> {
    map t | t in threads :: if threads[t].Waiting? then threads[t].(blocked := false) else threads[t]
  }

  predicate HookPasses(s: State) {
    s.started && s.protectOn && s.protectFn != 0
  }

  /** The end of a wait: what the waiting call does before it gives the mutex back for good. */
  function Finish(s: State, t: Tid, waiter: Waiter, idle: bool): (State, Event) {
    match waiter
    case Stop =>
      (s.(started := false, activeTunFd := -1, protectFn := 0, threads := s.threads - {t}),
       Returned(t, Stop, if idle then 0 else -1))
    case Disable => (s.(threads := s.threads - {t}), Returned(t, Disable, if idle then 0 else -1))
    case GracefulStop => (s.(threads := s.threads[t := Reloading]), Quiet)
  }

  /** The head of the loop in waitProtectIdleLocked. */
  function CheckIdle(s: State, t: Tid, waiter: Waiter, deadline: int): (State, Event) {
    if s.busy <= 0 then Finish(s, t, waiter, true)
    else if deadline - s.now <= 0 then Finish(s, t, waiter, false)
    else (s.(threads := s.threads[t := Waiting(waiter, deadline, true)]), Quiet)
  }

  function HookOff(s: State): State {
    s.(protectOn := false, hookInstalled := false)
  }

  function HookOn(s: State): State {
    if s.protectFn == 0 then s else s.(protectOn := true, hookInstalled := true)
  }

  predicate Enabled(s: State, step: Step) {
    match step
    case HookEnter(t) => t !in s.threads
    case HookExit(t) => t in s.threads && s.threads[t].InCallback?
    case StopBegin(t) => t !in s.threads
    case DisableBegin(t) => t !in s.threads
    case GracefulBegin(t) => t !in s.threads
    case Wake(t) => t in s.threads && s.threads[t].Waiting? && !s.threads[t].blocked
    case Reloaded(t, _) => t in s.threads && s.threads[t].Reloading?
    case _ => true
  }

  function Next(s: State, step: Step): (State, Event)
    requires Enabled(s, step)
  {
    match step
    case HookEnter(t) =>
      if HookPasses(s) then (s.(busy := s.busy + 1, threads := s.threads[t := InCallback(s.protectFn)]), Quiet) else (s, Quiet)
    case HookExit(t) =>
      var rest := s.threads - {t};
      (s.(busy := s.busy - 1, threads := if s.busy - 1 == 0 then Broadcast(rest) else rest), Quiet)
    case SetBridge(fn) =>
      (if fn == 0 then HookOff(s.(protectFn := 0)) else s.(protectFn := fn), Quiet)
    case EnableHook =>
      (if s.protectFn == 0 || !s.started || s.activeTunFd < 0 then s else HookOn(s), Quiet)
    case StartOk(tunFd) =>
      var up := s.(started := true, activeTunFd := tunFd);
      (if tunFd >= 0 then HookOn(up) else up, Quiet)
    case StopBegin(t) => CheckIdle(HookOff(s), t, Stop, s.now + STOP_TIMEOUT)
    case DisableBegin(t) => CheckIdle(HookOff(s), t, Disable, s.now + DISABLE_TIMEOUT)
    case GracefulBegin(t) =>
      if !s.started then (s, Returned(t, GracefulStop, 0)) else CheckIdle(HookOff(s), t, GracefulStop, s.now + STOP_TIMEOUT)
    case Wake(t) => CheckIdle(s, t, s.threads[t].waiter, s.threads[t].deadline)
    case TimerFires => (s.(threads := Broadcast(s.threads)), Quiet)
    case Reloaded(t, result) =>
      var back := s.(threads := s.threads - {t});
      match result {
        case ReloadOk => (back.(started := false, activeTunFd := -1), Returned(t, GracefulStop, 0))
        case ReloadFailed => (back, Returned(t, GracefulStop, -1))
        case ReloadTimedOut => (back.(started := false, activeTunFd := -1), Returned(t, GracefulStop, -2))
      }
    case Tick(ms) => (s.(now := s.now + ms), Quiet)
  }

  // ----- the invariant of every reachable state -----

  ghost function InFlight(s: State): set<Tid> {
    set t | t in s.threads && s.threads[t].InCallback?
  }

  ghost predicate Inv(s: State) {
    && s.busy == |InFlight(s)|
    && (forall t :: t in InFlight(s) ==> s.threads[t].fn != 0)
    && (forall t :: t in s.threads && s.threads[t].Waiting? && s.threads[t].blocked ==> s.busy > 0)
    && s.hookInstalled == s.protectOn
  }

  lemma BroadcastKeepsCallbacks(s: State, threads: map<Tid, Pc>)
    requires s.threads == Broadcast(threads)
    ensures InFlight(s) == set t | t in threads && threads[t].InCallback?
    ensures forall t :: t in s.threads && s.threads[t].Waiting? ==> !s.threads[t].blocked
  {
  }

  lemma CheckIdleKeepsInv(s: State, t: Tid, waiter: Waiter, deadline: int)
    requires Inv(s) && (t in s.threads ==> !s.threads[t].InCallback?)
    ensures var r := CheckIdle(s, t, waiter, deadline).0; Inv(r) && InFlight(r) == InFlight(s)
  {
    var r := CheckIdle(s, t, waiter, deadline).0;
    assert InFlight(r) == InFlight(s);
  }

  lemma HookKeepsInv(s: State, step: Step)
    requires Inv(s) && Enabled(s, step) && (step.HookEnter? || step.HookExit?)
    ensures Inv(Next(s, step).0)
  {
    match step
    case HookEnter(t) => EnterKeepsInv(s, t);
    case HookExit(t) => ExitKeepsInv(s, t);
  }

  lemma EnterKeepsInv(s: State, t: Tid)
    requires Inv(s) && Enabled(s, HookEnter(t))
    ensures Inv(Next(s, HookEnter(t)).0)
  {
    if HookPasses(s) {
      assert InFlight(Next(s, HookEnter(t)).0) == InFlight(s) + {t};
    }
  }

  lemma ExitKeepsInv(s: State, t: Tid)
    requires Inv(s) && Enabled(s, HookExit(t))
    ensures Inv(Next(s, HookExit(t)).0)
  {
    var r := Next(s, HookExit(t)).0;
    if s.busy - 1 == 0 {
      BroadcastKeepsCallbacks(r, s.threads - {t});
    }
    assert t in InFlight(s);
    assert InFlight(r) == InFlight(s) - {t};
  }

  lemma WaitKeepsInv(s: State, step: Step)
    requires Inv(s) && Enabled(s, step) && (step.StopBegin? || step.DisableBegin? || step.GracefulBegin? || step.Wake?)
    ensures Inv(Next(s, step).0)
  {
    assert InFlight(HookOff(s)) == InFlight(s);
    match step
    case StopBegin(t) => CheckIdleKeepsInv(HookOff(s), t, Stop, s.now + STOP_TIMEOUT);
    case DisableBegin(t) => CheckIdleKeepsInv(HookOff(s), t, Disable, s.now + DISABLE_TIMEOUT);
    case GracefulBegin(t) => CheckIdleKeepsInv(HookOff(s), t, GracefulStop, s.now + STOP_TIMEOUT);
    case Wake(t) => CheckIdleKeepsInv(s, t, s.threads[t].waiter, s.threads[t].deadline);
    case _ =>
  }

  /** Every step keeps: busy counts the callbacks in flight, and nobody sleeps once it is zero. */
  lemma StepKeepsInv(s: State, step: Step)
    requires Inv(s) && Enabled(s, step)
    ensures Inv(Next(s, step).0)
  {
    if step.HookEnter? || step.HookExit? {
      HookKeepsInv(s, step);
    } else if step.StopBegin? || step.DisableBegin? || step.GracefulBegin? || step.Wake? {
      WaitKeepsInv(s, step);
    } else {
      var r := Next(s, step).0;
      if step.TimerFires? {
        BroadcastKeepsCallbacks(r, s.threads);
      }
      assert InFlight(r) == InFlight(s);
    }
  }

  // ----- runs -----

  /** ss are the states of a run, steps the steps between them. */
  ghost predicate IsRun(ss: seq<State>, steps: seq<Step>) {
    && |ss| == |steps| + 1 && ss[0] == Init()
    && forall i {:trigger steps[i]} :: 0 <= i < |steps| ==> Enabled(ss[i], steps[i]) && Next(ss[i], steps[i]).0 == ss[i + 1]
  }

  ghost predicate ReturnsAt(ss: seq<State>, steps: seq<Step>, k: nat, waiter: Waiter, code: int)
    requires IsRun(ss, steps) && k < |steps|
  {
    var e := Next(ss[k], steps[k]).1;
    e.Returned? && e.waiter == waiter && e.code == code
  }

  lemma {:induction false} RunKeepsInv(ss: seq<State>, steps: seq<Step>, i: nat)
    requires IsRun(ss, steps) && i < |ss|
    ensures Inv(ss[i])
  {
    if i == 0 {
      assert InFlight(Init()) == {};
    } else {
      RunKeepsInv(ss, steps, i - 1);
      StepKeepsInv(ss[i - 1], steps[i - 1]);
    }
  }

  /** In every interleaving protectBusy is the number of hook calls between entry and exit, each of
      which holds a callback that was not nil when it entered. */
  lemma BusyCountsCallbacks(ss: seq<State>, steps: seq<Step>, i: nat)
    requires IsRun(ss, steps) && i < |ss|
    ensures ss[i].busy == |InFlight(ss[i])| >= 0
    ensures forall t :: t in InFlight(ss[i]) ==> ss[i].threads[t].fn != 0
  {
    RunKeepsInv(ss, steps, i);
  }

  /** No wake-up is lost: once no callback is in flight every waiter can run, and running ends its wait. */
  lemma WaitersCanFinish(ss: seq<State>, steps: seq<Step>, i: nat, t: Tid)
    requires IsRun(ss, steps) && i < |ss| && InFlight(ss[i]) == {}
    requires t in ss[i].threads && ss[i].threads[t].Waiting?
    ensures Enabled(ss[i], Wake(t))
    ensures var r := Next(ss[i], Wake(t)).0; t !in r.threads || r.threads[t].Reloading?
  {
    RunKeepsInv(ss, steps, i);
  }

  ghost predicate NoStart(steps: seq<Step>, lo: nat, hi: nat)
    requires hi <= |steps|
  {
    forall i :: lo <= i < hi ==> !steps[i].StartOk?
  }

  /** While nothing is started no callback begins: those in flight can only get fewer. */
  lemma {:induction false} NothingBeginsUnstarted(ss: seq<State>, steps: seq<Step>, lo: nat, hi: nat)
    requires IsRun(ss, steps) && lo <= hi < |ss| && !ss[lo].started && NoStart(steps, lo, hi)
    ensures !ss[hi].started && InFlight(ss[hi]) <= InFlight(ss[lo])
    decreases hi
  {
    if lo < hi {
      NothingBeginsUnstarted(ss, steps, lo, hi - 1);
      CallbacksOnlyBeginByHook(ss[hi - 1], steps[hi - 1]);
    }
  }

  /** Callbacks begin only in a hook call that passes the hook's own test. */
  lemma CallbacksOnlyBeginByHook(s: State, step: Step)
    requires Enabled(s, step)
    ensures !HookPasses(s) ==> InFlight(Next(s, step).0) <= InFlight(s)
    ensures !step.StartOk? && !s.started ==> !Next(s, step).0.started
  {
    if step.HookExit? {
      var rest := s.threads - {step.t};
      var r := Next(s, step).0;
      if s.busy - 1 == 0 {
        BroadcastKeepsCallbacks(r, rest);
      }
    }
  }

  /** What Stop promises: when it returns 0 no callback is in flight at its last critical section,
      and none begins until a later successful start. */
  lemma StopReturnsZero(ss: seq<State>, steps: seq<Step>, k: nat, hi: nat)
    requires IsRun(ss, steps) && k < hi < |ss| && ReturnsAt(ss, steps, k, Stop, 0) && NoStart(steps, k + 1, hi)
    ensures InFlight(ss[k + 1]) == {} && !ss[k + 1].started && InFlight(ss[hi]) == {}
  {
    RunKeepsInv(ss, steps, k);
    RunKeepsInv(ss, steps, k + 1);
    FinishedStop(ss[k], steps[k]);
    NothingBeginsUnstarted(ss, steps, k + 1, hi);
  }

  lemma FinishedStop(s: State, step: Step)
    requires Inv(s) && Enabled(s, step)
    requires var e := Next(s, step).1; e.Returned? && e.waiter == Stop
    ensures var r := Next(s, step).0; !r.started && r.protectFn == 0 && r.activeTunFd == -1 && r.busy == s.busy
    ensures Next(s, step).1.code == 0 <==> s.busy == 0
    ensures Next(s, step).1.code == 0 || Next(s, step).1.code == -1
    ensures InFlight(Next(s, step).0) == InFlight(s)
    ensures s.busy == 0 ==> InFlight(s) == {}
  {
    var r := Next(s, step).0;
    assert InFlight(r) == InFlight(s);
  }

  /** A Stop that gives up waiting leaves callbacks in flight, but no new one begins until a later start. */
  lemma StopGivesUp(ss: seq<State>, steps: seq<Step>, k: nat, hi: nat)
    requires IsRun(ss, steps) && k < hi < |ss| && ReturnsAt(ss, steps, k, Stop, -1) && NoStart(steps, k + 1, hi)
    ensures InFlight(ss[k + 1]) != {} && InFlight(ss[hi]) <= InFlight(ss[k + 1])
  {
    RunKeepsInv(ss, steps, k);
    FinishedStop(ss[k], steps[k]);
    NothingBeginsUnstarted(ss, steps, k + 1, hi);
  }

  /** GracefulStop returning 0 means stopped; callbacks in flight then only get fewer until a later start. */
  lemma GracefulStopReturnsZero(ss: seq<State>, steps: seq<Step>, k: nat, hi: nat)
    requires IsRun(ss, steps) && k < hi < |ss| && ReturnsAt(ss, steps, k, GracefulStop, 0) && NoStart(steps, k + 1, hi)
    ensures !ss[k + 1].started && InFlight(ss[hi]) <= InFlight(ss[k + 1])
  {
    assert steps[k] == steps[k];
    NothingBeginsUnstarted(ss, steps, k + 1, hi);
  }

  /** What GracefulStop's other codes say: -1 that the reload failed and nothing was stopped, -2 that it
      took too long and is counted as stopped. */
  lemma GracefulStopCodes(ss: seq<State>, steps: seq<Step>, k: nat, code: int)
    requires IsRun(ss, steps) && k < |steps| && ReturnsAt(ss, steps, k, GracefulStop, code)
    ensures code == 0 || code == -1 || code == -2
    ensures if code == -1 then ss[k + 1].started == ss[k].started && ss[k + 1].activeTunFd == ss[k].activeTunFd else !ss[k + 1].started
    ensures ss[k + 1].protectOn == ss[k].protectOn && ss[k + 1].protectFn == ss[k].protectFn && ss[k + 1].busy == ss[k].busy
  {
    assert Enabled(ss[k], steps[k]);
  }

  // ----- how long a wait lasts -----

  /** Step b begins a wait of thread t: a GracefulStop with nothing started does not wait. */
  ghost predicate BeginsWait(ss: seq<State>, steps: seq<Step>, b: nat, t: Tid)
    requires IsRun(ss, steps)
  {
    b < |steps| && (steps[b] == StopBegin(t) || steps[b] == DisableBegin(t) || (steps[b] == GracefulBegin(t) && ss[b].started))
  }

  predicate IsWaiting(s: State, t: Tid) {
    t in s.threads && s.threads[t].Waiting?
  }

  /** Thread t has been in the wait that step b began in every state up to that of step k. */
  ghost predicate WaitsFrom(ss: seq<State>, steps: seq<Step>, b: nat, k: nat, t: Tid)
    requires IsRun(ss, steps)
  {
    b < k < |steps| && BeginsWait(ss, steps, b, t) && forall j :: b < j <= k ==> IsWaiting(ss[j], t)
  }

  /** A wait keeps the deadline and the kind it began with. */
  lemma {:induction false} WaitKeepsDeadline(ss: seq<State>, steps: seq<Step>, b: nat, k: nat, t: Tid)
    requires IsRun(ss, steps) && WaitsFrom(ss, steps, b, k, t)
    ensures ss[k].threads[t].deadline == ss[b].now + if steps[b].DisableBegin? then 5000 else 3000
    ensures match steps[b]
      case StopBegin(_) => ss[k].threads[t].waiter == Stop
      case DisableBegin(_) => ss[k].threads[t].waiter == Disable
      case _ => ss[k].threads[t].waiter == GracefulStop
    decreases k
  {
    assert Enabled(ss[k - 1], steps[k - 1]);
    if b + 1 < k {
      WaitKeepsDeadline(ss, steps, b, k - 1, t);
      StillWaiting(ss[k - 1], steps[k - 1], t);
    }
  }

  lemma StillWaiting(s: State, step: Step, t: Tid)
    requires Enabled(s, step) && IsWaiting(s, t) && IsWaiting(Next(s, step).0, t)
    ensures var r := Next(s, step).0; r.threads[t].deadline == s.threads[t].deadline && r.threads[t].waiter == s.threads[t].waiter
  {
  }

  /** A wait begins exactly when a callback is in flight; otherwise the call goes on at once. */
  lemma WaitBeginsIff(ss: seq<State>, steps: seq<Step>, b: nat, t: Tid)
    requires IsRun(ss, steps) && BeginsWait(ss, steps, b, t)
    ensures IsWaiting(ss[b + 1], t) <==> InFlight(ss[b]) != {}
  {
    RunKeepsInv(ss, steps, b);
    assert Enabled(ss[b], steps[b]);
  }

  /** A waiter that runs again ends its wait exactly when no callback is in flight or 3 seconds, for
      Disable 5, have passed since it began; until then nothing else ends it. */
  lemma WaitEndsIff(ss: seq<State>, steps: seq<Step>, b: nat, k: nat, t: Tid)
    requires IsRun(ss, steps) && WaitsFrom(ss, steps, b, k, t)
    ensures steps[k] == Wake(t) ==>
      (!IsWaiting(ss[k + 1], t) <==> InFlight(ss[k]) == {} || ss[k].now - ss[b].now >= if steps[b].DisableBegin? then 5000 else 3000)
    ensures steps[k] != Wake(t) ==> IsWaiting(ss[k + 1], t)
  {
    RunKeepsInv(ss, steps, k);
    assert Enabled(ss[k], steps[k]) && IsWaiting(ss[k], t);
    WaitKeepsDeadline(ss, steps, b, k, t);
    if steps[k] == Wake(t) {
      WakeEndsWait(ss[k], t);
    } else {
      OthersKeepWaiting(ss[k], steps[k], t);
    }
  }

  lemma WakeEndsWait(s: State, t: Tid)
    requires Inv(s) && Enabled(s, Wake(t))
    ensures !IsWaiting(Next(s, Wake(t)).0, t) <==> InFlight(s) == {} || s.now >= s.threads[t].deadline
  {
  }

  lemma OthersKeepWaiting(s: State, step: Step, t: Tid)
    requires Enabled(s, step) && IsWaiting(s, t) && step != Wake(t)
    ensures IsWaiting(Next(s, step).0, t)
  {
  }

  /** So a wait that ends with callbacks in flight has lasted 3 seconds, for Disable 5. */
  lemma BusyWaitLasts(ss: seq<State>, steps: seq<Step>, b: nat, k: nat, t: Tid)
    requires IsRun(ss, steps) && b <= k < |steps| && BeginsWait(ss, steps, b, t)
    requires (forall j :: b < j <= k ==> IsWaiting(ss[j], t)) && !IsWaiting(ss[k + 1], t) && InFlight(ss[k]) != {}
    ensures steps[k] == Wake(t) && ss[k].now - ss[b].now >= if steps[b].DisableBegin? then 5000 else 3000
  {
    if b == k {
      WaitBeginsIff(ss, steps, b, t);
    } else {
      WaitEndsIff(ss, steps, b, k, t);
    }
  }

  // ----- who switches the hook on and off -----

  predicate TurnsOn(s: State, step: Step) {
    match step
    case EnableHook => s.protectFn != 0 && s.started && s.activeTunFd >= 0
    case StartOk(tunFd) => s.protectFn != 0 && tunFd >= 0
    case _ => false
  }

  predicate TurnsOff(s: State, step: Step) {
    match step
    case SetBridge(fn) => fn == 0
    case StopBegin(_) => true
    case DisableBegin(_) => true
    case GracefulBegin(_) => s.started
    case _ => false
  }

  lemma ProtectOnAfter(s: State, step: Step)
    requires Enabled(s, step)
    ensures Next(s, step).0.protectOn == (TurnsOn(s, step) || (s.protectOn && !TurnsOff(s, step)))
  {
  }

  /** Step m switched the hook on and nothing before `hi` switched it off again. */
  ghost predicate LeftOnBy(ss: seq<State>, steps: seq<Step>, m: nat, hi: nat)
    requires IsRun(ss, steps) && hi < |ss|
  {
    m < hi && TurnsOn(ss[m], steps[m]) && forall j {:trigger steps[j]} :: m < j < hi ==> !TurnsOff(ss[j], steps[j])
  }

  /** After an interval that started with the hook off, it is on exactly when some step of the
      interval switched it on and no later one switched it off. */
  lemma {:induction false} OnIffLeftOn(ss: seq<State>, steps: seq<Step>, lo: nat, hi: nat)
    requires IsRun(ss, steps) && lo <= hi < |ss| && !ss[lo].protectOn
    ensures ss[hi].protectOn <==> exists m: nat :: lo <= m && LeftOnBy(ss, steps, m, hi)
    decreases hi
  {
    if lo < hi {
      OnIffLeftOn(ss, steps, lo, hi - 1);
      assert Enabled(ss[hi - 1], steps[hi - 1]);
      ProtectOnAfter(ss[hi - 1], steps[hi - 1]);
      if ss[hi].protectOn {
        if TurnsOn(ss[hi - 1], steps[hi - 1]) {
          assert LeftOnBy(ss, steps, hi - 1, hi);
        } else {
          var m: nat :| lo <= m && LeftOnBy(ss, steps, m, hi - 1);
          assert LeftOnBy(ss, steps, m, hi);
        }
      }
      if m: nat :| lo <= m && LeftOnBy(ss, steps, m, hi) {
        if m < hi - 1 {
          assert LeftOnBy(ss, steps, m, hi - 1);
          assert !TurnsOff(ss[hi - 1], steps[hi - 1]);
        }
      }
    }
  }

  ghost predicate NeverTurnedOn(ss: seq<State>, steps: seq<Step>, lo: nat, hi: nat)
    requires IsRun(ss, steps) && hi < |ss|
  {
    forall j {:trigger steps[j]} :: lo <= j < hi ==> !TurnsOn(ss[j], steps[j])
  }

  /** While the hook is off and stays off no callback begins. */
  lemma {:induction false} NothingBeginsOff(ss: seq<State>, steps: seq<Step>, lo: nat, hi: nat)
    requires IsRun(ss, steps) && lo <= hi < |ss| && !ss[lo].protectOn && NeverTurnedOn(ss, steps, lo, hi)
    ensures !ss[hi].protectOn && InFlight(ss[hi]) <= InFlight(ss[lo])
    decreases hi
  {
    if lo < hi {
      NothingBeginsOff(ss, steps, lo, hi - 1);
      assert Enabled(ss[hi - 1], steps[hi - 1]) && !TurnsOn(ss[hi - 1], steps[hi - 1]);
      ProtectOnAfter(ss[hi - 1], steps[hi - 1]);
      CallbacksOnlyBeginByHook(ss[hi - 1], steps[hi - 1]);
    }
  }

  /** What DisableProtectHook promises: when it returns 0 no callback is in flight, and if nobody
      switched the hook on since the call began, none begins until somebody does. */
  lemma DisableReturnsZero(ss: seq<State>, steps: seq<Step>, b: nat, k: nat, hi: nat)
    requires IsRun(ss, steps) && b <= k < hi < |ss| && steps[b].DisableBegin? && ReturnsAt(ss, steps, k, Disable, 0)
    ensures InFlight(ss[k + 1]) == {}
    ensures NeverTurnedOn(ss, steps, b, hi) ==> InFlight(ss[hi]) == {}
  {
    assert Enabled(ss[b], steps[b]) && Enabled(ss[k], steps[k]);
    RunKeepsInv(ss, steps, k);
    FinishedDisable(ss[k], steps[k]);
    if NeverTurnedOn(ss, steps, b, hi) {
      ProtectOnAfter(ss[b], steps[b]);
      NothingBeginsOff(ss, steps, b + 1, k + 1);
      NothingBeginsOff(ss, steps, k + 1, hi);
    }
  }

  lemma FinishedDisable(s: State, step: Step)
    requires Inv(s) && Enabled(s, step)
    requires var e := Next(s, step).1; e.Returned? && e.waiter == Disable
    ensures Next(s, step).1.code == 0 <==> s.busy == 0
    ensures Next(s, step).1.code == 0 || Next(s, step).1.code == -1
    ensures s.busy == 0 ==> InFlight(Next(s, step).0) == {}
  {
    assert InFlight(Next(s, step).0) == InFlight(s);
  }

  /** Step w ends the wait of the GracefulStop call of thread t. */
  ghost predicate GracefulWaitEnds(ss: seq<State>, steps: seq<Step>, w: nat, t: Tid)
    requires IsRun(ss, steps)
  {
    w < |steps| && (steps[w] == GracefulBegin(t) || steps[w] == Wake(t)) && t in ss[w + 1].threads && ss[w + 1].threads[t].Reloading?
  }

  /** The run goes on from (ss, steps), nobody switches the hook on from step b on, and its last
      step makes GracefulStop of thread t return 0. */
  ghost predicate GracefulReturnsZero(ss: seq<State>, steps: seq<Step>, b: nat, t: Tid, ss': seq<State>, steps': seq<Step>) {
    && IsRun(ss', steps') && ss <= ss' && steps <= steps' && |steps| < |steps'|
    && steps'[|steps'| - 1] == Reloaded(t, ReloadOk) && NeverTurnedOn(ss', steps', b, |steps'|)
  }

  lemma WaitEndKeepsCallbacks(ss: seq<State>, steps: seq<Step>, w: nat, t: Tid)
    requires IsRun(ss, steps) && GracefulWaitEnds(ss, steps, w, t)
    ensures InFlight(ss[w + 1]) == InFlight(ss[w]) && (InFlight(ss[w]) == {} <==> ss[w].busy == 0)
  {
    RunKeepsInv(ss, steps, w);
    assert Enabled(ss[w], steps[w]);
    assert InFlight(ss[w + 1]) == InFlight(ss[w]);
  }

  /** The hook stays off from the step behind b on, and callbacks only get fewer. */
  lemma GracefulHoldsOff(ss: seq<State>, steps: seq<Step>, b: nat, w: nat, hi: nat)
    requires IsRun(ss, steps) && b <= w < hi < |ss| && steps[b].GracefulBegin? && ss[b].started && NeverTurnedOn(ss, steps, b, hi)
    ensures InFlight(ss[hi]) <= InFlight(ss[w + 1])
  {
    assert Enabled(ss[b], steps[b]);
    ProtectOnAfter(ss[b], steps[b]);
    NothingBeginsOff(ss, steps, b + 1, w + 1);
    NothingBeginsOff(ss, steps, w + 1, hi);
  }

  /**
   What GracefulStop's 0 says about callbacks, with nobody switching the hook on meanwhile: that none
   is in flight is certain exactly when the wait ended because none was, and not by its time-out.
   */
  lemma GracefulZeroMeansIdleIff(ss: seq<State>, steps: seq<Step>, b: nat, w: nat, t: Tid)
    requires IsRun(ss, steps) && b <= w && |steps| == w + 1 && GracefulWaitEnds(ss, steps, w, t)
    requires steps[b] == GracefulBegin(t) && ss[b].started && NeverTurnedOn(ss, steps, b, w + 1)
    ensures ss[w].busy == 0 <==>
      forall ss', steps' {:trigger GracefulReturnsZero(ss, steps, b, t, ss', steps')} ::
        GracefulReturnsZero(ss, steps, b, t, ss', steps') ==> InFlight(ss'[|steps'|]) == {}
  {
    WaitEndKeepsCallbacks(ss, steps, w, t);
    if ss[w].busy == 0 {
      forall ss', steps' | GracefulReturnsZero(ss, steps, b, t, ss', steps')
        ensures InFlight(ss'[|steps'|]) == {}
      {
        assert ss'[b] == ss[b] && steps'[b] == steps[b] && ss'[w + 1] == ss[w + 1];
        GracefulHoldsOff(ss', steps', b, w, |steps'|);
      }
    } else {
      var ss', steps' := GracefulReturnsBusy(ss, steps, b, w, t);
      assert GracefulReturnsZero(ss, steps, b, t, ss', steps');
    }
  }

  /** After a time-out an immediate reload returns 0 with the callbacks still in flight. */
  lemma GracefulReturnsBusy(ss: seq<State>, steps: seq<Step>, b: nat, w: nat, t: Tid) returns (ss': seq<State>, steps': seq<Step>)
    requires IsRun(ss, steps) && b <= w && |steps| == w + 1 && GracefulWaitEnds(ss, steps, w, t)
    requires ss[w].busy != 0 && NeverTurnedOn(ss, steps, b, w + 1)
    ensures GracefulReturnsZero(ss, steps, b, t, ss', steps') && InFlight(ss'[|steps'|]) != {}
  {
    WaitEndKeepsCallbacks(ss, steps, w, t);
    ss', steps' := ExtendRun(ss, steps, Reloaded(t, ReloadOk));
    assert InFlight(ss'[|steps'|]) == InFlight(ss[w + 1]);
    forall j | b <= j < |steps'|
      ensures !TurnsOn(ss'[j], steps'[j])
    {
      if j <= w {
        assert steps'[j] == steps[j] && ss'[j] == ss[j];
      }
    }
  }

  lemma {:induction false} FreshTid(used: set<Tid>) returns (t: Tid)
    ensures t !in used && forall u :: u in used ==> u < t
  {
    if used == {} {
      t := 0;
    } else {
      var u :| u in used;
      var rest := FreshTid(used - {u});
      t := if u < rest then rest else u + 1;
      assert forall x :: x in used ==> x == u || x in used - {u};
    }
  }

  /** A callback can begin without anybody switching the hook on exactly when the hook's own test passes. */
  lemma HookHoldsIff(s: State)
    ensures !HookPasses(s) <==> forall step :: Enabled(s, step) && !TurnsOn(s, step) ==> InFlight(Next(s, step).0) <= InFlight(s)
  {
    if HookPasses(s) {
      var t := FreshTid(s.threads.Keys);
      assert Enabled(s, HookEnter(t)) && !TurnsOn(s, HookEnter(t));
      assert t in InFlight(Next(s, HookEnter(t)).0);
    } else {
      forall step | Enabled(s, step)
        ensures InFlight(Next(s, step).0) <= InFlight(s)
      {
        CallbacksOnlyBeginByHook(s, step);
      }
    }
  }

  // ----- runs in which less is promised than one might think -----

  lemma ExtendRun(ss: seq<State>, steps: seq<Step>, step: Step) returns (ss': seq<State>, steps': seq<Step>)
    requires IsRun(ss, steps) && Enabled(ss[|steps|], step)
    ensures ss' == ss + [Next(ss[|steps|], step).0] && steps' == steps + [step] && IsRun(ss', steps')
  {
    ss', steps' := ss + [Next(ss[|steps|], step).0], steps + [step];
  }

  lemma OneCallbackInFlight() returns (ss: seq<State>, steps: seq<Step>)
    ensures IsRun(ss, steps) && ss[|steps|] == State(true, true, true, 7, 1, 3, 0, map[1 := InCallback(7)])
  {
    ss, steps := [Init()], [];
    ss, steps := ExtendRun(ss, steps, SetBridge(7));
    ss, steps := ExtendRun(ss, steps, StartOk(3));
    ss, steps := ExtendRun(ss, steps, HookEnter(1));
  }

  /** After EnableHook and the end of the callback the waiter can run. */
  lemma EnabledMeanwhile(ss0: seq<State>, steps0: seq<Step>, waiter: Waiter, deadline: int) returns (ss: seq<State>, steps: seq<Step>)
    requires IsRun(ss0, steps0)
    requires ss0[|steps0|] == State(true, false, false, 7, 1, 3, 0, map[1 := InCallback(7), 2 := Waiting(waiter, deadline, true)])
    ensures IsRun(ss, steps) && ss[|steps|] == State(true, true, true, 7, 0, 3, 0, map[2 := Waiting(waiter, deadline, false)])
  {
    ss, steps := ExtendRun(ss0, steps0, EnableHook);
    var s := ss[|steps|];
    assert s == ss0[|steps0|].(protectOn := true, hookInstalled := true);
    ss, steps := ExtendRun(ss, steps, HookExit(1));
    assert Broadcast(s.threads - {1}) == map[2 := Waiting(waiter, deadline, false)];
  }

  /** DisableProtectHook can return 0 with the hook on: somebody enabled it during the wait. */
  lemma DisabledButOn() returns (ss: seq<State>, steps: seq<Step>)
    ensures |steps| > 0 && IsRun(ss, steps) && ReturnsAt(ss, steps, |steps| - 1, Disable, 0) && HookPasses(ss[|steps|])
  {
    ss, steps := OneCallbackInFlight();
    ss, steps := ExtendRun(ss, steps, DisableBegin(2));
    ss, steps := EnabledMeanwhile(ss, steps, Disable, 5000);
    ss, steps := ExtendRun(ss, steps, Wake(2));
  }

  /** Stop can return 0 and leave the hook on, so that a later start without a TUN runs callbacks
      although nobody enabled the hook after the stop. */
  lemma StoppedButOn() returns (ss: seq<State>, steps: seq<Step>, k: nat)
    ensures IsRun(ss, steps) && k < |steps| && ReturnsAt(ss, steps, k, Stop, 0)
    ensures NeverTurnedOn(ss, steps, k + 1, |steps|) && HookPasses(ss[|steps|])
  {
    ss, steps := OneCallbackInFlight();
    ss, steps := ExtendRun(ss, steps, StopBegin(2));
    ss, steps := EnabledMeanwhile(ss, steps, Stop, 3000);
    k := |steps|;
    ss, steps := ExtendRun(ss, steps, Wake(2));
    ss, steps := ExtendRun(ss, steps, SetBridge(9));
    ss, steps := ExtendRun(ss, steps, StartOk(-1));
  }

  /** GracefulStop can return 0 with a callback in flight: it goes on when its wait times out. */
  lemma GracefulButBusy() returns (ss: seq<State>, steps: seq<Step>)
    ensures |steps| > 0 && IsRun(ss, steps) && ReturnsAt(ss, steps, |steps| - 1, GracefulStop, 0) && InFlight(ss[|steps|]) != {}
  {
    ss, steps := OneCallbackInFlight();
    ss, steps := ExtendRun(ss, steps, GracefulBegin(2));
    ss, steps := ExtendRun(ss, steps, Tick(3000));
    ss, steps := ExtendRun(ss, steps, TimerFires);
    ss, steps := ExtendRun(ss, steps, Wake(2));
    ss, steps := ExtendRun(ss, steps, Reloaded(2, ReloadOk));
    assert 1 in InFlight(ss[|steps|]);
  }
}
