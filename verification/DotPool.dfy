/**
 The connection pool of the DNS-over-TLS client. Exchanges run concurrently; each takes a pooled
 connection or dials one, uses it, and puts it back or closes it. Each step below is one critical
 section or one action on a connection that only its exchange holds.
 */
module DotPool {
  import opened Lists

  type Tid = nat
  type Conn = nat

  const MAX_OLD_CONNS := 8

  /** Where an exchange is; exchanges not in the table have returned. */
  datatype Pc =
    | AtLoopHead
    | Dialling
    | Using(conn: Conn, isOld: bool)
    | Finished(conn: Conn)          // exchanged successfully, not yet put back

  /** The pool lists connections from least to most recently put back. */
  datatype State = State(
    disableReuse: bool, pool: seq<Conn>, threads: map<Tid, Pc>,
    dialled: set<Conn>, closing: set<Conn>, closed: set<Conn>)

  datatype Step =
    | Begin(t: Tid)
    | GiveUp(t: Tid)                           // the context is done
    | Take(t: Tid)                             // pop a pooled connection, or go on to dial
    | DialOk(t: Tid, conn: Conn)
    | DialFailed(t: Tid)
    | HandshakeFailed(t: Tid, conn: Conn)      // the raw connection is closed again
    | ExchangeOk(t: Tid)
    | ExchangeFailed(t: Tid)
    | PutBack(t: Tid)
    | Reset                                    // ResetConnection, also Close
    | CloseDone(conn: Conn)                    // a close that was left to a goroutine of its own

  predicate At(s: State, t: Tid, pc: Pc) {
    t in s.threads && s.threads[t] == pc
  }

  predicate Enabled(s: State, step: Step) {
    match step
    case Begin(t) => t !in s.threads
    case GiveUp(t) => At(s, t, AtLoopHead)
    case Take(t) => At(s, t, AtLoopHead)
    case DialOk(t, c) => At(s, t, Dialling) && c !in s.dialled
    case DialFailed(t) => At(s, t, Dialling)
    case HandshakeFailed(t, c) => At(s, t, Dialling) && c !in s.dialled
    case ExchangeOk(t) => t in s.threads && s.threads[t].Using?
    case ExchangeFailed(t) => t in s.threads && s.threads[t].Using?
    case PutBack(t) => t in s.threads && s.threads[t].Finished?
    case Reset => true
    case CloseDone(c) => c in s.closing
  }

  ghost function Next(s: State, step: Step): State
    requires Enabled(s, step)
  {
    match step
    case Begin(t) => s.(threads := s.threads[t := AtLoopHead])
    case GiveUp(t) => s.(threads := s.threads - {t})
    case Take(t) =>
      if !s.disableReuse && |s.pool| > 0 then
        s.(pool := s.pool[..|s.pool| - 1], threads := s.threads[t := Using(s.pool[|s.pool| - 1], true)])
      else s.(threads := s.threads[t := Dialling])
    case DialOk(t, c) => s.(dialled := s.dialled + {c}, threads := s.threads[t := Using(c, false)])
    case DialFailed(t) => s.(threads := s.threads - {t})
    case HandshakeFailed(t, c) => s.(dialled := s.dialled + {c}, closed := s.closed + {c}, threads := s.threads - {t})
    case ExchangeOk(t) => s.(threads := s.threads[t := Finished(s.threads[t].conn)])
    case ExchangeFailed(t) =>
      var shut := s.(closed := s.closed + {s.threads[t].conn});
      if s.threads[t].isOld then shut.(threads := s.threads[t := AtLoopHead]) else shut.(threads := s.threads - {t})
    case PutBack(t) =>
      var c := s.threads[t].conn;
      var done := s.(threads := s.threads - {t});
      if s.disableReuse then done.(closed := s.closed + {c})
      else if |s.pool| >= MAX_OLD_CONNS then done.(pool := s.pool[1..] + [c], closing := s.closing + {s.pool[0]})
      else done.(pool := s.pool + [c])
    case Reset =>
      if s.disableReuse then s else s.(pool := [], closing := s.closing + Members(s.pool))
    case CloseDone(c) => s.(closing := s.closing - {c}, closed := s.closed + {c})
  }

  function Init(disableReuse: bool): State {
    State(disableReuse, [], map[], {}, {}, {})
  }

  // ----- conservation -----

  predicate Holds(threads: map<Tid, Pc>, t: Tid, c: Conn) {
    t in threads && (threads[t].Using? || threads[t].Finished?) && threads[t].conn == c
  }

  ghost function InUse(threads: map<Tid, Pc>): set<Conn> {
    set t, c | t in threads && c in ConnOf(threads[t]) :: c
  }

  function ConnOf(pc: Pc): set<Conn> {
    if pc.Using? || pc.Finished? then {pc.conn} else {}
  }

  /** No connection serves two exchanges. */
  ghost predicate OneUser(threads: map<Tid, Pc>) {
    forall t, u, c {:trigger Holds(threads, t, c), Holds(threads, u, c)} :: Holds(threads, t, c) && Holds(threads, u, c) ==> t == u
  }

  /** Each dialled connection is in exactly one of: in use, pooled, closing, closed. */
  ghost predicate Conserved(s: State) {
    && s.dialled == InUse(s.threads) + Members(s.pool) + s.closing + s.closed
    && InUse(s.threads) !! Members(s.pool) !! s.closing !! s.closed
  }

  ghost predicate Inv(s: State) {
    && Conserved(s) && OneUser(s.threads) && NoDup(s.pool)
    && |s.pool| <= MAX_OLD_CONNS && (s.disableReuse ==> s.pool == [])
  }

  lemma InUseIff(threads: map<Tid, Pc>, c: Conn)
    ensures c in InUse(threads) <==> exists t :: Holds(threads, t, c)
  {
    if c in InUse(threads) {
      var t :| t in threads && c in ConnOf(threads[t]);
      assert Holds(threads, t, c);
    }
    if t :| Holds(threads, t, c) {
      assert t in threads && c in ConnOf(threads[t]);
    }
  }

  /** An exchange that held nothing moves on. */
  lemma AcquireEffect(threads: map<Tid, Pc>, t: Tid, pc: Pc)
    requires OneUser(threads) && (t in threads ==> ConnOf(threads[t]) == {}) && ConnOf(pc) !! InUse(threads)
    ensures InUse(threads[t := pc]) == InUse(threads) + ConnOf(pc) && OneUser(threads[t := pc])
  {
    var after := threads[t := pc];
    forall c
      ensures c in InUse(after) <==> c in InUse(threads) + ConnOf(pc)
    {
      InUseIff(threads, c);
      InUseIff(after, c);
      if u :| Holds(threads, u, c) {
        assert Holds(after, u, c);
      }
      if u :| Holds(after, u, c) {
        assert u != t ==> Holds(threads, u, c);
      }
      if c in ConnOf(pc) {
        assert Holds(after, t, c);
      }
    }
    forall u, v, c | Holds(after, u, c) && Holds(after, v, c)
      ensures u == v
    {
      InUseIff(threads, c);
      if u != t && v != t {
        assert Holds(threads, u, c) && Holds(threads, v, c);
      } else if u != t {
        assert Holds(threads, u, c);
      } else if v != t {
        assert Holds(threads, v, c);
      }
    }
  }

  /** An exchange gives its connection away. */
  lemma ReleaseEffect(threads: map<Tid, Pc>, t: Tid, after: map<Tid, Pc>)
    requires OneUser(threads) && t in threads && (after == threads - {t} || after == threads[t := AtLoopHead])
    ensures InUse(after) == InUse(threads) - ConnOf(threads[t]) && OneUser(after)
  {
    forall c
      ensures c in InUse(after) <==> c in InUse(threads) - ConnOf(threads[t])
    {
      InUseIff(threads, c);
      InUseIff(after, c);
      assert c in ConnOf(threads[t]) <==> Holds(threads, t, c);
      if u :| Holds(threads, u, c) {
        assert u != t ==> Holds(after, u, c);
      }
      if u :| Holds(after, u, c) {
        assert Holds(threads, u, c) && u != t;
      }
    }
    forall u, v, c | Holds(after, u, c) && Holds(after, v, c)
      ensures u == v
    {
      assert Holds(threads, u, c) && Holds(threads, v, c);
    }
  }

  lemma HeldIsInUse(threads: map<Tid, Pc>, t: Tid)
    requires t in threads
    ensures ConnOf(threads[t]) <= InUse(threads)
  {
  }

  /** A connection held by an exchange is nowhere else. */
  lemma HeldElsewhere(s: State, t: Tid)
    requires Inv(s) && t in s.threads
    ensures var h := ConnOf(s.threads[t]); h <= InUse(s.threads) && h !! Members(s.pool) && h !! s.closing && h !! s.closed && h <= s.dialled
  {
    HeldIsInUse(s.threads, t);
  }

  lemma TakeKeepsInv(s: State, t: Tid)
    requires Inv(s) && Enabled(s, Take(t))
    ensures Inv(Next(s, Take(t)))
  {
    var r := Next(s, Take(t));
    if !s.disableReuse && |s.pool| > 0 {
      var c := s.pool[|s.pool| - 1];
      DropLast(s.pool);
      AcquireEffect(s.threads, t, Using(c, true));
    } else {
      AcquireEffect(s.threads, t, Dialling);
    }
  }

  lemma PutBackKeepsInv(s: State, t: Tid)
    requires Inv(s) && Enabled(s, PutBack(t))
    ensures Inv(Next(s, PutBack(t)))
  {
    var c := s.threads[t].conn;
    HeldElsewhere(s, t);
    ReleaseEffect(s.threads, t, s.threads - {t});
    if !s.disableReuse {
      if |s.pool| >= MAX_OLD_CONNS {
        var rest := s.pool[1..];
        assert s.pool == [s.pool[0]] + rest;
        assert Members(s.pool) == {s.pool[0]} + Members(rest) && s.pool[0] !in Members(rest) && NoDup(rest);
        AppendFacts(rest, c);
      } else {
        AppendFacts(s.pool, c);
      }
    }
  }

  lemma AppendFacts(l: seq<Conn>, c: Conn)
    requires NoDup(l) && c !in Members(l)
    ensures NoDup(l + [c]) && Members(l + [c]) == Members(l) + {c}
  {
  }

  lemma ExchangeFailedKeepsInv(s: State, t: Tid)
    requires Inv(s) && Enabled(s, ExchangeFailed(t))
    ensures Inv(Next(s, ExchangeFailed(t)))
  {
    HeldElsewhere(s, t);
    ReleaseEffect(s.threads, t, if s.threads[t].isOld then s.threads[t := AtLoopHead] else s.threads - {t});
  }

  lemma ExchangeOkKeepsInv(s: State, t: Tid)
    requires Inv(s) && Enabled(s, ExchangeOk(t))
    ensures Inv(Next(s, ExchangeOk(t)))
  {
    var c := s.threads[t].conn;
    var rest := s.threads - {t};
    ReleaseEffect(s.threads, t, rest);
    AcquireEffect(rest, t, Finished(c));
    HeldIsInUse(s.threads, t);
    assert rest[t := Finished(c)] == s.threads[t := Finished(c)];
  }

  lemma DialKeepsInv(s: State, step: Step)
    requires Inv(s) && Enabled(s, step) && (step.Begin? || step.GiveUp? || step.DialOk? || step.DialFailed? || step.HandshakeFailed?)
    ensures Inv(Next(s, step))
  {
    match step
    case Begin(t) => AcquireEffect(s.threads, t, AtLoopHead);
    case DialOk(t, c) => AcquireEffect(s.threads, t, Using(c, false));
    case GiveUp(t) => ReleaseEffect(s.threads, t, s.threads - {t});
    case DialFailed(t) => ReleaseEffect(s.threads, t, s.threads - {t});
    case HandshakeFailed(t, c) => ReleaseEffect(s.threads, t, s.threads - {t});
    case _ =>
  }

  /** Every step of every exchange and every reset conserves connections. */
  lemma StepKeepsInv(s: State, step: Step)
    requires Inv(s) && Enabled(s, step)
    ensures Inv(Next(s, step)) && Next(s, step).disableReuse == s.disableReuse
  {
    match step
    case Take(t) => TakeKeepsInv(s, t);
    case ExchangeOk(t) => ExchangeOkKeepsInv(s, t);
    case ExchangeFailed(t) => ExchangeFailedKeepsInv(s, t);
    case PutBack(t) => PutBackKeepsInv(s, t);
    case Reset =>
    case CloseDone(c) =>
    case _ => DialKeepsInv(s, step);
  }

  // ----- runs -----

  ghost predicate IsRun(ss: seq<State>, steps: seq<Step>) {
    && |ss| == |steps| + 1 && ss[0] == Init(ss[0].disableReuse)
    && forall i {:trigger steps[i]} :: 0 <= i < |steps| ==> Enabled(ss[i], steps[i]) && Next(ss[i], steps[i]) == ss[i + 1]
  }

  /** In every interleaving of exchanges and resets: each dialled connection is in exactly one place,
      no connection serves two exchanges, and the pool holds at most eight. */
  lemma {:induction false} ConnectionsConserved(ss: seq<State>, steps: seq<Step>, i: nat)
    requires IsRun(ss, steps) && i < |ss|
    ensures Inv(ss[i]) && |ss[i].pool| <= 8
  {
    if i > 0 {
      ConnectionsConserved(ss, steps, i - 1);
      assert Enabled(ss[i - 1], steps[i - 1]);
      StepKeepsInv(ss[i - 1], steps[i - 1]);
    }
  }

  /** Once no exchange is running, every connection ever dialled is pooled, closing or closed. */
  lemma QuietMeansPooledOrClosed(ss: seq<State>, steps: seq<Step>, i: nat)
    requires IsRun(ss, steps) && i < |ss| && ss[i].threads == map[]
    ensures ss[i].dialled == Members(ss[i].pool) + ss[i].closing + ss[i].closed
  {
    ConnectionsConserved(ss, steps, i);
    assert InUse(ss[i].threads) == {};
  }

  ghost predicate NoPutBack(steps: seq<Step>, lo: nat, hi: nat)
    requires hi <= |steps|
  {
    forall j :: lo <= j < hi ==> !steps[j].PutBack?
  }

  /** After a reset the pool stays empty until the next exchange puts its connection back. */
  lemma {:induction false} EmptyUntilPutBack(ss: seq<State>, steps: seq<Step>, k: nat, hi: nat)
    requires IsRun(ss, steps) && k < hi < |ss| && steps[k].Reset? && NoPutBack(steps, k + 1, hi)
    ensures ss[hi].pool == []
    decreases hi
  {
    ConnectionsConserved(ss, steps, hi - 1);
    assert Enabled(ss[hi - 1], steps[hi - 1]);
    if k + 1 < hi {
      EmptyUntilPutBack(ss, steps, k, hi - 1);
    }
  }

  predicate TouchesPool(step: Step) {
    step.Take? || step.PutBack? || step.Reset?
  }

  lemma {:induction false} PoolRests(ss: seq<State>, steps: seq<Step>, lo: nat, hi: nat)
    requires IsRun(ss, steps) && lo <= hi < |ss| && forall j :: lo <= j < hi ==> !TouchesPool(steps[j])
    ensures ss[hi].pool == ss[lo].pool && ss[hi].disableReuse == ss[lo].disableReuse
    decreases hi
  {
    if lo < hi {
      PoolRests(ss, steps, lo, hi - 1);
      assert Enabled(ss[hi - 1], steps[hi - 1]);
    }
  }

  /** The connection put back last is the first to be used again; one that is pushed out of a full
      pool is the one that was put back longest ago. */
  lemma LastPutBackIsTakenFirst(ss: seq<State>, steps: seq<Step>, k: nat, hi: nat)
    requires IsRun(ss, steps) && k < hi < |steps| && steps[k].PutBack? && steps[hi].Take? && !ss[k].disableReuse
    requires forall j :: k < j < hi ==> !TouchesPool(steps[j])
    ensures steps[k].t in ss[k].threads && ss[k].threads[steps[k].t].Finished?
    ensures steps[hi].t in ss[hi + 1].threads && ss[hi + 1].threads[steps[hi].t] == Using(ss[k].threads[steps[k].t].conn, true)
    ensures |ss[k].pool| == 8 ==> |ss[k + 1].pool| == 8 && ss[k + 1].pool[..7] == ss[k].pool[1..] && ss[k].pool[0] in ss[k + 1].closing
    ensures |ss[k].pool| < 8 ==> ss[k + 1].pool[..|ss[k].pool|] == ss[k].pool && ss[k + 1].closing == ss[k].closing
  {
    ConnectionsConserved(ss, steps, k);
    assert Enabled(ss[k], steps[k]) && Enabled(ss[hi], steps[hi]);
    PoolRests(ss, steps, k + 1, hi);
  }

  lemma ExtendRun(ss: seq<State>, steps: seq<Step>, step: Step) returns (ss': seq<State>, steps': seq<Step>)
    requires IsRun(ss, steps) && Enabled(ss[|steps|], step)
    ensures ss' == ss + [Next(ss[|steps|], step)] && steps' == steps + [step] && IsRun(ss', steps')
  {
    ss', steps' := ss + [Next(ss[|steps|], step)], steps + [step];
  }

  // ----- retries -----

  /** The step is one of exchange t. */
  predicate OwnStep(step: Step, t: Tid) {
    !step.Reset? && !step.CloseDone? && step.t == t
  }

  ghost predicate OwnRests(steps: seq<Step>, lo: nat, hi: nat, t: Tid)
    requires hi <= |steps|
  {
    forall j :: lo <= j < hi ==> !OwnStep(steps[j], t)
  }

  /** Nobody else moves an exchange. */
  lemma {:induction false} RestsWhereItIs(ss: seq<State>, steps: seq<Step>, lo: nat, hi: nat, t: Tid)
    requires IsRun(ss, steps) && lo <= hi < |ss| && OwnRests(steps, lo, hi, t)
    ensures t in ss[hi].threads <==> t in ss[lo].threads
    ensures t in ss[lo].threads ==> ss[hi].threads[t] == ss[lo].threads[t]
    decreases hi
  {
    if lo < hi {
      RestsWhereItIs(ss, steps, lo, hi - 1, t);
      assert Enabled(ss[hi - 1], steps[hi - 1]) && !OwnStep(steps[hi - 1], t);
    }
  }

  /** A running exchange has taken a step before, and a last one. */
  lemma {:induction false} LastOwnStep(ss: seq<State>, steps: seq<Step>, k: nat, t: Tid) returns (b: nat)
    requires IsRun(ss, steps) && k < |ss| && t in ss[k].threads
    ensures b < k && OwnStep(steps[b], t) && OwnRests(steps, b + 1, k, t)
  {
    assert k > 0;
    b := k - 1;
    if !OwnStep(steps[b], t) {
      assert Enabled(ss[b], steps[b]);
      b := LastOwnStep(ss, steps, k - 1, t);
    }
  }

  /**
   An exchange that fails got its connection from the pool, as the one put back last, or dialled it.
   From the pool: it goes on, to try again. Dialled: it is over. The connection is closed either way.
   */
  lemma FailureEndsOnlyDialled(ss: seq<State>, steps: seq<Step>, k: nat, t: Tid) returns (b: nat)
    requires IsRun(ss, steps) && k < |steps| && steps[k] == ExchangeFailed(t)
    ensures b < k && OwnRests(steps, b + 1, k, t)
    ensures || (steps[b] == Take(t) && |ss[b].pool| > 0 && At(ss[k + 1], t, AtLoopHead) && ss[b].pool[|ss[b].pool| - 1] in ss[k + 1].closed)
            || (steps[b].DialOk? && steps[b].t == t && t !in ss[k + 1].threads && steps[b].conn in ss[k + 1].closed)
  {
    assert Enabled(ss[k], steps[k]);
    b := LastOwnStep(ss, steps, k, t);
    assert Enabled(ss[b], steps[b]);
    RestsWhereItIs(ss, steps, b + 1, k, t);
  }

  // ----- what a reset achieves -----

  /** The run goes on from (ss, steps) without another exchange beginning. */
  ghost predicate GoesOnWithoutBegin(ss: seq<State>, steps: seq<Step>, ss': seq<State>, steps': seq<Step>) {
    && IsRun(ss', steps') && ss <= ss' && steps <= steps'
    && forall j :: |steps| <= j < |steps'| ==> !steps'[j].Begin?
  }

  /** With no exchange running and nothing pooled it stays that way. */
  lemma {:induction false} StaysEmpty(ss: seq<State>, steps: seq<Step>, lo: nat, hi: nat)
    requires IsRun(ss, steps) && lo <= hi < |ss| && ss[lo].threads == map[] && ss[lo].pool == []
    requires forall j :: lo <= j < hi ==> !steps[j].Begin?
    ensures ss[hi].threads == map[] && ss[hi].pool == []
    decreases hi
  {
    if lo < hi {
      StaysEmpty(ss, steps, lo, hi - 1);
      assert Enabled(ss[hi - 1], steps[hi - 1]);
    }
  }

  lemma {:induction false} FreshConn(used: set<Conn>) returns (c: Conn)
    ensures c !in used && forall u :: u in used ==> u < c
  {
    if used == {} {
      c := 0;
    } else {
      var u :| u in used;
      var rest := FreshConn(used - {u});
      c := if u < rest then rest else u + 1;
      assert forall x :: x in used ==> x == u || x in used - {u};
    }
  }

  lemma OneStepOn(ss0: seq<State>, steps0: seq<Step>, ss: seq<State>, steps: seq<Step>, step: Step) returns (ss': seq<State>, steps': seq<Step>)
    requires GoesOnWithoutBegin(ss0, steps0, ss, steps) && Enabled(ss[|steps|], step) && !step.Begin?
    ensures GoesOnWithoutBegin(ss0, steps0, ss', steps') && ss'[|steps'|] == Next(ss[|steps|], step)
  {
    ss', steps' := ExtendRun(ss, steps, step);
  }

  /** An exchange that holds a connection can put it into the pool. */
  lemma UsingFillsPool(ss0: seq<State>, steps0: seq<Step>, ss: seq<State>, steps: seq<Step>, t: Tid) returns (ss': seq<State>, steps': seq<Step>)
    requires GoesOnWithoutBegin(ss0, steps0, ss, steps) && !ss[|steps|].disableReuse
    requires t in ss[|steps|].threads && (ss[|steps|].threads[t].Using? || ss[|steps|].threads[t].Finished?)
    ensures GoesOnWithoutBegin(ss0, steps0, ss', steps') && ss'[|steps'|].pool != []
  {
    ss', steps' := ss, steps;
    if ss'[|steps'|].threads[t].Using? {
      ss', steps' := OneStepOn(ss0, steps0, ss', steps', ExchangeOk(t));
    }
    ss', steps' := OneStepOn(ss0, steps0, ss', steps', PutBack(t));
  }

  /** Any exchange still running can put a connection into the pool. */
  lemma RunningFillsPool(ss: seq<State>, steps: seq<Step>, t: Tid) returns (ss': seq<State>, steps': seq<Step>)
    requires IsRun(ss, steps) && !ss[|steps|].disableReuse && ss[|steps|].pool == [] && t in ss[|steps|].threads
    ensures GoesOnWithoutBegin(ss, steps, ss', steps') && ss'[|steps'|].pool != []
  {
    ss', steps' := ss, steps;
    if ss'[|steps'|].threads[t].AtLoopHead? {
      ss', steps' := OneStepOn(ss, steps, ss', steps', Take(t));
    }
    if ss'[|steps'|].threads[t].Dialling? {
      var c := FreshConn(ss'[|steps'|].dialled);
      ss', steps' := OneStepOn(ss, steps, ss', steps', DialOk(t, c));
    }
    ss', steps' := UsingFillsPool(ss, steps, ss', steps', t);
  }

  /**
   What a reset, and so Close, achieves where connections are reused: that nothing is pooled until
   another exchange begins is certain exactly when no exchange was running.
   */
  lemma ResetEmptiesForGoodIff(ss: seq<State>, steps: seq<Step>, k: nat)
    requires IsRun(ss, steps) && |steps| == k + 1 && steps[k].Reset? && !ss[k].disableReuse
    ensures ss[k].threads == map[] <==>
      forall ss': seq<State>, steps': seq<Step> {:trigger GoesOnWithoutBegin(ss, steps, ss', steps')} ::
        GoesOnWithoutBegin(ss, steps, ss', steps') ==> ss'[|steps'|].pool == []
  {
    assert Enabled(ss[k], steps[k]);
    if ss[k].threads == map[] {
      forall ss': seq<State>, steps': seq<Step> | GoesOnWithoutBegin(ss, steps, ss', steps')
        ensures ss'[|steps'|].pool == []
      {
        assert ss'[k + 1] == ss[k + 1];
        StaysEmpty(ss', steps', k + 1, |steps'|);
      }
    } else {
      var t :| t in ss[k].threads;
      var ss', steps' := RunningFillsPool(ss, steps, t);
      assert GoesOnWithoutBegin(ss, steps, ss', steps');
    }
  }

  /** Close is only a reset: an exchange still running puts its connection into the pool afterwards,
      and with nobody running nothing closes it. */
  lemma ClosedClientCanKeepConnection() returns (ss: seq<State>, steps: seq<Step>, k: nat)
    ensures IsRun(ss, steps) && k < |steps| && steps[k].Reset? && ss[|steps|].threads == map[] && ss[|steps|].pool == [5]
  {
    ss, steps := [Init(false)], [];
    ss, steps := ExtendRun(ss, steps, Begin(1));
    ss, steps := ExtendRun(ss, steps, Take(1));
    ss, steps := ExtendRun(ss, steps, DialOk(1, 5));
    ss, steps := ExtendRun(ss, steps, ExchangeOk(1));
    k := |steps|;
    ss, steps := ExtendRun(ss, steps, Reset);
    ss, steps := ExtendRun(ss, steps, PutBack(1));
    assert ss[|steps|].threads == map[];
  }
}
