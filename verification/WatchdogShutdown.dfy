/**
 How the watchdog comes to an end: the barrier drains in a bounded number of steps, and which
 returns of `Start` leave a goroutine behind.
 */
module WatchdogShutdown {
  import opened Watchdog
  import opened WatchdogRuns

  // ---- sums over maps ----

  ghost function Pick(m: map<nat, nat>): (k: nat)
    requires m != map[]
    ensures k in m
  {
    var k :| k in m; k
  }

  ghost function Total(m: map<nat, nat>): nat
    decreases |m|
  {
    if m == map[] then 0 else m[Pick(m)] + Total(m - {Pick(m)})
  }

  lemma {:induction false} TotalRemove(m: map<nat, nat>, k: nat)
    requires k in m
    ensures Total(m) == m[k] + Total(m - {k})
    decreases |m|
  {
    var j := Pick(m);
    if j != k {
      TotalRemove(m - {j}, k);
      TotalRemove(m - {k}, j);
      assert m - {j} - {k} == m - {k} - {j};
    }
  }

  lemma TotalUpdate(m: map<nat, nat>, k: nat, v: nat)
    ensures Total(m[k := v]) == Total(m) + v - (if k in m then m[k] else 0)
  {
    TotalRemove(m[k := v], k);
    if k in m {
      TotalRemove(m, k);
      assert m[k := v] - {k} == m - {k};
    } else {
      assert m[k := v] - {k} == m;
    }
  }

  // ---- the work left before the barrier opens ----

  /** An upper bound on the steps a helper has left, with those of a goroutine it may start. */
  function HelperWork(h: Helper): nat {
    match h
    case Checker(_) => 1
    case Handler(_, pc) =>
      match pc
      case Listening => 1
      case Awaiting(_, _) => 2
      case Stopping => 6
      case Checking => 7
      case Releasing => 8
      case Recording => 9
      case Locking => 10
  }

  function WaiterWork(w: Waiter): nat {
    match w.pc
    case Entering => 3
    case Blocked => 2
    case Holding => 1
    case Finished => 0
  }

  function HelpersWork(helpers: map<nat, Helper>): map<nat, nat> {
    map h | h in helpers :: HelperWork(helpers[h])
  }

  function WaitersWork(waiters: map<nat, Waiter>): map<nat, nat> {
    map w | w in waiters :: WaiterWork(waiters[w])
  }

  ghost function Work(s: State): nat {
    Total(HelpersWork(s.crew.helpers)) + Total(WaitersWork(s.procs.waiters))
  }

  lemma HelperMoves(helpers: map<nat, Helper>, h: nat, x: Helper)
    requires h in helpers
    ensures Total(HelpersWork(helpers[h := x])) == Total(HelpersWork(helpers)) - HelperWork(helpers[h]) + HelperWork(x)
  {
    TotalUpdate(HelpersWork(helpers), h, HelperWork(x));
    assert HelpersWork(helpers[h := x]) == HelpersWork(helpers)[h := HelperWork(x)];
  }

  lemma HelperLeaves(helpers: map<nat, Helper>, h: nat)
    requires h in helpers
    ensures Total(HelpersWork(helpers - {h})) == Total(HelpersWork(helpers)) - HelperWork(helpers[h])
  {
    TotalRemove(HelpersWork(helpers), h);
    assert HelpersWork(helpers - {h}) == HelpersWork(helpers) - {h};
  }

  lemma WaiterMoves(waiters: map<nat, Waiter>, w: nat, x: Waiter)
    ensures Total(WaitersWork(waiters[w := x])) ==
            Total(WaitersWork(waiters)) + WaiterWork(x) - (if w in waiters then WaiterWork(waiters[w]) else 0)
  {
    TotalUpdate(WaitersWork(waiters), w, WaiterWork(x));
    assert WaitersWork(waiters[w := x]) == WaitersWork(waiters)[w := WaiterWork(x)];
  }

  lemma HandlerWorks(s: State, h: nat, k: HandlerStep)
    requires EnabledHandler(s, h, k) && Progress(OfHandler(h, k)) && s.nextId !in s.procs.waiters
    ensures Work(ApplyHandler(s, h, k)) < Work(s)
  {
    hide Total;
    if k.LeaveHandler? {
      HelperLeaves(s.crew.helpers, h);
    } else {
      HelperMoves(s.crew.helpers, h, s.crew.helpers[h].(hpc := HandlerNext(s, h, k)));
      if k.Stop? && k.alive { WaiterMoves(s.procs.waiters, s.nextId, Waiter(s.procs.instance, Entering)); }
    }
  }

  lemma WaiterWorks(s: State, w: nat, n: WaiterStep)
    requires EnabledWaiter(s.procs, w, n)
    ensures Work(s.(procs := ApplyWaiter(s.procs, w, n))) < Work(s)
  {
    hide Total;
    var after := ApplyWaiter(s.procs, w, n).waiters[w];
    WaiterMoves(s.procs.waiters, w, after);
    assert ApplyWaiter(s.procs, w, n).waiters == s.procs.waiters[w := after];
  }

  /** Every step the helpers and the waiting goroutines take of their own uses up work, and the
      main loop stays where it is. */
  lemma ProgressWorks(s: State, a: Step)
    requires Inv(s) && Enabled(s, a) && Progress(a)
    ensures Work(Apply(s, a)) < Work(s) && Apply(s, a).pc == s.pc
  {
    hide Total;
    match a
    case OfHandler(h, k) => HandlerWorks(s, h, k);
    case OfChecker(c, l) => HelperLeaves(s.crew.helpers, c);
    case OfWaiter(w, n) => WaiterWorks(s, w, n);
  }

  /** A stretch of such steps is no longer than the work at its beginning. */
  lemma {:induction false} DrainBounded(r: Run, i: nat, j: nat)
    requires IsRun(r) && i <= j < |r.states|
    requires forall k :: i <= k < j ==> Progress(r.steps[k])
    ensures Work(r.states[j]) + (j - i) <= Work(r.states[i]) && r.states[j].pc == r.states[i].pc
    decreases j
  {
    assert |r.states| == |r.steps| + 1;
    hide *;
    if i < j {
      DrainBounded(r, i, j - 1);
      StepWorks(r, j - 1);
    }
  }

  lemma StepWorks(r: Run, i: nat)
    requires IsRun(r) && i < |r.steps| && Progress(r.steps[i])
    ensures Work(r.states[i + 1]) < Work(r.states[i]) && r.states[i + 1].pc == r.states[i].pc
  {
    hide Work, Inv, Enabled, Apply, Progress, Init;
    RunInv(r, i);
    assert StepAt(r, i);
    ProgressWorks(r.states[i], r.steps[i]);
  }

  function Extended(r: Run, a: Step): Run
    requires r.states != [] && Enabled(r.states[|r.states| - 1], a)
  {
    Run(r.states + [Apply(r.states[|r.states| - 1], a)], r.steps + [a])
  }

  lemma ExtendedIsRun(r: Run, a: Step)
    requires IsRun(r) && Enabled(r.states[|r.states| - 1], a)
    ensures IsRun(Extended(r, a))
  {
    var e := Extended(r, a);
    forall i | 0 <= i < |e.steps| ensures StepAt(e, i) {
      if i < |r.steps| {
        assert StepAt(r, i);
        assert e.states[i] == r.states[i] && e.states[i + 1] == r.states[i + 1] && e.steps[i] == r.steps[i];
      }
    }
  }

  /** The run `e` goes on from `r` with program steps alone. */
  ghost predicate Continues(r: Run, e: Run) {
    && |r.states| == |r.steps| + 1 && |e.states| == |e.steps| + 1
    && r.states <= e.states && r.steps <= e.steps
    && forall k :: |r.steps| <= k < |e.steps| ==> Progress(e.steps[k])
  }

  /** The barrier opens: a run that has reached it goes on, without any new signal, to a state
      with no helper left, in at most as many steps as there is work. */
  lemma {:induction false} BarrierOpens(r: Run) returns (e: Run)
    requires IsRun(r)
    requires var s := r.states[|r.steps|]; s.pc == Barrier || s.pc == BarrierEarly
    ensures IsRun(e) && Continues(r, e) && |e.steps| - |r.steps| <= Work(r.states[|r.steps|])
    ensures
      var s, s' := r.states[|r.steps|], e.states[|e.steps|];
      s'.crew.barrier == 0 && s'.crew.helpers == map[] && s'.pc == s.pc
    decreases Work(r.states[|r.steps|])
  {
    var n := |r.steps|;
    RunInv(r, n);
    if r.states[n].crew.barrier == 0 {
      NobodyLeft(r.states[n].crew);
      e := r;
    } else {
      var a := BarrierProgress(r, n);
      ProgressWorks(r.states[n], a);
      var next := Extended(r, a);
      ExtendedIsRun(r, a);
      hide IsRun, Work;
      e := BarrierOpens(next);
      ContinuesOn(r, a, e);
    }
  }

  lemma ContinuesOn(r: Run, a: Step, e: Run)
    requires |r.states| == |r.steps| + 1 && Enabled(r.states[|r.steps|], a) && Progress(a)
    requires Continues(Extended(r, a), e)
    ensures Continues(r, e)
  {
    var next := Extended(r, a);
    assert r.states <= next.states && r.steps <= next.steps;
    forall k | |r.steps| <= k < |e.steps| ensures Progress(e.steps[k]) {
      if k == |r.steps| { assert e.steps[k] == next.steps[k] == a; }
    }
  }

  // ---- who is left when Start returns ----

  /** The loop is between the start of the signal handler and the end of its context. */
  predicate OnDuty(pc: MainPc) {
    pc.FirstIntegrity? || pc.PreStart? || pc.CancelEarly? || pc.Lock? || pc.CheckStop? || pc.StartInstance?
    || ChildMayRun(pc) || pc.Cancel?
  }

  /** While the loop is on duty its context is not cancelled and the signal handler lives. */
  ghost predicate Manned(s: State) {
    && (forall c :: c in s.crew.cancelled ==> c < s.nextId)
    && (OnDuty(s.pc) || s.pc.NextSignals? ==> s.crew.ctx < s.nextId && s.crew.ctx !in s.crew.cancelled)
    && (OnDuty(s.pc) ==> exists h :: h in s.crew.helpers && s.crew.helpers[h].Handler?)
  }

  lemma MannedOpening(s: State, o: OpeningStep)
    requires (forall h :: h in s.crew.helpers ==> h < s.nextId) && Manned(s) && EnabledOpening(s, o)
    ensures Manned(ApplyOpening(s, o))
  {
    if OnDuty(s.pc) {
      var h :| h in s.crew.helpers && s.crew.helpers[h].Handler?;
      assert h in ApplyOpening(s, o).crew.helpers && ApplyOpening(s, o).crew.helpers[h].Handler?;
    } else if o == OSignals {
      assert ApplyOpening(s, o).crew.helpers[s.nextId + 1].Handler?;
    }
  }

  lemma MannedRound(s: State, r: RoundStep)
    requires Manned(s) && EnabledRound(s, r)
    ensures Manned(ApplyRound(s, r))
  {
    assert ApplyRound(s, r).crew.helpers == s.crew.helpers;
  }

  lemma MannedRestart(s: State, q: RestartStep)
    requires Manned(s) && EnabledRestart(s, q)
    ensures Manned(ApplyRestart(s, q))
  {
    if q == SSignals { assert ApplyRestart(s, q).crew.helpers[s.nextId].Handler?; }
  }

  lemma MannedOthers(s: State, a: Step)
    requires (forall h :: h in s.crew.helpers ==> s.crew.helpers[h].ctx == s.crew.ctx) && Manned(s) && Enabled(s, a)
    requires a.OfHandler? || a.OfChecker? || a.OfWaiter? || a.ChildExit?
    ensures Manned(Apply(s, a))
  {
    if OnDuty(s.pc) {
      var h :| h in s.crew.helpers && s.crew.helpers[h].Handler?;
      assert h in Apply(s, a).crew.helpers && Apply(s, a).crew.helpers[h].Handler?;
    }
  }

  lemma {:induction false} RunManned(r: Run, i: nat)
    requires IsRun(r) && i < |r.states|
    ensures Manned(r.states[i])
    decreases i
  {
    assert |r.states| == |r.steps| + 1;
    FirstManned(r);
    hide *;
    if i > 0 {
      RunManned(r, i - 1);
      StepManned(r, i - 1);
    }
  }

  lemma FirstManned(r: Run)
    requires IsRun(r)
    ensures Manned(r.states[0])
  {
  }

  lemma StepManned(r: Run, i: nat)
    requires IsRun(r) && i < |r.steps| && Manned(r.states[i])
    ensures Manned(r.states[i + 1])
  {
    hide Manned, Init;
    RunInv(r, i);
    assert StepAt(r, i);
    var s := r.states[i];
    match r.steps[i]
    case Opening(o) => MannedOpening(s, o);
    case Round(x) => MannedRound(s, x);
    case Restart(q) => MannedRestart(s, q);
    case a => MannedOthers(s, a);
  }

  /** `Start` returns with a helper still alive exactly when a stop was recorded before the start
      of the instance, or that start failed. */
  lemma LeftBehind(r: Run, i: nat)
    requires IsRun(r) && i < |r.steps| && !r.states[i].pc.Returned? && r.states[i + 1].pc.Returned?
    ensures r.states[i + 1].crew.helpers != map[] <==>
            r.steps[i] == Round(RCheckStop) || r.steps[i] == Round(RStart(false))
  {
    hide Manned, Enabled, Apply, CrewInv, Init;
    RunManned(r, i);
    RunInv(r, i);
    assert StepAt(r, i);
    ReturningStep(r.states[i], r.steps[i]);
  }

  lemma ReturningStep(s: State, a: Step)
    requires CrewInv(s.pc, s.nextId, s.crew) && Manned(s) && Enabled(s, a)
    requires !s.pc.Returned? && Apply(s, a).pc.Returned?
    ensures Apply(s, a).crew.helpers != map[] <==> a == Round(RCheckStop) || a == Round(RStart(false))
  {
    match a
    case Opening(o) => if o == OBarrier { NobodyLeft(s.crew); }
    case Round(r) => assert OnDuty(s.pc) && Apply(s, a).crew == s.crew;
    case Restart(q) => assert Alone(s.pc) && Apply(s, a).crew == s.crew;
    case _ =>
  }

  // ---- two runs that leave a helper behind ----

  lemma Take(r: Run, a: Step) returns (e: Run)
    requires IsRun(r) && Enabled(r.states[|r.steps|], a)
    ensures IsRun(e) && e.steps == r.steps + [a] && e.states[|e.steps|] == Apply(r.states[|r.steps|], a)
  {
    e := Extended(r, a);
    ExtendedIsRun(r, a);
  }

  /** The loop is about to lock the mutex for the first time, and the signal handler listens. */
  lemma ReadyToStart() returns (r: Run, h: nat)
    ensures IsRun(r)
    ensures
      var s := r.states[|r.steps|];
      && s.pc == Lock && s.flag == Flag(false, Free, false) && !s.periodic
      && s.crew == Crew(s.crew.ctx, {}, map[h := Handler(s.crew.ctx, Listening)], 1)
      && s.procs == Procs(s.procs.instance, map[s.procs.instance := FRESH], map[])
  {
    var s := State(Create, false, 0, 1, Flag(false, Free, false), Crew(0, {}, map[], 0), Procs(0, map[], map[]));
    r := Run([s], []);
    r := Take(r, Opening(OCreate(true)));
    r := Take(r, Opening(OSignals));
    r := Take(r, Opening(OIntegrity));
    r := Take(r, Opening(OPreStart(true)));
    h := 3;
  }

  /** A stop is recorded before the first start: `Start` returns and its handler lives on. */
  lemma StopBeforeStart() returns (r: Run)
    ensures IsRun(r) && r.steps != [] && r.steps[|r.steps| - 1] == Round(RCheckStop)
    ensures r.states[|r.steps|].pc.Returned? && r.states[|r.steps|].crew.helpers != map[]
  {
    var h;
    r, h := ReadyToStart();
    hide IsRun;
    r := Take(r, OfHandler(h, StopSignal));
    r := Take(r, OfHandler(h, LockMutex));
    r := Take(r, OfHandler(h, Record));
    r := Take(r, OfHandler(h, UnlockMutex));
    r := Take(r, Round(RLock));
    r := Take(r, Round(RCheckStop));
    assert h in r.states[|r.steps|].crew.helpers;
  }

  /** The first start fails: `Start` returns and its handler lives on. */
  lemma StartFails() returns (r: Run)
    ensures IsRun(r) && r.steps != [] && r.steps[|r.steps| - 1] == Round(RStart(false))
    ensures r.states[|r.steps|].pc.Returned? && r.states[|r.steps|].crew.helpers != map[]
  {
    var h;
    r, h := ReadyToStart();
    hide IsRun;
    r := Take(r, Round(RLock));
    r := Take(r, Round(RCheckStop));
    r := Take(r, Round(RStart(false)));
    assert h in r.states[|r.steps|].crew.helpers;
  }
}
