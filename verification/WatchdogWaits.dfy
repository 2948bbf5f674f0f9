/**
 Waiting for a child in a run: when `Wait` returns at once, who waits after a stop was sent, and
 what is new after a step that makes something new.
 */
module WatchdogWaits {
  import opened Watchdog
  import opened WatchdogRuns
  import opened WatchdogOrder

  // ---- the done flag ----

  /** `Cmd.Wait` returns without an error for this instance. */
  predicate Cleans(s: State, a: Step, inst: nat) {
    || (a == Round(RWaitReturn(true)) && s.procs.instance == inst)
    || (a.OfWaiter? && a.n == Return(true) && a.w in s.procs.waiters && s.procs.waiters[a.w].inst == inst)
  }

  /** It did so before step `i`. */
  ghost predicate CleanBefore(r: Run, i: nat, inst: nat) {
    exists k :: 0 <= k < i && k < |r.steps| && k < |r.states| && Cleans(r.states[k], r.steps[k], inst)
  }

  predicate IsDone(p: Procs, inst: nat) { inst in p.children && p.children[inst].done }

  lemma DoneStep(s: State, a: Step, inst: nat)
    requires ProcsInv(s.pc, s.nextId, s.procs) && Enabled(s, a)
    ensures IsDone(Apply(s, a).procs, inst) <==> IsDone(s.procs, inst) || Cleans(s, a, inst)
  {
    if a.OfWaiter? { DoneWaiter(s.procs, a.w, a.n, inst); }
  }

  lemma DoneWaiter(p: Procs, w: nat, n: WaiterStep, inst: nat)
    requires EnabledWaiter(p, w, n)
    ensures IsDone(ApplyWaiter(p, w, n), inst) <==> IsDone(p, inst) || (n == Return(true) && p.waiters[w].inst == inst)
  {
  }

  /** An instance is done exactly when some `Wait` for it has returned without an error. */
  lemma {:induction false} DoneIs(r: Run, i: nat, inst: nat)
    requires IsRun(r) && i < |r.states|
    ensures IsDone(r.states[i].procs, inst) <==> CleanBefore(r, i, inst)
    decreases i
  {
    if i > 0 {
      DoneIs(r, i - 1, inst);
      DoneNext(r, i - 1, inst);
      if k :| 0 <= k < i && k < |r.steps| && k < |r.states| && Cleans(r.states[k], r.steps[k], inst) {
        if k < i - 1 { assert CleanBefore(r, i - 1, inst); }
      }
    }
  }

  lemma DoneNext(r: Run, i: nat, inst: nat)
    requires IsRun(r) && i < |r.steps|
    ensures IsDone(r.states[i + 1].procs, inst) <==>
            IsDone(r.states[i].procs, inst) || Cleans(r.states[i], r.steps[i], inst)
  {
    hide Enabled, Apply, Init, IsDone, Cleans, ProcsInv;
    RunInv(r, i);
    assert StepAt(r, i);
    DoneStep(r.states[i], r.steps[i], inst);
  }

  lemma WaitReadStep(s: State, t: State, b: Step)
    requires s.pc == Wait && t.pc == ApplyRound(s, RWaitRead).pc && Enabled(t, b) && OfMain(b)
    ensures b == (if Current(s.procs).done then Round(RCancel) else Round(RWaitLock))
  {
  }

  /** `Wait` of the main loop returns at once exactly when the instance is done; otherwise it goes on
      to the lock. */
  lemma WaitReads(r: Run, i: nat, j: nat)
    requires IsRun(r) && i < j < |r.steps| && r.steps[i] == Round(RWaitRead) && OfMain(r.steps[j])
    requires forall k :: i < k < j ==> !OfMain(r.steps[k])
    ensures r.steps[j] ==
      if CleanBefore(r, i, r.states[i].procs.instance) then Round(RCancel) else Round(RWaitLock)
  {
    LoopWaits(r, i + 1, j);
    DoneIs(r, i, r.states[i].procs.instance);
    assert StepAt(r, i) && StepAt(r, j);
    hide Init, CleanBefore;
    WaitReadStep(r.states[i], r.states[j], r.steps[j]);
  }

  /** So does that of a waiting goroutine. */
  lemma WaiterReads(r: Run, i: nat, w: nat)
    requires IsRun(r) && i < |r.steps| && r.steps[i] == OfWaiter(w, ReadDone)
    ensures w in r.states[i].procs.waiters && w in r.states[i + 1].procs.waiters
    ensures r.states[i + 1].procs.waiters[w] ==
      var inst := r.states[i].procs.waiters[w].inst;
      Waiter(inst, if CleanBefore(r, i, inst) then Finished else Blocked)
  {
    assert StepAt(r, i);
    DoneIs(r, i, r.states[i].procs.waiters[w].inst);
    hide Init, CleanBefore;
  }

  // ---- something new ----

  /** A goroutine has begun to wait for the current instance. */
  ghost predicate WaiterAdded(p: Procs, p': Procs) {
    exists w: nat :: w !in p.waiters && p'.waiters == p.waiters[w := Waiter(p.instance, Entering)]
  }

  lemma NewStep(s: State, a: Step)
    requires Enabled(s, a) && ProcsInv(s.pc, s.nextId, s.procs) && WaitersInv(s.nextId, s.procs) && s.logger < s.nextId
    ensures Apply(s, a).logger < Apply(s, a).nextId
    ensures Apply(s, a).logger != s.logger <==> a == Restart(SLogger(true))
    ensures a == Opening(OCreate(true)) || a == Restart(SRecreate(true)) ==>
      Apply(s, a).procs.instance !in s.procs.children && Current(Apply(s, a).procs) == FRESH
    ensures a.OfHandler? && a.k.Stop? && a.k.alive ==>
      WaiterAdded(s.procs, Apply(s, a).procs)
  {
    if a.OfHandler? && a.k.Stop? && a.k.alive {
      assert s.nextId !in s.procs.waiters;
      assert Apply(s, a).procs.waiters == s.procs.waiters[s.nextId := Waiter(s.procs.instance, Entering)];
    }
  }

  lemma {:induction false} LoggerKnown(r: Run, i: nat)
    requires IsRun(r) && i < |r.states|
    ensures r.states[i].logger < r.states[i].nextId
    decreases i
  {
    assert |r.states| == |r.steps| + 1 && r.states[0].logger < r.states[0].nextId;
    hide *;
    if i > 0 {
      LoggerKnown(r, i - 1);
      NewInRun(r, i - 1);
    }
  }

  lemma NewInRun(r: Run, i: nat)
    requires IsRun(r) && i < |r.steps| && r.states[i].logger < r.states[i].nextId
    ensures r.states[i + 1].logger < r.states[i + 1].nextId
    ensures r.states[i + 1].logger != r.states[i].logger <==> r.steps[i] == Restart(SLogger(true))
    ensures r.steps[i] == Opening(OCreate(true)) || r.steps[i] == Restart(SRecreate(true)) ==>
      r.states[i + 1].procs.instance !in r.states[i].procs.children && Current(r.states[i + 1].procs) == FRESH
    ensures r.steps[i].OfHandler? && r.steps[i].k.Stop? && r.steps[i].k.alive ==>
      WaiterAdded(r.states[i].procs, r.states[i + 1].procs)
  {
    RunInv(r, i);
    assert StepAt(r, i);
    hide Enabled, Apply, Init, ProcsInv, WaitersInv, WaiterAdded, Current;
    NewStep(r.states[i], r.steps[i]);
  }

  /** The logger is replaced exactly by an update that succeeds, creating an instance makes a new one
      that has not been started, and stopping a live instance starts a goroutine that waits for it,
      whether or not the signal can be sent. */
  lemma NewThings(r: Run, i: nat)
    requires IsRun(r) && i < |r.steps|
    ensures r.states[i + 1].logger != r.states[i].logger <==> r.steps[i] == Restart(SLogger(true))
    ensures r.steps[i] == Opening(OCreate(true)) || r.steps[i] == Restart(SRecreate(true)) ==>
      r.states[i + 1].procs.instance !in r.states[i].procs.children && Current(r.states[i + 1].procs) == FRESH
    ensures r.steps[i].OfHandler? && r.steps[i].k.Stop? && r.steps[i].k.alive ==>
      WaiterAdded(r.states[i].procs, r.states[i + 1].procs)
  {
    LoggerKnown(r, i);
    NewInRun(r, i);
  }

  // ---- the integrity checker ----

  lemma CheckerLeaves(s: State, c: nat, l: CheckerStep)
    requires EnabledChecker(s, c, l) && CrewInv(s.pc, s.nextId, s.crew)
    ensures c in s.crew.helpers && c < ApplyChecker(s, c, l).nextId
    ensures c in ApplyChecker(s, c, l).crew.helpers <==> l.Pass?
  {
  }

  /** A checker that takes another step had passed its check: none comes after a failed one, or
      after it left. */
  lemma CheckerOrder(r: Run, c: nat, i: nat, j: nat)
    requires IsRun(r) && i < j < |r.steps| && r.steps[i].OfChecker? && r.steps[j].OfChecker?
    requires r.steps[i].c == r.steps[j].c == c
    ensures r.steps[i].l.Pass?
  {
    CheckerStepped(r, c, i);
    CheckerStepped(r, c, j);
    hide IsRun;
    if !r.steps[i].l.Pass? { AliveBetween(r, c, i + 1, j); }
  }

  lemma CheckerStepped(r: Run, c: nat, i: nat)
    requires IsRun(r) && i < |r.steps| && r.steps[i].OfChecker? && r.steps[i].c == c
    ensures |r.states| == |r.steps| + 1 && c in r.states[i].crew.helpers && c < r.states[i + 1].nextId
    ensures c in r.states[i + 1].crew.helpers <==> r.steps[i].l.Pass?
  {
    hide Init, CrewInv, ProcsInv, WaitersInv, AwaitInv, MutexInv, StopInv, EnabledChecker, ApplyChecker;
    assert StepAt(r, i);
    RunInv(r, i);
    CheckerLeaves(r.states[i], c, r.steps[i].l);
  }
}
