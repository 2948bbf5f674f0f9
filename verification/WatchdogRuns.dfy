/**
 What the watchdog promises over whole runs: every interleaving of its actors and any
 number of restarts.
 */
module WatchdogRuns {
  import opened Watchdog

  datatype Run = Run(states: seq<State>, steps: seq<Step>)

  ghost predicate IsRun(r: Run) {
    && |r.states| == |r.steps| + 1
    && Init(r.states[0])
    && forall i :: 0 <= i < |r.steps| ==> StepAt(r, i)
  }

  ghost predicate StepAt(r: Run, i: nat)
    requires |r.states| == |r.steps| + 1 && i < |r.steps|
  {
    Enabled(r.states[i], r.steps[i]) && r.states[i + 1] == Apply(r.states[i], r.steps[i])
  }

  lemma InitInv(s: State)
    requires Init(s)
    ensures Inv(s)
  {
  }

  lemma StepInv(r: Run, i: nat)
    requires IsRun(r) && i < |r.steps| && Inv(r.states[i])
    ensures Inv(r.states[i + 1])
  {
    assert StepAt(r, i);
    InvStep(r.states[i], r.steps[i]);
  }

  lemma {:induction false} RunInv(r: Run, i: nat)
    requires IsRun(r) && i < |r.states|
    ensures Inv(r.states[i])
    decreases i
  {
    InitInv(r.states[0]);
    if i > 0 {
      RunInv(r, i - 1);
      StepInv(r, i - 1);
    }
  }

  predicate Records(a: Step) {
    a.OfHandler? && a.k.Record?
  }

  predicate Starts(a: Step) {
    a.Round? && a.r.RStart?
  }

  // ---- goroutines, instance and logger ----

  /** In every reachable state the barrier counts the live helper goroutines, there is at most
      one signal handler and one integrity checker, and they belong to the current context. */
  lemma HelpersAccounted(r: Run, i: nat)
    requires IsRun(r) && i < |r.states|
    ensures
      var crew := r.states[i].crew;
      && crew.barrier == |crew.helpers|
      && (forall h :: h in crew.helpers ==> crew.helpers[h].ctx == crew.ctx)
      && (forall h, k :: h in crew.helpers && k in crew.helpers ==>
            (crew.helpers[h].Handler? == crew.helpers[k].Handler? ==> h == k))
  {
    RunInv(r, i);
  }

  /** The instance and the logger are replaced only when no helper goroutine is alive. */
  lemma ReplacedAlone(r: Run, i: nat)
    requires IsRun(r) && i < |r.steps|
    requires
      || r.states[i + 1].procs.instance != r.states[i].procs.instance
      || r.states[i + 1].logger != r.states[i].logger
    ensures r.states[i].crew.helpers == map[]
  {
    RunInv(r, i);
    assert StepAt(r, i);
    ReplacingSteps(r.states[i], r.steps[i]);
  }

  lemma ReplacingSteps(s: State, a: Step)
    requires Enabled(s, a)
    requires Apply(s, a).procs.instance != s.procs.instance || Apply(s, a).logger != s.logger
    ensures Alone(s.pc)
  {
  }

  /** At most one child process is alive, it is the current instance's, and none is alive once
      the loop has passed its `Wait`. */
  lemma OneChild(r: Run, i: nat)
    requires IsRun(r) && i < |r.states|
    ensures
      var s := r.states[i];
      forall c :: c in s.procs.children && s.procs.children[c].proc.Running? ==>
        c == s.procs.instance && ChildMayRun(s.pc)
  {
    RunInv(r, i);
  }

  // ---- a recorded stop ----

  lemma RecordedStays(s: State, a: Step)
    requires Enabled(s, a)
    ensures s.flag.recorded ==> Apply(s, a).flag.recorded
    ensures Records(a) ==> Apply(s, a).flag.recorded
  {
  }

  lemma {:induction false} RecordedFrom(r: Run, i: nat, j: nat)
    requires IsRun(r) && i < j < |r.states| && Records(r.steps[i])
    ensures r.states[j].flag.recorded
    decreases j
  {
    assert StepAt(r, j - 1);
    RecordedStays(r.states[j - 1], r.steps[j - 1]);
    if i < j - 1 { RecordedFrom(r, i, j - 1); }
  }

  /** Once a handler has recorded a stop, no instance is ever started again. */
  lemma StopIsFinal(r: Run, i: nat, j: nat)
    requires IsRun(r) && i < j < |r.steps| && Records(r.steps[i])
    ensures !Starts(r.steps[j])
  {
    RecordedFrom(r, i, j);
    RunInv(r, j);
    assert StepAt(r, j);
  }

  /** The `shouldStop = false` of the restart path never erases a recorded stop. */
  lemma ResetErasesNothing(r: Run, i: nat, j: nat)
    requires IsRun(r) && i < |r.steps| && j < |r.steps|
    requires Records(r.steps[i]) && r.steps[j] == Restart(SReset)
    ensures j < i
  {
    assert StepAt(r, j);
    if i < j {
      RecordedFrom(r, i, j);
      RunInv(r, j);
    }
  }

  lemma HelperStays(s: State, a: Step, h: nat)
    requires Enabled(s, a) && h < s.nextId
    ensures h in Apply(s, a).crew.helpers ==> h in s.crew.helpers
    ensures Apply(s, a).nextId >= s.nextId
  {
  }

  lemma InstanceKept(s: State, a: Step)
    requires Enabled(s, a) && Apply(s, a).procs.instance == s.procs.instance && !Starts(a)
    requires s.procs.instance in s.procs.children && s.procs.instance < s.nextId
    ensures Current(s.procs).proc.NotStarted? <==> Current(Apply(s, a).procs).proc.NotStarted?
  {
  }

  /** One step next to a live helper that does not start the instance. */
  lemma StepBesideHelper(s: State, a: Step, h: nat)
    requires Inv(s) && Enabled(s, a) && h in s.crew.helpers && !Starts(a)
    ensures Apply(s, a).procs.instance == s.procs.instance
    ensures Current(s.procs).proc.NotStarted? <==> Current(Apply(s, a).procs).proc.NotStarted?
  {
    if Apply(s, a).procs.instance != s.procs.instance {
      ReplacingSteps(s, a);
    } else if s.procs.instance in s.procs.children {
      InstanceKept(s, a);
    } else {
      NoInstance(s, a);
    }
  }

  lemma NoInstance(s: State, a: Step)
    requires Enabled(s, a) && s.procs.instance !in s.procs.children && s.pc.Returned?
    requires forall w :: w in s.procs.waiters ==> s.procs.waiters[w].inst in s.procs.children
    ensures Current(Apply(s, a).procs) == FRESH
  {
  }

  /** A helper with an id below the next one at step `i` does not appear later out of nothing. */
  lemma {:induction false} AliveBetween(r: Run, h: nat, i: nat, j: nat)
    requires IsRun(r) && i <= j < |r.states| && h < r.states[i].nextId
    ensures h < r.states[j].nextId && (h in r.states[j].crew.helpers ==> h in r.states[i].crew.helpers)
    decreases j
  {
    if i < j {
      AliveBetween(r, h, i, j - 1);
      assert StepAt(r, j - 1);
      HelperStays(r.states[j - 1], r.steps[j - 1], h);
    }
  }

  lemma StepKeepsInstance(r: Run, h: nat, i: nat)
    requires IsRun(r) && i < |r.steps| && h in r.states[i].crew.helpers && !Starts(r.steps[i])
    ensures r.states[i + 1].procs.instance == r.states[i].procs.instance
    ensures Current(r.states[i + 1].procs).proc.NotStarted? <==> Current(r.states[i].procs).proc.NotStarted?
  {
    hide Inv, Enabled, Apply, Init;
    assert StepAt(r, i);
    RunInv(r, i);
    StepBesideHelper(r.states[i], r.steps[i], h);
  }

  lemma RecordingId(r: Run, h: nat, i: nat)
    requires IsRun(r) && i < |r.steps| && r.steps[i] == OfHandler(h, Record)
    ensures h < r.states[i].nextId
  {
    RunInv(r, i);
    assert StepAt(r, i);
  }

  /** A handler that has recorded a stop checks the very instance that was current then.  If it
      had been started, the check comes after the start; if not, it never starts. */
  lemma {:induction false} StopReachesInstance(r: Run, h: nat, i: nat, j: nat)
    requires IsRun(r) && i < j < |r.states|
    requires r.steps[i] == OfHandler(h, Record) && h in r.states[j].crew.helpers
    ensures r.states[j].procs.instance == r.states[i].procs.instance
    ensures Current(r.states[j].procs).proc.NotStarted? <==> Current(r.states[i].procs).proc.NotStarted?
    decreases j
  {
    assert |r.states| == |r.steps| + 1 && !Starts(r.steps[i]) && Records(r.steps[i]);
    hide *;
    RecordingId(r, h, i);
    AliveBetween(r, h, i, j - 1);
    AliveBetween(r, h, j - 1, j);
    if i < j - 1 {
      StopReachesInstance(r, h, i, j - 1);
      StopIsFinal(r, i, j - 1);
    }
    StepKeepsInstance(r, h, j - 1);
  }

  // ---- shutting down ----

  /** A step the program itself takes: no arriving signal, no failing kill, no idle check. */
  predicate Progress(a: Step) {
    match a
    case OfHandler(_, k) => !k.StopSignal? && !k.OtherSignal? && k != Await(true)
    case OfChecker(_, l) => l.LeaveChecker?
    case OfWaiter(_, _) => true
    case _ => false
  }

  /** The loop never deadlocks at the barrier: while a helper is alive, some helper or waiting
      goroutine can move. */
  lemma BarrierProgress(r: Run, i: nat) returns (a: Step)
    requires IsRun(r) && i < |r.states|
    requires r.states[i].pc == Barrier || r.states[i].pc == BarrierEarly
    requires r.states[i].crew.barrier != 0
    ensures Enabled(r.states[i], a) && Progress(a)
  {
    RunInv(r, i);
    var s := r.states[i];
    var helpers := s.crew.helpers;
    assert |helpers.Keys| > 0;
    var h :| h in helpers;
    assert helpers[h].ctx in s.crew.cancelled;
    if helpers[h].Checker? {
      a := OfChecker(h, LeaveChecker);
    } else {
      a := HandlerProgress(s, h);
    }
  }

  lemma HandlerProgress(s: State, h: nat) returns (a: Step)
    requires Inv(s) && (s.pc == Barrier || s.pc == BarrierEarly)
    requires h in s.crew.helpers && s.crew.helpers[h].Handler? && s.crew.helpers[h].ctx in s.crew.cancelled
    ensures Enabled(s, a) && Progress(a)
  {
    match s.crew.helpers[h].hpc
    case Listening => a := OfHandler(h, LeaveHandler);
    case Locking =>
      MutexFree(s, h);
      a := OfHandler(h, LockMutex);
    case Recording => a := OfHandler(h, Record);
    case Releasing => a := OfHandler(h, UnlockMutex);
    case Checking => a := OfHandler(h, Check(false));
    case Stopping => a := OfHandler(h, Stop(false, false));
    case Awaiting(inst, w) => a := WaiterProgress(s, h, inst, w);
  }

  /** Nobody holds the mutex that the only handler is waiting for. */
  lemma MutexFree(s: State, h: nat)
    requires Inv(s) && !MainHoldsMutex(s.pc)
    requires h in s.crew.helpers && s.crew.helpers[h].Handler? && s.crew.helpers[h].hpc == Locking
    ensures s.flag.mutex == Free
  {
  }

  lemma WaiterProgress(s: State, h: nat, inst: nat, w: nat) returns (a: Step)
    requires Inv(s) && (s.pc == Barrier || s.pc == BarrierEarly)
    requires h in s.crew.helpers && s.crew.helpers[h].Handler? && s.crew.helpers[h].hpc == Awaiting(inst, w)
    ensures Enabled(s, a) && Progress(a)
  {
    var c := s.procs.children[inst];
    assert c.proc.Exited?;
    match s.procs.waiters[w].pc
    case Finished => a := OfHandler(h, Await(false));
    case Holding => a := OfWaiter(w, Return(false));
    case Entering => a := OfWaiter(w, ReadDone);
    case Blocked =>
      if c.waitLock.HeldBy? {
        a := OfWaiter(c.waitLock.waiter, Return(false));
      } else {
        a := OfWaiter(w, TakeLock);
      }
  }
}
