/**
 The order of the steps in a run: the control flow of `Start` and of its signal handler, told
 without their states, and when the loop goes on.
 */
module WatchdogOrder {
  import opened Watchdog
  import opened WatchdogRuns
  import opened WatchdogShutdown

  predicate OfMain(a: Step) { a.Opening? || a.Round? || a.Restart? }

  /** A stop has been recorded before step `i`. */
  ghost predicate StopBefore(r: Run, i: nat) {
    exists k :: 0 <= k < i && k < |r.steps| && Records(r.steps[k])
  }

  // ---- a recorded stop and the flag ----

  lemma FlagStep(s: State, a: Step)
    requires StopInv(s.pc, s.flag) && Enabled(s, a) && (s.flag.shouldStop <==> s.flag.recorded)
    ensures Apply(s, a).flag.shouldStop <==> Apply(s, a).flag.recorded
    ensures Apply(s, a).flag.recorded <==> s.flag.recorded || Records(a)
  {
  }

  /** The flag is up exactly when a stop has been recorded. */
  lemma {:induction false} FlagIs(r: Run, i: nat)
    requires IsRun(r) && i < |r.states|
    ensures r.states[i].flag.recorded <==> StopBefore(r, i)
    ensures r.states[i].flag.shouldStop <==> r.states[i].flag.recorded
    decreases i
  {
    if i > 0 {
      FlagIs(r, i - 1);
      FlagNext(r, i - 1);
      if k :| 0 <= k < i && k < |r.steps| && Records(r.steps[k]) {
        if k < i - 1 { assert StopBefore(r, i - 1); }
      }
    }
  }

  lemma FlagNext(r: Run, i: nat)
    requires IsRun(r) && i < |r.steps| && (r.states[i].flag.shouldStop <==> r.states[i].flag.recorded)
    ensures r.states[i + 1].flag.shouldStop <==> r.states[i + 1].flag.recorded
    ensures r.states[i + 1].flag.recorded <==> r.states[i].flag.recorded || Records(r.steps[i])
  {
    hide Enabled, Apply, Init, Records, StopInv;
    RunInv(r, i);
    assert StepAt(r, i);
    FlagStep(r.states[i], r.steps[i]);
  }

  // ---- the main loop ----

  /** What the source says comes after a step of the main loop. */
  predicate Follows(a: Step, b: Step) {
    match a
    case Opening(OCreate(ok)) => ok && b == Opening(OSignals)
    case Opening(OSignals) => b == Opening(OIntegrity)
    case Opening(OIntegrity) => b.Opening? && b.o.OPreStart?
    case Opening(OPreStart(ok)) => b == if ok then Round(RLock) else Opening(OCancel)
    case Opening(OCancel) => b == Opening(OBarrier)
    case Opening(OBarrier) => false
    case Round(RLock) => b == Round(RCheckStop)
    case Round(RCheckStop) => b.Round? && b.r.RStart?
    case Round(RStart(ok)) => ok && b == Round(RUnlock)
    case Round(RUnlock) => b == Round(RWaitRead)
    case Round(RWaitRead) => b == Round(RWaitLock) || b == Round(RCancel)
    case Round(RWaitLock) => b.Round? && b.r.RWaitReturn?
    case Round(RWaitReturn(_)) => b == Round(RCancel)
    case Round(RCancel) => b == Round(RBarrier)
    case Round(RBarrier) => b.Restart? && b.q.SAsk?
    case Restart(SAsk(ok, _)) => ok && b == Restart(SDecide)
    case Restart(SDecide) => b.Restart? && b.q.SLogger?
    case Restart(SLogger(ok)) => ok && b == Restart(SReset)
    case Restart(SReset) => b.Restart? && b.q.SRecreate?
    case Restart(SRecreate(ok)) => ok && b == Restart(SIntegrity)
    case Restart(SIntegrity) => b == Restart(SSignals)
    case Restart(SSignals) => b == Round(RLock)
    case _ => false
  }

  lemma OtherStep(s: State, a: Step)
    requires Enabled(s, a) && !OfMain(a)
    ensures Apply(s, a).pc == s.pc && Apply(s, a).periodic == s.periodic
  {
  }

  /** Between two steps of the main loop it stays where it is. */
  lemma {:induction false} LoopWaits(r: Run, i: nat, j: nat)
    requires IsRun(r) && i <= j < |r.states| && forall k :: i <= k < j ==> !OfMain(r.steps[k])
    ensures r.states[j].pc == r.states[i].pc
    decreases j
  {
    if i < j {
      LoopWaits(r, i, j - 1);
      hide Enabled, Apply, Init;
      assert StepAt(r, j - 1);
      OtherStep(r.states[j - 1], r.steps[j - 1]);
    }
  }

  lemma OpeningFollows(s: State, o: OpeningStep, t: State, b: Step)
    requires EnabledOpening(s, o) && t.pc == ApplyOpening(s, o).pc && Enabled(t, b) && OfMain(b)
    ensures Follows(Opening(o), b)
  {
  }

  lemma RoundFollows(s: State, x: RoundStep, t: State, b: Step)
    requires EnabledRound(s, x) && t.pc == ApplyRound(s, x).pc && Enabled(t, b) && OfMain(b)
    ensures Follows(Round(x), b)
  {
  }

  lemma RestartFollows(s: State, q: RestartStep, t: State, b: Step)
    requires EnabledRestart(s, q) && t.pc == ApplyRestart(s, q).pc && Enabled(t, b) && OfMain(b)
    ensures Follows(Restart(q), b)
  {
  }

  /** Two steps of the main loop with none between them are in the order of `Start`. */
  lemma MainOrder(r: Run, i: nat, j: nat)
    requires IsRun(r) && i < j < |r.steps| && OfMain(r.steps[i]) && OfMain(r.steps[j])
    requires forall k :: i < k < j ==> !OfMain(r.steps[k])
    ensures Follows(r.steps[i], r.steps[j])
  {
    LoopWaits(r, i + 1, j);
    assert StepAt(r, i) && StepAt(r, j);
    hide Follows, Init, EnabledOpening, EnabledRound, EnabledRestart, ApplyOpening, ApplyRound, ApplyRestart;
    match r.steps[i]
    case Opening(o) => OpeningFollows(r.states[i], o, r.states[j], r.steps[j]);
    case Round(x) => RoundFollows(r.states[i], x, r.states[j], r.steps[j]);
    case Restart(q) => RestartFollows(r.states[i], q, r.states[j], r.steps[j]);
  }

  /** The first step of the main loop creates the instance. */
  lemma MainBegins(r: Run, i: nat)
    requires IsRun(r) && i < |r.steps| && OfMain(r.steps[i]) && forall k :: 0 <= k < i ==> !OfMain(r.steps[k])
    ensures r.steps[i].Opening? && r.steps[i].o.OCreate?
  {
    LoopWaits(r, 0, i);
    assert StepAt(r, i);
  }

  // ---- when the loop ends ----

  /** The step ends `Start`, given whether a stop was recorded before it and what the question about
      restarting was answered. */
  predicate Ends(a: Step, stopped: bool, restartable: bool) {
    match a
    case Opening(OCreate(ok)) => !ok
    case Opening(OBarrier) => true
    case Round(RCheckStop) => stopped
    case Round(RStart(ok)) => !ok
    case Restart(SAsk(ok, _)) => !ok
    case Restart(SDecide) => stopped || !restartable
    case Restart(SLogger(ok)) => !ok
    case Restart(SRecreate(ok)) => !ok
    case _ => false
  }

  /** The last answer before step `i` was `answer`. */
  ghost predicate Answered(r: Run, i: nat, answer: bool) {
    exists k: nat :: AskedAt(r, i, k, answer)
  }

  ghost predicate AskedAt(r: Run, i: nat, k: nat, answer: bool) {
    && k < i <= |r.steps| && r.steps[k] == Restart(SAsk(true, answer))
    && forall l :: k < l < i ==> !(r.steps[l].Restart? && r.steps[l].q.SAsk?)
  }

  /** The loop is where an answer counts. */
  predicate AnswerHeld(pc: MainPc, answer: bool) {
    pc == Decide(answer) || (answer && (pc.NewLogger? || pc.Reset? || pc.Recreate?))
  }

  lemma AnswerStep(s: State, a: Step, answer: bool)
    requires Enabled(s, a) && AnswerHeld(Apply(s, a).pc, answer)
    ensures a == Restart(SAsk(true, answer)) || (AnswerHeld(s.pc, answer) && !(a.Restart? && a.q.SAsk?))
  {
  }

  /** What the loop holds as the answer is the last one given. */
  lemma {:induction false} AnswerIsLast(r: Run, i: nat, answer: bool)
    requires IsRun(r) && i < |r.states| && AnswerHeld(r.states[i].pc, answer)
    ensures Answered(r, i, answer)
    decreases i
  {
    assert i > 0;
    assert StepAt(r, i - 1);
    AnswerStep(r.states[i - 1], r.steps[i - 1], answer);
    if r.steps[i - 1] == Restart(SAsk(true, answer)) {
      assert AskedAt(r, i, i - 1, answer);
    } else {
      AnswerIsLast(r, i - 1, answer);
      var k: nat :| AskedAt(r, i - 1, k, answer);
      assert AskedAt(r, i, k, answer);
    }
  }

  lemma EndingStep(s: State, a: Step, restartable: bool)
    requires Enabled(s, a) && OfMain(a) && (s.pc.Decide? ==> s.pc.restartable == restartable)
    ensures Apply(s, a).pc.Returned? <==> Ends(a, s.flag.shouldStop, restartable)
  {
  }

  /** A step of the main loop ends `Start` exactly in these cases. */
  lemma EndsExactly(r: Run, i: nat, answer: bool)
    requires IsRun(r) && i < |r.steps| && OfMain(r.steps[i])
    requires r.steps[i] == Restart(SDecide) ==> Answered(r, i, answer)
    ensures r.states[i + 1].pc.Returned? <==> Ends(r.steps[i], StopBefore(r, i), answer)
  {
    FlagIs(r, i);
    assert StepAt(r, i);
    if r.states[i].pc.Decide? {
      AnswerIsLast(r, i, r.states[i].pc.restartable);
      if r.steps[i] == Restart(SDecide) { OneAnswer(r, i, answer, r.states[i].pc.restartable); }
      EndingStep(r.states[i], r.steps[i], r.states[i].pc.restartable);
    } else {
      EndingStep(r.states[i], r.steps[i], answer);
    }
  }

  lemma OneAnswer(r: Run, i: nat, a: bool, b: bool)
    requires Answered(r, i, a) && Answered(r, i, b)
    ensures a == b
  {
    var k: nat :| AskedAt(r, i, k, a);
    var l: nat :| AskedAt(r, i, l, b);
    assert !(k < l) && !(l < k);
  }

  /** The restart decision: the step after the question ends `Start` exactly when the instance is
      not restartable or a stop was recorded before the question; otherwise the loop goes on. */
  lemma RestartDecision(r: Run, j: nat, k: nat, answer: bool)
    requires IsRun(r) && j < k < |r.steps| && r.steps[j] == Restart(SAsk(true, answer)) && OfMain(r.steps[k])
    requires forall l :: j < l < k ==> !OfMain(r.steps[l])
    ensures r.steps[k] == Restart(SDecide)
    ensures r.states[k + 1].pc.Returned? <==> !answer || StopBefore(r, j)
  {
    MainOrder(r, j, k);
    assert AskedAt(r, k, j, answer);
    EndsExactly(r, k, answer);
    NoStopBetween(r, j, k);
  }

  /** Nobody can record a stop while the loop decides. */
  lemma {:induction false} NoStopBetween(r: Run, j: nat, k: nat)
    requires IsRun(r) && j < k < |r.states| && r.steps[j].Restart? && r.steps[j].q.SAsk? && r.steps[j].q.ok
    requires forall l :: j < l < k ==> !OfMain(r.steps[l])
    ensures StopBefore(r, k) <==> StopBefore(r, j)
    decreases k
  {
    if j + 1 < k {
      NoStopBetween(r, j, k - 1);
      LoopWaits(r, j + 1, k - 1);
      NotRecorded(r, j, k - 1);
    }
    assert !Records(r.steps[k - 1]);
    assert StopBefore(r, k) ==> StopBefore(r, k - 1);
  }

  lemma NotRecorded(r: Run, j: nat, k: nat)
    requires IsRun(r) && j < k < |r.steps| && r.steps[j].Restart? && r.steps[j].q.SAsk? && r.steps[j].q.ok
    requires r.states[k].pc == r.states[j + 1].pc
    ensures !Records(r.steps[k])
  {
    assert StepAt(r, j) && StepAt(r, k);
    assert r.states[j + 1].pc.Decide?;
    RunInv(r, k);
  }

  /** An instance is created again only after the question was answered with yes, and never after a
      recorded stop. */
  lemma RecreatedOnlyIf(r: Run, j: nat)
    requires IsRun(r) && j < |r.steps| && r.steps[j].Restart? && r.steps[j].q.SRecreate?
    ensures Answered(r, j, true) && !StopBefore(r, j)
  {
    assert StepAt(r, j);
    AnswerIsLast(r, j, true);
    FlagIs(r, j);
    RunInv(r, j);
  }

  /** An instance is started only after the pre-start action succeeded. */
  lemma {:induction false} PreparedFirst(r: Run, i: nat)
    requires IsRun(r) && i < |r.states|
    requires !BeforePreparation(r.states[i].pc) && !r.states[i].pc.Returned?
    ensures exists k :: 0 <= k < i && r.steps[k] == Opening(OPreStart(true))
    decreases i
  {
    assert i > 0;
    assert StepAt(r, i - 1);
    PreparationStep(r.states[i - 1], r.steps[i - 1]);
    if r.steps[i - 1] != Opening(OPreStart(true)) { PreparedFirst(r, i - 1); }
  }

  predicate BeforePreparation(pc: MainPc) {
    pc.Create? || pc.FirstSignals? || pc.FirstIntegrity? || pc.PreStart? || pc.CancelEarly? || pc.BarrierEarly?
  }

  lemma PreparationStep(s: State, a: Step)
    requires Enabled(s, a) && !BeforePreparation(Apply(s, a).pc) && !Apply(s, a).pc.Returned?
    ensures a == Opening(OPreStart(true)) || (!BeforePreparation(s.pc) && !s.pc.Returned?)
  {
  }

  lemma StartsPrepared(r: Run, i: nat)
    requires IsRun(r) && i < |r.steps| && Starts(r.steps[i])
    ensures exists k :: 0 <= k < i && r.steps[k] == Opening(OPreStart(true))
  {
    assert StepAt(r, i);
    PreparedFirst(r, i);
  }

  // ---- the signal handler ----

  /** The handler is back in its select. */
  predicate Idle(b: HandlerStep) { b.StopSignal? || b.OtherSignal? || b.LeaveHandler? }

  /** What comes after a step of the handler: a stop signal is recorded under the mutex, then the
      instance is checked, and a live one is stopped and waited for. */
  predicate HandlerFollows(a: HandlerStep, b: HandlerStep) {
    match a
    case StopSignal => b == LockMutex
    case OtherSignal => Idle(b)
    case LockMutex => b == Record
    case Record => b == UnlockMutex
    case UnlockMutex => b.Check?
    case Check(alive) => if alive then b.Stop? else Idle(b)
    case Stop(alive, sent) => if alive && sent then b.Await? else Idle(b)
    case Await(_) => Idle(b)
    case LeaveHandler => false
  }

  /** A step of another actor leaves a handler where it is. */
  lemma HandlerKept(s: State, a: Step, h: nat)
    requires Enabled(s, a) && h in s.crew.helpers && h < s.nextId && !(a.OfHandler? && a.h == h)
    requires s.crew.helpers[h].Handler?
    ensures h in Apply(s, a).crew.helpers && Apply(s, a).crew.helpers[h] == s.crew.helpers[h]
  {
  }

  lemma {:induction false} HandlerWaits(r: Run, h: nat, i: nat, j: nat)
    requires IsRun(r) && i <= j < |r.states| && h in r.states[i].crew.helpers && r.states[i].crew.helpers[h].Handler?
    requires forall k :: i <= k < j ==> !(r.steps[k].OfHandler? && r.steps[k].h == h)
    ensures h in r.states[j].crew.helpers && r.states[j].crew.helpers[h] == r.states[i].crew.helpers[h]
    decreases j
  {
    if i < j {
      hide *;
      HandlerWaits(r, h, i, j - 1);
      HandlerKeptInRun(r, h, j - 1);
    }
  }

  lemma HandlerKeptInRun(r: Run, h: nat, i: nat)
    requires IsRun(r) && i < |r.steps| && h in r.states[i].crew.helpers && r.states[i].crew.helpers[h].Handler?
    requires !(r.steps[i].OfHandler? && r.steps[i].h == h)
    ensures h in r.states[i + 1].crew.helpers && r.states[i + 1].crew.helpers[h] == r.states[i].crew.helpers[h]
  {
    RunInv(r, i);
    assert StepAt(r, i) && h < r.states[i].nextId;
    hide Enabled, Apply, Init, Inv;
    HandlerKept(r.states[i], r.steps[i], h);
  }

  /** The handler lives on after a step of its own, unless it left. */
  lemma HandlerStepped(r: Run, h: nat, i: nat)
    requires IsRun(r) && i < |r.steps| && r.steps[i].OfHandler? && r.steps[i].h == h
    ensures EnabledHandler(r.states[i], h, r.steps[i].k)
    ensures r.states[i + 1] == ApplyHandler(r.states[i], h, r.steps[i].k)
    ensures h < r.states[i + 1].nextId
    ensures if r.steps[i].k.LeaveHandler? then h !in r.states[i + 1].crew.helpers
            else h in r.states[i + 1].crew.helpers && r.states[i + 1].crew.helpers[h].Handler?
  {
    assert StepAt(r, i);
    RunInv(r, i);
  }

  lemma HandlerNextStep(s: State, h: nat, a: HandlerStep, t: State, b: HandlerStep)
    requires EnabledHandler(s, h, a) && EnabledHandler(t, h, b) && !a.LeaveHandler?
    requires h in ApplyHandler(s, h, a).crew.helpers && t.crew.helpers[h] == ApplyHandler(s, h, a).crew.helpers[h]
    ensures HandlerFollows(a, b)
  {
  }

  /** Two steps of a handler with none of its own between them are in its order; none comes after it
      has left. */
  lemma HandlerOrder(r: Run, h: nat, i: nat, j: nat)
    requires IsRun(r) && i < j < |r.steps| && r.steps[i].OfHandler? && r.steps[j].OfHandler?
    requires r.steps[i].h == r.steps[j].h == h
    requires forall k :: i < k < j ==> !(r.steps[k].OfHandler? && r.steps[k].h == h)
    ensures HandlerFollows(r.steps[i].k, r.steps[j].k)
  {
    assert |r.states| == |r.steps| + 1;
    HandlerStepped(r, h, i);
    HandlerStepped(r, h, j);
    assert h in r.states[j].crew.helpers;
    hide *;
    if r.steps[i].k.LeaveHandler? {
      AliveBetween(r, h, i + 1, j);
    } else {
      HandlerWaits(r, h, i + 1, j);
      HandlerNextStep(r.states[i], h, r.steps[i].k, r.states[j], r.steps[j].k);
    }
  }

  // ---- the integrity checker ----

  predicate HasChecker(s: State) {
    exists h :: h in s.crew.helpers && s.crew.helpers[h].Checker?
  }

  predicate StartsChecks(a: Step) { a == Opening(OIntegrity) || a == Restart(SIntegrity) }

  lemma CheckerStep(s: State, a: Step)
    requires Enabled(s, a)
    ensures Apply(s, a).periodic == s.periodic
    ensures HasChecker(Apply(s, a)) ==> HasChecker(s) || (StartsChecks(a) && s.periodic)
    ensures StartsChecks(a) && s.periodic ==> HasChecker(Apply(s, a))
  {
    if a == Opening(OIntegrity) && s.periodic { assert Apply(s, a).crew.helpers[s.nextId].Checker?; }
    if a == Restart(SIntegrity) && s.periodic { assert Apply(s, a).crew.helpers[s.nextId + 1].Checker?; }
    if h :| h in Apply(s, a).crew.helpers && Apply(s, a).crew.helpers[h].Checker? {
      assert h in s.crew.helpers ==> s.crew.helpers[h].Checker? || StartsChecks(a);
    }
  }

  /** Integrity is checked exactly when a period is set: the step that starts the checks then starts
      a checker, and without a period none ever lives. */
  lemma {:induction false} ChecksIfPeriodic(r: Run, i: nat)
    requires IsRun(r) && i < |r.states|
    ensures r.states[i].periodic == r.states[0].periodic
    ensures HasChecker(r.states[i]) ==> r.states[0].periodic
    ensures i > 0 && StartsChecks(r.steps[i - 1]) && r.states[0].periodic ==> HasChecker(r.states[i])
    decreases i
  {
    if i > 0 {
      ChecksIfPeriodic(r, i - 1);
      assert StepAt(r, i - 1);
      hide Enabled, Apply, Init, HasChecker;
      CheckerStep(r.states[i - 1], r.steps[i - 1]);
    }
  }

  // ---- a run that restarts ----

  /** The child exits by itself, the instance is restartable, and a second one is started. */
  lemma RestartingRun() returns (r: Run, first: nat)
    ensures IsRun(r) && first < |r.steps| - 1
    ensures Starts(r.steps[first]) && r.steps[|r.steps| - 1] == Round(RStart(true))
    ensures exists k :: first < k < |r.steps| && r.steps[k] == Restart(SRecreate(true))
  {
    var h;
    r, first, h := OneRound();
    hide IsRun;
    var n := |r.steps|;
    r := Take(r, Restart(SAsk(true, true)));
    r := Take(r, Restart(SDecide));
    r := Take(r, Restart(SLogger(true)));
    r := Take(r, Restart(SReset));
    r := Take(r, Restart(SRecreate(true)));
    assert r.steps[n + 4] == Restart(SRecreate(true));
    r := Take(r, Restart(SIntegrity));
    r := Take(r, Restart(SSignals));
    r := Take(r, Round(RLock));
    r := Take(r, Round(RCheckStop));
    r := Take(r, Round(RStart(true)));
    assert r.steps[n + 4] == Restart(SRecreate(true));
  }

  /** One round of the loop, up to the question about restarting. */
  lemma OneRound() returns (r: Run, first: nat, h: nat)
    ensures IsRun(r) && first < |r.steps| && Starts(r.steps[first])
    ensures
      var s := r.states[|r.steps|];
      s.pc == AskRestartable && s.flag == Flag(false, Free, false) && !s.periodic
  {
    r, first, h := Started();
    var i := r.states[|r.steps|].procs.instance;
    hide IsRun;
    r := Take(r, ChildExit(i));
    r := Take(r, Round(RWaitReturn(true)));
    r := Take(r, Round(RCancel));
    r := Take(r, OfHandler(h, LeaveHandler));
    r := Take(r, Round(RBarrier));
  }

  /** The child runs and the loop waits for it. */
  lemma Started() returns (r: Run, first: nat, h: nat)
    ensures IsRun(r) && first < |r.steps| && Starts(r.steps[first])
    ensures
      var s := r.states[|r.steps|];
      && s.pc == WaitLocked && s.flag == Flag(false, Free, false) && !s.periodic
      && s.crew == Crew(s.crew.ctx, {}, map[h := Handler(s.crew.ctx, Listening)], 1)
      && s.procs.instance in s.procs.children
      && s.procs.children[s.procs.instance] == Child(Running, false, false, HeldByMain)
  {
    r, h := ReadyToStart();
    hide IsRun;
    r := Take(r, Round(RLock));
    r := Take(r, Round(RCheckStop));
    first := |r.steps|;
    r := Take(r, Round(RStart(true)));
    r := Take(r, Round(RUnlock));
    r := Take(r, Round(RWaitRead));
    r := Take(r, Round(RWaitLock));
    assert r.steps[first] == Round(RStart(true));
  }
}
