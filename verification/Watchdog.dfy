/**
 The watchdog as a transition system: the main loop of `Start`, the signal handling
 goroutine, the integrity goroutine, the goroutines that wait inside `StopWithSignal`,
 and the child processes interleave step by step, over any number of restarts.
 */
module Watchdog {

  // ---- the child process and its controller ----

  datatype Proc = NotStarted | Running | Exited

  datatype WaitLock = Open | HeldByMain | HeldBy(waiter: nat)

  /** A `processController`: `reaped` once `Cmd.Wait` has returned, and its field `done`. */
  datatype Child = Child(proc: Proc, reaped: bool, done: bool, waitLock: WaitLock)

  const FRESH := Child(NotStarted, false, false, Open)

  /** Inside `Wait`: before the read of `done`, before `waitMutex.Lock`, inside `Cmd.Wait`, back. */
  datatype WaiterPc = Entering | Blocked | Holding | Finished

  /** A goroutine of `StopWithSignal` that calls `Wait`. */
  datatype Waiter = Waiter(inst: nat, pc: WaiterPc)

  datatype Procs = Procs(
    instance: nat,                // wd.instance
    children: map<nat, Child>,    // every instance ever created
    waiters: map<nat, Waiter>)

  // ---- the helper goroutines ----

  datatype HandlerPc =
    | Listening                          // in the select
    | Locking                            // got a stop signal, before stopMutex.Lock
    | Recording                          // holds stopMutex, before shouldStop = true
    | Releasing                          // holds stopMutex, shouldStop is set
    | Checking                           // before instance.IsAlive
    | Stopping                           // before instance.Stop
    | Awaiting(inst: nat, waiter: nat)   // inside Stop, for the waiting goroutine

  datatype Helper = Handler(ctx: nat, hpc: HandlerPc) | Checker(ctx: nat)

  datatype Crew = Crew(
    ctx: nat,                     // the current watchdogCtx
    cancelled: set<nat>,
    helpers: map<nat, Helper>,    // live goroutines
    barrier: int)                 // doneBarrier

  // ---- the main loop ----

  datatype MainPc =
    | Create | FirstSignals | FirstIntegrity | PreStart | CancelEarly | BarrierEarly
    | Lock | CheckStop | StartInstance | Unlock | Wait | WaitBlocked | WaitLocked | Cancel | Barrier
    | AskRestartable | Decide(restartable: bool) | NewLogger | Reset | Recreate
    | NextIntegrity | NextSignals | Returned

  datatype Mutex = Free | ByMain | ByHandler(h: nat)

  datatype Flag = Flag(
    shouldStop: bool,
    mutex: Mutex,                 // stopMutex
    recorded: bool)               // some handler has recorded a stop

  datatype State = State(
    pc: MainPc,
    periodic: bool,               // integrityCheckPeriod != 0
    logger: nat,
    nextId: nat,
    flag: Flag,
    crew: Crew,
    procs: Procs)

  // ---- the steps ----

  /** watchdog.go, before the loop. */
  datatype OpeningStep =
    | OCreate(ok: bool) | OSignals | OIntegrity | OPreStart(ok: bool) | OCancel | OBarrier

  /** One round of the loop, up to the barrier. */
  datatype RoundStep =
    | RLock | RCheckStop | RStart(ok: bool) | RUnlock
    | RWaitRead | RWaitLock | RWaitReturn(clean: bool) | RCancel | RBarrier

  /** The rest of the loop body, which prepares the next round. */
  datatype RestartStep =
    | SAsk(ok: bool, answer: bool) | SDecide | SLogger(ok: bool) | SReset
    | SRecreate(ok: bool) | SIntegrity | SSignals

  datatype HandlerStep =
    | StopSignal | OtherSignal | LockMutex | Record | UnlockMutex | Check(alive: bool)
    | Stop(alive: bool, sent: bool) | Await(killFailed: bool) | LeaveHandler

  datatype CheckerStep = Pass | Fail | LeaveChecker

  datatype WaiterStep = ReadDone | TakeLock | Return(clean: bool)

  datatype Step =
    | Opening(o: OpeningStep)
    | Round(r: RoundStep)
    | Restart(q: RestartStep)
    | OfHandler(h: nat, k: HandlerStep)
    | OfChecker(c: nat, l: CheckerStep)
    | OfWaiter(w: nat, n: WaiterStep)
    | ChildExit(i: nat)

  ghost predicate Init(s: State) {
    && s.pc == Create && s.logger < s.nextId
    && s.flag == Flag(false, Free, false)
    && s.crew.helpers == map[] && s.crew.barrier == 0 && s.crew.cancelled == {}
    && s.procs.children == map[] && s.procs.waiters == map[]
  }

  function Current(p: Procs): Child {
    if p.instance in p.children then p.children[p.instance] else FRESH
  }

  /** `IsAlive` answers `true` for a running process and maybe for one that exited unnoticed. */
  predicate MayBeAlive(c: Child, alive: bool) {
    && (alive ==> !c.done && !c.reaped && !c.proc.NotStarted?)
    && (!alive ==> !c.proc.Running?)
  }

  /** `Cmd.Wait` returns only after the process has exited; a second call returns an error. */
  predicate CanReturn(c: Child, clean: bool) { c.proc.Exited? && (clean ==> !c.reaped) }

  predicate EnabledOpening(s: State, o: OpeningStep) {
    match o
    case OCreate(_) => s.pc == Create
    case OSignals => s.pc == FirstSignals
    case OIntegrity => s.pc == FirstIntegrity
    case OPreStart(_) => s.pc == PreStart
    case OCancel => s.pc == CancelEarly
    case OBarrier => s.pc == BarrierEarly && s.crew.barrier == 0
  }

  predicate EnabledRound(s: State, r: RoundStep) {
    match r
    case RLock => s.pc == Lock && s.flag.mutex == Free
    case RCheckStop => s.pc == CheckStop
    case RStart(_) => s.pc == StartInstance
    case RUnlock => s.pc == Unlock
    case RWaitRead => s.pc == Wait
    case RWaitLock => s.pc == WaitBlocked && Current(s.procs).waitLock == Open
    case RWaitReturn(clean) => s.pc == WaitLocked && CanReturn(Current(s.procs), clean)
    case RCancel => s.pc == Cancel
    case RBarrier => s.pc == Barrier && s.crew.barrier == 0
  }

  predicate EnabledRestart(s: State, q: RestartStep) {
    match q
    case SAsk(_, _) => s.pc == AskRestartable
    case SDecide => s.pc.Decide?
    case SLogger(_) => s.pc == NewLogger
    case SReset => s.pc == Reset
    case SRecreate(_) => s.pc == Recreate
    case SIntegrity => s.pc == NextIntegrity
    case SSignals => s.pc == NextSignals
  }

  predicate EnabledHandler(s: State, h: nat, k: HandlerStep) {
    && h in s.crew.helpers && s.crew.helpers[h].Handler?
    && var pc := s.crew.helpers[h].hpc;
    match k
    case StopSignal => pc == Listening
    case OtherSignal => pc == Listening
    case LockMutex => pc == Locking && s.flag.mutex == Free
    case Record => pc == Recording
    case UnlockMutex => pc == Releasing
    case Check(alive) => pc == Checking && MayBeAlive(Current(s.procs), alive)
    case Stop(alive, _) => pc == Stopping && MayBeAlive(Current(s.procs), alive)
    case Await(killFailed) =>
      pc.Awaiting? && (killFailed || (pc.waiter in s.procs.waiters && s.procs.waiters[pc.waiter].pc == Finished))
    case LeaveHandler => pc == Listening && s.crew.helpers[h].ctx in s.crew.cancelled
  }

  predicate EnabledChecker(s: State, c: nat, l: CheckerStep) {
    && c in s.crew.helpers && s.crew.helpers[c].Checker?
    && (l.LeaveChecker? ==> s.crew.helpers[c].ctx in s.crew.cancelled)
  }

  predicate EnabledWaiter(p: Procs, w: nat, n: WaiterStep) {
    && w in p.waiters && p.waiters[w].inst in p.children
    && var c := p.children[p.waiters[w].inst];
    match n
    case ReadDone => p.waiters[w].pc == Entering
    case TakeLock => p.waiters[w].pc == Blocked && c.waitLock == Open
    case Return(clean) => p.waiters[w].pc == Holding && CanReturn(c, clean)
  }

  predicate Enabled(s: State, a: Step) {
    match a
    case Opening(o) => EnabledOpening(s, o)
    case Round(r) => EnabledRound(s, r)
    case Restart(q) => EnabledRestart(s, q)
    case OfHandler(h, k) => EnabledHandler(s, h, k)
    case OfChecker(c, l) => EnabledChecker(s, c, l)
    case OfWaiter(w, n) => EnabledWaiter(s.procs, w, n)
    case ChildExit(i) => i in s.procs.children && s.procs.children[i].proc == Running
  }

  /** `doneBarrier.Add(1)` and the `go` statement after it. */
  function Spawn(crew: Crew, id: nat, helper: Helper): Crew {
    crew.(helpers := crew.helpers[id := helper], barrier := crew.barrier + 1)
  }

  /** The deferred `doneBarrier.Done()`. */
  function Leave(crew: Crew, h: nat): Crew {
    crew.(helpers := crew.helpers - {h}, barrier := crew.barrier - 1)
  }

  function SetHandler(crew: Crew, h: nat, pc: HandlerPc): Crew
    requires h in crew.helpers && crew.helpers[h].Handler?
  {
    crew.(helpers := crew.helpers[h := crew.helpers[h].(hpc := pc)])
  }

  function CancelCurrent(crew: Crew): Crew {
    crew.(cancelled := crew.cancelled + {crew.ctx})
  }

  function SetChild(p: Procs, i: nat, c: Child): Procs {
    p.(children := p.children[i := c])
  }

  /** `CreateInstance` succeeded. */
  function NewInstance(p: Procs, id: nat): Procs {
    p.(instance := id, children := p.children[id := FRESH])
  }

  /** `Wait` is over: the lock is released and the process is known to be gone. */
  function AfterWait(c: Child, clean: bool): Child {
    c.(reaped := true, done := c.done || clean, waitLock := Open)
  }

  function ApplyOpening(s: State, o: OpeningStep): State
    requires EnabledOpening(s, o)
  {
    match o
    case OCreate(ok) =>
      if ok then s.(procs := NewInstance(s.procs, s.nextId), nextId := s.nextId + 1, pc := FirstSignals)
      else s.(pc := Returned)
    case OSignals =>
      s.(crew := Spawn(s.crew.(ctx := s.nextId), s.nextId + 1, Handler(s.nextId, Listening)),
         nextId := s.nextId + 2, pc := FirstIntegrity)
    case OIntegrity =>
      if s.periodic then
        s.(crew := Spawn(s.crew, s.nextId, Checker(s.crew.ctx)), nextId := s.nextId + 1, pc := PreStart)
      else s.(pc := PreStart)
    case OPreStart(ok) => s.(pc := if ok then Lock else CancelEarly)
    case OCancel => s.(crew := CancelCurrent(s.crew), pc := BarrierEarly)
    case OBarrier => s.(pc := Returned)
  }

  function ApplyRound(s: State, r: RoundStep): State
    requires EnabledRound(s, r)
  {
    match r
    case RLock => s.(flag := s.flag.(mutex := ByMain), pc := CheckStop)
    case RCheckStop =>
      if s.flag.shouldStop then s.(flag := s.flag.(mutex := Free), pc := Returned) else s.(pc := StartInstance)
    case RStart(ok) =>
      if ok then s.(procs := SetChild(s.procs, s.procs.instance, Current(s.procs).(proc := Running)), pc := Unlock)
      else s.(flag := s.flag.(mutex := Free), pc := Returned)
    case RUnlock => s.(flag := s.flag.(mutex := Free), pc := Wait)
    case RWaitRead => s.(pc := if Current(s.procs).done then Cancel else WaitBlocked)
    case RWaitLock =>
      s.(procs := SetChild(s.procs, s.procs.instance, Current(s.procs).(waitLock := HeldByMain)), pc := WaitLocked)
    case RWaitReturn(clean) =>
      s.(procs := SetChild(s.procs, s.procs.instance, AfterWait(Current(s.procs), clean)), pc := Cancel)
    case RCancel => s.(crew := CancelCurrent(s.crew), pc := Barrier)
    case RBarrier => s.(pc := AskRestartable)
  }

  function ApplyRestart(s: State, q: RestartStep): State
    requires EnabledRestart(s, q)
  {
    match q
    case SAsk(ok, answer) => s.(pc := if ok then Decide(answer) else Returned)
    case SDecide => s.(pc := if s.flag.shouldStop || !s.pc.restartable then Returned else NewLogger)
    case SLogger(ok) => if ok then s.(logger := s.nextId, nextId := s.nextId + 1, pc := Reset) else s.(pc := Returned)
    case SReset => s.(flag := s.flag.(shouldStop := false), pc := Recreate)
    case SRecreate(ok) =>
      if ok then s.(procs := NewInstance(s.procs, s.nextId), nextId := s.nextId + 1, pc := NextIntegrity)
      else s.(pc := Returned)
    case SIntegrity =>
      var crew := s.crew.(ctx := s.nextId);
      if s.periodic then
        s.(crew := Spawn(crew, s.nextId + 1, Checker(s.nextId)), nextId := s.nextId + 2, pc := NextSignals)
      else s.(crew := crew, nextId := s.nextId + 1, pc := NextSignals)
    case SSignals =>
      s.(crew := Spawn(s.crew, s.nextId, Handler(s.crew.ctx, Listening)), nextId := s.nextId + 1, pc := Lock)
  }

  /** Where a handler is after its step. */
  function HandlerNext(s: State, h: nat, k: HandlerStep): HandlerPc
    requires EnabledHandler(s, h, k)
  {
    match k
    case StopSignal => Locking
    case LockMutex => Recording
    case Record => Releasing
    case UnlockMutex => Checking
    case Check(alive) => if alive then Stopping else Listening
    case Stop(alive, sent) => if alive && sent then Awaiting(s.procs.instance, s.nextId) else Listening
    case _ => Listening
  }

  function HandlerFlag(f: Flag, h: nat, k: HandlerStep): Flag {
    match k
    case LockMutex => f.(mutex := ByHandler(h))
    case Record => f.(shouldStop := true, recorded := true)
    case UnlockMutex => f.(mutex := Free)
    case _ => f
  }

  function ApplyHandler(s: State, h: nat, k: HandlerStep): State
    requires EnabledHandler(s, h, k)
  {
    var crew := if k.LeaveHandler? then Leave(s.crew, h) else SetHandler(s.crew, h, HandlerNext(s, h, k));
    var flag := HandlerFlag(s.flag, h, k);
    if k.Stop? && k.alive then
      s.(crew := crew, flag := flag, nextId := s.nextId + 1,
         procs := s.procs.(waiters := s.procs.waiters[s.nextId := Waiter(s.procs.instance, Entering)]))
    else s.(crew := crew, flag := flag)
  }

  function ApplyChecker(s: State, c: nat, l: CheckerStep): State
    requires EnabledChecker(s, c, l)
  {
    if l.Pass? then s else s.(crew := Leave(s.crew, c))
  }

  function ApplyWaiter(p: Procs, w: nat, n: WaiterStep): Procs
    requires EnabledWaiter(p, w, n)
  {
    var i := p.waiters[w].inst;
    match n
    case ReadDone =>
      p.(waiters := p.waiters[w := Waiter(i, if p.children[i].done then Finished else Blocked)])
    case TakeLock =>
      SetChild(p, i, p.children[i].(waitLock := HeldBy(w))).(waiters := p.waiters[w := Waiter(i, Holding)])
    case Return(clean) =>
      SetChild(p, i, AfterWait(p.children[i], clean)).(waiters := p.waiters[w := Waiter(i, Finished)])
  }

  function Apply(s: State, a: Step): State
    requires Enabled(s, a)
  {
    match a
    case Opening(o) => ApplyOpening(s, o)
    case Round(r) => ApplyRound(s, r)
    case Restart(q) => ApplyRestart(s, q)
    case OfHandler(h, k) => ApplyHandler(s, h, k)
    case OfChecker(c, l) => ApplyChecker(s, c, l)
    case OfWaiter(w, n) => s.(procs := ApplyWaiter(s.procs, w, n))
    case ChildExit(i) => s.(procs := SetChild(s.procs, i, s.procs.children[i].(proc := Exited)))
  }

  // ---- the invariant ----

  /** The loop is between the barrier and the next helpers. */
  predicate Alone(pc: MainPc) {
    pc.Create? || pc.FirstSignals? || pc.AskRestartable? || pc.Decide? || pc.NewLogger? || pc.Reset?
    || pc.Recreate? || pc.NextIntegrity?
  }

  /** A new round is being prepared: no stop has been recorded so far. */
  predicate Preparing(pc: MainPc) {
    pc.Create? || pc.FirstSignals? || pc.NewLogger? || pc.Reset? || pc.Recreate? || pc.NextIntegrity? || pc.NextSignals?
  }

  predicate MainHoldsMutex(pc: MainPc) {
    pc.CheckStop? || pc.StartInstance? || pc.Unlock?
  }

  predicate ChildMayRun(pc: MainPc) {
    pc.Unlock? || pc.Wait? || pc.WaitBlocked? || pc.WaitLocked?
  }

  /** The child of this round has not been started yet. */
  predicate BeforeStart(pc: MainPc) {
    pc.FirstSignals? || pc.FirstIntegrity? || pc.PreStart? || pc.CancelEarly? || pc.BarrierEarly?
    || pc.Lock? || pc.CheckStop? || pc.StartInstance? || pc.NextIntegrity? || pc.NextSignals?
  }

  /** At most one goroutine of each kind, all of the current context. */
  ghost predicate CrewUnique(helpers: map<nat, Helper>, ctx: nat) {
    && (forall h :: h in helpers ==> helpers[h].ctx == ctx)
    && (forall h, k :: h in helpers && k in helpers && helpers[h].Handler? == helpers[k].Handler? ==> h == k)
  }

  /** The barrier counts the live goroutines, and who may be alive where in the loop. */
  ghost predicate CrewInv(pc: MainPc, nextId: nat, crew: Crew) {
    && crew.barrier == |crew.helpers|
    && CrewUnique(crew.helpers, crew.ctx)
    && (forall h :: h in crew.helpers ==> h < nextId)
    && (Alone(pc) ==> crew.helpers == map[])
    && (pc == NextSignals ==> forall h :: h in crew.helpers ==> crew.helpers[h].Checker?)
    && (pc == FirstIntegrity ==> forall h :: h in crew.helpers ==> crew.helpers[h].Handler?)
    && (pc == Barrier || pc == BarrierEarly ==> crew.ctx in crew.cancelled)
  }

  /** The handler is between `stopMutex.Lock` and `stopMutex.Unlock`. */
  predicate InCritical(helpers: map<nat, Helper>, h: nat) {
    h in helpers && helpers[h].Handler? && (helpers[h].hpc.Recording? || helpers[h].hpc.Releasing?)
  }

  ghost predicate MutexInv(pc: MainPc, mutex: Mutex, helpers: map<nat, Helper>) {
    && (mutex == ByMain <==> MainHoldsMutex(pc))
    && (mutex.ByHandler? ==> InCritical(helpers, mutex.h))
    && (forall h :: h in helpers && InCritical(helpers, h) ==> mutex == ByHandler(h))
  }

  /** A recorded stop is never forgotten, and is in force whenever a start is possible. */
  predicate StopInv(pc: MainPc, flag: Flag) {
    && (flag.recorded ==> flag.shouldStop)
    && (pc == StartInstance ==> !flag.shouldStop)
    && (Preparing(pc) ==> !flag.recorded)
  }

  ghost predicate ProcsInv(pc: MainPc, nextId: nat, p: Procs) {
    && (forall i :: i in p.children ==> i < nextId)
    && (forall i :: i in p.children && p.children[i].proc.Running? ==> i == p.instance && ChildMayRun(pc))
    && (forall i :: i in p.children && (p.children[i].done || p.children[i].reaped) ==> p.children[i].proc.Exited?)
    && (forall i :: i in p.children && p.children[i].waitLock == HeldByMain ==> i == p.instance && pc == WaitLocked)
    && (!pc.Create? && !pc.Returned? ==> p.instance in p.children)
    && (BeforeStart(pc) ==> Current(p) == FRESH)
    && (ChildMayRun(pc) ==> !Current(p).proc.NotStarted?)
  }

  /** Waiting goroutines hold what they think they hold, and are done only after an exit. */
  ghost predicate WaitersInv(nextId: nat, p: Procs) {
    && (forall w :: w in p.waiters ==>
          w < nextId && p.waiters[w].inst in p.children && !p.children[p.waiters[w].inst].proc.NotStarted?)
    && (forall w :: w in p.waiters && p.waiters[w].pc == Finished ==> p.children[p.waiters[w].inst].proc.Exited?)
    && (forall i :: i in p.children && p.children[i].waitLock.HeldBy? ==>
          var w := p.children[i].waitLock.waiter; w in p.waiters && p.waiters[w] == Waiter(i, Holding))
  }

  ghost predicate AwaitInv(helpers: map<nat, Helper>, waiters: map<nat, Waiter>) {
    forall h :: h in helpers && helpers[h].Handler? && helpers[h].hpc.Awaiting? ==>
      && helpers[h].hpc.waiter in waiters
      && waiters[helpers[h].hpc.waiter].inst == helpers[h].hpc.inst
  }

  ghost predicate Inv(s: State) {
    && CrewInv(s.pc, s.nextId, s.crew)
    && MutexInv(s.pc, s.flag.mutex, s.crew.helpers)
    && StopInv(s.pc, s.flag)
    && ProcsInv(s.pc, s.nextId, s.procs)
    && WaitersInv(s.nextId, s.procs)
    && AwaitInv(s.crew.helpers, s.procs.waiters)
  }

  // ---- goroutines come and go ----

  lemma SpawnCrew(crew: Crew, id: nat, helper: Helper)
    requires CrewUnique(crew.helpers, crew.ctx) && helper.ctx == crew.ctx && id !in crew.helpers
    requires forall h :: h in crew.helpers ==> crew.helpers[h].Handler? != helper.Handler?
    requires crew.barrier == |crew.helpers|
    ensures CrewUnique(Spawn(crew, id, helper).helpers, crew.ctx)
    ensures Spawn(crew, id, helper).barrier == |Spawn(crew, id, helper).helpers|
  {
    assert Spawn(crew, id, helper).helpers.Keys == crew.helpers.Keys + {id};
  }

  lemma LeaveCrew(crew: Crew, h: nat)
    requires CrewUnique(crew.helpers, crew.ctx) && h in crew.helpers && crew.barrier == |crew.helpers|
    ensures CrewUnique(Leave(crew, h).helpers, crew.ctx)
    ensures Leave(crew, h).barrier == |Leave(crew, h).helpers|
  {
    assert Leave(crew, h).helpers.Keys == crew.helpers.Keys - {h};
  }

  lemma SetHandlerCrew(crew: Crew, h: nat, pc: HandlerPc)
    requires CrewUnique(crew.helpers, crew.ctx) && h in crew.helpers && crew.helpers[h].Handler?
    requires crew.barrier == |crew.helpers|
    ensures CrewUnique(SetHandler(crew, h, pc).helpers, crew.ctx)
    ensures SetHandler(crew, h, pc).barrier == |SetHandler(crew, h, pc).helpers|
  {
    assert SetHandler(crew, h, pc).helpers.Keys == crew.helpers.Keys;
  }

  lemma NobodyLeft(crew: Crew)
    requires crew.barrier == |crew.helpers| == 0
    ensures crew.helpers == map[]
  {
    assert crew.helpers.Keys == {};
  }

  lemma CrewOpening(s: State, o: OpeningStep)
    requires CrewInv(s.pc, s.nextId, s.crew) && EnabledOpening(s, o)
    ensures var s' := ApplyOpening(s, o); CrewInv(s'.pc, s'.nextId, s'.crew)
  {
    match o
    case OSignals => SpawnCrew(s.crew.(ctx := s.nextId), s.nextId + 1, Handler(s.nextId, Listening));
    case OIntegrity => if s.periodic { SpawnCrew(s.crew, s.nextId, Checker(s.crew.ctx)); }
    case _ =>
  }

  lemma CrewRound(s: State, r: RoundStep)
    requires CrewInv(s.pc, s.nextId, s.crew) && EnabledRound(s, r)
    ensures var s' := ApplyRound(s, r); CrewInv(s'.pc, s'.nextId, s'.crew)
  {
    hide CrewUnique;
    if r.RBarrier? { NobodyLeft(s.crew); }
  }

  lemma CrewRestart(s: State, q: RestartStep)
    requires CrewInv(s.pc, s.nextId, s.crew) && EnabledRestart(s, q)
    ensures var s' := ApplyRestart(s, q); CrewInv(s'.pc, s'.nextId, s'.crew)
  {
    match q
    case SIntegrity => if s.periodic { SpawnCrew(s.crew.(ctx := s.nextId), s.nextId + 1, Checker(s.nextId)); }
    case SSignals => SpawnCrew(s.crew, s.nextId, Handler(s.crew.ctx, Listening));
    case _ =>
  }

  lemma CrewHandler(s: State, h: nat, k: HandlerStep)
    requires CrewInv(s.pc, s.nextId, s.crew) && EnabledHandler(s, h, k)
    ensures var s' := ApplyHandler(s, h, k); CrewInv(s'.pc, s'.nextId, s'.crew)
  {
    if k.LeaveHandler? { LeaveCrew(s.crew, h); } else { SetHandlerCrew(s.crew, h, HandlerNext(s, h, k)); }
  }

  // ---- the mutex and the stop flag ----

  lemma MutexOpening(s: State, o: OpeningStep)
    requires CrewInv(s.pc, s.nextId, s.crew) && MutexInv(s.pc, s.flag.mutex, s.crew.helpers) && EnabledOpening(s, o)
    ensures var s' := ApplyOpening(s, o); MutexInv(s'.pc, s'.flag.mutex, s'.crew.helpers)
  {
  }

  lemma MutexRound(s: State, r: RoundStep)
    requires MutexInv(s.pc, s.flag.mutex, s.crew.helpers) && EnabledRound(s, r)
    ensures var s' := ApplyRound(s, r); MutexInv(s'.pc, s'.flag.mutex, s'.crew.helpers)
  {
  }

  lemma MutexRestart(s: State, q: RestartStep)
    requires CrewInv(s.pc, s.nextId, s.crew) && MutexInv(s.pc, s.flag.mutex, s.crew.helpers) && EnabledRestart(s, q)
    ensures var s' := ApplyRestart(s, q); MutexInv(s'.pc, s'.flag.mutex, s'.crew.helpers)
  {
  }

  lemma MutexHandler(s: State, h: nat, k: HandlerStep)
    requires CrewUnique(s.crew.helpers, s.crew.ctx) && MutexInv(s.pc, s.flag.mutex, s.crew.helpers)
    requires EnabledHandler(s, h, k)
    ensures var s' := ApplyHandler(s, h, k); MutexInv(s'.pc, s'.flag.mutex, s'.crew.helpers)
  {
  }

  lemma StopMain(s: State, a: Step)
    requires StopInv(s.pc, s.flag) && Enabled(s, a) && (a.Opening? || a.Round? || a.Restart?)
    ensures StopInv(Apply(s, a).pc, Apply(s, a).flag)
  {
  }

  /** A handler that records a stop holds the mutex, so the loop is not about to start. */
  lemma StopHandler(s: State, h: nat, k: HandlerStep)
    requires CrewInv(s.pc, s.nextId, s.crew) && MutexInv(s.pc, s.flag.mutex, s.crew.helpers)
    requires StopInv(s.pc, s.flag) && EnabledHandler(s, h, k)
    ensures StopInv(ApplyHandler(s, h, k).pc, ApplyHandler(s, h, k).flag)
  {
    assert k.Record? ==> InCritical(s.crew.helpers, h);
  }

  // ---- children and waiters ----

  lemma NewInstanceProcs(pc: MainPc, nextId: nat, p: Procs, next: MainPc)
    requires ProcsInv(pc, nextId, p) && WaitersInv(nextId, p) && !ChildMayRun(pc) && !ChildMayRun(next)
    ensures ProcsInv(next, nextId + 1, NewInstance(p, nextId)) && WaitersInv(nextId + 1, NewInstance(p, nextId))
  {
    NewInstanceWaiters(nextId, p);
    assert Current(NewInstance(p, nextId)) == FRESH;
  }

  lemma NewInstanceWaiters(nextId: nat, p: Procs)
    requires WaitersInv(nextId, p) && forall i :: i in p.children ==> i < nextId
    ensures WaitersInv(nextId + 1, NewInstance(p, nextId))
  {
  }

  lemma ProcsOpening(s: State, o: OpeningStep)
    requires ProcsInv(s.pc, s.nextId, s.procs) && WaitersInv(s.nextId, s.procs) && EnabledOpening(s, o)
    ensures var s' := ApplyOpening(s, o); ProcsInv(s'.pc, s'.nextId, s'.procs) && WaitersInv(s'.nextId, s'.procs)
  {
    if o == OCreate(true) { NewInstanceProcs(s.pc, s.nextId, s.procs, FirstSignals); }
  }

  lemma StartProcs(nextId: nat, p: Procs)
    requires ProcsInv(StartInstance, nextId, p)
    ensures ProcsInv(Unlock, nextId, SetChild(p, p.instance, Current(p).(proc := Running)))
  {
  }

  lemma WaitReadProcs(nextId: nat, p: Procs)
    requires ProcsInv(Wait, nextId, p)
    ensures ProcsInv(WaitBlocked, nextId, p)
    ensures Current(p).done ==> ProcsInv(Cancel, nextId, p)
  {
  }

  lemma WaitLockProcs(nextId: nat, p: Procs)
    requires ProcsInv(WaitBlocked, nextId, p)
    ensures ProcsInv(WaitLocked, nextId, SetChild(p, p.instance, Current(p).(waitLock := HeldByMain)))
  {
  }

  lemma WaitReturnProcs(nextId: nat, p: Procs, clean: bool)
    requires ProcsInv(WaitLocked, nextId, p) && Current(p).proc.Exited?
    ensures ProcsInv(Cancel, nextId, SetChild(p, p.instance, AfterWait(Current(p), clean)))
  {
  }

  lemma ProcsRound(s: State, r: RoundStep)
    requires ProcsInv(s.pc, s.nextId, s.procs) && EnabledRound(s, r)
    ensures var s' := ApplyRound(s, r); ProcsInv(s'.pc, s'.nextId, s'.procs)
  {
    match r
    case RStart(ok) => StartProcs(s.nextId, s.procs);
    case RWaitRead => WaitReadProcs(s.nextId, s.procs);
    case RWaitLock => WaitLockProcs(s.nextId, s.procs);
    case RWaitReturn(clean) => WaitReturnProcs(s.nextId, s.procs, clean);
    case _ => assert ApplyRound(s, r).procs == s.procs;
  }

  lemma SetChildWaiters(nextId: nat, p: Procs, i: nat, c: Child)
    requires WaitersInv(nextId, p) && i in p.children
    requires !p.children[i].proc.NotStarted? ==> !c.proc.NotStarted?
    requires p.children[i].proc.Exited? ==> c.proc.Exited?
    requires c.waitLock == p.children[i].waitLock || !c.waitLock.HeldBy?
    ensures WaitersInv(nextId, SetChild(p, i, c))
  {
  }

  lemma WaitersRound(s: State, r: RoundStep)
    requires ProcsInv(s.pc, s.nextId, s.procs) && WaitersInv(s.nextId, s.procs) && EnabledRound(s, r)
    ensures WaitersInv(ApplyRound(s, r).nextId, ApplyRound(s, r).procs)
  {
    var p := s.procs;
    match r
    case RStart(ok) => SetChildWaiters(s.nextId, p, p.instance, Current(p).(proc := Running));
    case RWaitLock => SetChildWaiters(s.nextId, p, p.instance, Current(p).(waitLock := HeldByMain));
    case RWaitReturn(clean) => SetChildWaiters(s.nextId, p, p.instance, AfterWait(Current(p), clean));
    case _ =>
  }

  lemma ProcsRestart(s: State, q: RestartStep)
    requires ProcsInv(s.pc, s.nextId, s.procs) && WaitersInv(s.nextId, s.procs) && EnabledRestart(s, q)
    ensures var s' := ApplyRestart(s, q); ProcsInv(s'.pc, s'.nextId, s'.procs) && WaitersInv(s'.nextId, s'.procs)
  {
    if q == SRecreate(true) {
      NewInstanceProcs(s.pc, s.nextId, s.procs, NextIntegrity);
    } else {
      hide ProcsInv, WaitersInv;
      ProcsAhead(s.pc, ApplyRestart(s, q).pc, s.nextId, ApplyRestart(s, q).nextId, s.procs);
    }
  }

  /** The loop goes on without touching a process. */
  lemma ProcsAhead(pc: MainPc, next: MainPc, nextId: nat, later: nat, p: Procs)
    requires ProcsInv(pc, nextId, p) && WaitersInv(nextId, p) && nextId <= later
    requires !ChildMayRun(pc) && !ChildMayRun(next) && (BeforeStart(next) ==> BeforeStart(pc))
    requires !pc.Create? && !pc.Returned?
    ensures ProcsInv(next, later, p) && WaitersInv(later, p)
  {
  }

  lemma ProcsHandler(s: State, h: nat, k: HandlerStep)
    requires ProcsInv(s.pc, s.nextId, s.procs) && WaitersInv(s.nextId, s.procs) && EnabledHandler(s, h, k)
    ensures var s' := ApplyHandler(s, h, k); ProcsInv(s'.pc, s'.nextId, s'.procs) && WaitersInv(s'.nextId, s'.procs)
  {
    if k.Stop? && k.alive {
      NewWaiterProcs(s.pc, s.nextId, s.procs);
    } else {
      hide ProcsInv, WaitersInv;
      assert ApplyHandler(s, h, k).procs == s.procs && ApplyHandler(s, h, k).nextId == s.nextId;
    }
  }

  /** A stop that is under way has a goroutine waiting for the current child. */
  lemma NewWaiterProcs(pc: MainPc, nextId: nat, p: Procs)
    requires ProcsInv(pc, nextId, p) && WaitersInv(nextId, p) && !Current(p).proc.NotStarted?
    ensures
      var p' := p.(waiters := p.waiters[nextId := Waiter(p.instance, Entering)]);
      ProcsInv(pc, nextId + 1, p') && WaitersInv(nextId + 1, p')
  {
    WaitersProcs(pc, nextId, p, p.waiters[nextId := Waiter(p.instance, Entering)]);
  }

  lemma AwaitHandler(s: State, h: nat, k: HandlerStep)
    requires WaitersInv(s.nextId, s.procs) && AwaitInv(s.crew.helpers, s.procs.waiters) && EnabledHandler(s, h, k)
    ensures var s' := ApplyHandler(s, h, k); AwaitInv(s'.crew.helpers, s'.procs.waiters)
  {
  }

  lemma SetChildProcs(pc: MainPc, nextId: nat, p: Procs, i: nat, c: Child)
    requires ProcsInv(pc, nextId, p) && i in p.children
    requires c.proc == p.children[i].proc && (c.done || c.reaped ==> c.proc.Exited?)
    requires c.waitLock.HeldByMain? ==> c.waitLock == p.children[i].waitLock
    requires BeforeStart(pc) && i == p.instance ==> c == FRESH
    ensures ProcsInv(pc, nextId, SetChild(p, i, c))
  {
  }

  lemma WaitersProcs(pc: MainPc, nextId: nat, p: Procs, waiters: map<nat, Waiter>)
    requires ProcsInv(pc, nextId, p)
    ensures ProcsInv(pc, nextId, p.(waiters := waiters))
  {
    assert Current(p.(waiters := waiters)) == Current(p);
  }

  lemma ProcsWaiter(pc: MainPc, nextId: nat, p: Procs, w: nat, n: WaiterStep)
    requires ProcsInv(pc, nextId, p) && WaitersInv(nextId, p) && EnabledWaiter(p, w, n)
    ensures ProcsInv(pc, nextId, ApplyWaiter(p, w, n))
  {
    var i := p.waiters[w].inst;
    var c := ApplyWaiter(p, w, n).children[i];
    if n.ReadDone? {
      WaitersProcs(pc, nextId, p, ApplyWaiter(p, w, n).waiters);
    } else {
      SetChildProcs(pc, nextId, p, i, c);
      WaitersProcs(pc, nextId, SetChild(p, i, c), ApplyWaiter(p, w, n).waiters);
    }
  }

  lemma WaitersWaiter(pc: MainPc, nextId: nat, p: Procs, w: nat, n: WaiterStep)
    requires ProcsInv(pc, nextId, p) && WaitersInv(nextId, p) && EnabledWaiter(p, w, n)
    ensures WaitersInv(nextId, ApplyWaiter(p, w, n))
  {
    match n
    case ReadDone =>
    case TakeLock => WaiterLocks(nextId, p, w);
    case Return(clean) => WaiterReturns(nextId, p, w, clean);
  }

  lemma WaiterLocks(nextId: nat, p: Procs, w: nat)
    requires WaitersInv(nextId, p) && EnabledWaiter(p, w, TakeLock)
    ensures WaitersInv(nextId, ApplyWaiter(p, w, TakeLock))
  {
  }

  lemma WaiterReturns(nextId: nat, p: Procs, w: nat, clean: bool)
    requires WaitersInv(nextId, p) && EnabledWaiter(p, w, Return(clean))
    ensures WaitersInv(nextId, ApplyWaiter(p, w, Return(clean)))
  {
  }

  lemma ExitProcs(s: State, i: nat)
    requires ProcsInv(s.pc, s.nextId, s.procs) && WaitersInv(s.nextId, s.procs) && Enabled(s, ChildExit(i))
    ensures var s' := Apply(s, ChildExit(i)); ProcsInv(s'.pc, s'.nextId, s'.procs) && WaitersInv(s'.nextId, s'.procs)
  {
    SetChildWaiters(s.nextId, s.procs, i, s.procs.children[i].(proc := Exited));
  }

  lemma AwaitMain(s: State, a: Step)
    requires AwaitInv(s.crew.helpers, s.procs.waiters) && Enabled(s, a) && (a.Opening? || a.Round? || a.Restart?)
    ensures AwaitInv(Apply(s, a).crew.helpers, Apply(s, a).procs.waiters)
  {
    assert Apply(s, a).procs.waiters == s.procs.waiters;
  }

  lemma CheckerKeeps(s: State, c: nat, l: CheckerStep)
    requires Inv(s) && EnabledChecker(s, c, l)
    ensures Inv(ApplyChecker(s, c, l))
  {
    LeaveCrew(s.crew, c);
  }

  lemma AwaitWaiter(helpers: map<nat, Helper>, p: Procs, w: nat, n: WaiterStep)
    requires AwaitInv(helpers, p.waiters) && EnabledWaiter(p, w, n)
    ensures AwaitInv(helpers, ApplyWaiter(p, w, n).waiters)
  {
    assert exists pc :: ApplyWaiter(p, w, n).waiters == p.waiters[w := Waiter(p.waiters[w].inst, pc)];
  }

  /** Every step of every actor keeps the invariant. */
  lemma InvStep(s: State, a: Step)
    requires Inv(s) && Enabled(s, a)
    ensures Inv(Apply(s, a))
  {
    hide StopInv, ProcsInv, WaitersInv, AwaitInv, MutexInv;
    match a
    case Opening(o) =>
      StopMain(s, a);
      CrewOpening(s, o);
      MutexOpening(s, o);
      ProcsOpening(s, o);
      AwaitMain(s, a);
    case Round(r) =>
      StopMain(s, a);
      CrewRound(s, r);
      MutexRound(s, r);
      ProcsRound(s, r);
      WaitersRound(s, r);
      AwaitMain(s, a);
    case Restart(q) =>
      StopMain(s, a);
      CrewRestart(s, q);
      MutexRestart(s, q);
      ProcsRestart(s, q);
      AwaitMain(s, a);
    case OfHandler(h, k) =>
      CrewHandler(s, h, k);
      MutexHandler(s, h, k);
      StopHandler(s, h, k);
      ProcsHandler(s, h, k);
      AwaitHandler(s, h, k);
    case OfChecker(c, l) => CheckerKeeps(s, c, l);
    case OfWaiter(w, n) =>
      ProcsWaiter(s.pc, s.nextId, s.procs, w, n);
      WaitersWaiter(s.pc, s.nextId, s.procs, w, n);
      AwaitWaiter(s.crew.helpers, s.procs, w, n);
    case ChildExit(i) => ExitProcs(s, i);
  }
}
