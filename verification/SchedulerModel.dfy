/**
  The fiber scheduler and its event table as a step system.

  Every action below is one critical section, one read of a shared counter or one context
  switch of sylar/scheduler.cpp, sylar/fiber.cpp and sylar/iomanager.cpp; workers interleave
  freely between actions. Three are coarser: an operation on the event table is one action
  with the entry it queues and the count it keeps, addEvent includes the growth of the
  table, and with `fused` a yield includes the fix-up that follows it. A batch that schedule
  pushes under one lock is pushed entry by entry. An action fully determines the next state,
  so a run is a list of actions and "in every run" is a quantification over all such lists.

  A fiber that waits, or a queued callback, is a token. It sits in an event context,
  in the run queue or in the hands of one worker; `Place` names those positions.
 */
module SchedulerModel {
  import opened Basics

  datatype FiberState = Init | Hold | Exec | Term | Ready | Except

  datatype Task = FiberTask(fiber: nat) | CallTask(call: nat)

  datatype Event = Read | Write

  datatype Slot = Slot(fd: nat, event: Event)

  /** A registration made by addEvent: the token and the registration's number. */
  datatype Waiter = Waiter(task: Task, wait: nat)

  /** One push onto m_fibers. `thread` is -1 for "any"; `wait` is the registration
      that produced the entry, or -1. */
  datatype Entry = Entry(task: Task, thread: int, wait: int)

  /** Where a worker stands in Scheduler::run. The flag `own` says that the running
      fiber is the worker's recycled callback fiber. */
  datatype Pc =
    | Head                           // about to scan the queue
    | Took(task: Task)               // dequeued, not yet switched in
    | Run(fiber: nat, own: bool)     // the fiber's code is executing
    | Leaving(fiber: nat, own: bool) // the fiber has set its state, its stack is still in use
    | Fix(fiber: nat, own: bool)     // back in run, state fix-up still to come
    | Requeue(fiber: nat)            // saw READY, schedule still to come
    | Scanned                        // the scan found nothing
    | IdleRun                        // inside the idle fiber
    | NoTimer                        // stopping: getNextTimer found no timer
    | NoEvent                        // stopping: then no event was registered
    | Collected(due: nat)            // idle: callbacks taken from the timers, still to be scheduled
    | Exited

  datatype Worker = Worker(pc: Pc, spare: Option<nat>, idleDone: bool)

  /** `log` records every entry ever pushed; `queue` and `done` hold indices into it.
      `regs` records the token of every registration; `dropped` the registrations that
      delEvent consumed. */
  datatype Sys = Sys(
    fibers: map<nat, FiberState>,
    calls: nat,
    log: seq<Entry>,
    queue: seq<nat>,
    done: seq<nat>,
    workers: seq<Worker>,
    active: int,
    slots: map<Slot, Waiter>,
    pending: int,
    regs: seq<Task>,
    dropped: set<nat>,
    timers: nat,
    stop: bool)

  /** `fused` makes a fiber's yield and the fix-up that follows it one step; the code
      performs them separately. */
  datatype Config = Config(workers: nat, fused: bool)

  const OUTSIDE: int := -1

  datatype Action =
    | ScheduleFiber(actor: int, f: nat, thread: int)
    | ScheduleCall(actor: int, thread: int)
    | ArmTimer(actor: int)
    | CollectTimers(w: nat, due: nat)
    | PushTimer(w: nat)
    | WaitFiber(w: nat, slot: Slot)
    | WaitCall(w: nat, slot: Slot)
    | DelEvent(actor: int, slot: Slot)
    | CancelEvent(actor: int, slot: Slot)
    | CancelAll(actor: int, fd: nat)
    | Readiness(w: nat, fd: nat, bits: set<Event>, err: bool)
    | Scan(w: nat)
    | SwapIn(w: nat)
    | StartCall(w: nat, f: nat)
    | Yield(w: nat, to: FiberState)
    | SwapBack(w: nat)
    | FixUp(w: nat)
    | PushBack(w: nat)
    | EnterIdle(w: nat)
    | SeeNoTimer(w: nat)
    | SeeNoEvent(w: nat)
    | KeepIdling(w: nat)
    | IdleStop(w: nat)
    | IdleYield(w: nat)
    | Leave(w: nat)
    | RequestStop

  // ---------------------------------------------------------------- state helpers

  function InitSys(cfg: Config): Sys {
    Sys(map[], 0, [], [], [], seq(cfg.workers, i => Worker(Head, None, false)),
        0, map[], 0, [], {}, 0, false)
  }

  function SetWorker(s: Sys, w: nat, x: Worker): Sys
    requires w < |s.workers|
  {
    s.(workers := s.workers[w := x])
  }

  function SetPc(s: Sys, w: nat, pc: Pc): Sys
    requires w < |s.workers|
  {
    SetWorker(s, w, s.workers[w].(pc := pc))
  }

  function SetFiber(s: Sys, f: nat, st: FiberState): Sys {
    s.(fibers := s.fibers[f := st])
  }

  /** scheduleNoLock: append one entry. */
  function Push(s: Sys, e: Entry): Sys {
    s.(log := s.log + [e], queue := s.queue + [|s.log|])
  }

  /** A new callback is queued. */
  function PushCall(s: Sys, thread: int): Sys {
    Push(s, Entry(CallTask(s.calls), thread, -1)).(calls := s.calls + 1)
  }

  /** idle after scheduling one of the callbacks it took. */
  function AfterPush(pc: Pc): Pc
    requires pc.Collected?
  {
    if pc.due <= 1 then IdleRun else Collected(pc.due - 1)
  }

  /** FdContext::triggerEvent: the token moves from its context to the queue. */
  function Trigger(s: Sys, k: Slot): Sys
    requires k in s.slots
  {
    Push(s.(slots := s.slots - {k}, pending := s.pending - 1),
         Entry(s.slots[k].task, -1, s.slots[k].wait))
  }

  function TriggerIf(s: Sys, k: Slot, fire: bool): Sys
    requires fire ==> k in s.slots
  {
    if fire then Trigger(s, k) else s
  }

  /** The events of a descriptor among the registered ones. */
  function Watched(slots: set<Slot>, fd: nat): set<Event> {
    set e: Event | e in {Read, Write} && Slot(fd, e) in slots
  }

  /** The events `idle` acts on: error and hang-up conditions stand for all watched ones. */
  function Widened(bits: set<Event>, err: bool, watched: set<Event>): set<Event> {
    bits + (if err then watched else {})
  }

  function Registered(s: Sys, fd: nat): set<Event> {
    Watched(s.slots.Keys, fd)
  }

  function RealEvents(s: Sys, fd: nat, bits: set<Event>, err: bool): set<Event> {
    Widened(bits, err, Registered(s, fd))
  }

  /** Whether an entry is left to another thread. */
  predicate PinnedElsewhere(thread: int, w: int) { thread != -1 && thread != w }

  predicate Eligible(s: Sys, w: nat, t: nat) {
    && t < |s.log|
    && !PinnedElsewhere(s.log[t].thread, w)
    && !(s.log[t].task.FiberTask?
         && s.log[t].task.fiber in s.fibers
         && s.fibers[s.log[t].task.fiber] == Exec)
  }

  /** The first queue position from `i` on that worker `w` may take, or |queue|. */
  function FirstEligible(s: Sys, w: nat, i: nat): (r: nat)
    requires i <= |s.queue|
    ensures i <= r <= |s.queue|
    ensures r < |s.queue| ==> Eligible(s, w, s.queue[r])
    ensures forall j :: i <= j < r ==> !Eligible(s, w, s.queue[j])
    decreases |s.queue| - i
  {
    if i == |s.queue| || Eligible(s, w, s.queue[i]) then i else FirstEligible(s, w, i + 1)
  }

  // ---------------------------------------------------------------- tokens

  datatype Place = InSlot(slot: Slot) | InQueue(ticket: nat) | AtWorker(worker: nat)

  predicate PcHolds(s: Sys, pc: Pc, t: Task) {
    match pc
    case Took(task) => t == task
    case Requeue(f) => t == FiberTask(f)
    case Leaving(f, _) => t == FiberTask(f) && f in s.fibers && s.fibers[f] == Ready
    case Fix(f, _) => t == FiberTask(f) && f in s.fibers && s.fibers[f] == Ready
    case _ => false
  }

  /** Token `t` is at place `p`. */
  predicate Holds(s: Sys, p: Place, t: Task) {
    match p
    case InSlot(k) => k in s.slots && s.slots[k].task == t
    case InQueue(i) => i in s.queue && i < |s.log| && s.log[i].task == t
    case AtWorker(w) => w < |s.workers| && PcHolds(s, s.workers[w].pc, t)
  }

  ghost predicate Free(s: Sys, t: Task) {
    forall p: Place :: !Holds(s, p, t)
  }

  /** Worker `w` is executing on fiber `f`'s stack. */
  predicate OnStack(s: Sys, w: nat, f: nat) {
    && w < |s.workers|
    && var pc := s.workers[w].pc;
       (pc.Run? || pc.Leaving? || pc.Fix?) && pc.fiber == f
  }

  predicate Busy(pc: Pc) {
    pc.Took? || pc.Run? || pc.Leaving?
  }

  function BusyCount(ws: seq<Worker>): nat {
    if ws == [] then 0 else BusyCount(ws[..|ws| - 1]) + (if Busy(ws[|ws| - 1].pc) then 1 else 0)
  }

  /** A worker that is certain to scan the queue again before it leaves `run`. */
  predicate LiveWorker(x: Worker) {
    !x.pc.Exited? && !(x.pc.Scanned? && x.idleDone)
  }

  predicate LivesOn(s: Sys, w: nat) {
    w < |s.workers| && LiveWorker(s.workers[w])
  }

  ghost predicate SomeLive(s: Sys) {
    exists w: nat :: LivesOn(s, w)
  }

  // ---------------------------------------------------------------- actions

  predicate PcIs(s: Sys, w: nat, pc: Pc) {
    w < |s.workers| && s.workers[w].pc == pc
  }

  /** Code outside the scheduler, inside a running fiber or inside the idle fiber. */
  predicate MayAct(s: Sys, actor: int) {
    || actor == OUTSIDE
    || (0 <= actor < |s.workers| && (s.workers[actor].pc.Run? || s.workers[actor].pc.IdleRun?))
  }

  /** Scheduler::stopping, the last of the three reads of IOManager::stopping(timeout). */
  predicate Stopping(s: Sys) {
    s.stop && s.queue == [] && s.active == 0
  }

  /** When an action can be taken. The conditions on WaitFiber and Yield are the
      client protocol of do_io: one outstanding wait, followed by a yield to HOLD. */
  ghost predicate Enabled(cfg: Config, s: Sys, a: Action) {
    match a
    case ScheduleFiber(actor, f, thread) => MayAct(s, actor) && f !in s.fibers && thread >= -1
    case ScheduleCall(actor, thread) => MayAct(s, actor) && thread >= -1
    case ArmTimer(actor) => MayAct(s, actor)
    case CollectTimers(w, due) => PcIs(s, w, IdleRun) && 0 < due <= s.timers
    case PushTimer(w) => w < |s.workers| && s.workers[w].pc.Collected?
    case WaitFiber(w, k) =>
      w < |s.workers| && s.workers[w].pc.Run? && Free(s, FiberTask(s.workers[w].pc.fiber))
    case WaitCall(w, k) => w < |s.workers| && s.workers[w].pc.Run?
    case DelEvent(actor, k) => MayAct(s, actor) && k in s.slots
    case CancelEvent(actor, k) => MayAct(s, actor) && k in s.slots
    case CancelAll(actor, fd) => MayAct(s, actor) && Registered(s, fd) != {}
    case Readiness(w, fd, bits, err) =>
      PcIs(s, w, IdleRun) && RealEvents(s, fd, bits, err) * Registered(s, fd) != {}
    case Scan(w) => PcIs(s, w, Head)
    case SwapIn(w) => w < |s.workers| && s.workers[w].pc.Took? && s.workers[w].pc.task.FiberTask?
                      && s.workers[w].pc.task.fiber in s.fibers
    case StartCall(w, f) =>
      && w < |s.workers| && s.workers[w].pc.Took? && s.workers[w].pc.task.CallTask?
      && (if s.workers[w].spare.Some? then f == s.workers[w].spare.value && f in s.fibers
          else f !in s.fibers)
    case Yield(w, to) =>
      && w < |s.workers| && s.workers[w].pc.Run? && to !in {Exec, Init}
      && (to != Hold ==> Free(s, FiberTask(s.workers[w].pc.fiber)))
    case SwapBack(w) => !cfg.fused && w < |s.workers| && s.workers[w].pc.Leaving?
    case FixUp(w) => !cfg.fused && w < |s.workers| && s.workers[w].pc.Fix?
                     && s.workers[w].pc.fiber in s.fibers
    case PushBack(w) => w < |s.workers| && s.workers[w].pc.Requeue?
    case EnterIdle(w) => PcIs(s, w, Scanned) && !s.workers[w].idleDone
    case SeeNoTimer(w) => PcIs(s, w, IdleRun) && s.timers == 0
    case SeeNoEvent(w) => PcIs(s, w, NoTimer) && s.pending == 0
    case KeepIdling(w) => (PcIs(s, w, NoTimer) && s.pending != 0) || (PcIs(s, w, NoEvent) && !Stopping(s))
    case IdleStop(w) => PcIs(s, w, NoEvent) && Stopping(s)
    case IdleYield(w) => PcIs(s, w, IdleRun)
    case Leave(w) => PcIs(s, w, Scanned) && s.workers[w].idleDone
    case RequestStop => true
  }

  /** The SYLAR_ASSERT conditions met on the way through an action; when one is false
      the process aborts. */
  predicate Asserts(cfg: Config, s: Sys, a: Action)
    requires Enabled(cfg, s, a)
  {
    match a
    case WaitFiber(w, k) => k !in s.slots
                            && s.workers[w].pc.fiber in s.fibers
                            && s.fibers[s.workers[w].pc.fiber] == Exec
    case WaitCall(w, k) => k !in s.slots
    case Readiness(w, fd, bits, err) => RealEvents(s, fd, bits, err) <= Registered(s, fd)
    case SwapIn(w) => s.fibers[s.workers[w].pc.task.fiber] != Exec
    case StartCall(w, f) => s.workers[w].spare.Some? ==> s.fibers[f] in {Term, Except, Init}
    case Yield(w, to) => s.workers[w].pc.fiber in s.fibers
                         && s.fibers[s.workers[w].pc.fiber] == Exec
    case _ => true
  }

  /** The locked scan in Scheduler::run. */
  function ScanStep(s: Sys, w: nat): Sys
    requires w < |s.workers|
  {
    var i := FirstEligible(s, w, 0);
    if i == |s.queue| then SetPc(s, w, Scanned)
    else
      SetPc(s, w, Took(s.log[s.queue[i]].task))
        .(queue := s.queue[..i] + s.queue[i + 1..], done := s.done + [s.queue[i]], active := s.active + 1)
  }

  /** What a fiber does to its own state before it gives up the processor. */
  function YieldStep(s: Sys, w: nat, to: FiberState): Sys
    requires w < |s.workers| && s.workers[w].pc.Run?
  {
    var pc := s.workers[w].pc;
    SetPc(SetFiber(s, pc.fiber, to), w, Leaving(pc.fiber, pc.own))
  }

  function SwapBackStep(s: Sys, w: nat): Sys
    requires w < |s.workers| && s.workers[w].pc.Leaving?
  {
    var pc := s.workers[w].pc;
    SetPc(s, w, Fix(pc.fiber, pc.own)).(active := s.active - 1)
  }

  /** The state fix-up after swapIn returns: sylar/scheduler.cpp:227-234 and 249-259. */
  function FixUpStep(s: Sys, w: nat): Sys
    requires w < |s.workers| && s.workers[w].pc.Fix? && s.workers[w].pc.fiber in s.fibers
  {
    var pc := s.workers[w].pc;
    var f := pc.fiber;
    var spare := if pc.own then None else s.workers[w].spare;
    if s.fibers[f] == Ready then
      SetWorker(s, w, s.workers[w].(pc := Requeue(f), spare := spare))
    else if s.fibers[f] in {Term, Except} then
      SetPc(if pc.own then SetFiber(s, f, Init) else s, w, Head)
    else
      SetWorker(SetFiber(s, f, Hold), w, s.workers[w].(pc := Head, spare := spare))
  }

  function Apply(cfg: Config, s: Sys, a: Action): Sys
    requires Enabled(cfg, s, a) && Asserts(cfg, s, a)
  {
    match a
    case ScheduleFiber(actor, f, thread) => Push(SetFiber(s, f, Init), Entry(FiberTask(f), thread, -1))
    case ScheduleCall(actor, thread) => PushCall(s, thread)
    case ArmTimer(actor) => s.(timers := s.timers + 1)
    case CollectTimers(w, due) => SetPc(s, w, Collected(due)).(timers := s.timers - due)
    case PushTimer(w) => SetPc(PushCall(s, -1), w, AfterPush(s.workers[w].pc))
    case WaitFiber(w, k) =>
      s.(slots := s.slots[k := Waiter(FiberTask(s.workers[w].pc.fiber), |s.regs|)],
         pending := s.pending + 1, regs := s.regs + [FiberTask(s.workers[w].pc.fiber)])
    case WaitCall(w, k) =>
      s.(slots := s.slots[k := Waiter(CallTask(s.calls), |s.regs|)],
         pending := s.pending + 1, regs := s.regs + [CallTask(s.calls)], calls := s.calls + 1)
    case DelEvent(actor, k) =>
      s.(slots := s.slots - {k}, pending := s.pending - 1, dropped := s.dropped + {s.slots[k].wait})
    case CancelEvent(actor, k) => Trigger(s, k)
    case CancelAll(actor, fd) =>
      var evs := Registered(s, fd);
      TriggerIf(TriggerIf(s, Slot(fd, Read), Read in evs), Slot(fd, Write), Write in evs)
    case Readiness(w, fd, bits, err) =>
      var evs := RealEvents(s, fd, bits, err);
      TriggerIf(TriggerIf(s, Slot(fd, Read), Read in evs), Slot(fd, Write), Write in evs)
    case Scan(w) => ScanStep(s, w)
    case SwapIn(w) =>
      var f := s.workers[w].pc.task.fiber;
      if s.fibers[f] in {Term, Except} then SetPc(s, w, Head).(active := s.active - 1)
      else SetPc(SetFiber(s, f, Exec), w, Run(f, false))
    case StartCall(w, f) => SetWorker(SetFiber(s, f, Exec), w, s.workers[w].(pc := Run(f, true), spare := Some(f)))
    case Yield(w, to) =>
      if cfg.fused then FixUpStep(SwapBackStep(YieldStep(s, w, to), w), w) else YieldStep(s, w, to)
    case SwapBack(w) => SwapBackStep(s, w)
    case FixUp(w) => FixUpStep(s, w)
    case PushBack(w) =>
      SetPc(Push(s, Entry(FiberTask(s.workers[w].pc.fiber), -1, -1)), w, Head)
    case EnterIdle(w) => SetPc(s, w, IdleRun)
    case SeeNoTimer(w) => SetPc(s, w, NoTimer)
    case SeeNoEvent(w) => SetPc(s, w, NoEvent)
    case KeepIdling(w) => SetPc(s, w, IdleRun)
    case IdleStop(w) => SetWorker(s, w, s.workers[w].(pc := Head, idleDone := true))
    case IdleYield(w) => SetPc(s, w, Head)
    case Leave(w) => SetPc(s, w, Exited)
    case RequestStop => s.(stop := true)
  }

  // ---------------------------------------------------------------- runs

  datatype Outcome = At(sys: Sys) | Aborted | Impossible

  /** The state a list of actions leads to; `Aborted` when an assertion fails on the way. */
  ghost function RunTo(cfg: Config, acts: seq<Action>): Outcome {
    if acts == [] then At(InitSys(cfg))
    else
      var before := RunTo(cfg, acts[..|acts| - 1]);
      if before.At? then Next(cfg, before.sys, acts[|acts| - 1]) else before
  }

  /** One action: the next state, an abort, or nothing because it cannot be taken. */
  ghost function Next(cfg: Config, s: Sys, a: Action): Outcome {
    if !Enabled(cfg, s, a) then Impossible
    else if !Asserts(cfg, s, a) then Aborted
    else At(Apply(cfg, s, a))
  }
}
