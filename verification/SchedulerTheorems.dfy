/** What holds in every run of the scheduler step system. */
module SchedulerTheorems {
  import opened Basics
  import opened SchedulerModel
  import opened SchedulerInvariant

  // ---------------------------------------------------------------- effects of actions

  /** The worker an action moves, if it moves one. */
  function Mover(a: Action): Option<nat> {
    match a
    case Scan(w) => Some(w)
    case SwapIn(w) => Some(w)
    case StartCall(w, _) => Some(w)
    case Yield(w, _) => Some(w)
    case SwapBack(w) => Some(w)
    case FixUp(w) => Some(w)
    case PushBack(w) => Some(w)
    case EnterIdle(w) => Some(w)
    case CollectTimers(w, _) => Some(w)
    case PushTimer(w) => Some(w)
    case SeeNoTimer(w) => Some(w)
    case SeeNoEvent(w) => Some(w)
    case KeepIdling(w) => Some(w)
    case IdleStop(w) => Some(w)
    case IdleYield(w) => Some(w)
    case Leave(w) => Some(w)
    case _ => None
  }

  function Weight(x: Worker): int {
    if Busy(x.pc) then 1 else 0
  }

  predicate MidYield(pc: Pc) {
    pc.Leaving? || pc.Fix?
  }

  /** A scan that finds nothing to take. */
  predicate Fruitless(s: Sys, a: Action) {
    a.Scan? && FirstEligible(s, a.w, 0) == |s.queue|
  }

  /** At most worker `mover` changes, and the active count follows. */
  predicate MovesOnly(s: Sys, s': Sys, mover: Option<nat>) {
    match mover
    case None => s'.workers == s.workers && s'.active == s.active
    case Some(w) =>
      && w < |s.workers| && |s'.workers| == |s.workers|
      && s'.workers == s.workers[w := s'.workers[w]]
      && s'.active == s.active + Weight(s'.workers[w]) - Weight(s.workers[w])
  }

  /** Nothing touches the event contexts. */
  predicate SlotsSame(s: Sys, s': Sys) {
    s'.slots == s.slots && s'.pending == s.pending && s'.regs == s.regs && s'.dropped == s.dropped
  }

  /** Entries added by plain scheduling belong to no registration. */
  ghost predicate PlainGrowth(s: Sys, s': Sys) {
    s'.log == s.log || exists e: Entry :: e.wait == -1 && s'.log == s.log + [e]
  }

  /** What a step of one worker may do. */
  ghost predicate WorkerEffect(cfg: Config, s: Sys, a: Action, s': Sys)
    requires Mover(a).Some?
  {
    var w := Mover(a).value;
    && MovesOnly(s, s', Mover(a)) && SlotsSame(s, s') && PlainGrowth(s, s')
    && (!Fruitless(s, a) && !a.Leave? ==> LiveWorker(s'.workers[w]))
    && (cfg.fused && !MidYield(s.workers[w].pc) ==> !MidYield(s'.workers[w].pc))
  }

  predicate IsSwitch(a: Action) {
    Mover(a).Some? && !IsIdle(a)
  }

  lemma ScanEffect(cfg: Config, s: Sys, w: nat)
    requires Enabled(cfg, s, Scan(w)) && Asserts(cfg, s, Scan(w))
    ensures WorkerEffect(cfg, s, Scan(w), Apply(cfg, s, Scan(w)))
  {
  }

  lemma SwapInEffect(cfg: Config, s: Sys, w: nat)
    requires Enabled(cfg, s, SwapIn(w)) && Asserts(cfg, s, SwapIn(w))
    ensures WorkerEffect(cfg, s, SwapIn(w), Apply(cfg, s, SwapIn(w)))
  {
  }

  lemma StartCallEffect(cfg: Config, s: Sys, w: nat, f: nat)
    requires Enabled(cfg, s, StartCall(w, f)) && Asserts(cfg, s, StartCall(w, f))
    ensures WorkerEffect(cfg, s, StartCall(w, f), Apply(cfg, s, StartCall(w, f)))
  {
  }

  lemma SwapBackEffect(cfg: Config, s: Sys, w: nat)
    requires Enabled(cfg, s, SwapBack(w)) && Asserts(cfg, s, SwapBack(w))
    ensures WorkerEffect(cfg, s, SwapBack(w), Apply(cfg, s, SwapBack(w)))
  {
  }

  lemma FixUpEffect(cfg: Config, s: Sys, w: nat)
    requires Enabled(cfg, s, FixUp(w)) && Asserts(cfg, s, FixUp(w))
    ensures WorkerEffect(cfg, s, FixUp(w), Apply(cfg, s, FixUp(w)))
  {
  }

  lemma PushBackEffect(cfg: Config, s: Sys, w: nat)
    requires Enabled(cfg, s, PushBack(w)) && Asserts(cfg, s, PushBack(w))
    ensures WorkerEffect(cfg, s, PushBack(w), Apply(cfg, s, PushBack(w)))
  {
  }

  lemma PushTimerEffect(cfg: Config, s: Sys, w: nat)
    requires Enabled(cfg, s, PushTimer(w)) && Asserts(cfg, s, PushTimer(w))
    ensures WorkerEffect(cfg, s, PushTimer(w), Apply(cfg, s, PushTimer(w)))
  {
  }

  lemma YieldEffect(cfg: Config, s: Sys, w: nat, to: FiberState)
    requires Enabled(cfg, s, Yield(w, to)) && Asserts(cfg, s, Yield(w, to))
    ensures WorkerEffect(cfg, s, Yield(w, to), Apply(cfg, s, Yield(w, to)))
  {
    if cfg.fused { FusedEffect(cfg, s, w, to); }
  }

  lemma FusedEffect(cfg: Config, s: Sys, w: nat, to: FiberState)
    requires cfg.fused && Enabled(cfg, s, Yield(w, to)) && Asserts(cfg, s, Yield(w, to))
    ensures var s' := Apply(cfg, s, Yield(w, to));
      MovesOnly(s, s', Some(w)) && SlotsSame(s, s') && s'.log == s.log
      && LiveWorker(s'.workers[w]) && !MidYield(s'.workers[w].pc)
  {
  }

  lemma IdleEffect(cfg: Config, s: Sys, a: Action)
    requires IsIdle(a) && Enabled(cfg, s, a) && Asserts(cfg, s, a)
    ensures WorkerEffect(cfg, s, a, Apply(cfg, s, a))
  {
    if !a.CollectTimers? { var x := IdleMoves(cfg, s, a); }
  }

  lemma MoverEffect(cfg: Config, s: Sys, a: Action)
    requires Mover(a).Some? && Enabled(cfg, s, a) && Asserts(cfg, s, a)
    ensures WorkerEffect(cfg, s, a, Apply(cfg, s, a))
  {
    if IsIdle(a) {
      IdleEffect(cfg, s, a);
    } else {
      match a
      case Scan(w) => ScanEffect(cfg, s, w);
      case SwapIn(w) => SwapInEffect(cfg, s, w);
      case StartCall(w, f) => StartCallEffect(cfg, s, w, f);
      case Yield(w, to) => YieldEffect(cfg, s, w, to);
      case SwapBack(w) => SwapBackEffect(cfg, s, w);
      case FixUp(w) => FixUpEffect(cfg, s, w);
      case PushBack(w) => PushBackEffect(cfg, s, w);
      case PushTimer(w) => PushTimerEffect(cfg, s, w);
    }
  }

  lemma CallEffect(cfg: Config, s: Sys, a: Action)
    requires IsCall(a) && Enabled(cfg, s, a) && Asserts(cfg, s, a)
    ensures MovesOnly(s, Apply(cfg, s, a), None) && SlotsSame(s, Apply(cfg, s, a)) && PlainGrowth(s, Apply(cfg, s, a))
  {
  }

  lemma EventEffect(cfg: Config, s: Sys, a: Action)
    requires (IsConsume(a) || a.WaitFiber? || a.WaitCall?) && Enabled(cfg, s, a) && Asserts(cfg, s, a)
    ensures MovesOnly(s, Apply(cfg, s, a), None)
  {
  }

  /** Who moves, and what happens to the event contexts and the log, in any action. */
  lemma AnyEffect(cfg: Config, s: Sys, a: Action)
    requires Enabled(cfg, s, a) && Asserts(cfg, s, a)
    ensures MovesOnly(s, Apply(cfg, s, a), Mover(a))
    ensures !a.WaitFiber? && !a.WaitCall? && !IsConsume(a) ==>
      SlotsSame(s, Apply(cfg, s, a)) && PlainGrowth(s, Apply(cfg, s, a))
    ensures Mover(a).Some? ==> WorkerEffect(cfg, s, a, Apply(cfg, s, a))
  {
    if Mover(a).Some? {
      MoverEffect(cfg, s, a);
    } else if IsCall(a) {
      CallEffect(cfg, s, a);
    } else {
      EventEffect(cfg, s, a);
    }
  }

  // ---------------------------------------------------------------- mutual exclusion

  lemma FusedSettles(cfg: Config, s: Sys, s': Sys, a: Action)
    requires cfg.fused && !Unsettled(s) && MovesOnly(s, s', Mover(a))
    requires Mover(a).Some? ==> WorkerEffect(cfg, s, a, s')
    ensures !Unsettled(s')
  {
    forall w | 0 <= w < |s'.workers| ensures !MidYield(s'.workers[w].pc) {
      assert !MidYield(s.workers[w].pc);
    }
  }

  lemma {:induction false} RunInv(cfg: Config, acts: seq<Action>)
    requires Safe(cfg) && RunTo(cfg, acts).At?
    ensures Inv(cfg, RunTo(cfg, acts).sys) && Quiet(RunTo(cfg, acts).sys)
    ensures cfg.fused ==> !Unsettled(RunTo(cfg, acts).sys)
  {
    if acts == [] {
      InitInv(cfg);
    } else {
      var init, a := acts[..|acts| - 1], acts[|acts| - 1];
      RunInv(cfg, init);
      var s := RunTo(cfg, init).sys;
      StepInv(cfg, s, a);
      if cfg.fused { AnyEffect(cfg, s, a); FusedSettles(cfg, s, Apply(cfg, s, a), a); }
    }
  }

  /** No two workers execute on the same fiber's stack. */
  ghost predicate Exclusive(s: Sys) {
    forall v: nat, w: nat, f: nat :: OnStack(s, v, f) && OnStack(s, w, f) ==> v == w
  }

  /** Every token is in at most one place: one event context, one queue entry, one worker. */
  lemma OnePlace(cfg: Config, acts: seq<Action>, t: Task, p: Place, q: Place)
    requires Safe(cfg) && RunTo(cfg, acts).At?
    requires Holds(RunTo(cfg, acts).sys, p, t) && Holds(RunTo(cfg, acts).sys, q, t)
    ensures p == q
  {
    RunInv(cfg, acts);
  }

  /** The assertions in swapIn, reset and the yields never fire; the two that can are
      addEvent on a registered event and a readiness report that names an event nobody
      registered. */
  lemma OnlyRegistrationAborts(cfg: Config, acts: seq<Action>, a: Action)
    requires Safe(cfg) && RunTo(cfg, acts).At? && Enabled(cfg, RunTo(cfg, acts).sys, a)
    ensures var s := RunTo(cfg, acts).sys;
      Asserts(cfg, s, a) <==>
        match a
        case WaitFiber(_, k) => k !in s.slots
        case WaitCall(_, k) => k !in s.slots
        case Readiness(_, fd, bits, _) => bits <= Registered(s, fd)
        case _ => true
  {
    RunInv(cfg, acts);
    AbortsThen(cfg, RunTo(cfg, acts).sys, a);
  }

  lemma AbortsThen(cfg: Config, s: Sys, a: Action)
    requires Inv(cfg, s) && Quiet(s) && Enabled(cfg, s, a)
    ensures a.WaitFiber? || a.WaitCall? ==> (Asserts(cfg, s, a) <==> a.slot !in s.slots)
    ensures a.Readiness? ==> (Asserts(cfg, s, a) <==> a.bits <= Registered(s, a.fd))
    ensures !a.WaitFiber? && !a.WaitCall? && !a.Readiness? ==> Asserts(cfg, s, a)
  {
    if a.SwapIn? || a.Yield? || a.WaitFiber? { assert PcOk(s, s.workers[a.w].pc); }
  }

  /** At the loop head the recycled callback fiber is absent, or INIT and referred to by
      nobody else, so reset never reuses a suspended fiber's stack. */
  lemma SpareIsFresh(cfg: Config, acts: seq<Action>, w: nat)
    requires Safe(cfg) && RunTo(cfg, acts).At? && PcIs(RunTo(cfg, acts).sys, w, Head)
    requires RunTo(cfg, acts).sys.workers[w].spare.Some?
    ensures var s := RunTo(cfg, acts).sys;
      var g := s.workers[w].spare.value;
      && g in s.fibers && s.fibers[g] == Init
      && Free(s, FiberTask(g))
      && forall v: nat :: !OnStack(s, v, g)
  {
    RunInv(cfg, acts);
    var s := RunTo(cfg, acts).sys;
    var g := s.workers[w].spare.value;
    forall v: nat ensures !OnStack(s, v, g) {
      if v < |s.workers| { assert PcOk(s, s.workers[v].pc); }
    }
  }

  // ---------------------------------------------------------------- the split yield

  /** A list of actions together with the states it passes through. */
  ghost predicate Passes(cfg: Config, acts: seq<Action>, ss: seq<Sys>) {
    && |ss| == |acts| + 1 && ss[0] == InitSys(cfg)
    && forall i :: 0 <= i < |acts| ==> Next(cfg, ss[i], acts[i]) == At(ss[i + 1])
  }

  lemma {:induction false} PassesRun(cfg: Config, acts: seq<Action>, ss: seq<Sys>, n: nat)
    requires Passes(cfg, acts, ss) && n <= |acts|
    ensures RunTo(cfg, acts[..n]) == At(ss[n])
  {
    if n > 0 {
      PassesRun(cfg, acts, ss, n - 1);
      assert acts[..n][..n - 1] == acts[..n - 1];
      assert Next(cfg, ss[n - 1], acts[n - 1]) == At(ss[n]);
    }
  }

  const F: Task := FiberTask(0)
  const K: Slot := Slot(0, Read)
  const PUSHED: Entry := Entry(F, -1, -1)
  const WOKEN: Entry := Entry(F, -1, 0)

  function Rest(n: nat): (r: seq<Worker>)
    ensures |r| == n && forall i :: 0 <= i < n ==> r[i] == Worker(Head, None, false)
  {
    if n == 0 then [] else Rest(n - 1) + [Worker(Head, None, false)]
  }

  /** A snapshot of the run below: workers 0 and 1 at the given positions, the rest at
      the loop head. */
  function Snap(n: nat, st: FiberState, log: seq<Entry>, queue: seq<nat>, done: seq<nat>,
                p0: Pc, p1: Pc, active: int, waiting: bool, regs: seq<Task>): Sys
    requires n >= 2
  {
    Sys(map[0 := st], 0, log, queue, done,
        Rest(n)[0 := Worker(p0, None, false)][1 := Worker(p1, None, false)],
        active, if waiting then map[K := Waiter(F, 0)] else map[], if waiting then 1 else 0, regs, {}, 0, false)
  }

  /** Worker 0 runs a fiber that registers a wait; worker 1, idle, triggers it; the fiber
      announces HOLD while worker 0 is still on its stack, and worker 1 takes it; then
      worker 0's fix-up marks it HOLD while worker 1 is running it. */
  function RaceAction(i: nat): Action {
    if i == 0 then ScheduleFiber(OUTSIDE, 0, -1)
    else if i == 1 then Scan(0)
    else if i == 2 then SwapIn(0)
    else if i == 3 then Scan(1)
    else if i == 4 then EnterIdle(1)
    else if i == 5 then WaitFiber(0, K)
    else if i == 6 then Readiness(1, 0, {Read}, false)
    else if i == 7 then IdleYield(1)
    else if i == 8 then Yield(0, Hold)
    else if i == 9 then Scan(1)
    else if i == 10 then SwapIn(1)
    else if i == 11 then SwapBack(0)
    else FixUp(0)
  }

  function RaceState(n: nat, i: nat): Sys
    requires n >= 2
  {
    if i == 0 then InitSys(Config(n, false))
    else if i == 1 then Snap(n, Init, [PUSHED], [0], [], Head, Head, 0, false, [])
    else if i == 2 then Snap(n, Init, [PUSHED], [], [0], Took(F), Head, 1, false, [])
    else if i == 3 then Snap(n, Exec, [PUSHED], [], [0], Run(0, false), Head, 1, false, [])
    else if i == 4 then Snap(n, Exec, [PUSHED], [], [0], Run(0, false), Scanned, 1, false, [])
    else if i == 5 then Snap(n, Exec, [PUSHED], [], [0], Run(0, false), IdleRun, 1, false, [])
    else if i == 6 then Snap(n, Exec, [PUSHED], [], [0], Run(0, false), IdleRun, 1, true, [F])
    else if i == 7 then Snap(n, Exec, [PUSHED, WOKEN], [1], [0], Run(0, false), IdleRun, 1, false, [F])
    else if i == 8 then Snap(n, Exec, [PUSHED, WOKEN], [1], [0], Run(0, false), Head, 1, false, [F])
    else if i == 9 then Snap(n, Hold, [PUSHED, WOKEN], [1], [0], Leaving(0, false), Head, 1, false, [F])
    else if i == 10 then Snap(n, Hold, [PUSHED, WOKEN], [], [0, 1], Leaving(0, false), Took(F), 2, false, [F])
    else if i == 11 then Snap(n, Exec, [PUSHED, WOKEN], [], [0, 1], Leaving(0, false), Run(0, false), 2, false, [F])
    else if i == 12 then Snap(n, Exec, [PUSHED, WOKEN], [], [0, 1], Fix(0, false), Run(0, false), 1, false, [F])
    else Snap(n, Hold, [PUSHED, WOKEN], [], [0, 1], Head, Run(0, false), 1, false, [F])
  }

  function RaceActions(): (acts: seq<Action>)
    ensures |acts| == 13 && forall i :: 0 <= i < 13 ==> acts[i] == RaceAction(i)
  {
    seq(13, i requires i >= 0 => RaceAction(i))
  }

  function RaceStates(n: nat): (ss: seq<Sys>)
    requires n >= 2
    ensures |ss| == 14 && forall i :: 0 <= i < 14 ==> ss[i] == RaceState(n, i)
  {
    seq(14, i requires i >= 0 => RaceState(n, i))
  }

  lemma RaceStart(n: nat)
    requires n >= 2
    ensures Next(Config(n, false), InitSys(Config(n, false)), ScheduleFiber(OUTSIDE, 0, -1))
         == At(Snap(n, Init, [PUSHED], [0], [], Head, Head, 0, false, []))
  {
    assert InitSys(Config(n, false)).workers == Rest(n)[0 := Worker(Head, None, false)][1 := Worker(Head, None, false)];
  }

  /** Positions change, nothing else does. */
  lemma SnapPc(n: nat, st: FiberState, log: seq<Entry>, queue: seq<nat>, done: seq<nat>,
                p0: Pc, p1: Pc, active: int, waiting: bool, regs: seq<Task>, pc: Pc)
    requires n >= 2
    ensures SetPc(Snap(n, st, log, queue, done, p0, p1, active, waiting, regs), 0, pc)
         == Snap(n, st, log, queue, done, pc, p1, active, waiting, regs)
    ensures SetPc(Snap(n, st, log, queue, done, p0, p1, active, waiting, regs), 1, pc)
         == Snap(n, st, log, queue, done, p0, pc, active, waiting, regs)
  {
    var r := Rest(n)[0 := Worker(p0, None, false)][1 := Worker(p1, None, false)];
    assert r[0 := Worker(pc, None, false)] == Rest(n)[0 := Worker(pc, None, false)][1 := Worker(p1, None, false)];
    assert r[1 := Worker(pc, None, false)] == Rest(n)[0 := Worker(p0, None, false)][1 := Worker(pc, None, false)];
  }

  lemma RaceScan0(n: nat)
    requires n >= 2
    ensures Next(Config(n, false), Snap(n, Init, [PUSHED], [0], [], Head, Head, 0, false, []), Scan(0))
         == At(Snap(n, Init, [PUSHED], [], [0], Took(F), Head, 1, false, []))
  {
    assert FirstEligible(Snap(n, Init, [PUSHED], [0], [], Head, Head, 0, false, []), 0, 0) == 0;
    SnapPc(n, Init, [PUSHED], [0], [], Head, Head, 0, false, [], Took(F));
  }

  lemma RaceSwapIn0(n: nat)
    requires n >= 2
    ensures Next(Config(n, false), Snap(n, Init, [PUSHED], [], [0], Took(F), Head, 1, false, []), SwapIn(0))
         == At(Snap(n, Exec, [PUSHED], [], [0], Run(0, false), Head, 1, false, []))
  {
    SnapPc(n, Exec, [PUSHED], [], [0], Took(F), Head, 1, false, [], Run(0, false));
  }

  lemma RaceScan1(n: nat)
    requires n >= 2
    ensures Next(Config(n, false), Snap(n, Exec, [PUSHED], [], [0], Run(0, false), Head, 1, false, []), Scan(1))
         == At(Snap(n, Exec, [PUSHED], [], [0], Run(0, false), Scanned, 1, false, []))
    ensures Next(Config(n, false), Snap(n, Exec, [PUSHED], [], [0], Run(0, false), Scanned, 1, false, []), EnterIdle(1))
         == At(Snap(n, Exec, [PUSHED], [], [0], Run(0, false), IdleRun, 1, false, []))
  {
    SnapPc(n, Exec, [PUSHED], [], [0], Run(0, false), Head, 1, false, [], Scanned);
    SnapPc(n, Exec, [PUSHED], [], [0], Run(0, false), Scanned, 1, false, [], IdleRun);
  }

  lemma RaceWait(n: nat)
    requires n >= 2
    ensures Next(Config(n, false), Snap(n, Exec, [PUSHED], [], [0], Run(0, false), IdleRun, 1, false, []), WaitFiber(0, K))
         == At(Snap(n, Exec, [PUSHED], [], [0], Run(0, false), IdleRun, 1, true, [F]))
  {
    var s := Snap(n, Exec, [PUSHED], [], [0], Run(0, false), IdleRun, 1, false, []);
    forall p: Place ensures !Holds(s, p, F) { match p case InSlot(_) => case InQueue(_) => case AtWorker(_) => }
  }

  lemma RaceReady(n: nat)
    requires n >= 2
    ensures Next(Config(n, false), Snap(n, Exec, [PUSHED], [], [0], Run(0, false), IdleRun, 1, true, [F]), Readiness(1, 0, {Read}, false))
         == At(Snap(n, Exec, [PUSHED, WOKEN], [1], [0], Run(0, false), IdleRun, 1, false, [F]))
  {
    var s := Snap(n, Exec, [PUSHED], [], [0], Run(0, false), IdleRun, 1, true, [F]);
    assert Registered(s, 0) == {Read};
    assert s.slots - {K} == map[];
  }

  lemma RaceBack(n: nat)
    requires n >= 2
    ensures Next(Config(n, false), Snap(n, Exec, [PUSHED, WOKEN], [1], [0], Run(0, false), IdleRun, 1, false, [F]), IdleYield(1))
         == At(Snap(n, Exec, [PUSHED, WOKEN], [1], [0], Run(0, false), Head, 1, false, [F]))
  {
    SnapPc(n, Exec, [PUSHED, WOKEN], [1], [0], Run(0, false), IdleRun, 1, false, [F], Head);
  }

  lemma RaceHold(n: nat)
    requires n >= 2
    ensures Next(Config(n, false), Snap(n, Exec, [PUSHED, WOKEN], [1], [0], Run(0, false), Head, 1, false, [F]), Yield(0, Hold))
         == At(Snap(n, Hold, [PUSHED, WOKEN], [1], [0], Leaving(0, false), Head, 1, false, [F]))
  {
    SnapPc(n, Hold, [PUSHED, WOKEN], [1], [0], Run(0, false), Head, 1, false, [F], Leaving(0, false));
  }

  lemma RaceTake(n: nat)
    requires n >= 2
    ensures Next(Config(n, false), Snap(n, Hold, [PUSHED, WOKEN], [1], [0], Leaving(0, false), Head, 1, false, [F]), Scan(1))
         == At(Snap(n, Hold, [PUSHED, WOKEN], [], [0, 1], Leaving(0, false), Took(F), 2, false, [F]))
  {
    var s := Snap(n, Hold, [PUSHED, WOKEN], [1], [0], Leaving(0, false), Head, 1, false, [F]);
    assert FirstEligible(s, 1, 0) == 0;
    SnapPc(n, Hold, [PUSHED, WOKEN], [1], [0], Leaving(0, false), Head, 1, false, [F], Took(F));
  }

  lemma RaceEnd(n: nat)
    requires n >= 2
    ensures Next(Config(n, false), Snap(n, Hold, [PUSHED, WOKEN], [], [0, 1], Leaving(0, false), Took(F), 2, false, [F]), SwapIn(1))
         == At(Snap(n, Exec, [PUSHED, WOKEN], [], [0, 1], Leaving(0, false), Run(0, false), 2, false, [F]))
    ensures Next(Config(n, false), Snap(n, Exec, [PUSHED, WOKEN], [], [0, 1], Leaving(0, false), Run(0, false), 2, false, [F]), SwapBack(0))
         == At(Snap(n, Exec, [PUSHED, WOKEN], [], [0, 1], Fix(0, false), Run(0, false), 1, false, [F]))
    ensures Next(Config(n, false), Snap(n, Exec, [PUSHED, WOKEN], [], [0, 1], Fix(0, false), Run(0, false), 1, false, [F]), FixUp(0))
         == At(Snap(n, Hold, [PUSHED, WOKEN], [], [0, 1], Head, Run(0, false), 1, false, [F]))
  {
    SnapPc(n, Exec, [PUSHED, WOKEN], [], [0, 1], Leaving(0, false), Took(F), 2, false, [F], Run(0, false));
    SnapPc(n, Exec, [PUSHED, WOKEN], [], [0, 1], Leaving(0, false), Run(0, false), 2, false, [F], Fix(0, false));
    SnapPc(n, Hold, [PUSHED, WOKEN], [], [0, 1], Fix(0, false), Run(0, false), 1, false, [F], Head);
  }

  lemma RaceOpens(n: nat, i: nat)
    requires n >= 2 && i < 4
    ensures Next(Config(n, false), RaceState(n, i), RaceAction(i)) == At(RaceState(n, i + 1))
  {
    if i == 0 { RaceStart(n); } else if i == 1 { RaceScan0(n); } else if i == 2 { RaceSwapIn0(n); } else { RaceScan1(n); }
  }

  lemma RaceGoesOn(n: nat, i: nat)
    requires n >= 2 && 4 <= i < 8
    ensures Next(Config(n, false), RaceState(n, i), RaceAction(i)) == At(RaceState(n, i + 1))
  {
    if i == 4 { RaceScan1(n); } else if i == 5 { RaceWait(n); } else if i == 6 { RaceReady(n); } else { RaceBack(n); }
  }

  lemma RaceCloses(n: nat, i: nat)
    requires n >= 2 && 8 <= i < 13
    ensures Next(Config(n, false), RaceState(n, i), RaceAction(i)) == At(RaceState(n, i + 1))
  {
    if i == 8 { RaceHold(n); } else if i == 9 { RaceTake(n); } else { RaceEnd(n); }
  }

  lemma RacePasses(n: nat)
    requires n >= 2
    ensures Passes(Config(n, false), RaceActions(), RaceStates(n))
  {
    forall i: nat | i < 13 ensures Next(Config(n, false), RaceState(n, i), RaceAction(i)) == At(RaceState(n, i + 1)) {
      if i < 4 { RaceOpens(n, i); } else if i < 8 { RaceGoesOn(n, i); } else { RaceCloses(n, i); }
    }
  }

  /** With yield and fix-up as the separate steps the code makes them, fibers are
      exclusive in every run if and only if there is at most one worker. */
  lemma ExclusionIff(cfg: Config)
    ensures (forall acts: seq<Action> :: RunTo(cfg, acts).At? ==> Exclusive(RunTo(cfg, acts).sys)) <==> Safe(cfg)
  {
    if Safe(cfg) {
      forall acts: seq<Action> | RunTo(cfg, acts).At? ensures Exclusive(RunTo(cfg, acts).sys) {
        RunInv(cfg, acts);
      }
    } else {
      var n := cfg.workers;
      RacePasses(n);
      PassesRun(cfg, RaceActions(), RaceStates(n), 11);
      var s := RunTo(cfg, RaceActions()[..11]).sys;
      assert OnStack(s, 0, 0) && OnStack(s, 1, 0);
      assert !Exclusive(s);
    }
  }

  lemma RaceTrips(n: nat)
    requires n >= 2
    ensures Next(Config(n, false), RaceState(n, 13), Yield(1, Hold)) == Aborted
  {
  }

  /** One more action. */
  lemma RunMore(cfg: Config, acts: seq<Action>, s: Sys, a: Action)
    requires RunTo(cfg, acts) == At(s)
    ensures RunTo(cfg, acts + [a]) == Next(cfg, s, a)
  {
    assert (acts + [a])[..|acts|] == acts;
  }

  /** So the invariant holds in every run exactly then. */
  lemma InvIff(cfg: Config)
    ensures (forall acts: seq<Action> :: RunTo(cfg, acts).At? ==> Inv(cfg, RunTo(cfg, acts).sys)) <==> Safe(cfg)
  {
    if Safe(cfg) {
      forall acts: seq<Action> | RunTo(cfg, acts).At? ensures Inv(cfg, RunTo(cfg, acts).sys) { RunInv(cfg, acts); }
    } else {
      ExclusionIff(cfg);
      var acts: seq<Action> :| RunTo(cfg, acts).At? && !Exclusive(RunTo(cfg, acts).sys);
      assert !StacksOk(cfg, RunTo(cfg, acts).sys);
    }
  }

  /** The same race goes on to trip the assertion at the start of YiledToHold. */
  lemma RaceAborts(n: nat)
    requires n >= 2
    ensures RunTo(Config(n, false), RaceActions() + [Yield(1, Hold)]) == Aborted
  {
    RaceRun(n);
    RaceTrips(n);
    RunMore(Config(n, false), RaceActions(), RaceState(n, 13), Yield(1, Hold));
  }

  lemma RaceRun(n: nat)
    requires n >= 2
    ensures RunTo(Config(n, false), RaceActions()) == At(RaceState(n, 13))
  {
    RacePasses(n);
    PassesRun(Config(n, false), RaceActions(), RaceStates(n), 13);
    assert RaceActions()[..13] == RaceActions();
  }

  // ---------------------------------------------------------------- counters

  lemma {:induction false} BusyUpdate(ws: seq<Worker>, w: nat, x: Worker)
    requires w < |ws|
    ensures BusyCount(ws[w := x])
         == BusyCount(ws) - (if Busy(ws[w].pc) then 1 else 0) + (if Busy(x.pc) then 1 else 0)
  {
    var n := |ws| - 1;
    var vs := ws[w := x];
    if w < n {
      BusyUpdate(ws[..n], w, x);
      assert vs[..n] == ws[..n][w := x];
    } else {
      assert vs[..n] == ws[..n];
    }
  }

  lemma {:induction false} BusyZero(ws: seq<Worker>)
    ensures BusyCount(ws) == 0 <==> forall w :: 0 <= w < |ws| ==> !Busy(ws[w].pc)
  {
    if ws != [] {
      var n := |ws| - 1;
      BusyZero(ws[..n]);
      if BusyCount(ws) == 0 {
        forall w | 0 <= w < |ws| ensures !Busy(ws[w].pc) {
          if w < n { assert ws[w] == ws[..n][w]; }
        }
      }
    }
  }

  /** m_activeThreadCount counts the workers between dequeue and decrement;
      m_pendingEventCount counts the registered events. */
  predicate CountersExact(s: Sys) {
    s.active == BusyCount(s.workers) && s.pending == |s.slots|
  }

  lemma SlotRemoved(m: map<Slot, Waiter>, k: Slot)
    requires k in m
    ensures |m - {k}| == |m| - 1
  {
    assert (m - {k}).Keys == m.Keys - {k};
  }

  lemma SlotAdded(m: map<Slot, Waiter>, k: Slot, x: Waiter)
    requires k !in m
    ensures |m[k := x]| == |m| + 1
  {
    assert m[k := x].Keys == m.Keys + {k};
  }

  lemma ActiveStep(cfg: Config, s: Sys, a: Action)
    requires s.active == BusyCount(s.workers) && Enabled(cfg, s, a) && Asserts(cfg, s, a)
    ensures Apply(cfg, s, a).active == BusyCount(Apply(cfg, s, a).workers)
  {
    AnyEffect(cfg, s, a);
    if Mover(a).Some? {
      var w := Mover(a).value;
      BusyUpdate(s.workers, w, Apply(cfg, s, a).workers[w]);
    }
  }

  lemma PendingStep(cfg: Config, s: Sys, a: Action)
    requires s.pending == |s.slots| && Enabled(cfg, s, a) && Asserts(cfg, s, a)
    ensures Apply(cfg, s, a).pending == |Apply(cfg, s, a).slots|
  {
    if !a.WaitFiber? && !a.WaitCall? && !IsConsume(a) {
      AnyEffect(cfg, s, a);
    } else {
      match a
      case WaitFiber(w, k) => SlotAdded(s.slots, k, Waiter(FiberTask(s.workers[w].pc.fiber), |s.regs|));
      case WaitCall(w, k) => SlotAdded(s.slots, k, Waiter(CallTask(s.calls), |s.regs|));
      case DelEvent(_, k) => SlotRemoved(s.slots, k);
      case CancelEvent(_, k) => SlotRemoved(s.slots, k);
      case CancelAll(_, fd) => PendingBoth(s, fd, Registered(s, fd));
      case Readiness(_, fd, bits, err) => PendingBoth(s, fd, RealEvents(s, fd, bits, err));
    }
  }

  lemma PendingBoth(s: Sys, fd: nat, evs: set<Event>)
    requires s.pending == |s.slots| && evs <= Registered(s, fd)
    ensures Read in evs ==> Slot(fd, Read) in s.slots
    ensures Write in evs ==> Slot(fd, Write) in TriggerIf(s, Slot(fd, Read), Read in evs).slots
    ensures var s' := TriggerIf(TriggerIf(s, Slot(fd, Read), Read in evs), Slot(fd, Write), Write in evs);
      s'.pending == |s'.slots|
  {
    if Read in evs { SlotRemoved(s.slots, Slot(fd, Read)); }
    var s1 := TriggerIf(s, Slot(fd, Read), Read in evs);
    if Write in evs { SlotRemoved(s1.slots, Slot(fd, Write)); }
  }

  /** Both counters are exact in every state of every run, whatever the number of workers. */
  lemma {:induction false} CountersAlwaysExact(cfg: Config, acts: seq<Action>)
    requires RunTo(cfg, acts).At?
    ensures CountersExact(RunTo(cfg, acts).sys)
  {
    if acts == [] {
      var s := InitSys(cfg);
      BusyZero(s.workers);
    } else {
      var init, a := acts[..|acts| - 1], acts[|acts| - 1];
      CountersAlwaysExact(cfg, init);
      ActiveStep(cfg, RunTo(cfg, init).sys, a);
      PendingStep(cfg, RunTo(cfg, init).sys, a);
    }
  }
}
