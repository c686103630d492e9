/**
  When a worker's idle fiber ends. IOManager::stopping reads the timers, the registered
  events and the queue one after the other, each under its own lock, so what was read first
  may have changed by the time of the last read.
 */
module SchedulerIdle {
  import opened Basics
  import opened SchedulerModel
  import opened SchedulerInvariant
  import opened SchedulerTheorems

  /** Nothing is left to do or to wait for. */
  predicate Drained(s: Sys) {
    && s.timers == 0 && s.slots == map[] && s.queue == []
    && forall v :: 0 <= v < |s.workers| ==> !Busy(s.workers[v].pc) && !s.workers[v].pc.Collected?
  }

  /** No timer is added from outside the workers. */
  predicate NoOutsideTimer(acts: seq<Action>) {
    forall i :: 0 <= i < |acts| ==> acts[i] != ArmTimer(OUTSIDE)
  }

  /** Whenever idle ends, the system is drained: in every run, or in every run without
      outside timers. */
  ghost predicate EndsDrained(cfg: Config, outside: bool) {
    forall acts: seq<Action>, w: nat ::
      (outside || NoOutsideTimer(acts)) && RunTo(cfg, acts).At? && Enabled(cfg, RunTo(cfg, acts).sys, IdleStop(w)) ==>
        Drained(RunTo(cfg, acts).sys)
  }

  // ---------------------------------------------------------------- one worker

  /** What the only worker has read still holds. */
  predicate ReadsHold(s: Sys) {
    forall w :: 0 <= w < |s.workers| ==>
      && (s.workers[w].pc.NoTimer? ==> s.timers == 0)
      && (s.workers[w].pc.NoEvent? ==> s.timers == 0 && s.pending == 0)
  }

  lemma ReadsStep(cfg: Config, s: Sys, a: Action)
    requires |s.workers| <= 1 && ReadsHold(s) && a != ArmTimer(OUTSIDE) && s.pending == |s.slots|
    requires Enabled(cfg, s, a) && Asserts(cfg, s, a)
    ensures ReadsHold(Apply(cfg, s, a))
  {
    if IsConsume(a) {
      EventEffect(cfg, s, a);
      ConsumeReads(cfg, s, a);
    } else if Mover(a).Some? {
      MoverReads(cfg, s, a);
    }
  }

  /** Only the first two reads of stopping lead to the positions in question. */
  lemma MoverReads(cfg: Config, s: Sys, a: Action)
    requires |s.workers| <= 1 && Mover(a).Some? && Enabled(cfg, s, a) && Asserts(cfg, s, a) && ReadsHold(s)
    ensures ReadsHold(Apply(cfg, s, a))
  {
    if IsIdle(a) {
      if !a.CollectTimers? { var x := IdleMoves(cfg, s, a); }
    } else {
      SwitchReads(cfg, s, a);
    }
  }

  lemma SwitchReads(cfg: Config, s: Sys, a: Action)
    requires |s.workers| <= 1 && IsSwitch(a) && Enabled(cfg, s, a) && Asserts(cfg, s, a)
    ensures var s' := Apply(cfg, s, a);
      |s'.workers| <= 1 && forall w :: 0 <= w < |s'.workers| ==> !s'.workers[w].pc.NoTimer? && !s'.workers[w].pc.NoEvent?
  {
    if a.Yield? && cfg.fused { FusedEffect(cfg, s, a.w, a.to); }
  }

  lemma ConsumeReads(cfg: Config, s: Sys, a: Action)
    requires IsConsume(a) && s.pending == |s.slots| && Enabled(cfg, s, a) && Asserts(cfg, s, a)
    ensures Apply(cfg, s, a).timers == s.timers && s.pending != 0
  {
    if a.CancelAll? || a.Readiness? {
      assert exists e :: Slot(a.fd, e) in s.slots by { var e :| e in Registered(s, a.fd); }
    }
    assert exists k :: k in s.slots;
  }

  lemma {:induction false} RunReads(cfg: Config, acts: seq<Action>)
    requires cfg.workers <= 1 && NoOutsideTimer(acts) && RunTo(cfg, acts).At?
    ensures ReadsHold(RunTo(cfg, acts).sys) && |RunTo(cfg, acts).sys.workers| == cfg.workers
  {
    if acts != [] {
      var n := |acts| - 1;
      RunReads(cfg, acts[..n]);
      CountersAlwaysExact(cfg, acts[..n]);
      ReadsStep(cfg, RunTo(cfg, acts[..n]).sys, acts[n]);
      AnyEffect(cfg, RunTo(cfg, acts[..n]).sys, acts[n]);
    }
  }

  lemma OneWorkerDrains(cfg: Config, acts: seq<Action>, w: nat)
    requires cfg.workers <= 1 && NoOutsideTimer(acts) && RunTo(cfg, acts).At?
    requires Enabled(cfg, RunTo(cfg, acts).sys, IdleStop(w))
    ensures Drained(RunTo(cfg, acts).sys)
  {
    RunReads(cfg, acts);
    CountersAlwaysExact(cfg, acts);
    DrainedThen(cfg, RunTo(cfg, acts).sys, w);
  }

  lemma DrainedThen(cfg: Config, s: Sys, w: nat)
    requires |s.workers| <= 1 && ReadsHold(s) && CountersExact(s) && Enabled(cfg, s, IdleStop(w))
    ensures Drained(s)
  {
    BusyZero(s.workers);
  }

  // ---------------------------------------------------------------- the way through idle

  predicate InIdle(pc: Pc) { pc.IdleRun? || pc.NoTimer? || pc.NoEvent? || pc.Collected? }

  /** A worker gets into idle only when a scan found nothing, and out of it only by yielding,
      after the events and the timers were looked at, or by ending idle for good, when nothing is
      queued, nobody active and stop was requested. */
  lemma ThroughIdle(cfg: Config, s: Sys, a: Action, w: nat)
    requires Enabled(cfg, s, a) && Asserts(cfg, s, a) && w < |s.workers|
    ensures w < |Apply(cfg, s, a).workers|
    ensures var x, x' := s.workers[w], Apply(cfg, s, a).workers[w];
      && (!InIdle(x.pc) && InIdle(x'.pc) ==> x.pc == Scanned && !x.idleDone && x' == x.(pc := IdleRun))
      && (InIdle(x.pc) && !InIdle(x'.pc) ==>
            || (x.pc == IdleRun && x' == x.(pc := Head))
            || (x.pc == NoEvent && s.stop && s.queue == [] && s.active == 0 && x' == x.(pc := Head, idleDone := true)))
      && (x'.idleDone && !x.idleDone ==> InIdle(x.pc))
  {
    AnyEffect(cfg, s, a);
    if Mover(a) == Some(w) {
      if IsIdle(a) { IdleWay(cfg, s, a); } else { SwitchWay(cfg, s, a); }
    }
  }

  lemma IdleWay(cfg: Config, s: Sys, a: Action)
    requires IsIdle(a) && Enabled(cfg, s, a) && Asserts(cfg, s, a)
    ensures a.w < |s.workers| && a.w < |Apply(cfg, s, a).workers|
    ensures var x, x' := s.workers[a.w], Apply(cfg, s, a).workers[a.w];
      && x'.spare == x.spare
      && (x'.idleDone == x.idleDone || (x'.idleDone && x.pc == NoEvent && x'.pc == Head && Stopping(s)))
      && (!InIdle(x.pc) && InIdle(x'.pc) ==> x.pc == Scanned && !x.idleDone && x'.pc == IdleRun)
      && (InIdle(x.pc) && !InIdle(x'.pc) ==>
            x'.pc == Head && ((x.pc == IdleRun && x'.idleDone == x.idleDone) || (x.pc == NoEvent && Stopping(s) && x'.idleDone)))
  {
  }

  lemma SwitchWay(cfg: Config, s: Sys, a: Action)
    requires IsSwitch(a) && Enabled(cfg, s, a) && Asserts(cfg, s, a)
    ensures a.w < |s.workers| && a.w < |Apply(cfg, s, a).workers|
    ensures var x, x' := s.workers[a.w], Apply(cfg, s, a).workers[a.w];
      x'.idleDone == x.idleDone && InIdle(x.pc) == InIdle(x'.pc)
  {
    if a.Yield? { YieldTimers(cfg, s, a.w, a.to); }
  }

  // ---------------------------------------------------------------- timers become callbacks

  function Due(pc: Pc): nat { if pc.Collected? then pc.due else 0 }

  /** The callbacks taken from the timers and not yet scheduled. */
  function Owed(ws: seq<Worker>): nat {
    if ws == [] then 0 else Owed(ws[..|ws| - 1]) + Due(ws[|ws| - 1].pc)
  }

  lemma {:induction false} OwedUpdate(ws: seq<Worker>, w: nat, x: Worker)
    requires w < |ws|
    ensures Owed(ws[w := x]) == Owed(ws) - Due(ws[w].pc) + Due(x.pc)
  {
    var n := |ws| - 1;
    var vs := ws[w := x];
    if w < n {
      OwedUpdate(ws[..n], w, x);
      assert vs[..n] == ws[..n][w := x];
    } else {
      assert vs[..n] == ws[..n];
    }
  }

  lemma {:induction false} OwedNone(ws: seq<Worker>)
    requires forall w :: 0 <= w < |ws| ==> !ws[w].pc.Collected?
    ensures Owed(ws) == 0
  {
    if ws != [] { OwedNone(ws[..|ws| - 1]); }
  }

  predicate DueOk(s: Sys) { forall w :: 0 <= w < |s.workers| && s.workers[w].pc.Collected? ==> s.workers[w].pc.due > 0 }

  /** How often one of the actions of this kind occurs. */
  function Arms(acts: seq<Action>): nat {
    if acts == [] then 0 else Arms(acts[..|acts| - 1]) + if acts[|acts| - 1].ArmTimer? then 1 else 0
  }

  function Pushes(acts: seq<Action>): nat {
    if acts == [] then 0 else Pushes(acts[..|acts| - 1]) + if acts[|acts| - 1].PushTimer? then 1 else 0
  }

  lemma DueMoves(cfg: Config, s: Sys, a: Action)
    requires Mover(a).Some? && DueOk(s) && Enabled(cfg, s, a) && Asserts(cfg, s, a)
    ensures Mover(a).value < |s.workers| && Mover(a).value < |Apply(cfg, s, a).workers|
    ensures var s' := Apply(cfg, s, a);
      var pc, pc' := s.workers[Mover(a).value].pc, s'.workers[Mover(a).value].pc;
      && s'.timers + Due(pc') + (if a.PushTimer? then 1 else 0) == s.timers + Due(pc)
      && (pc'.Collected? ==> pc'.due > 0)
  {
    if IsIdle(a) {
      if !a.CollectTimers? { var x := IdleMoves(cfg, s, a); }
    } else if a.Yield? {
      YieldTimers(cfg, s, a.w, a.to);
    }
  }

  lemma YieldTimers(cfg: Config, s: Sys, w: nat, to: FiberState)
    requires Enabled(cfg, s, Yield(w, to)) && Asserts(cfg, s, Yield(w, to))
    ensures var s' := Apply(cfg, s, Yield(w, to));
      && w < |s'.workers| && w < |s.workers| && s'.timers == s.timers
      && !InIdle(s.workers[w].pc) && !InIdle(s'.workers[w].pc) && s'.workers[w].idleDone == s.workers[w].idleDone
  {
  }

  lemma TimersElse(cfg: Config, s: Sys, a: Action)
    requires Mover(a).None? && Enabled(cfg, s, a) && Asserts(cfg, s, a)
    ensures Apply(cfg, s, a).timers == s.timers + if a.ArmTimer? then 1 else 0
  {
    if a.CancelAll? { TimersStay(s, a.fd, Registered(s, a.fd)); }
    else if a.Readiness? { TimersStay(s, a.fd, RealEvents(s, a.fd, a.bits, a.err)); }
  }

  lemma TimersStay(s: Sys, fd: nat, evs: set<Event>)
    requires evs <= Registered(s, fd)
    ensures Read in evs ==> Slot(fd, Read) in s.slots
    ensures Write in evs ==> Slot(fd, Write) in TriggerIf(s, Slot(fd, Read), Read in evs).slots
    ensures TriggerIf(TriggerIf(s, Slot(fd, Read), Read in evs), Slot(fd, Write), Write in evs).timers == s.timers
  {
  }

  /** In every run, of all timers ever armed, each is still set, or was taken and is owed by the
      worker that took it, or became one callback in the queue. */
  lemma {:induction false} TimersConserved(cfg: Config, acts: seq<Action>)
    requires RunTo(cfg, acts).At?
    ensures var s := RunTo(cfg, acts).sys; Arms(acts) == s.timers + Owed(s.workers) + Pushes(acts)
    ensures DueOk(RunTo(cfg, acts).sys)
  {
    if acts == [] {
      OwedNone(InitSys(cfg).workers);
    } else {
      var n := |acts| - 1;
      TimersConserved(cfg, acts[..n]);
      var s, a := RunTo(cfg, acts[..n]).sys, acts[n];
      AnyEffect(cfg, s, a);
      if Mover(a).Some? {
        DueMoves(cfg, s, a);
        OwedUpdate(s.workers, Mover(a).value, Apply(cfg, s, a).workers[Mover(a).value]);
      } else {
        TimersElse(cfg, s, a);
      }
    }
  }

  // ---------------------------------------------------------------- an outside timer

  /** Worker 0 on its way through idle, all others at the loop head. */
  function Lone(n: nat, pc: Pc, timers: nat, stop: bool): Sys
    requires n >= 1
  {
    Sys(map[], 0, [], [], [], Rest(n)[0 := Worker(pc, None, false)], 0, map[], 0, [], {}, timers, stop)
  }

  lemma LonePc(n: nat, pc: Pc, timers: nat, stop: bool, to: Pc)
    requires n >= 1
    ensures SetPc(Lone(n, pc, timers, stop), 0, to) == Lone(n, to, timers, stop)
  {
    assert Rest(n)[0 := Worker(pc, None, false)][0 := Worker(to, None, false)] == Rest(n)[0 := Worker(to, None, false)];
  }

  function LoneActions(): seq<Action> {
    [RequestStop, Scan(0), EnterIdle(0), SeeNoTimer(0), ArmTimer(OUTSIDE), SeeNoEvent(0)]
  }

  function LoneStates(n: nat): seq<Sys>
    requires n >= 1
  {
    [Lone(n, Head, 0, false), Lone(n, Head, 0, true), Lone(n, Scanned, 0, true), Lone(n, IdleRun, 0, true),
     Lone(n, NoTimer, 0, true), Lone(n, NoTimer, 1, true), Lone(n, NoEvent, 1, true)]
  }

  lemma LoneOpening(cfg: Config)
    requires cfg.workers >= 1
    ensures var n := cfg.workers;
      && InitSys(cfg) == Lone(n, Head, 0, false)
      && Next(cfg, Lone(n, Head, 0, false), RequestStop) == At(Lone(n, Head, 0, true))
      && Next(cfg, Lone(n, Head, 0, true), Scan(0)) == At(Lone(n, Scanned, 0, true))
  {
    var n := cfg.workers;
    assert InitSys(cfg).workers == Rest(n)[0 := Worker(Head, None, false)];
    LonePc(n, Head, 0, true, Scanned);
  }

  lemma LoneIdles(cfg: Config)
    requires cfg.workers >= 1
    ensures var n := cfg.workers;
      && Next(cfg, Lone(n, Scanned, 0, true), EnterIdle(0)) == At(Lone(n, IdleRun, 0, true))
      && Next(cfg, Lone(n, IdleRun, 0, true), SeeNoTimer(0)) == At(Lone(n, NoTimer, 0, true))
  {
    LonePc(cfg.workers, Scanned, 0, true, IdleRun);
    LonePc(cfg.workers, IdleRun, 0, true, NoTimer);
  }

  lemma LoneEnding(cfg: Config)
    requires cfg.workers >= 1
    ensures var n := cfg.workers;
      && Next(cfg, Lone(n, NoTimer, 0, true), ArmTimer(OUTSIDE)) == At(Lone(n, NoTimer, 1, true))
      && Next(cfg, Lone(n, NoTimer, 1, true), SeeNoEvent(0)) == At(Lone(n, NoEvent, 1, true))
  {
    LonePc(cfg.workers, NoTimer, 1, true, NoEvent);
  }

  lemma LonePasses(cfg: Config)
    requires cfg.workers >= 1
    ensures Passes(cfg, LoneActions(), LoneStates(cfg.workers))
  {
    LoneOpening(cfg);
    LoneIdles(cfg);
    LoneEnding(cfg);
  }

  /** A timer added from outside between the first and the second read is missed. */
  lemma OutsideTimerMissed(cfg: Config)
    requires cfg.workers >= 1
    ensures !EndsDrained(cfg, true)
  {
    LonePasses(cfg);
    PassesRun(cfg, LoneActions(), LoneStates(cfg.workers), 6);
    assert Enabled(cfg, Lone(cfg.workers, NoEvent, 1, true), IdleStop(0));
  }

  // ---------------------------------------------------------------- two workers

  /** Worker 0 with fiber 0, worker 1 on its way through idle, all others at the loop head. */
  function Pair(n: nat, st: FiberState, queue: seq<nat>, done: seq<nat>, p0: Pc, p1: Pc, active: int, timers: nat): Sys
    requires n >= 2
  {
    Snap(n, st, [PUSHED], queue, done, p0, p1, active, false, []).(timers := timers, stop := true)
  }

  lemma PairPc(n: nat, st: FiberState, queue: seq<nat>, done: seq<nat>, p0: Pc, p1: Pc, active: int, timers: nat, to: Pc)
    requires n >= 2
    ensures SetPc(Pair(n, st, queue, done, p0, p1, active, timers), 0, to) == Pair(n, st, queue, done, to, p1, active, timers)
    ensures SetPc(Pair(n, st, queue, done, p0, p1, active, timers), 1, to) == Pair(n, st, queue, done, p0, to, active, timers)
  {
    SnapPc(n, st, [PUSHED], queue, done, p0, p1, active, false, [], to);
  }

  function PairActions(): seq<Action> {
    [RequestStop, ScheduleFiber(OUTSIDE, 0, -1), Scan(0), SwapIn(0), Scan(1), EnterIdle(1), SeeNoTimer(1), SeeNoEvent(1),
     ArmTimer(0)]
  }

  function PairStates(cfg: Config): (ss: seq<Sys>)
    requires cfg.workers >= 2
    ensures |ss| == |PairActions()| + 1
  {
    var n := cfg.workers;
    [InitSys(cfg), InitSys(cfg).(stop := true), Pair(n, Init, [0], [], Head, Head, 0, 0),
     Pair(n, Init, [], [0], Took(F), Head, 1, 0), Pair(n, Exec, [], [0], Run(0, false), Head, 1, 0),
     Pair(n, Exec, [], [0], Run(0, false), Scanned, 1, 0), Pair(n, Exec, [], [0], Run(0, false), IdleRun, 1, 0),
     Pair(n, Exec, [], [0], Run(0, false), NoTimer, 1, 0), Pair(n, Exec, [], [0], Run(0, false), NoEvent, 1, 0),
     Pair(n, Exec, [], [0], Run(0, false), NoEvent, 1, 1)]
  }

  lemma PairStart(cfg: Config)
    requires cfg.workers >= 2
    ensures var n := cfg.workers;
      && Next(cfg, InitSys(cfg), RequestStop) == At(InitSys(cfg).(stop := true))
      && Next(cfg, InitSys(cfg).(stop := true), ScheduleFiber(OUTSIDE, 0, -1)) == At(Pair(n, Init, [0], [], Head, Head, 0, 0))
  {
    var n := cfg.workers;
    assert InitSys(cfg).workers == Rest(n)[0 := Worker(Head, None, false)][1 := Worker(Head, None, false)];
  }

  lemma PairRuns(cfg: Config)
    requires cfg.workers >= 2
    ensures var n := cfg.workers;
      && Next(cfg, Pair(n, Init, [0], [], Head, Head, 0, 0), Scan(0)) == At(Pair(n, Init, [], [0], Took(F), Head, 1, 0))
      && Next(cfg, Pair(n, Init, [], [0], Took(F), Head, 1, 0), SwapIn(0)) == At(Pair(n, Exec, [], [0], Run(0, false), Head, 1, 0))
  {
    var n := cfg.workers;
    assert FirstEligible(Pair(n, Init, [0], [], Head, Head, 0, 0), 0, 0) == 0;
    PairPc(n, Init, [0], [], Head, Head, 0, 0, Took(F));
    PairPc(n, Exec, [], [0], Took(F), Head, 1, 0, Run(0, false));
  }

  lemma PairIdles(cfg: Config)
    requires cfg.workers >= 2
    ensures var n := cfg.workers;
      && Next(cfg, Pair(n, Exec, [], [0], Run(0, false), Head, 1, 0), Scan(1)) == At(Pair(n, Exec, [], [0], Run(0, false), Scanned, 1, 0))
      && Next(cfg, Pair(n, Exec, [], [0], Run(0, false), Scanned, 1, 0), EnterIdle(1)) == At(Pair(n, Exec, [], [0], Run(0, false), IdleRun, 1, 0))
  {
    var n := cfg.workers;
    PairPc(n, Exec, [], [0], Run(0, false), Head, 1, 0, Scanned);
    PairPc(n, Exec, [], [0], Run(0, false), Scanned, 1, 0, IdleRun);
  }

  lemma PairReads(cfg: Config)
    requires cfg.workers >= 2
    ensures var n := cfg.workers;
      && Next(cfg, Pair(n, Exec, [], [0], Run(0, false), IdleRun, 1, 0), SeeNoTimer(1)) == At(Pair(n, Exec, [], [0], Run(0, false), NoTimer, 1, 0))
      && Next(cfg, Pair(n, Exec, [], [0], Run(0, false), NoTimer, 1, 0), SeeNoEvent(1)) == At(Pair(n, Exec, [], [0], Run(0, false), NoEvent, 1, 0))
      && Next(cfg, Pair(n, Exec, [], [0], Run(0, false), NoEvent, 1, 0), ArmTimer(0)) == At(Pair(n, Exec, [], [0], Run(0, false), NoEvent, 1, 1))
  {
    var n := cfg.workers;
    PairPc(n, Exec, [], [0], Run(0, false), IdleRun, 1, 0, NoTimer);
    PairPc(n, Exec, [], [0], Run(0, false), NoTimer, 1, 0, NoEvent);
  }

  lemma PairFirst(cfg: Config, i: nat)
    requires cfg.workers >= 2 && i < 4
    ensures Next(cfg, PairStates(cfg)[i], PairActions()[i]) == At(PairStates(cfg)[i + 1])
  {
    if i < 2 { PairStart(cfg); } else { PairRuns(cfg); }
  }

  lemma PairLast(cfg: Config, i: nat)
    requires cfg.workers >= 2 && 4 <= i < 9
    ensures Next(cfg, PairStates(cfg)[i], PairActions()[i]) == At(PairStates(cfg)[i + 1])
  {
    if i < 6 { PairIdles(cfg); } else { PairReads(cfg); }
  }

  lemma PairPasses(cfg: Config)
    requires cfg.workers >= 2
    ensures Passes(cfg, PairActions(), PairStates(cfg))
  {
    forall i | 0 <= i < 9 ensures Next(cfg, PairStates(cfg)[i], PairActions()[i]) == At(PairStates(cfg)[i + 1]) {
      if i < 4 { PairFirst(cfg, i); } else { PairLast(cfg, i); }
    }
  }

  /** The fiber ends; the active count is back to 0 before idle's last read. */
  lemma PairYields(cfg: Config)
    requires cfg.workers >= 2
    ensures var n := cfg.workers;
      var s := Pair(n, Exec, [], [0], Run(0, false), NoEvent, 1, 1);
      && (cfg.fused ==> Next(cfg, s, Yield(0, Term)) == At(Pair(n, Term, [], [0], Head, NoEvent, 0, 1)))
      && (!cfg.fused ==> Next(cfg, s, Yield(0, Term)) == At(Pair(n, Term, [], [0], Leaving(0, false), NoEvent, 1, 1)))
      && (!cfg.fused ==> Next(cfg, Pair(n, Term, [], [0], Leaving(0, false), NoEvent, 1, 1), SwapBack(0))
                         == At(Pair(n, Term, [], [0], Fix(0, false), NoEvent, 0, 1)))
  {
    var n := cfg.workers;
    var s := Pair(n, Exec, [], [0], Run(0, false), NoEvent, 1, 1);
    forall p: Place ensures !Holds(s, p, F) { match p case InSlot(_) => case InQueue(_) => case AtWorker(_) => }
    PairPc(n, Term, [], [0], Run(0, false), NoEvent, 1, 1, Leaving(0, false));
    PairPc(n, Term, [], [0], Leaving(0, false), NoEvent, 0, 1, Fix(0, false));
    PairPc(n, Term, [], [0], Fix(0, false), NoEvent, 0, 1, Head);
  }

  lemma PairReached(cfg: Config)
    requires cfg.workers >= 2
    ensures RunTo(cfg, PairActions()) == At(Pair(cfg.workers, Exec, [], [0], Run(0, false), NoEvent, 1, 1))
  {
    PairPasses(cfg);
    PassesRun(cfg, PairActions(), PairStates(cfg), 9);
    assert PairActions()[..9] == PairActions();
  }

  lemma PairEndsFused(n: nat)
    requires n >= 2
    ensures RunTo(Config(n, true), PairActions() + [Yield(0, Term)]) == At(Pair(n, Term, [], [0], Head, NoEvent, 0, 1))
  {
    PairReached(Config(n, true));
    PairYields(Config(n, true));
    RunMore(Config(n, true), PairActions(), Pair(n, Exec, [], [0], Run(0, false), NoEvent, 1, 1), Yield(0, Term));
  }

  lemma PairLeaves(n: nat)
    requires n >= 2
    ensures RunTo(Config(n, false), PairActions() + [Yield(0, Term)]) == At(Pair(n, Term, [], [0], Leaving(0, false), NoEvent, 1, 1))
  {
    PairReached(Config(n, false));
    PairYields(Config(n, false));
    RunMore(Config(n, false), PairActions(), Pair(n, Exec, [], [0], Run(0, false), NoEvent, 1, 1), Yield(0, Term));
  }

  lemma PairEndsSplit(n: nat)
    requires n >= 2
    ensures RunTo(Config(n, false), PairActions() + [Yield(0, Term)] + [SwapBack(0)])
         == At(Pair(n, Term, [], [0], Fix(0, false), NoEvent, 0, 1))
  {
    PairLeaves(n);
    PairYields(Config(n, false));
    RunMore(Config(n, false), PairActions() + [Yield(0, Term)], Pair(n, Term, [], [0], Leaving(0, false), NoEvent, 1, 1), SwapBack(0));
  }

  lemma PairEnds(cfg: Config) returns (acts: seq<Action>, p: Pc)
    requires cfg.workers >= 2
    ensures RunTo(cfg, acts) == At(Pair(cfg.workers, Term, [], [0], p, NoEvent, 0, 1)) && NoOutsideTimer(acts)
  {
    acts, p := PairActions() + [Yield(0, Term)], Head;
    if cfg.fused {
      PairEndsFused(cfg.workers);
    } else {
      PairEndsSplit(cfg.workers);
      acts, p := acts + [SwapBack(0)], Fix(0, false);
    }
  }

  /** A timer added by another worker's fiber after the first read is missed. */
  lemma WorkerTimerMissed(cfg: Config)
    requires cfg.workers >= 2
    ensures !EndsDrained(cfg, false)
  {
    var acts, p := PairEnds(cfg);
    assert Enabled(cfg, RunTo(cfg, acts).sys, IdleStop(1));
  }

  /** Idle ends only in a drained system, in every run, if and only if there is at most one
      worker and no timer comes from outside the workers (or there is no worker at all). */
  lemma IdleEndsDrainedIff(cfg: Config, outside: bool)
    ensures EndsDrained(cfg, outside) <==> cfg.workers == 0 || (cfg.workers == 1 && !outside)
  {
    if cfg.workers == 0 || (cfg.workers == 1 && !outside) {
      forall acts: seq<Action>, w: nat | (outside || NoOutsideTimer(acts)) && RunTo(cfg, acts).At?
          && Enabled(cfg, RunTo(cfg, acts).sys, IdleStop(w))
        ensures Drained(RunTo(cfg, acts).sys)
      {
        if cfg.workers == 0 { NoWorkers(cfg, acts); } else { OneWorkerDrains(cfg, acts, w); }
      }
    } else if outside {
      OutsideTimerMissed(cfg);
    } else {
      WorkerTimerMissed(cfg);
    }
  }

  lemma {:induction false} NoWorkers(cfg: Config, acts: seq<Action>)
    requires cfg.workers == 0 && RunTo(cfg, acts).At?
    ensures RunTo(cfg, acts).sys.workers == []
  {
    if acts != [] {
      NoWorkers(cfg, acts[..|acts| - 1]);
      AnyEffect(cfg, RunTo(cfg, acts[..|acts| - 1]).sys, acts[|acts| - 1]);
    }
  }
}
