/**
  Which queue entries outlive the workers. An entry may be pinned to one worker; it is left
  behind exactly if that worker was no longer going to scan when the entry was pushed.
 */
module SchedulerPinned {
  import opened Basics
  import opened SchedulerModel
  import opened SchedulerInvariant
  import opened SchedulerTheorems
  import opened SchedulerDelivery

  // ---------------------------------------------------------------- what an action does to the queue

  /** Old entries stay unless the action is a scan; new ones are for any thread unless they
      are scheduled. */
  ghost predicate QueueEffect(s: Sys, a: Action, s': Sys) {
    && s.log <= s'.log
    && (forall t: nat :: t in s'.queue ==> t < |s'.log| && (t < |s.log| ==> t in s.queue))
    && (forall t: nat :: t in s.queue && t !in s'.queue ==> a.Scan? && Eligible(s, a.w, t))
    && (forall t: nat :: |s.log| <= t < |s'.log| ==>
          && t in s'.queue
          && (s'.log[t].thread != -1 ==> a.ScheduleFiber? || a.ScheduleCall?))
  }

  lemma PushKeeps(s: Sys, e: Entry)
    requires QueueOk(s)
    ensures forall t: nat :: t in Push(s, e).queue <==> t in s.queue || t == |s.log|
  {
  }

  lemma TriggersKeep(s: Sys, fd: nat, evs: set<Event>, a: Action)
    requires QueueOk(s) && evs <= Registered(s, fd)
    ensures Read in evs ==> Slot(fd, Read) in s.slots
    ensures Write in evs ==> Slot(fd, Write) in TriggerIf(s, Slot(fd, Read), Read in evs).slots
    ensures QueueEffect(s, a, TriggerIf(TriggerIf(s, Slot(fd, Read), Read in evs), Slot(fd, Write), Write in evs))
  {
    var s1 := TriggerIf(s, Slot(fd, Read), Read in evs);
    if Write in evs { assert Slot(fd, Write) in s1.slots; }
  }

  lemma ScanKeeps(cfg: Config, s: Sys, w: nat)
    requires QueueOk(s) && Enabled(cfg, s, Scan(w))
    ensures QueueEffect(s, Scan(w), ScanStep(s, w))
  {
    var i := FirstEligible(s, w, 0);
    if i < |s.queue| { RemoveAt(s.queue, i); }
  }

  lemma YieldKeeps(cfg: Config, s: Sys, w: nat, to: FiberState)
    requires QueueOk(s) && Enabled(cfg, s, Yield(w, to)) && Asserts(cfg, s, Yield(w, to))
    ensures QueueEffect(s, Yield(w, to), Apply(cfg, s, Yield(w, to)))
  {
    var s' := Apply(cfg, s, Yield(w, to));
    assert s'.queue == s.queue && s'.log == s.log;
  }

  lemma QueueEffects(cfg: Config, s: Sys, a: Action)
    requires QueueOk(s) && Enabled(cfg, s, a) && Asserts(cfg, s, a)
    ensures QueueEffect(s, a, Apply(cfg, s, a))
  {
    if a.CancelAll? {
      TriggersKeep(s, a.fd, Registered(s, a.fd), a);
    } else if a.Readiness? {
      TriggersKeep(s, a.fd, RealEvents(s, a.fd, a.bits, a.err), a);
    } else if a.Scan? {
      ScanKeeps(cfg, s, a.w);
    } else if a.Yield? {
      YieldKeeps(cfg, s, a.w, a.to);
    } else if IsIdle(a) {
      IdleKeeps(cfg, s, a);
    } else {
      OthersKeep(cfg, s, a);
    }
  }

  lemma IdleKeeps(cfg: Config, s: Sys, a: Action)
    requires QueueOk(s) && IsIdle(a) && Enabled(cfg, s, a) && Asserts(cfg, s, a)
    ensures QueueEffect(s, a, Apply(cfg, s, a))
  {
    if !a.CollectTimers? { var x := IdleMoves(cfg, s, a); }
  }

  predicate Pushes(a: Action) {
    a.ScheduleFiber? || a.ScheduleCall? || a.PushBack? || a.PushTimer? || a.CancelEvent?
  }

  lemma OthersKeep(cfg: Config, s: Sys, a: Action)
    requires QueueOk(s) && Enabled(cfg, s, a) && Asserts(cfg, s, a)
    requires !a.CancelAll? && !a.Readiness? && !a.Scan? && !a.Yield? && !IsIdle(a)
    ensures QueueEffect(s, a, Apply(cfg, s, a))
  {
    if Pushes(a) {
      var e := PushedOne(cfg, s, a);
      PushKeeps(s, e);
    } else {
      QueueStays(cfg, s, a);
    }
  }

  lemma QueueStays(cfg: Config, s: Sys, a: Action)
    requires Enabled(cfg, s, a) && Asserts(cfg, s, a) && !Pushes(a)
    requires !a.CancelAll? && !a.Readiness? && !a.Scan? && !a.Yield? && !IsIdle(a)
    ensures Apply(cfg, s, a).queue == s.queue && Apply(cfg, s, a).log == s.log
  {
  }

  lemma PushedOne(cfg: Config, s: Sys, a: Action) returns (e: Entry)
    requires Enabled(cfg, s, a) && Asserts(cfg, s, a) && Pushes(a)
    ensures Apply(cfg, s, a).queue == Push(s, e).queue && Apply(cfg, s, a).log == Push(s, e).log
    ensures e.thread != -1 ==> a.ScheduleFiber? || a.ScheduleCall?
  {
    e := Apply(cfg, s, a).log[|s.log|];
  }

  // ---------------------------------------------------------------- pinned fibers have not run

  /** Entry t is queued for one worker only. */
  predicate PinnedIn(s: Sys, t: nat) {
    t in s.queue && t < |s.log| && s.log[t].thread != -1
  }

  /** Pinned entries come from schedule, so a pinned fiber is still INIT. */
  ghost predicate PinnedFresh(s: Sys) {
    forall t: nat :: PinnedIn(s, t) && s.log[t].task.FiberTask? ==> Fresh(s, s.log[t].task.fiber)
  }

  predicate Fresh(s: Sys, g: nat) { g in s.fibers && s.fibers[g] == Init }

  /** A fiber whose token is queued and that has not run is not touched. */
  lemma SwapInKeeps(cfg: Config, s: Sys, w: nat, t: nat, g: nat)
    requires Inv(cfg, s) && Enabled(cfg, s, SwapIn(w)) && Asserts(cfg, s, SwapIn(w))
    requires t in s.queue && t < |s.log| && s.log[t].task == FiberTask(g) && Fresh(s, g)
    ensures Fresh(Apply(cfg, s, SwapIn(w)), g)
  {
    assert Holds(s, InQueue(t), FiberTask(g));
    assert Holds(s, AtWorker(w), s.workers[w].pc.task);
  }

  lemma StartCallKeeps(cfg: Config, s: Sys, w: nat, f: nat, t: nat, g: nat)
    requires Inv(cfg, s) && Enabled(cfg, s, StartCall(w, f)) && Asserts(cfg, s, StartCall(w, f))
    requires t in s.queue && t < |s.log| && s.log[t].task == FiberTask(g) && Fresh(s, g)
    ensures Fresh(Apply(cfg, s, StartCall(w, f)), g)
  {
    assert Holds(s, InQueue(t), FiberTask(g));
    if s.workers[w].spare.Some? { assert !OwnPc(s.workers[w].pc, f); }
  }

  lemma YieldKeepsFresh(cfg: Config, s: Sys, w: nat, to: FiberState, g: nat)
    requires Inv(cfg, s) && Enabled(cfg, s, Yield(w, to)) && Asserts(cfg, s, Yield(w, to)) && Fresh(s, g)
    ensures Fresh(Apply(cfg, s, Yield(w, to)), g)
  {
  }

  lemma FixUpKeepsFresh(cfg: Config, s: Sys, w: nat, g: nat)
    requires Inv(cfg, s) && Enabled(cfg, s, FixUp(w)) && Fresh(s, g)
    ensures Fresh(Apply(cfg, s, FixUp(w)), g)
  {
    assert PcOk(s, s.workers[w].pc);
  }

  lemma OthersKeepFresh(cfg: Config, s: Sys, a: Action, g: nat)
    requires Enabled(cfg, s, a) && Asserts(cfg, s, a) && Fresh(s, g)
    requires !a.SwapIn? && !a.StartCall? && !a.Yield? && !a.FixUp?
    ensures Fresh(Apply(cfg, s, a), g)
  {
  }

  lemma StaysFresh(cfg: Config, s: Sys, a: Action, t: nat, g: nat)
    requires Inv(cfg, s) && Enabled(cfg, s, a) && Asserts(cfg, s, a)
    requires t in s.queue && t < |s.log| && s.log[t].task == FiberTask(g) && Fresh(s, g)
    ensures Fresh(Apply(cfg, s, a), g)
  {
    if a.SwapIn? {
      SwapInKeeps(cfg, s, a.w, t, g);
    } else if a.StartCall? {
      StartCallKeeps(cfg, s, a.w, a.f, t, g);
    } else if a.Yield? {
      YieldKeepsFresh(cfg, s, a.w, a.to, g);
    } else if a.FixUp? {
      FixUpKeepsFresh(cfg, s, a.w, g);
    } else {
      OthersKeepFresh(cfg, s, a, g);
    }
  }

  /** A fiber scheduled with a thread is new. */
  lemma ScheduledFresh(cfg: Config, s: Sys, a: Action, t: nat)
    requires Enabled(cfg, s, a) && Asserts(cfg, s, a) && (a.ScheduleFiber? || a.ScheduleCall?)
    requires |s.log| <= t < |Apply(cfg, s, a).log| && Apply(cfg, s, a).log[t].task.FiberTask?
    ensures Fresh(Apply(cfg, s, a), Apply(cfg, s, a).log[t].task.fiber)
  {
  }

  lemma FreshStep(cfg: Config, s: Sys, a: Action)
    requires Inv(cfg, s) && PinnedFresh(s) && Enabled(cfg, s, a) && Asserts(cfg, s, a)
    ensures PinnedFresh(Apply(cfg, s, a))
  {
    var s' := Apply(cfg, s, a);
    QueueEffects(cfg, s, a);
    forall t: nat | PinnedIn(s', t) && s'.log[t].task.FiberTask? ensures Fresh(s', s'.log[t].task.fiber) {
      if t < |s.log| {
        assert PinnedIn(s, t) && s.log[t] == s'.log[t];
        StaysFresh(cfg, s, a, t, s.log[t].task.fiber);
      } else {
        ScheduledFresh(cfg, s, a, t);
      }
    }
  }

  // ---------------------------------------------------------------- late entries

  /** Worker v, if there is one, will not scan again. */
  predicate Deaf(s: Sys, v: int) {
    v < 0 || !LivesOn(s, v)
  }

  /** The entries pushed by a run for a worker that was not going to scan again. */
  ghost function Late(cfg: Config, acts: seq<Action>): set<nat>
    requires RunTo(cfg, acts).At?
  {
    if acts == [] then {}
    else
      var n := |acts| - 1;
      var s, s' := RunTo(cfg, acts[..n]).sys, RunTo(cfg, acts).sys;
      Late(cfg, acts[..n]) + LateNow(s, s')
  }

  function LateNow(s: Sys, s': Sys): set<nat> {
    set t: nat | |s.log| <= t < |s'.log| && s'.log[t].thread != -1 && Deaf(s, s'.log[t].thread)
  }

  /** Late entries stay queued for workers that stay deaf; all other pinned entries are for
      workers that will still scan. */
  ghost predicate LateOk(s: Sys, late: set<nat>) {
    && (forall t :: t in late ==> PinnedIn(s, t) && Deaf(s, s.log[t].thread))
    && (forall t: nat :: PinnedIn(s, t) && t !in late ==> !Deaf(s, s.log[t].thread))
  }

  /** A worker that will not scan again never will. */
  lemma DeafStays(cfg: Config, s: Sys, a: Action, v: int)
    requires Enabled(cfg, s, a) && Asserts(cfg, s, a) && Deaf(s, v)
    ensures Deaf(Apply(cfg, s, a), v)
  {
    AnyEffect(cfg, s, a);
    if Mover(a) == Some(v) && v >= 0 { DeafLeaves(cfg, s, a, v); }
  }

  lemma DeafLeaves(cfg: Config, s: Sys, a: Action, v: nat)
    requires Enabled(cfg, s, a) && Asserts(cfg, s, a) && Mover(a) == Some(v) && !LivesOn(s, v)
    ensures a == Leave(v) && !LivesOn(Apply(cfg, s, a), v)
  {
  }

  /** Only a scan that finds nothing makes a worker deaf, and it leaves no entry for it. */
  lemma HearingStays(cfg: Config, s: Sys, a: Action, t: nat)
    requires Inv(cfg, s) && PinnedFresh(s) && Enabled(cfg, s, a) && Asserts(cfg, s, a)
    requires PinnedIn(s, t) && !Deaf(s, s.log[t].thread)
    ensures !Deaf(Apply(cfg, s, a), s.log[t].thread)
  {
    var v := s.log[t].thread;
    AnyEffect(cfg, s, a);
    var j :| 0 <= j < |s.queue| && s.queue[j] == t;
    assert Eligible(s, v, s.queue[j]);
  }

  lemma LateStep(cfg: Config, s: Sys, a: Action, late: set<nat>)
    requires Inv(cfg, s) && PinnedFresh(s) && LateOk(s, late) && Enabled(cfg, s, a) && Asserts(cfg, s, a)
    ensures var s' := Apply(cfg, s, a); LateOk(s', late + LateNow(s, s'))
  {
    var s' := Apply(cfg, s, a);
    var late' := late + LateNow(s, s');
    QueueEffects(cfg, s, a);
    forall t | t in late' ensures PinnedIn(s', t) && Deaf(s', s'.log[t].thread) {
      if t in late {
        assert PinnedIn(s, t) && s.log[t] == s'.log[t];
        DeafStays(cfg, s, a, s.log[t].thread);
        assert a.Scan? ==> LivesOn(s, a.w);
      } else {
        DeafStays(cfg, s, a, s'.log[t].thread);
      }
    }
    forall t: nat | PinnedIn(s', t) && t !in late' ensures !Deaf(s', s'.log[t].thread) {
      if t < |s.log| {
        assert PinnedIn(s, t) && s.log[t] == s'.log[t];
        HearingStays(cfg, s, a, t);
      } else {
        AnyEffect(cfg, s, a);
      }
    }
  }

  lemma {:induction false} RunLate(cfg: Config, acts: seq<Action>)
    requires Safe(cfg) && RunTo(cfg, acts).At?
    ensures PinnedFresh(RunTo(cfg, acts).sys) && LateOk(RunTo(cfg, acts).sys, Late(cfg, acts))
  {
    if acts != [] {
      var n := |acts| - 1;
      RunLate(cfg, acts[..n]);
      RunInv(cfg, acts[..n]);
      var s := RunTo(cfg, acts[..n]).sys;
      FreshStep(cfg, s, acts[n]);
      LateStep(cfg, s, acts[n], Late(cfg, acts[..n]));
    }
  }

  /** Once every worker has left run, a pinned entry is still queued if and only if its worker
      was not going to scan again when the entry was pushed. */
  lemma PinnedLeftIff(cfg: Config, acts: seq<Action>, t: nat)
    requires Safe(cfg) && RunTo(cfg, acts).At?
    requires var s := RunTo(cfg, acts).sys;
      && (forall w :: 0 <= w < |s.workers| ==> s.workers[w].pc == Exited)
      && t < |s.log| && s.log[t].thread != -1
    ensures t in RunTo(cfg, acts).sys.queue <==> t in Late(cfg, acts)
  {
    RunLate(cfg, acts);
    AllDeaf(RunTo(cfg, acts).sys);
  }

  lemma AllDeaf(s: Sys)
    requires forall w :: 0 <= w < |s.workers| ==> s.workers[w].pc == Exited
    ensures forall v: int :: Deaf(s, v)
  {
  }

  /** Stop safety, exactly: if pushes from outside come in good time, then once every worker
      has left run the queue holds the late entries and no others, and every other entry ever
      pushed was dequeued exactly once. */
  lemma LeftExactly(cfg: Config, acts: seq<Action>)
    requires Safe(cfg) && DisciplinedRun(cfg, acts) && RunTo(cfg, acts).At?
    requires forall w :: 0 <= w < |RunTo(cfg, acts).sys.workers| ==> RunTo(cfg, acts).sys.workers[w].pc == Exited
    ensures var s := RunTo(cfg, acts).sys;
      && (forall t: nat :: t < |s.log| ==> (t in s.queue <==> t in Late(cfg, acts)))
      && (forall t: nat :: t < |s.log| ==> (t in s.done <==> t !in Late(cfg, acts)))
      && (forall i, j :: 0 <= i < j < |s.done| ==> s.done[i] != s.done[j])
  {
    RunInv(cfg, acts);
    RunLate(cfg, acts);
    var s := RunTo(cfg, acts).sys;
    forall t: nat | t < |s.log| ensures t in s.queue <==> t in Late(cfg, acts) {
      if s.log[t].thread != -1 {
        PinnedLeftIff(cfg, acts, t);
      } else if t in s.queue {
        OnlyPinnedLeft(cfg, acts, t);
      }
    }
  }

  // ---------------------------------------------------------------- a late entry

  /** Two workers with the given positions; `pushed` adds one fiber pinned to worker 0. */
  function Duo(p0: Pc, d0: bool, p1: Pc, d1: bool, pushed: bool, stop: bool): Sys {
    Sys(if pushed then map[0 := Init] else map[], 0,
        if pushed then [Entry(FiberTask(0), 0, -1)] else [], if pushed then [0] else [], [],
        [Worker(p0, None, d0), Worker(p1, None, d1)], 0, map[], 0, [], {}, 0, stop)
  }

  function PinAction(i: nat): Action {
    if i == 0 then RequestStop
    else if i == 1 then Scan(0)
    else if i == 2 then EnterIdle(0)
    else if i == 3 then SeeNoTimer(0)
    else if i == 4 then SeeNoEvent(0)
    else if i == 5 then IdleStop(0)
    else if i == 6 then Scan(1)
    else if i == 7 then EnterIdle(1)
    else if i == 8 then SeeNoTimer(1)
    else if i == 9 then SeeNoEvent(1)
    else if i == 10 then IdleStop(1)
    else if i == 11 then Scan(0)
    else if i == 12 then Leave(0)
    else if i == 13 then ScheduleFiber(OUTSIDE, 0, 0)
    else if i == 14 then Scan(1)
    else Leave(1)
  }

  function PinState(i: nat): Sys {
    if i == 0 then Duo(Head, false, Head, false, false, false)
    else if i == 1 then Duo(Head, false, Head, false, false, true)
    else if i == 2 then Duo(Scanned, false, Head, false, false, true)
    else if i == 3 then Duo(IdleRun, false, Head, false, false, true)
    else if i == 4 then Duo(NoTimer, false, Head, false, false, true)
    else if i == 5 then Duo(NoEvent, false, Head, false, false, true)
    else if i == 6 then Duo(Head, true, Head, false, false, true)
    else if i == 7 then Duo(Head, true, Scanned, false, false, true)
    else if i == 8 then Duo(Head, true, IdleRun, false, false, true)
    else if i == 9 then Duo(Head, true, NoTimer, false, false, true)
    else if i == 10 then Duo(Head, true, NoEvent, false, false, true)
    else if i == 11 then Duo(Head, true, Head, true, false, true)
    else if i == 12 then Duo(Scanned, true, Head, true, false, true)
    else if i == 13 then Duo(Exited, true, Head, true, false, true)
    else if i == 14 then Duo(Exited, true, Head, true, true, true)
    else if i == 15 then Duo(Exited, true, Scanned, true, true, true)
    else Duo(Exited, true, Exited, true, true, true)
  }

  function PinActions(): (acts: seq<Action>)
    ensures |acts| == 16 && forall i :: 0 <= i < 16 ==> acts[i] == PinAction(i)
  {
    seq(16, i requires i >= 0 => PinAction(i))
  }

  function PinStates(): (ss: seq<Sys>)
    ensures |ss| == 17 && forall i :: 0 <= i < 17 ==> ss[i] == PinState(i)
  {
    seq(17, i requires i >= 0 => PinState(i))
  }

  /** Worker 0 goes through idle. */
  lemma DuoFirst(cfg: Config)
    ensures Next(cfg, Duo(Head, false, Head, false, false, false), RequestStop) == At(Duo(Head, false, Head, false, false, true))
    ensures Next(cfg, Duo(Head, false, Head, false, false, true), Scan(0)) == At(Duo(Scanned, false, Head, false, false, true))
  {
  }

  lemma DuoFirstIdles(cfg: Config)
    ensures Next(cfg, Duo(Scanned, false, Head, false, false, true), EnterIdle(0)) == At(Duo(IdleRun, false, Head, false, false, true))
    ensures Next(cfg, Duo(IdleRun, false, Head, false, false, true), SeeNoTimer(0)) == At(Duo(NoTimer, false, Head, false, false, true))
  {
  }

  lemma DuoFirstEnds(cfg: Config)
    ensures Next(cfg, Duo(NoTimer, false, Head, false, false, true), SeeNoEvent(0)) == At(Duo(NoEvent, false, Head, false, false, true))
    ensures Next(cfg, Duo(NoEvent, false, Head, false, false, true), IdleStop(0)) == At(Duo(Head, true, Head, false, false, true))
  {
  }

  /** So does worker 1. */
  lemma DuoSecond(cfg: Config)
    ensures Next(cfg, Duo(Head, true, Head, false, false, true), Scan(1)) == At(Duo(Head, true, Scanned, false, false, true))
    ensures Next(cfg, Duo(Head, true, Scanned, false, false, true), EnterIdle(1)) == At(Duo(Head, true, IdleRun, false, false, true))
  {
  }

  lemma DuoSecondIdles(cfg: Config)
    ensures Next(cfg, Duo(Head, true, IdleRun, false, false, true), SeeNoTimer(1)) == At(Duo(Head, true, NoTimer, false, false, true))
  {
  }

  lemma DuoSecondEnds(cfg: Config)
    ensures Next(cfg, Duo(Head, true, NoTimer, false, false, true), SeeNoEvent(1)) == At(Duo(Head, true, NoEvent, false, false, true))
    ensures Next(cfg, Duo(Head, true, NoEvent, false, false, true), IdleStop(1)) == At(Duo(Head, true, Head, true, false, true))
  {
  }

  /** Worker 0 leaves, a fiber is pushed for it, and worker 1, which must not take it, leaves. */
  lemma DuoLeaves(cfg: Config)
    ensures Next(cfg, Duo(Head, true, Head, true, false, true), Scan(0)) == At(Duo(Scanned, true, Head, true, false, true))
    ensures Next(cfg, Duo(Scanned, true, Head, true, false, true), Leave(0)) == At(Duo(Exited, true, Head, true, false, true))
    ensures Next(cfg, Duo(Exited, true, Head, true, false, true), ScheduleFiber(OUTSIDE, 0, 0)) == At(Duo(Exited, true, Head, true, true, true))
  {
  }

  lemma DuoEnds(cfg: Config)
    ensures Next(cfg, Duo(Exited, true, Head, true, true, true), Scan(1)) == At(Duo(Exited, true, Scanned, true, true, true))
  {
  }

  lemma DuoGone(cfg: Config)
    ensures Next(cfg, Duo(Exited, true, Scanned, true, true, true), Leave(1)) == At(Duo(Exited, true, Exited, true, true, true))
  {
  }

  lemma PinFirst(cfg: Config, i: nat)
    requires i < 6
    ensures Next(cfg, PinState(i), PinAction(i)) == At(PinState(i + 1))
  {
    if i < 2 { DuoFirst(cfg); } else if i < 4 { DuoFirstIdles(cfg); } else { DuoFirstEnds(cfg); }
  }

  lemma PinSecond(cfg: Config, i: nat)
    requires 6 <= i < 11
    ensures Next(cfg, PinState(i), PinAction(i)) == At(PinState(i + 1))
  {
    if i < 8 { DuoSecond(cfg); } else if i == 8 { DuoSecondIdles(cfg); } else { DuoSecondEnds(cfg); }
  }

  lemma PinLast(cfg: Config, i: nat)
    requires 11 <= i < 16
    ensures Next(cfg, PinState(i), PinAction(i)) == At(PinState(i + 1))
  {
    if i < 14 { DuoLeaves(cfg); } else if i == 14 { DuoEnds(cfg); } else { DuoGone(cfg); }
  }

  lemma PinPasses(fused: bool)
    ensures Passes(Config(2, fused), PinActions(), PinStates())
  {
    var cfg := Config(2, fused);
    assert PinState(0) == InitSys(cfg);
    forall i: nat | i < 16 ensures Next(cfg, PinState(i), PinAction(i)) == At(PinState(i + 1)) {
      if i < 6 { PinFirst(cfg, i); } else if i < 11 { PinSecond(cfg, i); } else { PinLast(cfg, i); }
    }
  }

  lemma PinDisciplined(i: nat)
    requires i < 16
    ensures Disciplined(PinState(i), PinAction(i))
  {
    if i == 13 { assert LivesOn(PinState(13), 1); }
  }

  lemma PinRun(fused: bool)
    ensures RunTo(Config(2, fused), PinActions()) == At(PinState(16))
  {
    PinPasses(fused);
    PassesRun(Config(2, fused), PinActions(), PinStates(), 16);
    assert PinActions()[..16] == PinActions();
  }

  lemma PinObeys(fused: bool)
    ensures DisciplinedRun(Config(2, fused), PinActions())
  {
    var cfg, acts := Config(2, fused), PinActions();
    PinPasses(fused);
    forall i | 0 <= i < |acts| && RunTo(cfg, acts[..i]).At? ensures Disciplined(RunTo(cfg, acts[..i]).sys, acts[i]) {
      PassesRun(cfg, acts, PinStates(), i);
      PinDisciplined(i);
    }
  }

  /** There are late entries in disciplined runs: one ends with every worker gone and an entry
      pinned to the first of them still queued. */
  lemma PinnedLeftBehind(fused: bool)
    ensures DisciplinedRun(Config(2, fused), PinActions())
    ensures RunTo(Config(2, fused), PinActions()) == At(Duo(Exited, true, Exited, true, true, true))
  {
    PinObeys(fused);
    PinRun(fused);
  }
}
