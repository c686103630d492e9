/**
  That what is pushed is executed, once: a READY fiber always has a place from which a worker
  takes it, a recycled fiber serves one callback at a time, and when the workers have left,
  every entry that was not pushed too late for its worker has been executed exactly once.
 */
module SchedulerExecution {
  import opened Basics
  import opened SchedulerModel
  import opened SchedulerInvariant
  import opened SchedulerTheorems
  import opened SchedulerDelivery
  import opened SchedulerPlaces
  import opened SchedulerPinned

  // ---------------------------------------------------------------- no runnable fiber is lost

  predicate IsSpare(s: Sys, f: nat) {
    exists w :: 0 <= w < |s.workers| && s.workers[w].spare == Some(f)
  }

  /** The fiber is to be run: it is READY, or INIT and not kept for callbacks. */
  predicate Runnable(s: Sys, f: nat) {
    f in s.fibers && (s.fibers[f] == Ready || (s.fibers[f] == Init && !IsSpare(s, f)))
  }

  /** The fiber is queued or in a worker's hands. */
  ghost predicate Kept(s: Sys, f: nat) {
    exists p: Place :: !p.InSlot? && Holds(s, p, FiberTask(f))
  }

  ghost predicate RunnablesKept(s: Sys) {
    forall f: nat :: Runnable(s, f) ==> Kept(s, f)
  }

  /** A fiber whose state and whose standing as a spare did not change was kept. */
  lemma WasKept(s: Sys, s': Sys, f: nat) returns (p: Place)
    requires RunnablesKept(s) && Runnable(s', f) && f in s.fibers && s'.fibers[f] == s.fibers[f]
    requires forall v :: 0 <= v < |s.workers| && s.workers[v].spare == Some(f) ==>
      v < |s'.workers| && s'.workers[v].spare == Some(f)
    ensures !p.InSlot? && Holds(s, p, FiberTask(f))
  {
    if v :| 0 <= v < |s.workers| && s.workers[v].spare == Some(f) { assert IsSpare(s', f); }
    assert Runnable(s, f);
    p :| !p.InSlot? && Holds(s, p, FiberTask(f));
  }

  /** The queue only grows, no worker moves, and a new fiber is queued. */
  lemma GrowthKeeps(s: Sys, s': Sys)
    requires RunnablesKept(s) && s'.workers == s.workers && s.log <= s'.log
    requires forall t: nat :: t in s.queue ==> t in s'.queue
    requires forall f: nat :: f in s.fibers ==> f in s'.fibers && s'.fibers[f] == s.fibers[f]
    requires forall f: nat :: f in s'.fibers && f !in s.fibers ==> Kept(s', f)
    ensures RunnablesKept(s')
  {
    forall f: nat | Runnable(s', f) ensures Kept(s', f) {
      if f in s.fibers {
        var p := WasKept(s, s', f);
        assert Holds(s', p, FiberTask(f));
      }
    }
  }

  lemma CallKeeps(cfg: Config, s: Sys, a: Action)
    requires Inv(cfg, s) && RunnablesKept(s) && IsCall(a) && Enabled(cfg, s, a) && Asserts(cfg, s, a)
    ensures RunnablesKept(Apply(cfg, s, a))
  {
    var s' := Apply(cfg, s, a);
    if a.ScheduleFiber? { assert Holds(s', InQueue(|s.log|), FiberTask(a.f)); }
    GrowthKeeps(s, s');
  }

  lemma EventKeeps(cfg: Config, s: Sys, a: Action)
    requires Inv(cfg, s) && RunnablesKept(s) && Enabled(cfg, s, a) && Asserts(cfg, s, a)
    requires IsConsume(a) || a.WaitFiber? || a.WaitCall?
    ensures RunnablesKept(Apply(cfg, s, a))
  {
    QueueEffects(cfg, s, a);
    AnyEffect(cfg, s, a);
    EventStays(cfg, s, a);
    GrowthKeeps(s, Apply(cfg, s, a));
  }

  lemma EventStays(cfg: Config, s: Sys, a: Action)
    requires Enabled(cfg, s, a) && Asserts(cfg, s, a)
    requires IsConsume(a) || a.WaitFiber? || a.WaitCall?
    ensures Apply(cfg, s, a).fibers == s.fibers
  {
    if a.CancelAll? { TriggersStay(s, a.fd, Registered(s, a.fd)); }
    else if a.Readiness? { TriggersStay(s, a.fd, RealEvents(s, a.fd, a.bits, a.err)); }
  }

  lemma TriggersStay(s: Sys, fd: nat, evs: set<Event>)
    requires evs <= Registered(s, fd)
    ensures Read in evs ==> Slot(fd, Read) in s.slots
    ensures Write in evs ==> Slot(fd, Write) in TriggerIf(s, Slot(fd, Read), Read in evs).slots
    ensures TriggerIf(TriggerIf(s, Slot(fd, Read), Read in evs), Slot(fd, Write), Write in evs).fibers == s.fibers
  {
  }

  /** Worker w moves between positions without a fiber, the queue only grows. */
  lemma IdleMoveKeeps(s: Sys, s': Sys, w: nat)
    requires RunnablesKept(s) && w < |s.workers| && Unencumbered(s.workers[w].pc)
    requires |s'.workers| == |s.workers| && s'.workers == s.workers[w := s'.workers[w]]
    requires s'.workers[w].spare == s.workers[w].spare && s'.fibers == s.fibers
    requires s.log <= s'.log && forall t: nat :: t in s.queue ==> t in s'.queue
    ensures RunnablesKept(s')
  {
    forall f: nat | Runnable(s', f) ensures Kept(s', f) {
      var p := WasKept(s, s', f);
      assert Holds(s', p, FiberTask(f));
    }
  }

  lemma IdleKeeps(cfg: Config, s: Sys, a: Action)
    requires RunnablesKept(s) && (IsIdle(a) || a.PushTimer?) && Enabled(cfg, s, a) && Asserts(cfg, s, a)
    ensures RunnablesKept(Apply(cfg, s, a))
  {
    if IsIdle(a) && !a.CollectTimers? { var x := IdleMoves(cfg, s, a); }
    IdleMoveKeeps(s, Apply(cfg, s, a), a.w);
  }

  lemma ScanKeepsRunnables(s: Sys, w: nat)
    requires QueueOk(s) && RunnablesKept(s) && PcIs(s, w, Head)
    ensures RunnablesKept(ScanStep(s, w))
  {
    var s' := ScanStep(s, w);
    var i := FirstEligible(s, w, 0);
    if i < |s.queue| { RemoveAt(s.queue, i); }
    forall f: nat | Runnable(s', f) ensures Kept(s', f) {
      var p := WasKept(s, s', f);
      if i < |s.queue| && p == InQueue(s.queue[i]) {
        assert Holds(s', AtWorker(w), FiberTask(f));
      } else {
        assert Holds(s', p, FiberTask(f));
      }
    }
  }

  /** A worker begins to execute what it holds; nobody else loses anything. */
  lemma StartKeeps(cfg: Config, s: Sys, a: Action, w: nat)
    requires Inv(cfg, s) && RunnablesKept(s) && Enabled(cfg, s, a) && Asserts(cfg, s, a)
    requires a == SwapIn(w) || (a.StartCall? && a.w == w)
    ensures RunnablesKept(Apply(cfg, s, a))
  {
    var s' := Apply(cfg, s, a);
    var t := s.workers[w].pc.task;
    assert Holds(s, AtWorker(w), t);
    TookExecutes(cfg, s, a, w);
    var g := s'.workers[w].pc.fiber;
    forall f: nat | Runnable(s', f) ensures Kept(s', f) {
      assert f != g && s'.fibers[f] == s.fibers[f];
      var p := WasKept(s, s', f);
      assert Holds(s', p, FiberTask(f));
    }
  }

  /** Every other fiber keeps its state and its place when worker w leaves fiber f, whichever
      of the yield's steps it makes; f is kept if it is READY. */
  lemma LeaveKeeps(s: Sys, s': Sys, w: nat, f: nat)
    requires RunnablesKept(s) && w < |s.workers| && OnStack(s, w, f) && f in s'.fibers
    requires |s'.workers| == |s.workers| && s'.workers == s.workers[w := s'.workers[w]]
    requires s'.fibers == s.fibers[f := s'.fibers[f]] && s'.log == s.log && s'.queue == s.queue
    requires s'.workers[w].spare == s.workers[w].spare || s.workers[w].spare == Some(f)
    requires s'.fibers[f] == Ready ==> PcHolds(s', s'.workers[w].pc, FiberTask(f))
    requires s'.fibers[f] == Init ==> s'.workers[w].spare == Some(f)
    ensures RunnablesKept(s')
  {
    forall g: nat | Runnable(s', g) ensures Kept(s', g) {
      if g == f {
        assert !IsSpare(s', f) ==> s'.workers[w].spare != Some(f);
        assert Holds(s', AtWorker(w), FiberTask(f));
      } else {
        var p := WasKept(s, s', g);
        assert Holds(s', p, FiberTask(g));
      }
    }
  }

  /** What the fiber asks for is what it becomes, a finished recycled fiber INIT at the fix-up. */
  lemma YieldBecomes(cfg: Config, s: Sys, w: nat, to: FiberState)
    requires Enabled(cfg, s, Yield(w, to)) && Asserts(cfg, s, Yield(w, to))
    ensures var s' := Apply(cfg, s, Yield(w, to));
      var pc := s.workers[w].pc;
      && s'.fibers == s.fibers[pc.fiber := if cfg.fused && pc.own && to in {Term, Except} then Init else to]
      && s'.log == s.log && s'.queue == s.queue && MovesOnly(s, s', Some(w))
  {
    if cfg.fused { FusedEffect(cfg, s, w, to); }
  }

  lemma YieldPc(cfg: Config, s: Sys, w: nat, to: FiberState)
    requires Enabled(cfg, s, Yield(w, to)) && Asserts(cfg, s, Yield(w, to))
    ensures var s' := Apply(cfg, s, Yield(w, to));
      var f := s.workers[w].pc.fiber;
      && w < |s'.workers|
      && (to == Ready ==> s'.workers[w].pc in {Requeue(f), Leaving(f, s.workers[w].pc.own)})
      && (s'.workers[w].spare == s.workers[w].spare
          || (s.workers[w].pc.own && s'.workers[w].spare.None? && to !in {Term, Except}))
  {
  }

  lemma YieldKeepsRunnables(cfg: Config, s: Sys, w: nat, to: FiberState)
    requires Inv(cfg, s) && RunnablesKept(s) && Enabled(cfg, s, Yield(w, to)) && Asserts(cfg, s, Yield(w, to))
    ensures RunnablesKept(Apply(cfg, s, Yield(w, to)))
  {
    YieldBecomes(cfg, s, w, to);
    YieldPc(cfg, s, w, to);
    LeaveKeeps(s, Apply(cfg, s, Yield(w, to)), w, s.workers[w].pc.fiber);
  }

  lemma FixUpKeepsRunnables(cfg: Config, s: Sys, a: Action)
    requires Inv(cfg, s) && RunnablesKept(s) && (a.SwapBack? || a.FixUp?) && Enabled(cfg, s, a) && Asserts(cfg, s, a)
    ensures RunnablesKept(Apply(cfg, s, a))
  {
    assert PcOk(s, s.workers[a.w].pc);
    LeaveKeeps(s, Apply(cfg, s, a), a.w, s.workers[a.w].pc.fiber);
  }

  lemma PushBackKeeps(cfg: Config, s: Sys, w: nat)
    requires RunnablesKept(s) && Enabled(cfg, s, PushBack(w))
    ensures RunnablesKept(Apply(cfg, s, PushBack(w)))
  {
    var s' := Apply(cfg, s, PushBack(w));
    var g := s.workers[w].pc.fiber;
    assert Holds(s', InQueue(|s.log|), FiberTask(g));
    forall f: nat | Runnable(s', f) && f != g ensures Kept(s', f) {
      var p := WasKept(s, s', f);
      assert Holds(s', p, FiberTask(f));
    }
  }

  lemma KeptStep(cfg: Config, s: Sys, a: Action)
    requires Inv(cfg, s) && RunnablesKept(s) && Enabled(cfg, s, a) && Asserts(cfg, s, a)
    ensures RunnablesKept(Apply(cfg, s, a))
  {
    if IsCall(a) {
      CallKeeps(cfg, s, a);
    } else if IsConsume(a) || a.WaitFiber? || a.WaitCall? {
      EventKeeps(cfg, s, a);
    } else if IsIdle(a) || a.PushTimer? {
      IdleKeeps(cfg, s, a);
    } else {
      match a
      case Scan(w) => ScanKeepsRunnables(s, w);
      case SwapIn(w) => StartKeeps(cfg, s, a, w);
      case StartCall(w, _) => StartKeeps(cfg, s, a, w);
      case Yield(w, to) => YieldKeepsRunnables(cfg, s, w, to);
      case SwapBack(_) => FixUpKeepsRunnables(cfg, s, a);
      case FixUp(_) => FixUpKeepsRunnables(cfg, s, a);
      case PushBack(w) => PushBackKeeps(cfg, s, w);
    }
  }

  lemma {:induction false} RunKeeps(cfg: Config, acts: seq<Action>)
    requires Safe(cfg) && RunTo(cfg, acts).At?
    ensures RunnablesKept(RunTo(cfg, acts).sys)
  {
    if acts != [] {
      var n := |acts| - 1;
      RunKeeps(cfg, acts[..n]);
      RunInv(cfg, acts[..n]);
      KeptStep(cfg, RunTo(cfg, acts[..n]).sys, acts[n]);
    }
  }

  /** In every reachable state: a fiber that is READY, or INIT and not kept for callbacks, is
      in exactly one place, and that is the queue or a worker's hands, not an event context. */
  lemma RunnableInOnePlace(cfg: Config, acts: seq<Action>, f: nat)
    requires Safe(cfg) && RunTo(cfg, acts).At? && Runnable(RunTo(cfg, acts).sys, f)
    ensures InOnePlace(RunTo(cfg, acts).sys, FiberTask(f)) && Kept(RunTo(cfg, acts).sys, f)
  {
    RunInv(cfg, acts);
    RunKeeps(cfg, acts);
    var s := RunTo(cfg, acts).sys;
    var p: Place :| !p.InSlot? && Holds(s, p, FiberTask(f));
    HeldOnce(cfg, s, p, FiberTask(f));
  }

  // ---------------------------------------------------------------- the life of a fiber

  function StateOf(s: Sys, f: nat): Option<FiberState> {
    if f in s.fibers then Some(s.fibers[f]) else None
  }

  /** A fiber is made INIT, or executing at once; it executes from INIT, HOLD and READY only,
      and then ends or yields; once it has ended it stays so, unless it is a worker's recycled
      fiber, which becomes INIT. */
  predicate LifeGoesOn(s: Sys, s': Sys, f: nat) {
    var before, after := StateOf(s, f), StateOf(s', f);
    || after == before
    || match before
       case None => after in {Some(Init), Some(Exec)}
       case Some(Exec) => after in {Some(Hold), Some(Ready), Some(Term), Some(Except)} || (after == Some(Init) && IsSpare(s', f))
       case Some(Term) => after == Some(Init) && IsSpare(s', f)
       case Some(Except) => after == Some(Init) && IsSpare(s', f)
       case Some(_) => after == Some(Exec)
  }

  lemma YieldLife(cfg: Config, s: Sys, w: nat, to: FiberState, f: nat)
    requires Inv(cfg, s) && Enabled(cfg, s, Yield(w, to)) && Asserts(cfg, s, Yield(w, to))
    ensures LifeGoesOn(s, Apply(cfg, s, Yield(w, to)), f)
  {
    YieldBecomes(cfg, s, w, to);
    YieldPc(cfg, s, w, to);
    var s' := Apply(cfg, s, Yield(w, to));
    if s.workers[w].pc.own && to in {Term, Except} {
      assert s'.workers[w].spare == Some(s.workers[w].pc.fiber);
    }
  }

  lemma FixUpLife(cfg: Config, s: Sys, w: nat, f: nat)
    requires Inv(cfg, s) && Enabled(cfg, s, FixUp(w))
    ensures LifeGoesOn(s, Apply(cfg, s, FixUp(w)), f)
  {
    assert PcOk(s, s.workers[w].pc);
    var s' := Apply(cfg, s, FixUp(w));
    if StateOf(s', f) != StateOf(s, f) { assert s'.workers[w].spare == Some(f); }
  }

  lemma StartLife(cfg: Config, s: Sys, a: Action, w: nat, f: nat)
    requires Inv(cfg, s) && Enabled(cfg, s, a) && Asserts(cfg, s, a)
    requires a == SwapIn(w) || (a.StartCall? && a.w == w)
    ensures LifeGoesOn(s, Apply(cfg, s, a), f)
  {
    assert Holds(s, AtWorker(w), s.workers[w].pc.task);
    TookExecutes(cfg, s, a, w);
  }

  lemma OthersLive(cfg: Config, s: Sys, a: Action, f: nat)
    requires !a.SwapIn? && !a.StartCall? && !a.Yield? && !a.FixUp?
    requires Enabled(cfg, s, a) && Asserts(cfg, s, a)
    ensures StateOf(Apply(cfg, s, a), f) == (if a.ScheduleFiber? && f == a.f then Some(Init) else StateOf(s, f))
  {
  }

  /** Whatever a worker or an outside thread does, every fiber's life goes on like that. */
  lemma FiberLife(cfg: Config, acts: seq<Action>, a: Action, f: nat)
    requires Safe(cfg) && RunTo(cfg, acts).At? && RunTo(cfg, acts + [a]).At?
    ensures LifeGoesOn(RunTo(cfg, acts).sys, RunTo(cfg, acts + [a]).sys, f)
  {
    RunInv(cfg, acts);
    var s := RunTo(cfg, acts).sys;
    RunMore(cfg, acts, s, a);
    LifeStep(cfg, s, a, f);
  }

  lemma LifeStep(cfg: Config, s: Sys, a: Action, f: nat)
    requires Inv(cfg, s) && Enabled(cfg, s, a) && Asserts(cfg, s, a)
    ensures LifeGoesOn(s, Apply(cfg, s, a), f)
  {
    if a.SwapIn? || a.StartCall? {
      StartLife(cfg, s, a, a.w, f);
    } else if a.Yield? {
      YieldLife(cfg, s, a.w, a.to, f);
    } else if a.FixUp? {
      FixUpLife(cfg, s, a.w, f);
    } else {
      OthersLive(cfg, s, a, f);
      if a.ScheduleFiber? && f == a.f { NewInit(cfg, s, a, f); }
    }
  }

  lemma NewInit(cfg: Config, s: Sys, a: Action, f: nat)
    requires Enabled(cfg, s, a) && a.ScheduleFiber? && f == a.f
    ensures StateOf(s, f).None?
  {
  }

  // ---------------------------------------------------------------- one callback at a time

  predicate Ended(s: Sys, f: nat) {
    f !in s.fibers || s.fibers[f] in {Term, Except, Init}
  }

  /** The callback entry each fiber serves: from the step that executes the entry on it until
      the fiber has ended. */
  ghost function Serving(cfg: Config, acts: seq<Action>): map<nat, nat>
    requires RunTo(cfg, acts).At?
  {
    if acts == [] then map[]
    else
      var n := |acts| - 1;
      var s' := RunTo(cfg, acts).sys;
      var m := Serving(cfg, acts[..n]);
      Serves(map f | f in m && !Ended(s', f) :: m[f], Records(cfg, acts[..n]).runs, Records(cfg, acts).runs, s')
  }

  /** If the last step executed a callback, its fiber serves it. */
  function Serves(m: map<nat, nat>, runs: seq<Ran>, runs': seq<Ran>, s': Sys): map<nat, nat> {
    if |runs'| <= |runs| then m
    else
      var e := runs'[|runs'| - 1];
      if e.entry < |s'.log| && s'.log[e.entry].task.CallTask? then m[e.fiber := e.entry] else m
  }

  /** The worker's recycled fiber serves a callback as long as it executes. */
  ghost predicate ServingOk(s: Sys, m: map<nat, nat>) {
    && (forall f :: f in m ==> !Ended(s, f) && m[f] < |s.log| && s.log[m[f]].task.CallTask?)
    && (forall w :: 0 <= w < |s.workers| && s.workers[w].pc.Run? && s.workers[w].pc.own ==> s.workers[w].pc.fiber in m)
  }

  /** A worker begins to execute a fiber only by taking up what it had dequeued. */
  lemma RunsFromTook(cfg: Config, s: Sys, a: Action, w: nat)
    requires Enabled(cfg, s, a) && Asserts(cfg, s, a)
    requires w < |Apply(cfg, s, a).workers| && Apply(cfg, s, a).workers[w].pc.Run?
    ensures w < |s.workers| && (s.workers[w].pc.Took? || s.workers[w].pc == Apply(cfg, s, a).workers[w].pc)
    ensures s.workers[w].pc.Took? ==> a == SwapIn(w) || (a.StartCall? && a.w == w)
  {
    AnyEffect(cfg, s, a);
    if Mover(a) == Some(w) && !Hands(a) { NoneRuns(cfg, s, a); }
  }

  lemma NoneRuns(cfg: Config, s: Sys, a: Action)
    requires Mover(a).Some? && !Hands(a) && Enabled(cfg, s, a) && Asserts(cfg, s, a)
    ensures var w := Mover(a).value; w < |Apply(cfg, s, a).workers| && !Apply(cfg, s, a).workers[w].pc.Run?
  {
    AnyEffect(cfg, s, a);
    if IsIdle(a) && !a.CollectTimers? { var x := IdleMoves(cfg, s, a); }
  }

  /** The step that executes an entry adds it to the record; no other step does. */
  lemma RecordGrows(cfg: Config, s: Sys, a: Action, r: Record)
    requires Inv(cfg, s) && RecordOk(s, r) && Enabled(cfg, s, a) && Asserts(cfg, s, a)
    ensures var s' := Apply(cfg, s, a);
      var r' := Recorded(r, s, s', Mover(a));
      if a.SwapIn? || a.StartCall? then
        && a.w in r.hands && a.w < |s.workers| && a.w < |s'.workers| && s'.workers[a.w].pc.Run?
        && r'.runs == r.runs + [Ran(r.hands[a.w], s'.workers[a.w].pc.fiber)]
        && r.hands[a.w] < |s.log| && s.workers[a.w].pc == Took(s.log[r.hands[a.w]].task)
      else r'.runs == r.runs
  {
    if a.SwapIn? || a.StartCall? {
      assert HandOk(s, r, a.w);
      TookExecutes(cfg, s, a, a.w);
    } else if !a.Scan? {
      OtherRecord(cfg, s, a, r);
    }
  }

  /** The entries executed before this step, and perhaps one more, on a fiber that executes now. */
  predicate OneMore(s: Sys, s': Sys, runs: seq<Ran>, runs': seq<Ran>) {
    || runs' == runs
    || (&& |runs'| == |runs| + 1 && runs'[..|runs|] == runs
        && var e := runs'[|runs|]; e.entry < |s.log| && e.fiber in s'.fibers && s'.fibers[e.fiber] == Exec)
  }

  /** Worker w's recycled fiber executes: it did before, or the last entry is what it executes. */
  predicate OwnRunOk(s: Sys, s': Sys, runs: seq<Ran>, runs': seq<Ran>, w: nat)
    requires w < |s'.workers| && s'.workers[w].pc.Run?
  {
    var g := s'.workers[w].pc.fiber;
    && g in s'.fibers && s'.fibers[g] == Exec
    && (|| (w < |s.workers| && s.workers[w].pc == s'.workers[w].pc)
        || (|runs'| == |runs| + 1 && runs'[|runs|].fiber == g && runs'[|runs|].entry < |s.log|
            && s.log[runs'[|runs|].entry].task.CallTask?))
  }

  lemma ServingMoves(s: Sys, s': Sys, m: map<nat, nat>, runs: seq<Ran>, runs': seq<Ran>)
    requires ServingOk(s, m) && s.log <= s'.log && OneMore(s, s', runs, runs')
    requires forall w: nat :: w < |s'.workers| && s'.workers[w].pc.Run? && s'.workers[w].pc.own ==>
      OwnRunOk(s, s', runs, runs', w)
    ensures ServingOk(s', Serves(map f | f in m && !Ended(s', f) :: m[f], runs, runs', s'))
  {
    var m' := Serves(map f | f in m && !Ended(s', f) :: m[f], runs, runs', s');
    forall w: nat | w < |s'.workers| && s'.workers[w].pc.Run? && s'.workers[w].pc.own ensures s'.workers[w].pc.fiber in m' {
      assert OwnRunOk(s, s', runs, runs', w);
    }
  }

  lemma OwnRuns(cfg: Config, s: Sys, a: Action, r: Record, w: nat)
    requires Inv(cfg, s) && RecordOk(s, r) && Enabled(cfg, s, a) && Asserts(cfg, s, a)
    requires var s' := Apply(cfg, s, a);
      w < |s'.workers| && s'.workers[w].pc.Run? && s'.workers[w].pc.own && PcOk(s', s'.workers[w].pc)
    ensures var s' := Apply(cfg, s, a); OwnRunOk(s, s', r.runs, Recorded(r, s, s', Mover(a)).runs, w)
  {
    RunsFromTook(cfg, s, a, w);
    if s.workers[w].pc.Took? {
      RecordGrows(cfg, s, a, r);
      TookExecutes(cfg, s, a, w);
    }
  }

  lemma ServingStep(cfg: Config, s: Sys, a: Action, r: Record, m: map<nat, nat>)
    requires Inv(cfg, s) && RecordOk(s, r) && ServingOk(s, m) && Enabled(cfg, s, a) && Asserts(cfg, s, a)
    requires Inv(cfg, Apply(cfg, s, a))
    ensures var s' := Apply(cfg, s, a);
      ServingOk(s', Serves(map f | f in m && !Ended(s', f) :: m[f], r.runs, Recorded(r, s, s', Mover(a)).runs, s'))
  {
    var s' := Apply(cfg, s, a);
    var runs' := Recorded(r, s, s', Mover(a)).runs;
    assert OneMore(s, s', r.runs, runs') by {
      RecordGrows(cfg, s, a, r);
      if a.SwapIn? || a.StartCall? { TookExecutes(cfg, s, a, a.w); }
    }
    assert s.log <= s'.log by { QueueEffects(cfg, s, a); }
    forall w: nat | w < |s'.workers| && s'.workers[w].pc.Run? && s'.workers[w].pc.own
      ensures OwnRunOk(s, s', r.runs, runs', w)
    {
      assert PcOk(s', s'.workers[w].pc);
      OwnRuns(cfg, s, a, r, w);
    }
    ServingMoves(s, s', m, r.runs, runs');
  }

  lemma {:induction false} RunServing(cfg: Config, acts: seq<Action>)
    requires Safe(cfg) && RunTo(cfg, acts).At?
    ensures ServingOk(RunTo(cfg, acts).sys, Serving(cfg, acts))
  {
    if acts != [] {
      var n := |acts| - 1;
      RunServing(cfg, acts[..n]);
      RunRecord(cfg, acts[..n]);
      RunInv(cfg, acts[..n]);
      RunInv(cfg, acts);
      ServingStep(cfg, RunTo(cfg, acts[..n]).sys, acts[n], Records(cfg, acts[..n]), Serving(cfg, acts[..n]));
    }
  }

  /** The recycled fiber has ended, and been reset, when a callback is put on it. */
  lemma FreshForCall(cfg: Config, s: Sys, a: Action, r: Record, m: map<nat, nat>, e: Ran)
    requires Inv(cfg, s) && RecordOk(s, r) && ServingOk(s, m) && Enabled(cfg, s, a) && Asserts(cfg, s, a)
    requires Recorded(r, s, Apply(cfg, s, a), Mover(a)).runs == r.runs + [e]
    requires e.entry < |s.log| && s.log[e.entry].task.CallTask?
    ensures e.fiber !in m
    ensures a.StartCall? && Apply(cfg, s, a).log == s.log
  {
    RecordGrows(cfg, s, a, r);
    var s' := Apply(cfg, s, a);
    var r' := Recorded(r, s, s', Mover(a));
    assert r'.runs[|r.runs|] == e;
    assert a.SwapIn? || a.StartCall?;
    TookExecutes(cfg, s, a, a.w);
  }

  /** In every run: a callback is executed only on a fiber whose last callback, if any, has
      ended, and from that step on the fiber serves it until the fiber has ended itself. */
  lemma OneCallbackAtATime(cfg: Config, acts: seq<Action>, n: nat, e: Ran)
    requires Safe(cfg) && RunTo(cfg, acts).At? && |acts| == n + 1 && RunTo(cfg, acts[..n]).At?
    requires Records(cfg, acts).runs == Records(cfg, acts[..n]).runs + [e]
    requires e.entry < |RunTo(cfg, acts[..n]).sys.log| && RunTo(cfg, acts[..n]).sys.log[e.entry].task.CallTask?
    ensures e.fiber !in Serving(cfg, acts[..n])
    ensures e.fiber in Serving(cfg, acts) && Serving(cfg, acts)[e.fiber] == e.entry
  {
    RunInv(cfg, acts[..n]);
    RunRecord(cfg, acts[..n]);
    RunServing(cfg, acts[..n]);
    FreshForCall(cfg, RunTo(cfg, acts[..n]).sys, acts[n], Records(cfg, acts[..n]), Serving(cfg, acts[..n]), e);
    assert Records(cfg, acts).runs[|Records(cfg, acts[..n]).runs|] == e;
  }

  // ---------------------------------------------------------------- nobody is stuck

  /** There is always a number for a new fiber. */
  lemma {:induction false} NewFiber(fibers: set<nat>) returns (f: nat)
    ensures forall g: nat :: g in fibers ==> g < f
    decreases fibers
  {
    if fibers == {} {
      f := 0;
    } else {
      var g: nat :| g in fibers;
      var h := NewFiber(fibers - {g});
      f := if h > g then h else g + 1;
      forall e: nat | e in fibers ensures e < f { assert e == g || e in fibers - {g}; }
    }
  }

  /** In every reachable state every worker that has not left run can go on. */
  lemma NeverStuck(cfg: Config, acts: seq<Action>, w: nat) returns (a: Action)
    requires Safe(cfg) && RunTo(cfg, acts).At? && w < cfg.workers
    requires !PcIs(RunTo(cfg, acts).sys, w, Exited)
    ensures Mover(a) == Some(w) && RunTo(cfg, acts + [a]).At?
  {
    RunInv(cfg, acts);
    var s := RunTo(cfg, acts).sys;
    a := StepOf(cfg, s, w);
    RunMore(cfg, acts, s, a);
  }

  lemma StartOf(cfg: Config, s: Sys, w: nat) returns (a: Action)
    requires Inv(cfg, s) && w < |s.workers| && s.workers[w].pc.Took?
    ensures Mover(a) == Some(w) && Enabled(cfg, s, a) && Asserts(cfg, s, a)
  {
    var x := s.workers[w];
    assert PcOk(s, x.pc);
    assert Holds(s, AtWorker(w), x.pc.task);
    if x.pc.task.FiberTask? {
      a := SwapIn(w);
    } else {
      var f := NewFiber(s.fibers.Keys);
      a := StartCall(w, if x.spare.Some? then x.spare.value else f);
    }
  }

  lemma StepOf(cfg: Config, s: Sys, w: nat) returns (a: Action)
    requires Inv(cfg, s) && w < |s.workers| && !s.workers[w].pc.Exited? && (cfg.fused ==> !Unsettled(s))
    ensures Mover(a) == Some(w) && Enabled(cfg, s, a) && Asserts(cfg, s, a)
  {
    var x := s.workers[w];
    assert PcOk(s, x.pc);
    match x.pc
    case Head => a := Scan(w);
    case Took(_) => a := StartOf(cfg, s, w);
    case Run(f, _) => a := Yield(w, Hold);
    case Leaving(_, _) => a := SwapBack(w);
    case Fix(_, _) => a := FixUp(w);
    case Requeue(_) => a := PushBack(w);
    case Scanned => a := if x.idleDone then Leave(w) else EnterIdle(w);
    case IdleRun => a := IdleYield(w);
    case NoTimer => a := if s.pending == 0 then SeeNoEvent(w) else KeepIdling(w);
    case NoEvent => a := if Stopping(s) then IdleStop(w) else KeepIdling(w);
    case Collected(_) => a := PushTimer(w);
  }

  // ---------------------------------------------------------------- each callback once

  /** Every callback was queued at most once, and not at all while it is registered. */
  ghost predicate CallsOnce(s: Sys) {
    && (forall t :: 0 <= t < |s.log| && s.log[t].task.CallTask? ==> s.log[t].task.call < s.calls)
    && (forall k :: k in s.slots && s.slots[k].task.CallTask? ==> s.slots[k].task.call < s.calls)
    && (forall t, u :: 0 <= t < u < |s.log| && s.log[t].task.CallTask? ==> s.log[t].task != s.log[u].task)
    && (forall t, k :: 0 <= t < |s.log| && k in s.slots && s.log[t].task.CallTask? ==> s.log[t].task != s.slots[k].task)
    && (forall j, k :: j in s.slots && k in s.slots && s.slots[j].task.CallTask? && s.slots[j].task == s.slots[k].task ==> j == k)
  }

  /** Nothing, or one entry that is not for an old callback, is added; the contexts stay. */
  lemma PlainCalls(s: Sys, s': Sys)
    requires CallsOnce(s) && s'.slots == s.slots && s'.calls >= s.calls
    requires s'.log == s.log || exists e: Entry :: s'.log == s.log + [e] && (e.task.CallTask? ==> s.calls <= e.task.call < s'.calls)
    ensures CallsOnce(s')
  {
  }

  lemma TriggerCalls(s: Sys, k: Slot)
    requires CallsOnce(s) && k in s.slots
    ensures CallsOnce(Trigger(s, k))
  {
  }

  lemma BothCalls(s: Sys, fd: nat, evs: set<Event>)
    requires CallsOnce(s) && evs <= Registered(s, fd)
    ensures Read in evs ==> Slot(fd, Read) in s.slots
    ensures Write in evs ==> Slot(fd, Write) in TriggerIf(s, Slot(fd, Read), Read in evs).slots
    ensures CallsOnce(TriggerIf(TriggerIf(s, Slot(fd, Read), Read in evs), Slot(fd, Write), Write in evs))
  {
    if Read in evs { TriggerCalls(s, Slot(fd, Read)); }
    var s1 := TriggerIf(s, Slot(fd, Read), Read in evs);
    if Write in evs { TriggerCalls(s1, Slot(fd, Write)); }
  }

  /** What is pushed other than from the contexts. */
  lemma PlainPush(cfg: Config, s: Sys, a: Action)
    requires Enabled(cfg, s, a) && Asserts(cfg, s, a) && (IsCall(a) || a.PushTimer? || a.PushBack?)
    ensures var s' := Apply(cfg, s, a);
      match a
      case ScheduleFiber(_, f, thread) => s'.log == s.log + [Entry(FiberTask(f), thread, -1)] && s'.calls == s.calls
      case ScheduleCall(_, thread) => s'.log == s.log + [Entry(CallTask(s.calls), thread, -1)] && s'.calls == s.calls + 1
      case PushTimer(_) => s'.log == s.log + [Entry(CallTask(s.calls), -1, -1)] && s'.calls == s.calls + 1
      case PushBack(w) => s'.log == s.log + [Entry(FiberTask(s.workers[w].pc.fiber), -1, -1)] && s'.calls == s.calls
      case _ => s'.log == s.log && s'.calls == s.calls
    ensures Apply(cfg, s, a).slots == s.slots
  {
  }

  lemma OtherCalls(cfg: Config, s: Sys, a: Action)
    requires Enabled(cfg, s, a) && Asserts(cfg, s, a)
    requires Mover(a).Some? && !a.PushTimer? && !a.PushBack?
    ensures Apply(cfg, s, a).log == s.log && Apply(cfg, s, a).calls == s.calls && Apply(cfg, s, a).slots == s.slots
  {
    if IsIdle(a) {
      if !a.CollectTimers? { var x := IdleMoves(cfg, s, a); }
    } else if a.Yield? {
      YieldCalls(cfg, s, a.w, a.to);
    }
  }

  lemma YieldCalls(cfg: Config, s: Sys, w: nat, to: FiberState)
    requires Enabled(cfg, s, Yield(w, to)) && Asserts(cfg, s, Yield(w, to))
    ensures var s' := Apply(cfg, s, Yield(w, to)); s'.log == s.log && s'.calls == s.calls && s'.slots == s.slots
  {
  }

  lemma ConsumeCalls(cfg: Config, s: Sys, a: Action)
    requires CallsOnce(s) && IsConsume(a) && Enabled(cfg, s, a) && Asserts(cfg, s, a)
    ensures CallsOnce(Apply(cfg, s, a))
  {
    match a
    case DelEvent(_, k) =>
    case CancelEvent(_, k) => TriggerCalls(s, k);
    case CancelAll(_, fd) => BothCalls(s, fd, Registered(s, fd));
    case Readiness(_, fd, bits, err) => BothCalls(s, fd, RealEvents(s, fd, bits, err));
  }

  lemma RegisterCalls(cfg: Config, s: Sys, a: Action)
    requires CallsOnce(s) && (a.WaitFiber? || a.WaitCall?) && Enabled(cfg, s, a) && Asserts(cfg, s, a)
    ensures CallsOnce(Apply(cfg, s, a))
  {
  }

  lemma CallsStep(cfg: Config, s: Sys, a: Action)
    requires CallsOnce(s) && Enabled(cfg, s, a) && Asserts(cfg, s, a)
    ensures CallsOnce(Apply(cfg, s, a))
  {
    if IsCall(a) || a.PushTimer? || a.PushBack? {
      PlainPush(cfg, s, a);
      PlainCalls(s, Apply(cfg, s, a));
    } else if Mover(a).Some? {
      OtherCalls(cfg, s, a);
      PlainCalls(s, Apply(cfg, s, a));
    } else if IsConsume(a) {
      ConsumeCalls(cfg, s, a);
    } else {
      RegisterCalls(cfg, s, a);
    }
  }

  lemma {:induction false} RunCalls(cfg: Config, acts: seq<Action>)
    requires RunTo(cfg, acts).At?
    ensures CallsOnce(RunTo(cfg, acts).sys)
  {
    if acts != [] {
      var n := |acts| - 1;
      RunCalls(cfg, acts[..n]);
      CallsStep(cfg, RunTo(cfg, acts[..n]).sys, acts[n]);
    }
  }

  /** In every run no entry is executed twice and no callback is: of two executions neither
      the entries nor, if they are for callbacks, the callbacks are the same. */
  lemma ExecutedAtMostOnce(cfg: Config, acts: seq<Action>, j: nat, k: nat)
    requires Safe(cfg) && RunTo(cfg, acts).At? && j < k < |Records(cfg, acts).runs|
    ensures var s, runs := RunTo(cfg, acts).sys, Records(cfg, acts).runs;
      && runs[j].entry < |s.log| && runs[k].entry < |s.log| && runs[j].entry != runs[k].entry
      && (s.log[runs[j].entry].task.CallTask? ==> s.log[runs[j].entry].task != s.log[runs[k].entry].task)
  {
    RunRecord(cfg, acts);
    RunCalls(cfg, acts);
    var s, runs := RunTo(cfg, acts).sys, Records(cfg, acts).runs;
    assert RanOk(s, runs[j]) && RanOk(s, runs[k]);
  }

  predicate EntryFor(s: Sys, t: nat, c: nat) { t < |s.log| && s.log[t].task == CallTask(c) }

  predicate RegistrationFor(s: Sys, n: nat, c: nat) { n < |s.regs| && s.regs[n] == CallTask(c) }

  ghost predicate CallKnown(s: Sys, c: nat) {
    (exists t: nat :: EntryFor(s, t, c)) || (exists n: nat :: RegistrationFor(s, n, c))
  }

  ghost predicate CallsKnown(s: Sys) {
    forall c: nat :: c < s.calls ==> CallKnown(s, c)
  }

  lemma KnownGrows(s: Sys, s': Sys)
    requires CallsKnown(s) && s.log <= s'.log && s.regs <= s'.regs && s'.calls <= s.calls + 1
    requires s'.calls > s.calls ==> CallKnown(s', s.calls)
    ensures CallsKnown(s')
  {
    forall c: nat | c < s.calls ensures CallKnown(s', c) {
      assert CallKnown(s, c);
      if t: nat :| EntryFor(s, t, c) { assert EntryFor(s', t, c); }
      if n: nat :| RegistrationFor(s, n, c) { assert RegistrationFor(s', n, c); }
    }
  }

  lemma KnownStep(cfg: Config, s: Sys, a: Action)
    requires CallsKnown(s) && Enabled(cfg, s, a) && Asserts(cfg, s, a)
    ensures CallsKnown(Apply(cfg, s, a))
  {
    var s' := Apply(cfg, s, a);
    if IsCall(a) || a.PushTimer? || a.PushBack? {
      PlainPush(cfg, s, a);
      AnyEffect(cfg, s, a);
      if s'.calls > s.calls { assert EntryFor(s', |s.log|, s.calls); }
    } else if Mover(a).Some? {
      OtherCalls(cfg, s, a);
      AnyEffect(cfg, s, a);
    } else {
      EventKnown(cfg, s, a);
    }
    KnownGrows(s, s');
  }

  lemma EventKnown(cfg: Config, s: Sys, a: Action)
    requires Enabled(cfg, s, a) && Asserts(cfg, s, a) && (IsConsume(a) || a.WaitFiber? || a.WaitCall?)
    ensures var s' := Apply(cfg, s, a);
      && s.log <= s'.log && s.regs <= s'.regs && s.calls <= s'.calls <= s.calls + 1
      && (s'.calls > s.calls ==> RegistrationFor(s', |s.regs|, s.calls))
  {
    if a.CancelAll? { TriggersGrow(s, a.fd, Registered(s, a.fd)); }
    else if a.Readiness? { TriggersGrow(s, a.fd, RealEvents(s, a.fd, a.bits, a.err)); }
  }

  lemma TriggersGrow(s: Sys, fd: nat, evs: set<Event>)
    requires evs <= Registered(s, fd)
    ensures Read in evs ==> Slot(fd, Read) in s.slots
    ensures Write in evs ==> Slot(fd, Write) in TriggerIf(s, Slot(fd, Read), Read in evs).slots
    ensures var s' := TriggerIf(TriggerIf(s, Slot(fd, Read), Read in evs), Slot(fd, Write), Write in evs);
      s.log <= s'.log && s'.regs == s.regs && s'.calls == s.calls
  {
  }

  lemma {:induction false} RunKnown(cfg: Config, acts: seq<Action>)
    requires RunTo(cfg, acts).At?
    ensures CallsKnown(RunTo(cfg, acts).sys)
  {
    if acts != [] {
      var n := |acts| - 1;
      RunKnown(cfg, acts[..n]);
      KnownStep(cfg, RunTo(cfg, acts[..n]).sys, acts[n]);
    }
  }

  /** No callback is forgotten: each has exactly one entry, or it is registered with an event
      context, or delEvent deleted its registration. */
  lemma CallbackKept(cfg: Config, acts: seq<Action>, c: nat)
    requires RunTo(cfg, acts).At? && c < RunTo(cfg, acts).sys.calls
    ensures var s := RunTo(cfg, acts).sys;
      || (exists t: nat :: EntryFor(s, t, c) && forall u: nat :: EntryFor(s, u, c) ==> u == t)
      || (exists n: nat :: RegistrationFor(s, n, c) && (n in s.dropped || exists k :: Registering(s, k, n)))
  {
    RunKnown(cfg, acts);
    RunCalls(cfg, acts);
    WaitsExactlyOnce(cfg, acts);
    PlaceOfCall(RunTo(cfg, acts).sys, c);
  }

  lemma PlaceOfCall(s: Sys, c: nat)
    requires CallsKnown(s) && CallsOnce(s) && WaitsOk(s) && c < s.calls
    ensures || (exists t: nat :: EntryFor(s, t, c) && forall u: nat :: EntryFor(s, u, c) ==> u == t)
            || (exists n: nat :: RegistrationFor(s, n, c) && (n in s.dropped || exists k :: Registering(s, k, n)))
  {
    assert CallKnown(s, c);
    if t: nat :| EntryFor(s, t, c) {
      assert EntryFor(s, t, c) && forall u: nat :: EntryFor(s, u, c) ==> u == t;
    } else {
      var n: nat :| RegistrationFor(s, n, c);
      assert Accounted(s, n);
      if t :| DeliveredBy(s, t, n) && t >= 0 { assert EntryFor(s, t, c); }
    }
  }

  // ---------------------------------------------------------------- at the end

  /** There is one execution of entry t, on its own fiber if it has one. */
  ghost predicate RunOnce(s: Sys, runs: seq<Ran>, t: nat) {
    && t < |s.log|
    && exists k :: 0 <= k < |runs| && runs[k].entry == t
                   && (s.log[t].task.FiberTask? ==> runs[k].fiber == s.log[t].task.fiber)
                   && forall j :: 0 <= j < |runs| && runs[j].entry == t ==> j == k
  }

  predicate AllLeft(s: Sys) { forall w :: 0 <= w < |s.workers| ==> s.workers[w].pc == Exited }

  lemma HandsEmpty(s: Sys, r: Record)
    requires RecordOk(s, r) && AllLeft(s)
    ensures forall w: nat :: w !in r.hands
  {
    forall w: nat ensures w !in r.hands { assert HandOk(s, r, w); }
  }

  lemma RunIffDone(s: Sys, r: Record, t: nat)
    requires RecordOk(s, r) && forall w: nat :: w !in r.hands
    ensures HasRun(r, t) <==> t in s.done
  {
    assert forall k :: 0 <= k < |r.runs| ==> RanOk(s, r.runs[k]);
  }

  /** If pushes from outside come in good time, then once every worker has left run, each entry
      ever pushed was executed exactly once, unless it was pushed for a worker that was not
      going to scan again, and those were not executed at all. */
  lemma EveryEntryRun(cfg: Config, acts: seq<Action>, t: nat)
    requires Safe(cfg) && DisciplinedRun(cfg, acts) && RunTo(cfg, acts).At? && AllLeft(RunTo(cfg, acts).sys)
    requires t < |RunTo(cfg, acts).sys.log|
    ensures if t in Late(cfg, acts) then !HasRun(Records(cfg, acts), t)
            else RunOnce(RunTo(cfg, acts).sys, Records(cfg, acts).runs, t)
  {
    LeftExactly(cfg, acts);
    RunRecord(cfg, acts);
    var s, r := RunTo(cfg, acts).sys, Records(cfg, acts);
    HandsEmpty(s, r);
    RunIffDone(s, r, t);
    if t in s.done {
      var k :| 0 <= k < |r.runs| && r.runs[k].entry == t;
      assert RanOk(s, r.runs[k]);
    }
  }

  lemma LeftInQueue(s: Sys, late: set<nat>, f: nat)
    requires AllLeft(s) && RunnablesKept(s) && Runnable(s, f) && forall t: nat :: t in s.queue && t < |s.log| ==> t in late
    ensures exists t: nat :: t in late && t < |s.log| && s.log[t].task == FiberTask(f)
  {
    var p: Place :| !p.InSlot? && Holds(s, p, FiberTask(f));
    assert p.InQueue?;
    assert p.ticket in late;
  }

  /** And no fiber that could run is left behind, except those of such late entries. */
  lemma NothingRunnableLeft(cfg: Config, acts: seq<Action>, f: nat)
    requires Safe(cfg) && DisciplinedRun(cfg, acts) && RunTo(cfg, acts).At? && AllLeft(RunTo(cfg, acts).sys)
    requires Runnable(RunTo(cfg, acts).sys, f)
    ensures exists t: nat :: t in Late(cfg, acts) && t < |RunTo(cfg, acts).sys.log|
                             && RunTo(cfg, acts).sys.log[t].task == FiberTask(f)
  {
    LeftExactly(cfg, acts);
    RunKeeps(cfg, acts);
    LeftInQueue(RunTo(cfg, acts).sys, Late(cfg, acts), f);
  }
}
