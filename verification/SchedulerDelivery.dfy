/** Exactly-once delivery of registered waits, and what is left when all workers stop. */
module SchedulerDelivery {
  import opened Basics
  import opened SchedulerModel
  import opened SchedulerInvariant
  import opened SchedulerTheorems

  // ---------------------------------------------------------------- registrations

  /** Registration `n` is still in event context `k`. */
  predicate Registering(s: Sys, k: Slot, n: nat) {
    k in s.slots && s.slots[k].wait == n
  }

  /** Queue entry `t` came from registration `n`. */
  predicate DeliveredBy(s: Sys, t: nat, n: nat) {
    t < |s.log| && s.log[t].wait == n
  }

  ghost predicate Accounted(s: Sys, n: nat) {
    n in s.dropped || (exists k :: Registering(s, k, n)) || (exists t :: DeliveredBy(s, t, n))
  }

  /** Every registration is in exactly one of three conditions: still in its context,
      enqueued by exactly one entry that carries its token, or deleted. */
  ghost predicate WaitsOk(s: Sys) {
    && (forall k :: k in s.slots ==>
          && s.slots[k].wait < |s.regs| && s.slots[k].wait !in s.dropped
          && s.slots[k].task == s.regs[s.slots[k].wait])
    && (forall j, k, n :: Registering(s, j, n) && Registering(s, k, n) ==> j == k)
    && (forall t :: 0 <= t < |s.log| && s.log[t].wait >= 0 ==>
          && s.log[t].wait < |s.regs| && s.log[t].wait !in s.dropped
          && s.log[t].task == s.regs[s.log[t].wait])
    && (forall k, t, n :: !(Registering(s, k, n) && DeliveredBy(s, t, n)))
    && (forall t, u, n :: DeliveredBy(s, t, n) && DeliveredBy(s, u, n) ==> t == u)
    && (forall n: nat :: n < |s.regs| ==> Accounted(s, n))
    && (forall n :: n in s.dropped ==> n < |s.regs|)
  }

  lemma PlainWaits(s: Sys, s': Sys)
    requires WaitsOk(s) && SlotsSame(s, s') && PlainGrowth(s, s')
    ensures WaitsOk(s')
  {
    assert forall k, n :: Registering(s', k, n) <==> Registering(s, k, n);
    assert forall t, n :: DeliveredBy(s', t, n) <==> DeliveredBy(s, t, n);
    forall n: nat | n < |s'.regs| ensures Accounted(s', n) {
      assert Accounted(s, n);
    }
  }

  lemma TriggerWaits(s: Sys, k: Slot)
    requires WaitsOk(s) && k in s.slots
    ensures WaitsOk(Trigger(s, k))
  {
    var s' := Trigger(s, k);
    var m := s.slots[k].wait;
    assert Registering(s, k, m);
    assert forall j, n :: Registering(s', j, n) <==> Registering(s, j, n) && j != k;
    assert forall t, n :: DeliveredBy(s', t, n) <==> DeliveredBy(s, t, n) || (t == |s.log| && n == m);
    forall n: nat | n < |s'.regs| ensures Accounted(s', n) {
      assert Accounted(s, n);
      if n == m {
        assert DeliveredBy(s', |s.log|, n);
      } else if j :| Registering(s, j, n) {
        assert Registering(s', j, n);
      }
    }
  }

  lemma WaitWaits(s: Sys, k: Slot, task: Task, calls: nat)
    requires WaitsOk(s) && k !in s.slots
    ensures WaitsOk(s.(slots := s.slots[k := Waiter(task, |s.regs|)], pending := s.pending + 1,
                       regs := s.regs + [task], calls := calls))
  {
    var s' := s.(slots := s.slots[k := Waiter(task, |s.regs|)], pending := s.pending + 1,
                 regs := s.regs + [task], calls := calls);
    assert forall j, n :: Registering(s', j, n) <==> Registering(s, j, n) || (j == k && n == |s.regs|);
    assert forall t, n :: DeliveredBy(s', t, n) <==> DeliveredBy(s, t, n);
    forall n: nat | n < |s'.regs| ensures Accounted(s', n) {
      if n < |s.regs| { assert Accounted(s, n); } else { assert Registering(s', k, n); }
    }
  }

  lemma DelWaits(s: Sys, k: Slot)
    requires WaitsOk(s) && k in s.slots
    ensures WaitsOk(s.(slots := s.slots - {k}, pending := s.pending - 1, dropped := s.dropped + {s.slots[k].wait}))
  {
    var s' := s.(slots := s.slots - {k}, pending := s.pending - 1, dropped := s.dropped + {s.slots[k].wait});
    assert Registering(s, k, s.slots[k].wait);
    forall j | j in s'.slots ensures s'.slots[j].wait !in s'.dropped {
      assert Registering(s, j, s.slots[j].wait);
    }
    forall t | 0 <= t < |s.log| && s.log[t].wait >= 0 ensures s.log[t].wait !in s'.dropped {
      assert DeliveredBy(s, t, s.log[t].wait);
    }
    assert forall j, n :: Registering(s', j, n) <==> Registering(s, j, n) && j != k;
    assert forall t, n :: DeliveredBy(s', t, n) <==> DeliveredBy(s, t, n);
    forall n: nat | n < |s'.regs| ensures Accounted(s', n) {
      assert Accounted(s, n);
      if j :| Registering(s, j, n) {
        assert j == k || Registering(s', j, n);
      }
    }
  }

  lemma BothWaits(s: Sys, fd: nat, evs: set<Event>)
    requires WaitsOk(s) && evs <= Registered(s, fd)
    ensures Read in evs ==> Slot(fd, Read) in s.slots
    ensures Write in evs ==> Slot(fd, Write) in TriggerIf(s, Slot(fd, Read), Read in evs).slots
    ensures WaitsOk(TriggerIf(TriggerIf(s, Slot(fd, Read), Read in evs), Slot(fd, Write), Write in evs))
  {
    if Read in evs { TriggerWaits(s, Slot(fd, Read)); }
    var s1 := TriggerIf(s, Slot(fd, Read), Read in evs);
    if Write in evs { TriggerWaits(s1, Slot(fd, Write)); }
  }

  lemma RegisterWaits(cfg: Config, s: Sys, a: Action)
    requires WaitsOk(s) && (a.WaitFiber? || a.WaitCall?) && Enabled(cfg, s, a) && Asserts(cfg, s, a)
    ensures WaitsOk(Apply(cfg, s, a))
  {
    match a
    case WaitFiber(w, k) => WaitWaits(s, k, FiberTask(s.workers[w].pc.fiber), s.calls);
    case WaitCall(w, k) => WaitWaits(s, k, CallTask(s.calls), s.calls + 1);
  }

  lemma ConsumeWaits(cfg: Config, s: Sys, a: Action)
    requires WaitsOk(s) && IsConsume(a) && Enabled(cfg, s, a) && Asserts(cfg, s, a)
    ensures WaitsOk(Apply(cfg, s, a))
  {
    match a
    case DelEvent(_, k) => DelWaits(s, k);
    case CancelEvent(_, k) => TriggerWaits(s, k);
    case CancelAll(_, fd) => BothWaits(s, fd, Registered(s, fd));
    case Readiness(_, fd, bits, err) => BothWaits(s, fd, RealEvents(s, fd, bits, err));
  }

  lemma WaitsStep(cfg: Config, s: Sys, a: Action)
    requires WaitsOk(s) && Enabled(cfg, s, a) && Asserts(cfg, s, a)
    ensures WaitsOk(Apply(cfg, s, a))
  {
    if IsConsume(a) {
      ConsumeWaits(cfg, s, a);
    } else if a.WaitFiber? || a.WaitCall? {
      RegisterWaits(cfg, s, a);
    } else {
      AnyEffect(cfg, s, a);
      PlainWaits(s, Apply(cfg, s, a));
    }
  }

  /** In every run, for every successful addEvent: its token is still in the context, or
      exactly one queue entry was made for it, or delEvent consumed it and no entry was or
      will be made. This needs no assumption on the number of workers. */
  lemma {:induction false} WaitsExactlyOnce(cfg: Config, acts: seq<Action>)
    requires RunTo(cfg, acts).At?
    ensures WaitsOk(RunTo(cfg, acts).sys)
  {
    if acts != [] {
      var init, a := acts[..|acts| - 1], acts[|acts| - 1];
      WaitsExactlyOnce(cfg, init);
      WaitsStep(cfg, RunTo(cfg, init).sys, a);
    }
  }

  // ---------------------------------------------------------------- stopping

  /** Whatever is pushed from outside is pushed while some worker will still scan. */
  ghost predicate Disciplined(s: Sys, a: Action) {
    && (a.ScheduleFiber? && a.actor == OUTSIDE ==> SomeLive(s))
    && (a.ScheduleCall? && a.actor == OUTSIDE ==> SomeLive(s))
    && (a.CancelEvent? && a.actor == OUTSIDE ==> SomeLive(s))
    && (a.CancelAll? && a.actor == OUTSIDE ==> SomeLive(s))
  }

  ghost predicate DisciplinedRun(cfg: Config, acts: seq<Action>) {
    forall i :: 0 <= i < |acts| && RunTo(cfg, acts[..i]).At? ==> Disciplined(RunTo(cfg, acts[..i]).sys, acts[i])
  }

  /** As long as an entry that any thread may take is queued, some worker will scan again. */
  ghost predicate LiveOk(s: Sys) {
    forall t :: t in s.queue && t < |s.log| && s.log[t].thread == -1 ==> SomeLive(s)
  }

  /** Only a fruitless scan by a worker whose idle fiber has ended makes a live worker dead. */
  lemma LivenessStep(cfg: Config, s: Sys, s': Sys, a: Action)
    requires MovesOnly(s, s', Mover(a)) && (Mover(a).Some? ==> WorkerEffect(cfg, s, a, s'))
    requires !Fruitless(s, a) && (a.Leave? ==> !LivesOn(s, a.w))
    ensures SomeLive(s) ==> SomeLive(s')
    ensures Mover(a).Some? && !a.Leave? ==> SomeLive(s')
  {
    if Mover(a).Some? && !a.Leave? {
      assert LivesOn(s', Mover(a).value);
    } else if w: nat :| LivesOn(s, w) {
      assert LivesOn(s', w);
    }
  }

  /** An action that pushes is made by a live worker, or from outside in good time. */
  lemma PusherLives(cfg: Config, s: Sys, a: Action)
    requires Enabled(cfg, s, a) && Disciplined(s, a)
    requires (IsCall(a) && !a.ArmTimer? && !a.RequestStop?) || (IsConsume(a) && !a.DelEvent?)
    ensures SomeLive(s)
  {
    var w := match a
      case ScheduleFiber(actor, _, _) => actor
      case ScheduleCall(actor, _) => actor
      case CancelEvent(actor, _) => actor
      case CancelAll(actor, _) => actor
      case Readiness(w, _, _, _) => w;
    if w != OUTSIDE { assert LivesOn(s, w); }
  }

  /** Where the queue of the next state comes from. */
  lemma QueueGrowth(cfg: Config, s: Sys, a: Action)
    requires QueueOk(s) && Enabled(cfg, s, a) && Asserts(cfg, s, a)
    requires (IsCall(a) && (a.ArmTimer? || a.RequestStop?)) || a.WaitFiber? || a.WaitCall? || a.DelEvent? || IsIdle(a)
    ensures Apply(cfg, s, a).queue == s.queue && Apply(cfg, s, a).log == s.log
  {
  }

  /** A scan that takes nothing leaves only pinned entries and entries of fibers that some
      other worker is running. */
  lemma FruitlessScan(cfg: Config, s: Sys, w: nat)
    requires Inv(cfg, s) && PcIs(s, w, Head) && FirstEligible(s, w, 0) == |s.queue|
    ensures LiveOk(ScanStep(s, w))
  {
    var s' := ScanStep(s, w);
    forall t | t in s'.queue && t < |s'.log| && s'.log[t].thread == -1 ensures SomeLive(s') {
      var j :| 0 <= j < |s.queue| && s.queue[j] == t;
      assert !Eligible(s, w, s.queue[j]);
      var f := s.log[t].task.fiber;
      var v :| RunsOn(s, v, f);
      assert LivesOn(s', v);
    }
  }

  lemma LiveStep(cfg: Config, s: Sys, a: Action)
    requires Inv(cfg, s) && LiveOk(s) && Disciplined(s, a) && Enabled(cfg, s, a) && Asserts(cfg, s, a)
    ensures LiveOk(Apply(cfg, s, a))
  {
    if Fruitless(s, a) {
      FruitlessScan(cfg, s, a.w);
    } else {
      AnyEffect(cfg, s, a);
      LivenessStep(cfg, s, Apply(cfg, s, a), a);
      if (IsCall(a) && !a.ArmTimer? && !a.RequestStop?) || (IsConsume(a) && !a.DelEvent?) {
        PusherLives(cfg, s, a);
      } else if !IsSwitch(a) {
        QueueGrowth(cfg, s, a);
      }
    }
  }

  lemma {:induction false} RunLive(cfg: Config, acts: seq<Action>)
    requires Safe(cfg) && DisciplinedRun(cfg, acts) && RunTo(cfg, acts).At?
    ensures LiveOk(RunTo(cfg, acts).sys)
  {
    if acts != [] {
      var n := |acts| - 1;
      var init, a := acts[..n], acts[n];
      forall i | 0 <= i < n && RunTo(cfg, init[..i]).At? ensures Disciplined(RunTo(cfg, init[..i]).sys, init[i]) {
        assert init[..i] == acts[..i];
      }
      RunLive(cfg, init);
      RunInv(cfg, init);
      LiveStep(cfg, RunTo(cfg, init).sys, a);
    }
  }

  /** Stop safety: once every worker has left `run`, whatever is still queued was pinned
      to one thread, although the active count drops before a READY fiber is queued again. */
  lemma OnlyPinnedLeft(cfg: Config, acts: seq<Action>, t: nat)
    requires Safe(cfg) && DisciplinedRun(cfg, acts) && RunTo(cfg, acts).At?
    requires var s := RunTo(cfg, acts).sys;
      (forall w :: 0 <= w < |s.workers| ==> s.workers[w].pc == Exited) && t in s.queue
    ensures t < |RunTo(cfg, acts).sys.log| && RunTo(cfg, acts).sys.log[t].thread != -1
  {
    RunInv(cfg, acts);
    RunLive(cfg, acts);
  }

  /** With unpinned tasks nothing is left, and every entry ever pushed was dequeued exactly
      once. */
  lemma StopSafety(cfg: Config, acts: seq<Action>)
    requires Safe(cfg) && DisciplinedRun(cfg, acts) && RunTo(cfg, acts).At?
    requires var s := RunTo(cfg, acts).sys;
      && (forall w :: 0 <= w < |s.workers| ==> s.workers[w].pc == Exited)
      && (forall t :: 0 <= t < |s.log| ==> s.log[t].thread == -1)
    ensures var s := RunTo(cfg, acts).sys;
      && s.queue == []
      && (forall t :: 0 <= t < |s.log| ==> t in s.done)
      && (forall i, j :: 0 <= i < j < |s.done| ==> s.done[i] != s.done[j])
  {
    RunInv(cfg, acts);
    var s := RunTo(cfg, acts).sys;
    if s.queue != [] {
      assert s.queue[0] in s.queue;
      OnlyPinnedLeft(cfg, acts, s.queue[0]);
    }
  }
}
