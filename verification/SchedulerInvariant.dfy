/** The invariant of the scheduler step system and its preservation by every action. */
module SchedulerInvariant {
  import opened Basics
  import opened SchedulerModel

  /** Either yields are indivisible or there is at most one worker. */
  predicate Safe(cfg: Config) {
    cfg.fused || cfg.workers <= 1
  }

  // ---------------------------------------------------------------- the invariant

  ghost predicate TokensUnique(s: Sys) {
    forall p: Place, q: Place, t: Task :: Holds(s, p, t) && Holds(s, q, t) ==> p == q
  }

  ghost predicate TokensAlive(s: Sys) {
    forall p: Place, t: Task :: Holds(s, p, t) ==>
      match t
      case FiberTask(f) => f in s.fibers && s.fibers[f] !in {Term, Except}
      case CallTask(c) => c < s.calls
  }

  predicate PcOk(s: Sys, pc: Pc) {
    match pc
    case Run(f, _) => f in s.fibers && s.fibers[f] == Exec
    case Leaving(f, _) => f in s.fibers && s.fibers[f] !in {Exec, Init}
    case Fix(f, _) => f in s.fibers && s.fibers[f] !in {Exec, Init}
    case Took(t) => t.FiberTask? ==> t.fiber in s.fibers && s.fibers[t.fiber] != Exec
    case Requeue(f) => f in s.fibers && s.fibers[f] == Ready
    case _ => true
  }

  predicate RunsOn(s: Sys, w: nat, f: nat) {
    w < |s.workers| && s.workers[w].pc.Run? && s.workers[w].pc.fiber == f
  }

  ghost predicate StacksOk(cfg: Config, s: Sys) {
    && |s.workers| == cfg.workers
    && (forall w :: 0 <= w < |s.workers| ==> PcOk(s, s.workers[w].pc))
    && (forall f :: f in s.fibers && s.fibers[f] == Exec ==> exists w :: RunsOn(s, w, f))
    && (forall v, w, f :: OnStack(s, v, f) && OnStack(s, w, f) ==> v == w)
  }

  predicate OwnPc(pc: Pc, g: nat) {
    pc == Run(g, true) || pc == Leaving(g, true) || pc == Fix(g, true)
  }

  /** The recycled callback fiber belongs to one worker; unless that worker is running
      it, it is INIT and nothing refers to it. */
  ghost predicate SparesOk(s: Sys) {
    && (forall w :: 0 <= w < |s.workers| && s.workers[w].spare.Some? ==>
          && s.workers[w].spare.value in s.fibers
          && (|| OwnPc(s.workers[w].pc, s.workers[w].spare.value)
              || (s.fibers[s.workers[w].spare.value] == Init && Free(s, FiberTask(s.workers[w].spare.value)))))
    && (forall v, w :: 0 <= v < w < |s.workers| && s.workers[v].spare.Some? ==>
          s.workers[v].spare != s.workers[w].spare)
    && (forall w :: 0 <= w < |s.workers| ==>
          var pc := s.workers[w].pc;
          (pc.Run? || pc.Leaving? || pc.Fix?) && pc.own ==> s.workers[w].spare == Some(pc.fiber))
  }

  ghost predicate QueueOk(s: Sys) {
    && (forall i :: 0 <= i < |s.queue| ==> s.queue[i] < |s.log|)
    && (forall i, j :: 0 <= i < j < |s.queue| ==> s.queue[i] < s.queue[j])
    && (forall i :: 0 <= i < |s.done| ==> s.done[i] < |s.log|)
    && (forall i, j :: 0 <= i < j < |s.done| ==> s.done[i] != s.done[j])
    && (forall t :: 0 <= t < |s.log| ==> (t in s.queue <==> t !in s.done))
  }

  ghost predicate Inv(cfg: Config, s: Sys) {
    && TokensUnique(s)
    && TokensAlive(s)
    && StacksOk(cfg, s)
    && SparesOk(s)
    && QueueOk(s)
  }

  /** Some worker has left a fiber whose state it has yet to settle. */
  predicate Unsettled(s: Sys) {
    exists w :: 0 <= w < |s.workers| && (s.workers[w].pc.Leaving? || s.workers[w].pc.Fix?)
  }

  /** What makes a dequeued fiber exclusively the dequeuer's. */
  predicate Quiet(s: Sys) {
    !Unsettled(s) || |s.workers| <= 1
  }

  // ---------------------------------------------------------------- initial state

  lemma InitInv(cfg: Config)
    ensures Inv(cfg, InitSys(cfg))
  {
  }

  // ---------------------------------------------------------------- the queue

  /** Removing one position of a strictly increasing sequence removes exactly its value. */
  lemma RemoveAt(q: seq<nat>, i: nat)
    requires i < |q|
    requires forall a, b :: 0 <= a < b < |q| ==> q[a] < q[b]
    ensures forall x :: x in q[..i] + q[i + 1..] <==> x in q && x != q[i]
  {
    var r := q[..i] + q[i + 1..];
    forall x | x in q && x != q[i] ensures x in r {
      var j :| 0 <= j < |q| && q[j] == x;
      if j < i { assert r[j] == x; } else { assert r[j - 1] == x; }
    }
  }

  // ---------------------------------------------------------------- token moves

  /** From `s` to `s'` the only change is that token `t` left place `p`, if `from` is
      Some(p), and appeared at place `q`, if `to` is Some(q). */
  ghost predicate Moved(s: Sys, s': Sys, from: Option<Place>, to: Option<Place>, t: Task) {
    && (from.Some? ==> Holds(s, from.value, t))
    && (from.None? && to.Some? ==> Free(s, t))
    && (forall p: Place, u: Task :: Holds(s', p, u) <==>
          (Holds(s, p, u) && from != Some(p)) || (to == Some(p) && u == t))
  }

  lemma MovedUnique(s: Sys, s': Sys, from: Option<Place>, to: Option<Place>, t: Task)
    requires TokensUnique(s) && Moved(s, s', from, to, t)
    ensures TokensUnique(s')
    ensures forall u: Task :: Free(s, u) && (u != t || to.None?) ==> Free(s', u)
  {
  }

  lemma PushMoves(s: Sys, e: Entry)
    requires TokensUnique(s) && Free(s, e.task) && QueueOk(s)
    ensures Moved(s, Push(s, e), None, Some(InQueue(|s.log|)), e.task)
  {
    var s' := Push(s, e);
    forall p: Place, u: Task
      ensures Holds(s', p, u) <==> Holds(s, p, u) || (p == InQueue(|s.log|) && u == e.task)
    {
      if p.InQueue? { assert p.ticket in s'.queue <==> p.ticket in s.queue || p.ticket == |s.log|; }
    }
  }

  lemma TriggerMoves(s: Sys, k: Slot)
    requires TokensUnique(s) && QueueOk(s) && k in s.slots
    ensures Moved(s, Trigger(s, k), Some(InSlot(k)), Some(InQueue(|s.log|)), s.slots[k].task)
  {
    var s' := Trigger(s, k);
    assert Holds(s, InSlot(k), s.slots[k].task);
    forall p: Place, u: Task
      ensures Holds(s', p, u) <==>
        (Holds(s, p, u) && p != InSlot(k)) || (p == InQueue(|s.log|) && u == s.slots[k].task)
    {
      if p.InQueue? { assert p.ticket in s'.queue <==> p.ticket in s.queue || p.ticket == |s.log|; }
    }
  }

  lemma PushQueueOk(s: Sys, e: Entry)
    requires QueueOk(s)
    ensures QueueOk(Push(s, e))
  {
  }

  /** No worker moves and no known fiber changes state. */
  lemma StacksFrame(cfg: Config, s: Sys, s': Sys)
    requires StacksOk(cfg, s) && s'.workers == s.workers
    requires s.fibers.Keys <= s'.fibers.Keys
    requires forall f :: f in s.fibers ==> s'.fibers[f] == s.fibers[f]
    requires forall f :: f in s'.fibers && f !in s.fibers ==> s'.fibers[f] != Exec
    ensures StacksOk(cfg, s')
  {
    assert forall v, g :: RunsOn(s, v, g) ==> RunsOn(s', v, g);
    assert forall v, g :: OnStack(s', v, g) ==> OnStack(s, v, g);
  }

  // ---------------------------------------------------------------- actions on the queue and the contexts

  lemma ScheduleFiberInv(cfg: Config, s: Sys, f: nat, thread: int)
    requires Inv(cfg, s) && f !in s.fibers
    ensures Inv(cfg, Push(SetFiber(s, f, Init), Entry(FiberTask(f), thread, -1)))
  {
    var s1 := SetFiber(s, f, Init);
    var e := Entry(FiberTask(f), thread, -1);
    var s' := Push(s1, e);
    assert forall p: Place, u: Task :: Holds(s1, p, u) ==> Holds(s, p, u);
    assert forall p: Place, u: Task :: Holds(s, p, u) ==> Holds(s1, p, u);
    PushMoves(s1, e);
    MovedUnique(s1, s', None, Some(InQueue(|s.log|)), e.task);
    PushQueueOk(s1, e);
    StacksFrame(cfg, s, s');
  }

  lemma PushCallInv(cfg: Config, s: Sys, thread: int)
    requires Inv(cfg, s)
    ensures Inv(cfg, PushCall(s, thread))
  {
    var e := Entry(CallTask(s.calls), thread, -1);
    var s1 := Push(s, e);
    var s' := PushCall(s, thread);
    PushMoves(s, e);
    MovedUnique(s, s1, None, Some(InQueue(|s.log|)), e.task);
    PushQueueOk(s, e);
    assert forall p: Place, u: Task :: Holds(s1, p, u) <==> Holds(s', p, u);
    StacksFrame(cfg, s, s');
  }

  lemma WaitFiberInv(cfg: Config, s: Sys, w: nat, k: Slot)
    requires Inv(cfg, s) && Enabled(cfg, s, WaitFiber(w, k)) && Asserts(cfg, s, WaitFiber(w, k))
    ensures Inv(cfg, Apply(cfg, s, WaitFiber(w, k)))
  {
    var s' := Apply(cfg, s, WaitFiber(w, k));
    var t := FiberTask(s.workers[w].pc.fiber);
    assert Moved(s, s', None, Some(InSlot(k)), t);
    MovedUnique(s, s', None, Some(InSlot(k)), t);
    assert RunsOn(s, w, t.fiber);
    StacksFrame(cfg, s, s');
  }

  lemma WaitCallInv(cfg: Config, s: Sys, w: nat, k: Slot)
    requires Inv(cfg, s) && Enabled(cfg, s, WaitCall(w, k)) && Asserts(cfg, s, WaitCall(w, k))
    ensures Inv(cfg, Apply(cfg, s, WaitCall(w, k)))
  {
    WaitCallTokens(cfg, s, w, k);
    StacksFrame(cfg, s, Apply(cfg, s, WaitCall(w, k)));
  }

  lemma WaitCallTokens(cfg: Config, s: Sys, w: nat, k: Slot)
    requires Inv(cfg, s) && Enabled(cfg, s, WaitCall(w, k)) && Asserts(cfg, s, WaitCall(w, k))
    ensures var s' := Apply(cfg, s, WaitCall(w, k));
      TokensUnique(s') && TokensAlive(s') && forall u: Task :: u != CallTask(s.calls) && Free(s, u) ==> Free(s', u)
  {
    var s' := Apply(cfg, s, WaitCall(w, k));
    var t := CallTask(s.calls);
    assert Moved(s, s', None, Some(InSlot(k)), t);
    MovedUnique(s, s', None, Some(InSlot(k)), t);
  }

  lemma DelEventInv(cfg: Config, s: Sys, k: Slot)
    requires Inv(cfg, s) && k in s.slots
    ensures Inv(cfg, s.(slots := s.slots - {k}, pending := s.pending - 1, dropped := s.dropped + {s.slots[k].wait}))
  {
    var s' := s.(slots := s.slots - {k}, pending := s.pending - 1, dropped := s.dropped + {s.slots[k].wait});
    var t := s.slots[k].task;
    assert Moved(s, s', Some(InSlot(k)), None, t);
    MovedUnique(s, s', Some(InSlot(k)), None, t);
    StacksFrame(cfg, s, s');
  }

  lemma TriggerInv(cfg: Config, s: Sys, k: Slot)
    requires Inv(cfg, s) && k in s.slots
    ensures Inv(cfg, Trigger(s, k))
  {
    var s' := Trigger(s, k);
    var t := s.slots[k].task;
    TriggerMoves(s, k);
    MovedUnique(s, s', Some(InSlot(k)), Some(InQueue(|s.log|)), t);
    PushQueueOk(s.(slots := s.slots - {k}, pending := s.pending - 1), Entry(t, -1, s.slots[k].wait));
    StacksFrame(cfg, s, s');
  }

  // ---------------------------------------------------------------- context switches

  /** Worker `v` has nothing to do with fiber `f`. */
  predicate Unrelated(pc: Pc, f: nat) {
    match pc
    case Took(t) => t != FiberTask(f)
    case Run(g, _) => g != f
    case Leaving(g, _) => g != f
    case Fix(g, _) => g != f
    case Requeue(g) => g != f
    case _ => true
  }

  lemma ScanMoves(s: Sys, w: nat)
    requires TokensUnique(s) && QueueOk(s) && PcIs(s, w, Head)
    ensures var i := FirstEligible(s, w, 0);
      i < |s.queue| ==>
        Moved(s, ScanStep(s, w), Some(InQueue(s.queue[i])), Some(AtWorker(w)), s.log[s.queue[i]].task)
  {
    var i := FirstEligible(s, w, 0);
    if i < |s.queue| {
      var s' := ScanStep(s, w);
      var n := s.queue[i];
      var t := s.log[n].task;
      RemoveAt(s.queue, i);
      assert Holds(s, InQueue(n), t);
      forall p: Place, u: Task
        ensures Holds(s', p, u) <==> (Holds(s, p, u) && p != InQueue(n)) || (p == AtWorker(w) && u == t)
      {
        match p
        case InSlot(_) =>
        case InQueue(j) => assert j in s'.queue <==> j in s.queue && j != n;
        case AtWorker(v) =>
      }
    }
  }

  lemma ScanQueueOk(s: Sys, w: nat)
    requires QueueOk(s) && w < |s.workers|
    ensures QueueOk(ScanStep(s, w))
  {
    var i := FirstEligible(s, w, 0);
    if i < |s.queue| { TakeQueueOk(s, ScanStep(s, w), i); }
  }

  lemma TakeQueueOk(s: Sys, s': Sys, i: nat)
    requires QueueOk(s) && i < |s.queue| && s'.log == s.log
    requires s'.queue == s.queue[..i] + s.queue[i + 1..] && s'.done == s.done + [s.queue[i]]
    ensures QueueOk(s')
  {
    RemoveAt(s.queue, i);
    assert s.queue[i] in s.queue;
  }

  /** A worker moves between positions that are on no fiber's stack. */
  lemma StacksOffCpu(cfg: Config, s: Sys, s': Sys, w: nat)
    requires StacksOk(cfg, s) && s'.fibers == s.fibers && w < |s.workers|
    requires |s'.workers| == |s.workers|
    requires forall v :: 0 <= v < |s.workers| && v != w ==> s'.workers[v] == s.workers[v]
    requires forall f :: !OnStack(s, w, f) && !OnStack(s', w, f)
    requires PcOk(s', s'.workers[w].pc)
    ensures StacksOk(cfg, s')
  {
    forall f | f in s.fibers && s.fibers[f] == Exec ensures exists v :: RunsOn(s', v, f) {
      var v :| RunsOn(s, v, f);
      assert OnStack(s, v, f);
      assert RunsOn(s', v, f);
    }
    assert forall v, g :: OnStack(s', v, g) ==> OnStack(s, v, g);
    forall v | 0 <= v < |s'.workers| ensures PcOk(s', s'.workers[v].pc) {
      if v != w { assert PcOk(s, s.workers[v].pc); }
    }
  }

  /** The recycled fibers stay as they are when only positions off the stack change. */
  lemma SparesFrame(s: Sys, s': Sys)
    requires SparesOk(s) && |s'.workers| == |s.workers|
    requires forall f :: f in s.fibers ==> f in s'.fibers && s'.fibers[f] == s.fibers[f]
    requires forall v: nat :: v < |s.workers| ==>
      s'.workers[v].spare == s.workers[v].spare
      && (s'.workers[v].pc == s.workers[v].pc
          || forall f :: !OnStack(s, v, f) && !OnStack(s', v, f))
    requires forall f :: f in s.fibers && s.fibers[f] == Init && Free(s, FiberTask(f)) ==> Free(s', FiberTask(f))
    ensures SparesOk(s')
  {
    forall v: nat | v < |s'.workers| && s'.workers[v].spare.Some?
      ensures s'.workers[v].spare.value in s'.fibers
      ensures OwnPc(s'.workers[v].pc, s'.workers[v].spare.value)
        || (s'.fibers[s'.workers[v].spare.value] == Init && Free(s', FiberTask(s'.workers[v].spare.value)))
    {
      var g := s.workers[v].spare.value;
      if OwnPc(s.workers[v].pc, g) { assert OnStack(s, v, g); }
    }
    forall v: nat | v < |s'.workers|
      ensures var pc := s'.workers[v].pc;
        (pc.Run? || pc.Leaving? || pc.Fix?) && pc.own ==> s'.workers[v].spare == Some(pc.fiber)
    {
      var pc := s'.workers[v].pc;
      if pc.Run? || pc.Leaving? || pc.Fix? { assert OnStack(s', v, pc.fiber); }
    }
  }

  lemma ScanTokens(cfg: Config, s: Sys, w: nat)
    requires Inv(cfg, s) && PcIs(s, w, Head)
    ensures TokensUnique(ScanStep(s, w)) && TokensAlive(ScanStep(s, w))
    ensures forall u: Task :: Free(s, u) ==> Free(ScanStep(s, w), u)
    ensures PcOk(s, ScanStep(s, w).workers[w].pc)
  {
    var i := FirstEligible(s, w, 0);
    var s' := ScanStep(s, w);
    if i == |s.queue| {
      assert Moved(s, s', None, None, CallTask(0));
      MovedUnique(s, s', None, None, CallTask(0));
    } else {
      var t := s.log[s.queue[i]].task;
      assert Holds(s, InQueue(s.queue[i]), t);
      ScanMoves(s, w);
      MovedUnique(s, s', Some(InQueue(s.queue[i])), Some(AtWorker(w)), t);
    }
  }

  lemma ScanInv(cfg: Config, s: Sys, w: nat)
    requires Inv(cfg, s) && PcIs(s, w, Head)
    ensures Inv(cfg, ScanStep(s, w))
  {
    var s' := ScanStep(s, w);
    ScanQueueOk(s, w);
    ScanTokens(cfg, s, w);
    StacksOffCpu(cfg, s, s', w);
    SparesFrame(s, s');
  }

  /** Dequeued fibers are on nobody's stack and at nobody else's disposal. */
  lemma TookAlone(cfg: Config, s: Sys, w: nat, f: nat)
    requires Quiet(s) && Inv(cfg, s) && w < |s.workers|
    requires s.workers[w].pc == Took(FiberTask(f)) || s.workers[w].pc == Requeue(f)
    ensures forall v: nat :: !OnStack(s, v, f)
    ensures forall v: nat :: v < |s.workers| && v != w ==> Unrelated(s.workers[v].pc, f)
    ensures forall v: nat :: v < |s.workers| ==> s.workers[v].spare != Some(f)
  {
    var t := FiberTask(f);
    assert Holds(s, AtWorker(w), t);
    assert PcOk(s, s.workers[w].pc);
    forall v: nat | v < |s.workers| && v != w ensures Unrelated(s.workers[v].pc, f) {
      assert PcOk(s, s.workers[v].pc);
      assert !Holds(s, AtWorker(v), t);
    }
    forall v: nat ensures !OnStack(s, v, f) {
      if v < |s.workers| && v != w { assert Unrelated(s.workers[v].pc, f); }
    }
  }

  lemma SwapInStacks(cfg: Config, s: Sys, w: nat)
    requires Quiet(s) && Inv(cfg, s) && Enabled(cfg, s, SwapIn(w)) && Asserts(cfg, s, SwapIn(w))
    ensures StacksOk(cfg, Apply(cfg, s, SwapIn(w)))
  {
    var s' := Apply(cfg, s, SwapIn(w));
    var f := s.workers[w].pc.task.fiber;
    TookAlone(cfg, s, w, f);
    assert Holds(s, AtWorker(w), FiberTask(f));
    assert RunsOn(s', w, f);
    assert forall v, g :: OnStack(s', v, g) <==> OnStack(s, v, g) || (v == w && g == f);
    forall g | g in s'.fibers && s'.fibers[g] == Exec ensures exists v :: RunsOn(s', v, g) {
      if g != f {
        var v :| RunsOn(s, v, g);
        assert RunsOn(s', v, g);
      }
    }
    forall v | 0 <= v < |s'.workers| ensures PcOk(s', s'.workers[v].pc) {
      if v != w { assert PcOk(s, s.workers[v].pc) && Unrelated(s.workers[v].pc, f); }
    }
  }

  lemma SwapInInv(cfg: Config, s: Sys, w: nat)
    requires Quiet(s) && Inv(cfg, s) && Enabled(cfg, s, SwapIn(w)) && Asserts(cfg, s, SwapIn(w))
    ensures Inv(cfg, Apply(cfg, s, SwapIn(w)))
  {
    SwapInStacks(cfg, s, w);
    SwapInTokens(cfg, s, w);
    SwapInSpares(cfg, s, w);
    assert QueueOk(Apply(cfg, s, SwapIn(w)));
  }

  lemma SwapInSpares(cfg: Config, s: Sys, w: nat)
    requires Quiet(s) && Inv(cfg, s) && Enabled(cfg, s, SwapIn(w)) && Asserts(cfg, s, SwapIn(w))
    ensures SparesOk(Apply(cfg, s, SwapIn(w)))
  {
    SwapInTokens(cfg, s, w);
    TookAlone(cfg, s, w, s.workers[w].pc.task.fiber);
  }

  lemma SwapInTokens(cfg: Config, s: Sys, w: nat)
    requires Quiet(s) && Inv(cfg, s) && Enabled(cfg, s, SwapIn(w)) && Asserts(cfg, s, SwapIn(w))
    ensures var s' := Apply(cfg, s, SwapIn(w));
      TokensUnique(s') && TokensAlive(s') && forall u: Task :: Free(s, u) ==> Free(s', u)
  {
    var s' := Apply(cfg, s, SwapIn(w));
    var t := s.workers[w].pc.task;
    assert Holds(s, AtWorker(w), t);
    TookAlone(cfg, s, w, t.fiber);
    assert Moved(s, s', Some(AtWorker(w)), None, t);
    MovedUnique(s, s', Some(AtWorker(w)), None, t);
  }

  /** Starting a callback on the recycled fiber, or on a new one. */
  lemma StartCallStacks(cfg: Config, s: Sys, w: nat, f: nat)
    requires Inv(cfg, s) && Enabled(cfg, s, StartCall(w, f)) && Asserts(cfg, s, StartCall(w, f))
    ensures StacksOk(cfg, Apply(cfg, s, StartCall(w, f)))
    ensures Free(s, FiberTask(f)) && forall v: nat :: !OnStack(s, v, f)
    ensures forall v: nat :: v < |s.workers| && v != w ==> s.workers[v].spare != Some(f)
  {
    var s' := Apply(cfg, s, StartCall(w, f));
    forall v: nat ensures !OnStack(s, v, f) {
      if v < |s.workers| { assert PcOk(s, s.workers[v].pc); }
    }
    assert RunsOn(s', w, f);
    assert forall v, g :: OnStack(s', v, g) <==> OnStack(s, v, g) || (v == w && g == f);
    forall g | g in s'.fibers && s'.fibers[g] == Exec ensures exists v :: RunsOn(s', v, g) {
      if g != f {
        var v :| RunsOn(s, v, g);
        assert RunsOn(s', v, g);
      }
    }
    forall v | 0 <= v < |s'.workers| ensures PcOk(s', s'.workers[v].pc) {
      if v != w {
        assert PcOk(s, s.workers[v].pc) && !OnStack(s, v, f);
        assert !Holds(s, AtWorker(v), FiberTask(f));
      }
    }
  }

  lemma StartCallTokens(cfg: Config, s: Sys, w: nat, f: nat)
    requires Inv(cfg, s) && Enabled(cfg, s, StartCall(w, f)) && Asserts(cfg, s, StartCall(w, f))
    ensures TokensUnique(Apply(cfg, s, StartCall(w, f))) && TokensAlive(Apply(cfg, s, StartCall(w, f)))
    ensures forall u: Task :: Free(s, u) ==> Free(Apply(cfg, s, StartCall(w, f)), u)
  {
    var s' := Apply(cfg, s, StartCall(w, f));
    var t := s.workers[w].pc.task;
    StartCallStacks(cfg, s, w, f);
    assert Holds(s, AtWorker(w), t);
    assert Moved(s, s', Some(AtWorker(w)), None, t);
    MovedUnique(s, s', Some(AtWorker(w)), None, t);
  }

  lemma StartCallInv(cfg: Config, s: Sys, w: nat, f: nat)
    requires Inv(cfg, s) && Enabled(cfg, s, StartCall(w, f)) && Asserts(cfg, s, StartCall(w, f))
    ensures Inv(cfg, Apply(cfg, s, StartCall(w, f)))
  {
    StartCallStacks(cfg, s, w, f);
    StartCallTokens(cfg, s, w, f);
  }

  /** A running fiber is unrelated to every other worker. */
  lemma RunAlone(cfg: Config, s: Sys, w: nat, f: nat)
    requires Inv(cfg, s) && RunsOn(s, w, f)
    ensures forall v: nat :: v < |s.workers| && v != w ==> Unrelated(s.workers[v].pc, f)
    ensures forall v: nat :: v < |s.workers| && v != w ==> s.workers[v].spare != Some(f)
  {
    assert OnStack(s, w, f);
    assert PcOk(s, s.workers[w].pc);
    forall v: nat | v < |s.workers| && v != w ensures Unrelated(s.workers[v].pc, f) {
      assert PcOk(s, s.workers[v].pc);
      assert !OnStack(s, v, f);
    }
    forall v: nat | v < |s.workers| && v != w ensures s.workers[v].spare != Some(f) {
      assert Unrelated(s.workers[v].pc, f);
    }
  }

  lemma YieldStacks(cfg: Config, s: Sys, w: nat, to: FiberState)
    requires Inv(cfg, s) && Enabled(cfg, s, Yield(w, to)) && Asserts(cfg, s, Yield(w, to))
    ensures StacksOk(cfg, YieldStep(s, w, to))
  {
    var s' := YieldStep(s, w, to);
    var f := s.workers[w].pc.fiber;
    RunAlone(cfg, s, w, f);
    assert forall v, g :: OnStack(s', v, g) <==> OnStack(s, v, g);
    forall g | g in s'.fibers && s'.fibers[g] == Exec ensures exists v :: RunsOn(s', v, g) {
      var v :| RunsOn(s, v, g);
      assert RunsOn(s', v, g);
    }
    forall v | 0 <= v < |s'.workers| ensures PcOk(s', s'.workers[v].pc) {
      if v != w { assert PcOk(s, s.workers[v].pc) && Unrelated(s.workers[v].pc, f); }
    }
  }

  lemma YieldTokens(cfg: Config, s: Sys, w: nat, to: FiberState)
    requires Inv(cfg, s) && Enabled(cfg, s, Yield(w, to)) && Asserts(cfg, s, Yield(w, to))
    ensures TokensUnique(YieldStep(s, w, to)) && TokensAlive(YieldStep(s, w, to))
    ensures forall u: Task :: u != FiberTask(s.workers[w].pc.fiber) ==> (Free(s, u) ==> Free(YieldStep(s, w, to), u))
  {
    var s' := YieldStep(s, w, to);
    var f := s.workers[w].pc.fiber;
    RunAlone(cfg, s, w, f);
    var dest := if to == Ready then Some(AtWorker(w)) else None;
    assert Moved(s, s', None, dest, FiberTask(f));
    MovedUnique(s, s', None, dest, FiberTask(f));
  }

  lemma YieldInv(cfg: Config, s: Sys, w: nat, to: FiberState)
    requires Inv(cfg, s) && Enabled(cfg, s, Yield(w, to)) && Asserts(cfg, s, Yield(w, to))
    ensures Inv(cfg, YieldStep(s, w, to))
  {
    YieldStacks(cfg, s, w, to);
    YieldTokens(cfg, s, w, to);
    RunAlone(cfg, s, w, s.workers[w].pc.fiber);
  }

  lemma SwapBackInv(cfg: Config, s: Sys, w: nat)
    requires Inv(cfg, s) && w < |s.workers| && s.workers[w].pc.Leaving?
    ensures Inv(cfg, SwapBackStep(s, w))
  {
    var s' := SwapBackStep(s, w);
    assert Moved(s, s', None, None, CallTask(0));
    MovedUnique(s, s', None, None, CallTask(0));
    assert forall v, g :: OnStack(s', v, g) <==> OnStack(s, v, g);
    assert forall v, g :: RunsOn(s, v, g) ==> RunsOn(s', v, g);
    assert PcOk(s, s.workers[w].pc);
  }

  predicate NotTakenElsewhere(s: Sys, w: nat, f: nat) {
    forall v: nat :: v < |s.workers| && v != w ==> s.workers[v].pc != Took(FiberTask(f))
  }

  /** A fiber that left the processor is unrelated to every other worker until the
      fix-up is over. */
  lemma FixAlone(cfg: Config, s: Sys, w: nat, f: nat)
    requires NotTakenElsewhere(s, w, f)
    requires Inv(cfg, s) && w < |s.workers| && s.workers[w].pc.Fix? && s.workers[w].pc.fiber == f
    ensures forall v: nat :: v < |s.workers| && v != w ==> Unrelated(s.workers[v].pc, f)
    ensures forall v: nat :: v < |s.workers| && v != w ==> s.workers[v].spare != Some(f)
  {
    assert OnStack(s, w, f);
    assert PcOk(s, s.workers[w].pc);
    forall v: nat | v < |s.workers| && v != w ensures Unrelated(s.workers[v].pc, f) {
      assert PcOk(s, s.workers[v].pc);
      assert !OnStack(s, v, f);
      if s.workers[v].pc == Requeue(f) {
        assert Holds(s, AtWorker(w), FiberTask(f)) && Holds(s, AtWorker(v), FiberTask(f));
      }
    }
    forall v: nat | v < |s.workers| && v != w ensures s.workers[v].spare != Some(f) {
      assert Unrelated(s.workers[v].pc, f);
    }
  }

  /** The fix-up moves no token. */
  lemma FixUpMoves(cfg: Config, s: Sys, w: nat, f: nat)
    requires Inv(cfg, s) && w < |s.workers| && s.workers[w].pc.Fix? && s.workers[w].pc.fiber == f
    requires f in s.fibers && NotTakenElsewhere(s, w, f)
    ensures Moved(s, FixUpStep(s, w), None, None, CallTask(0)) && Moved(FixUpStep(s, w), s, None, None, CallTask(0))
  {
    assert PcOk(s, s.workers[w].pc);
    FixAlone(cfg, s, w, f);
  }

  lemma FixUpTokens(cfg: Config, s: Sys, w: nat, f: nat)
    requires Inv(cfg, s) && w < |s.workers| && s.workers[w].pc.Fix? && s.workers[w].pc.fiber == f
    requires NotTakenElsewhere(s, w, f)
    ensures f in s.fibers
    ensures TokensUnique(FixUpStep(s, w)) && TokensAlive(FixUpStep(s, w))
    ensures forall u: Task :: Free(s, u) <==> Free(FixUpStep(s, w), u)
  {
    assert PcOk(s, s.workers[w].pc);
    FixUpMoves(cfg, s, w, f);
    var s' := FixUpStep(s, w);
    MovedUnique(s, s', None, None, CallTask(0));
    MovedUnique(s', s, None, None, CallTask(0));
  }

  lemma FixUpPcs(cfg: Config, s: Sys, w: nat, f: nat)
    requires Inv(cfg, s) && w < |s.workers| && s.workers[w].pc.Fix? && s.workers[w].pc.fiber == f
    requires f in s.fibers && NotTakenElsewhere(s, w, f)
    ensures var s' := FixUpStep(s, w); forall v :: 0 <= v < |s'.workers| ==> PcOk(s', s'.workers[v].pc)
  {
    assert OnStack(s, w, f);
    assert PcOk(s, s.workers[w].pc);
    FixAlone(cfg, s, w, f);
    var s' := FixUpStep(s, w);
    forall v | 0 <= v < |s'.workers| ensures PcOk(s', s'.workers[v].pc) {
      if v != w { assert PcOk(s, s.workers[v].pc) && Unrelated(s.workers[v].pc, f); }
    }
  }

  lemma FixUpStacks(cfg: Config, s: Sys, w: nat, f: nat)
    requires Inv(cfg, s) && w < |s.workers| && s.workers[w].pc.Fix? && s.workers[w].pc.fiber == f
    requires f in s.fibers && NotTakenElsewhere(s, w, f)
    ensures StacksOk(cfg, FixUpStep(s, w))
  {
    FixUpPcs(cfg, s, w, f);
    var s' := FixUpStep(s, w);
    assert forall v, g :: OnStack(s', v, g) ==> OnStack(s, v, g);
    forall g | g in s'.fibers && s'.fibers[g] == Exec ensures exists v :: RunsOn(s', v, g) {
      var v :| RunsOn(s, v, g);
      assert RunsOn(s', v, g);
    }
  }

  lemma FixUpSpares(cfg: Config, s: Sys, w: nat, f: nat)
    requires Inv(cfg, s) && w < |s.workers| && s.workers[w].pc.Fix? && s.workers[w].pc.fiber == f
    requires f in s.fibers && NotTakenElsewhere(s, w, f)
    ensures SparesOk(FixUpStep(s, w))
  {
    FixUpTokens(cfg, s, w, f);
    FixAlone(cfg, s, w, f);
    assert s.fibers[f] in {Term, Except} ==> forall p: Place :: !Holds(s, p, FiberTask(f));
  }

  lemma FixUpInv(cfg: Config, s: Sys, w: nat, f: nat)
    requires Inv(cfg, s) && w < |s.workers| && s.workers[w].pc.Fix? && s.workers[w].pc.fiber == f
    requires NotTakenElsewhere(s, w, f)
    ensures f in s.fibers && Inv(cfg, FixUpStep(s, w))
  {
    FixUpTokens(cfg, s, w, f);
    FixUpStacks(cfg, s, w, f);
    FixUpSpares(cfg, s, w, f);
  }

  lemma FusedYieldInv(cfg: Config, s: Sys, w: nat, to: FiberState)
    requires Inv(cfg, s) && Enabled(cfg, s, Yield(w, to)) && Asserts(cfg, s, Yield(w, to))
    ensures Inv(cfg, FixUpStep(SwapBackStep(YieldStep(s, w, to), w), w))
  {
    var f := s.workers[w].pc.fiber;
    RunAlone(cfg, s, w, f);
    YieldInv(cfg, s, w, to);
    var s1 := YieldStep(s, w, to);
    SwapBackInv(cfg, s1, w);
    var s2 := SwapBackStep(s1, w);
    forall v: nat | v < |s2.workers| && v != w ensures s2.workers[v].pc != Took(FiberTask(f)) {
      assert Unrelated(s.workers[v].pc, f);
    }
    FixUpInv(cfg, s2, w, f);
  }

  lemma PushBackInv(cfg: Config, s: Sys, w: nat)
    requires Quiet(s) && Inv(cfg, s) && Enabled(cfg, s, PushBack(w))
    ensures Inv(cfg, Apply(cfg, s, PushBack(w)))
  {
    var s' := Apply(cfg, s, PushBack(w));
    PushBackTokens(cfg, s, w);
    StacksOffCpu(cfg, s, s', w);
    SparesFrame(s, s');
  }

  /** The token leaves the worker's hands... */
  lemma PutDown(cfg: Config, s: Sys, w: nat, t: Task)
    requires Quiet(s) && Inv(cfg, s) && w < |s.workers| && s.workers[w].pc.Requeue? && t == FiberTask(s.workers[w].pc.fiber)
    ensures var s1 := SetPc(s, w, Head);
      && TokensUnique(s1) && TokensAlive(s1) && Free(s1, t) && QueueOk(s1)
      && t.fiber in s1.fibers && s1.fibers[t.fiber] !in {Term, Except}
      && forall u: Task :: Free(s, u) ==> Free(s1, u)
  {
    var s1 := SetPc(s, w, Head);
    TookAlone(cfg, s, w, t.fiber);
    assert Holds(s, AtWorker(w), t);
    assert Moved(s, s1, Some(AtWorker(w)), None, t);
    MovedUnique(s, s1, Some(AtWorker(w)), None, t);
  }

  /** ... and is the last of the queue. */
  lemma PushBackTokens(cfg: Config, s: Sys, w: nat)
    requires Quiet(s) && Inv(cfg, s) && Enabled(cfg, s, PushBack(w))
    ensures var s' := Apply(cfg, s, PushBack(w));
      && TokensUnique(s') && TokensAlive(s') && QueueOk(s')
      && forall u: Task :: Free(s, u) ==> Free(s', u)
  {
    var t := FiberTask(s.workers[w].pc.fiber);
    var e := Entry(t, -1, -1);
    var s1 := SetPc(s, w, Head);
    assert Holds(s, AtWorker(w), t);
    PutDown(cfg, s, w, t);
    assert Apply(cfg, s, PushBack(w)) == Push(s1, e);
    PushMoves(s1, e);
    MovedUnique(s1, Push(s1, e), None, Some(InQueue(|s.log|)), t);
    PushQueueOk(s1, e);
  }

  /** Positions at which a worker holds no token and is on no fiber's stack. */
  predicate Unencumbered(pc: Pc) {
    !pc.Took? && !pc.Run? && !pc.Leaving? && !pc.Fix? && !pc.Requeue?
  }

  lemma IdleMoveInv(cfg: Config, s: Sys, w: nat, x: Worker)
    requires Inv(cfg, s) && w < |s.workers|
    requires Unencumbered(s.workers[w].pc) && Unencumbered(x.pc)
    requires x.spare == s.workers[w].spare
    ensures Inv(cfg, SetWorker(s, w, x))
  {
    var s' := SetWorker(s, w, x);
    assert Moved(s, s', None, None, CallTask(0));
    MovedUnique(s, s', None, None, CallTask(0));
    StacksOffCpu(cfg, s, s', w);
    SparesFrame(s, s');
  }

  lemma CollectInv(cfg: Config, s: Sys, w: nat, due: nat)
    requires Inv(cfg, s) && PcIs(s, w, IdleRun) && due <= s.timers
    ensures Inv(cfg, SetPc(s, w, Collected(due)).(timers := s.timers - due))
  {
    IdleMoveInv(cfg, s, w, s.workers[w].(pc := Collected(due)));
    var s1 := SetPc(s, w, Collected(due));
    FlagsInv(cfg, s1, s.timers - due, s.stop);
  }

  lemma PushTimerInv(cfg: Config, s: Sys, w: nat)
    requires Inv(cfg, s) && w < |s.workers| && s.workers[w].pc.Collected?
    ensures Inv(cfg, SetPc(PushCall(s, -1), w, AfterPush(s.workers[w].pc)))
  {
    PushCallInv(cfg, s, -1);
    var s1 := PushCall(s, -1);
    IdleMoveInv(cfg, s1, w, s.workers[w].(pc := AfterPush(s.workers[w].pc)));
  }

  lemma FlagsInv(cfg: Config, s: Sys, timers: nat, stop: bool)
    requires Inv(cfg, s)
    ensures Inv(cfg, s.(timers := timers, stop := stop))
  {
    var s' := s.(timers := timers, stop := stop);
    assert Moved(s, s', None, None, CallTask(0));
    MovedUnique(s, s', None, None, CallTask(0));
    StacksFrame(cfg, s, s');
  }

  lemma TriggerBothInv(cfg: Config, s: Sys, fd: nat, evs: set<Event>)
    requires Inv(cfg, s) && evs <= Registered(s, fd)
    ensures Read in evs ==> Slot(fd, Read) in s.slots
    ensures Write in evs ==> Slot(fd, Write) in TriggerIf(s, Slot(fd, Read), Read in evs).slots
    ensures Inv(cfg, TriggerIf(TriggerIf(s, Slot(fd, Read), Read in evs), Slot(fd, Write), Write in evs))
  {
    if Read in evs { TriggerInv(cfg, s, Slot(fd, Read)); }
    var s1 := TriggerIf(s, Slot(fd, Read), Read in evs);
    if Write in evs { TriggerInv(cfg, s1, Slot(fd, Write)); }
  }

  /** Actions by code that runs between context switches. */
  predicate IsCall(a: Action) {
    || a.ScheduleFiber? || a.ScheduleCall? || a.ArmTimer? || a.RequestStop?
  }

  predicate IsConsume(a: Action) {
    a.DelEvent? || a.CancelEvent? || a.CancelAll? || a.Readiness?
  }

  predicate IsIdle(a: Action) {
    || a.EnterIdle? || a.CollectTimers? || a.SeeNoTimer? || a.SeeNoEvent? || a.KeepIdling?
    || a.IdleStop? || a.IdleYield? || a.Leave?
  }

  lemma CallInv(cfg: Config, s: Sys, a: Action)
    requires Inv(cfg, s) && IsCall(a) && Enabled(cfg, s, a) && Asserts(cfg, s, a)
    ensures Inv(cfg, Apply(cfg, s, a))
  {
    match a
    case ScheduleFiber(actor, f, thread) => ScheduleFiberInv(cfg, s, f, thread);
    case ScheduleCall(actor, thread) => PushCallInv(cfg, s, thread);
    case ArmTimer(actor) => FlagsInv(cfg, s, s.timers + 1, s.stop);
    case RequestStop => FlagsInv(cfg, s, s.timers, true);
  }

  lemma ConsumeInv(cfg: Config, s: Sys, a: Action)
    requires Inv(cfg, s) && IsConsume(a) && Enabled(cfg, s, a) && Asserts(cfg, s, a)
    ensures Inv(cfg, Apply(cfg, s, a))
  {
    match a
    case DelEvent(actor, k) => DelEventInv(cfg, s, k);
    case CancelEvent(actor, k) => TriggerInv(cfg, s, k);
    case CancelAll(actor, fd) => TriggerBothInv(cfg, s, fd, Registered(s, fd));
    case Readiness(w, fd, bits, err) => TriggerBothInv(cfg, s, fd, RealEvents(s, fd, bits, err));
  }

  lemma IdleInv(cfg: Config, s: Sys, a: Action)
    requires Inv(cfg, s) && IsIdle(a) && Enabled(cfg, s, a) && Asserts(cfg, s, a)
    ensures Inv(cfg, Apply(cfg, s, a))
  {
    if a.CollectTimers? {
      CollectInv(cfg, s, a.w, a.due);
    } else {
      var x := IdleMoves(cfg, s, a);
      IdleMoveInv(cfg, s, a.w, x);
    }
  }

  /** The other idle actions only move their worker. */
  lemma IdleMoves(cfg: Config, s: Sys, a: Action) returns (x: Worker)
    requires IsIdle(a) && !a.CollectTimers? && Enabled(cfg, s, a) && Asserts(cfg, s, a)
    ensures a.w < |s.workers| && Apply(cfg, s, a) == SetWorker(s, a.w, x)
    ensures Unencumbered(s.workers[a.w].pc) && Unencumbered(x.pc) && !x.pc.Collected? && x.spare == s.workers[a.w].spare
    ensures !a.Leave? ==> LiveWorker(x)
    ensures (x.pc.NoTimer? ==> a.SeeNoTimer?) && (x.pc.NoEvent? ==> a.SeeNoEvent?)
  {
    x := Apply(cfg, s, a).workers[a.w];
  }

  lemma YieldActionInv(cfg: Config, s: Sys, w: nat, to: FiberState)
    requires Inv(cfg, s) && Enabled(cfg, s, Yield(w, to)) && Asserts(cfg, s, Yield(w, to))
    ensures Inv(cfg, Apply(cfg, s, Yield(w, to)))
  {
    if cfg.fused { FusedYieldInv(cfg, s, w, to); } else { YieldInv(cfg, s, w, to); }
  }

  /** Every action keeps the invariant, provided no other worker is between a yield and
      its fix-up. */
  lemma StepInv(cfg: Config, s: Sys, a: Action)
    requires Inv(cfg, s) && Quiet(s) && Enabled(cfg, s, a) && Asserts(cfg, s, a)
    ensures Inv(cfg, Apply(cfg, s, a))
  {
    if IsCall(a) {
      CallInv(cfg, s, a);
    } else if IsConsume(a) {
      ConsumeInv(cfg, s, a);
    } else if IsIdle(a) {
      IdleInv(cfg, s, a);
    } else {
      match a
      case WaitFiber(w, k) => WaitFiberInv(cfg, s, w, k);
      case WaitCall(w, k) => WaitCallInv(cfg, s, w, k);
      case Scan(w) => ScanInv(cfg, s, w);
      case SwapIn(w) => SwapInInv(cfg, s, w);
      case StartCall(w, f) => StartCallInv(cfg, s, w, f);
      case Yield(w, to) => YieldActionInv(cfg, s, w, to);
      case SwapBack(w) => SwapBackInv(cfg, s, w);
      case FixUp(w) => FixUpInv(cfg, s, w, s.workers[w].pc.fiber);
      case PushBack(w) => PushBackInv(cfg, s, w);
      case PushTimer(w) => PushTimerInv(cfg, s, w);
    }
  }
}
