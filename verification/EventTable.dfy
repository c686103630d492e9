/**
  The event table of sylar/iomanager.cpp and the run queue of sylar/scheduler.h and
  sylar/scheduler.cpp as an object. Its contents are the table and queue of SchedulerModel:
  every method makes the same change that the corresponding action makes there.
 */
module EventTable {
  import opened Basics
  import opened SchedulerModel

  /** FdContext::EventContext. `scheduler` says that the pointer is not null. */
  datatype EventContext = EventContext(scheduler: bool, fiber: Option<nat>, cb: Option<nat>)

  datatype FdContext = FdContext(events: set<Event>, read: EventContext, write: EventContext)

  const NOBODY: EventContext := EventContext(false, None, None)

  /** FdContext::getContext. */
  function Ctx(c: FdContext, e: Event): EventContext {
    match e case Read => c.read case Write => c.write
  }

  function SetCtx(c: FdContext, events: set<Event>, e: Event, x: EventContext): FdContext {
    match e
    case Read => FdContext(events, x, c.write)
    case Write => FdContext(events, c.read, x)
  }

  /** Exactly one of fiber and callback, and a scheduler to run it. */
  predicate Engaged(x: EventContext) {
    x.scheduler && (x.fiber.Some? <==> x.cb.None?)
  }

  function TaskOf(x: EventContext): Task
    requires Engaged(x)
  {
    if x.cb.Some? then CallTask(x.cb.value) else FiberTask(x.fiber.value)
  }

  /** A set bit means an engaged context, a clear bit an empty one. */
  predicate ContextOk(c: FdContext) {
    forall e: Event :: if e in c.events then Engaged(Ctx(c, e)) else Ctx(c, e) == NOBODY
  }

  predicate AllOk(cs: seq<FdContext>) {
    forall fd :: 0 <= fd < |cs| ==> ContextOk(cs[fd])
  }

  /** The bits set over all contexts. */
  ghost function Bits(cs: seq<FdContext>): set<Slot> {
    set fd, e | 0 <= fd < |cs| && e in cs[fd].events :: Slot(fd, e)
  }

  ghost function Table(cs: seq<FdContext>): map<Slot, Task>
    requires AllOk(cs)
  {
    map k | k in Bits(cs) :: TaskOf(Ctx(cs[k.fd], k.event))
  }

  /** An entry of m_fibers. */
  datatype Queued = Queued(task: Task, thread: int)

  datatype View = View(table: map<Slot, Task>, pending: int, queue: seq<Queued>)

  // ---------------------------------------------------------------- one cell changes

  lemma Engage(cs: seq<FdContext>, fd: nat, e: Event, x: EventContext)
    requires AllOk(cs) && fd < |cs| && e !in cs[fd].events && Engaged(x)
    ensures var after := cs[fd := SetCtx(cs[fd], cs[fd].events + {e}, e, x)];
      && AllOk(after) && Table(after) == Table(cs)[Slot(fd, e) := TaskOf(x)]
      && Slot(fd, e) !in Bits(cs) && |Bits(after)| == |Bits(cs)| + 1
  {
    var after := cs[fd := SetCtx(cs[fd], cs[fd].events + {e}, e, x)];
    EngageBits(cs, fd, e, x);
    assert forall k :: k in Bits(cs) ==> Ctx(after[k.fd], k.event) == Ctx(cs[k.fd], k.event);
  }

  lemma EngageBits(cs: seq<FdContext>, fd: nat, e: Event, x: EventContext)
    requires AllOk(cs) && fd < |cs| && e !in cs[fd].events && Engaged(x)
    ensures var after := cs[fd := SetCtx(cs[fd], cs[fd].events + {e}, e, x)];
      AllOk(after) && Bits(after) == Bits(cs) + {Slot(fd, e)} && Slot(fd, e) !in Bits(cs)
  {
    var after := cs[fd := SetCtx(cs[fd], cs[fd].events + {e}, e, x)];
    forall d | 0 <= d < |after| ensures ContextOk(after[d]) { assert ContextOk(cs[d]); }
    assert Bits(after) == Bits(cs) + {Slot(fd, e)};
  }

  lemma Vacate(cs: seq<FdContext>, fd: nat, e: Event)
    requires AllOk(cs) && fd < |cs| && e in cs[fd].events
    ensures var after := cs[fd := SetCtx(cs[fd], cs[fd].events - {e}, e, NOBODY)];
      && AllOk(after) && Table(after) == Table(cs) - {Slot(fd, e)}
      && Slot(fd, e) in Bits(cs) && |Bits(after)| == |Bits(cs)| - 1
  {
    var after := cs[fd := SetCtx(cs[fd], cs[fd].events - {e}, e, NOBODY)];
    forall d | 0 <= d < |after| ensures ContextOk(after[d]) { assert ContextOk(cs[d]); }
    assert Slot(fd, e) in Bits(cs);
    assert Bits(after) == Bits(cs) - {Slot(fd, e)};
  }

  lemma Extend(cs: seq<FdContext>, more: seq<FdContext>)
    requires AllOk(cs) && forall i :: 0 <= i < |more| ==> more[i] == FdContext({}, NOBODY, NOBODY)
    ensures AllOk(cs + more) && Table(cs + more) == Table(cs) && Bits(cs + more) == Bits(cs)
  {
    var after := cs + more;
    forall d | 0 <= d < |after| ensures ContextOk(after[d]) {
      if d < |cs| { assert ContextOk(cs[d]); }
    }
    assert Bits(after) == Bits(cs);
  }

  // ---------------------------------------------------------------- the table's changes

  /** The fiber or callback leaves its context for the queue. */
  function Woken(v: View, k: Slot): View
    requires k in v.table
  {
    View(v.table - {k}, v.pending - 1, v.queue + [Queued(v.table[k], -1)])
  }

  function WokenIf(v: View, k: Slot, fire: bool): View
    requires fire ==> k in v.table
  {
    if fire then Woken(v, k) else v
  }

  /** Reading before writing. */
  function Fired(v: View, fd: nat, evs: set<Event>): View
    requires evs <= Watched(v.table.Keys, fd)
  {
    WokenIf(WokenIf(v, Slot(fd, Read), Read in evs), Slot(fd, Write), Write in evs)
  }

  function Added(v: View, k: Slot, t: Task): View {
    View(v.table[k := t], v.pending + 1, v.queue)
  }

  function Dropped(v: View, k: Slot): View {
    View(v.table - {k}, v.pending - 1, v.queue)
  }

  /** What epoll_wait reports for one descriptor, and whether the epoll_ctl that follows
      succeeds. */
  datatype Report = Report(fd: nat, bits: set<Event>, err: bool, ctl: bool)

  /** The events acted on. */
  function Real(v: View, r: Report): set<Event> {
    Widened(r.bits, r.err, Watched(v.table.Keys, r.fd))
  }

  /** One report is handled; None is an abort. */
  function Handled(v: View, r: Report): Option<View> {
    var evs := Real(v, r);
    if evs * Watched(v.table.Keys, r.fd) == {} || !r.ctl then Some(v)
    else if !(evs <= Watched(v.table.Keys, r.fd)) then None
    else Some(Fired(v, r.fd, evs))
  }

  function HandledAll(v: View, rs: seq<Report>): Option<View> {
    if rs == [] then Some(v)
    else match HandledAll(v, rs[..|rs| - 1])
      case None => None
      case Some(u) => Handled(u, rs[|rs| - 1])
  }

  // ---------------------------------------------------------------- the same as in the step system

  ghost function ViewOf(s: Sys): View
    requires forall i :: 0 <= i < |s.queue| ==> s.queue[i] < |s.log|
  {
    View(map k | k in s.slots :: s.slots[k].task, s.pending,
         seq(|s.queue|, i requires 0 <= i < |s.queue| => Queued(s.log[s.queue[i]].task, s.log[s.queue[i]].thread)))
  }

  lemma TriggerMatches(s: Sys, k: Slot)
    requires (forall i :: 0 <= i < |s.queue| ==> s.queue[i] < |s.log|) && k in s.slots
    ensures ViewOf(Trigger(s, k)) == Woken(ViewOf(s), k)
  {
  }

  lemma WatchedMatches(s: Sys, fd: nat)
    requires forall i :: 0 <= i < |s.queue| ==> s.queue[i] < |s.log|
    ensures Watched(ViewOf(s).table.Keys, fd) == Registered(s, fd)
  {
  }

  lemma FireMatches(s: Sys, fd: nat, evs: set<Event>)
    requires (forall i :: 0 <= i < |s.queue| ==> s.queue[i] < |s.log|) && evs <= Registered(s, fd)
    ensures evs <= Watched(ViewOf(s).table.Keys, fd)
    ensures ViewOf(TriggerIf(TriggerIf(s, Slot(fd, Read), Read in evs), Slot(fd, Write), Write in evs))
      == Fired(ViewOf(s), fd, evs)
  {
    WatchedMatches(s, fd);
    if Read in evs { TriggerMatches(s, Slot(fd, Read)); }
    var s1 := TriggerIf(s, Slot(fd, Read), Read in evs);
    if Write in evs { TriggerMatches(s1, Slot(fd, Write)); }
  }

  /** The step system's actions on the table are exactly these changes. */
  lemma ActionsMatch(cfg: Config, s: Sys, a: Action)
    requires (forall i :: 0 <= i < |s.queue| ==> s.queue[i] < |s.log|) && Enabled(cfg, s, a) && Asserts(cfg, s, a)
    ensures a.DelEvent? ==> ViewOf(Apply(cfg, s, a)) == Dropped(ViewOf(s), a.slot)
    ensures a.CancelEvent? ==> ViewOf(Apply(cfg, s, a)) == Woken(ViewOf(s), a.slot)
    ensures a.WaitFiber? ==> ViewOf(Apply(cfg, s, a)) == Added(ViewOf(s), a.slot, FiberTask(s.workers[a.w].pc.fiber))
    ensures a.WaitCall? ==> ViewOf(Apply(cfg, s, a)) == Added(ViewOf(s), a.slot, CallTask(s.calls))
  {
    if a.CancelEvent? { TriggerMatches(s, a.slot); }
  }

  /** cancleAll is the handling of a hang-up; readiness is the handling of its report. */
  lemma FiringsMatch(cfg: Config, s: Sys, a: Action)
    requires (forall i :: 0 <= i < |s.queue| ==> s.queue[i] < |s.log|) && Enabled(cfg, s, a) && Asserts(cfg, s, a)
    ensures a.CancelAll? ==>
      Handled(ViewOf(s), Report(a.fd, {}, true, true)) == Some(ViewOf(Apply(cfg, s, a)))
    ensures a.Readiness? ==>
      Handled(ViewOf(s), Report(a.fd, a.bits, a.err, true)) == Some(ViewOf(Apply(cfg, s, a)))
  {
    match a
    case CancelAll(_, fd) =>
      WatchedMatches(s, fd);
      FireMatches(s, fd, Registered(s, fd));
    case Readiness(_, fd, bits, err) =>
      WatchedMatches(s, fd);
      FireMatches(s, fd, RealEvents(s, fd, bits, err));
    case _ =>
  }

  /** Readiness aborts in the step system exactly when it does here. */
  lemma AbortsMatch(cfg: Config, s: Sys, a: Action)
    requires (forall i :: 0 <= i < |s.queue| ==> s.queue[i] < |s.log|) && Enabled(cfg, s, a) && a.Readiness?
    ensures Asserts(cfg, s, a) <==> Handled(ViewOf(s), Report(a.fd, a.bits, a.err, true)).Some?
  {
    WatchedMatches(s, a.fd);
  }

  // ---------------------------------------------------------------- the run queue

  /** Worker w may take the entry: it is not another's, and its fiber is not being run. */
  predicate MayTake(q: Queued, w: int, running: set<nat>) {
    !PinnedElsewhere(q.thread, w) && !(q.task.FiberTask? && q.task.fiber in running)
  }

  function FirstFor(q: seq<Queued>, w: int, running: set<nat>, i: nat): (r: nat)
    requires i <= |q|
    ensures i <= r <= |q| && (r < |q| ==> MayTake(q[r], w, running))
    ensures forall j :: i <= j < r ==> !MayTake(q[j], w, running)
    decreases |q| - i
  {
    if i == |q| || MayTake(q[i], w, running) then i else FirstFor(q, w, running, i + 1)
  }

  ghost function Running(s: Sys): set<nat> { set f | f in s.fibers && s.fibers[f] == Exec }

  lemma FirstMatches(s: Sys, w: nat)
    requires forall i :: 0 <= i < |s.queue| ==> s.queue[i] < |s.log|
    ensures FirstEligible(s, w, 0) == FirstFor(ViewOf(s).queue, w, Running(s), 0)
  {
    var q, i, j := ViewOf(s).queue, FirstEligible(s, w, 0), FirstFor(ViewOf(s).queue, w, Running(s), 0);
    forall k | 0 <= k < |q| ensures MayTake(q[k], w, Running(s)) <==> Eligible(s, w, s.queue[k]) { }
    assert !(i < j) && !(j < i);
  }

  /** The step system scans the queue as run does. */
  lemma ScanMatches(s: Sys, w: nat)
    requires (forall i :: 0 <= i < |s.queue| ==> s.queue[i] < |s.log|) && w < |s.workers|
    ensures var q, i := ViewOf(s).queue, FirstFor(ViewOf(s).queue, w, Running(s), 0);
      if i == |q| then ViewOf(ScanStep(s, w)).queue == q
      else ViewOf(ScanStep(s, w)).queue == q[..i] + q[i + 1..] && ScanStep(s, w).workers[w].pc == Took(q[i].task)
  {
    FirstMatches(s, w);
    QueueDrops(s, ScanStep(s, w), FirstEligible(s, w, 0));
  }

  lemma QueueDrops(s: Sys, t: Sys, i: nat)
    requires (forall i :: 0 <= i < |s.queue| ==> s.queue[i] < |s.log|) && i <= |s.queue| && t.log == s.log
    requires t.queue == if i == |s.queue| then s.queue else s.queue[..i] + s.queue[i + 1..]
    ensures forall k :: 0 <= k < |t.queue| ==> t.queue[k] < |t.log|
    ensures ViewOf(t).queue == if i == |s.queue| then ViewOf(s).queue else ViewOf(s).queue[..i] + ViewOf(s).queue[i + 1..]
  {
    if i < |s.queue| {
      var q := ViewOf(s).queue;
      forall k | 0 <= k < |t.queue| ensures t.queue[k] < |t.log| && ViewOf(t).queue[k] == (q[..i] + q[i + 1..])[k] {
        assert t.queue[k] == if k < i then s.queue[k] else s.queue[k + 1];
      }
    }
  }

  lemma WatchedIs(cs: seq<FdContext>, fd: nat)
    requires AllOk(cs)
    ensures Watched(Table(cs).Keys, fd) == if fd < |cs| then cs[fd].events else {}
  {
    forall e: Event ensures Slot(fd, e) in Table(cs) <==> fd < |cs| && e in cs[fd].events {
      assert Slot(fd, e) in Bits(cs) <==> fd < |cs| && e in cs[fd].events;
    }
  }

  lemma WatchedAll(table: map<Slot, Task>, fd: nat, evs: set<Event>)
    ensures evs <= Watched(table.Keys, fd) <==>
      (Read in evs ==> Slot(fd, Read) in table) && (Write in evs ==> Slot(fd, Write) in table)
  {
    if (Read in evs ==> Slot(fd, Read) in table) && (Write in evs ==> Slot(fd, Write) in table) {
      forall e | e in evs ensures e in Watched(table.Keys, fd) { assert e == Read || e == Write; }
    }
  }

  lemma HandledCases(v: View, r: Report, evs: set<Event>, cs: seq<FdContext>)
    requires AllOk(cs) && v.table == Table(cs) && r.fd < |cs|
    requires evs == if r.err then r.bits + cs[r.fd].events else r.bits
    ensures cs[r.fd].events * evs == {} || !r.ctl ==> Handled(v, r) == Some(v)
    ensures cs[r.fd].events * evs != {} && r.ctl ==>
      Handled(v, r) == if evs <= Watched(v.table.Keys, r.fd) then Some(Fired(v, r.fd, evs)) else None
  {
    WatchedIs(cs, r.fd);
    assert Real(v, r) == evs;
    assert cs[r.fd].events * evs == evs * Watched(v.table.Keys, r.fd);
  }

  // ---------------------------------------------------------------- the object

  datatype Reply = Ok | Failed | Died

  class IOManager {
    var contexts: seq<FdContext>
    var pending: int
    var fibers: seq<Queued>

    constructor ()
      ensures Valid() && Contents() == View(map[], 0, []) && |contexts| == 32
    {
      contexts := seq(32, _ => FdContext({}, NOBODY, NOBODY));
      pending, fibers := 0, [];
      new;
      assert Bits(contexts) == {};
    }

    /** Every context is in order, and m_pendingEventCount is the number of bits set. */
    ghost predicate Valid()
      reads this
    {
      |contexts| >= 32 && AllOk(contexts) && pending == |Bits(contexts)|
    }

    ghost function Contents(): View
      requires AllOk(contexts)
      reads this
    {
      View(Table(contexts), pending, fibers)
    }

    /** addEvent, one step including the growth of the table. `task` is the callback, or the
        running fiber, whose state is EXEC iff `exec`; `ctl` says whether epoll_ctl succeeds.
        The assertion that the context is empty never fires. */
    method AddEvent(fd: nat, e: Event, task: Task, exec: bool, ctl: bool) returns (r: Reply)
      requires Valid()
      modifies this`contexts, this`pending
      ensures r == Died <==> Slot(fd, e) in old(Contents()).table || (ctl && task.FiberTask? && !exec)
      ensures r == Failed <==> Slot(fd, e) !in old(Contents()).table && !ctl
      ensures r == Failed ==> Valid() && Contents() == old(Contents())
      ensures r == Ok ==> Valid() && Contents() == Added(old(Contents()), Slot(fd, e), task)
    {
      Reserve(fd);
      if e in contexts[fd].events { return Died; }
      if !ctl { return Failed; }
      if Ctx(contexts[fd], e) != NOBODY { return Died; }
      if task.FiberTask? && !exec { return Died; }
      var x := if task.CallTask? then EventContext(true, None, Some(task.call)) else EventContext(true, Some(task.fiber), None);
      Engage(contexts, fd, e, x);
      pending := pending + 1;
      contexts := contexts[fd := SetCtx(contexts[fd], contexts[fd].events + {e}, e, x)];
      r := Ok;
    }

    /** contextResize(fd * 1.5), when fd is beyond the table. */
    method Reserve(fd: nat)
      requires Valid()
      modifies this`contexts
      ensures Valid() && fd < |contexts| && Contents() == old(Contents())
      ensures |contexts| == if fd < |old(contexts)| then |old(contexts)| else fd * 3 / 2
    {
      if fd >= |contexts| {
        var more := seq(fd * 3 / 2 - |contexts|, _ => FdContext({}, NOBODY, NOBODY));
        Extend(contexts, more);
        contexts := contexts + more;
      }
    }

    /** FdContext::triggerEvent without the caller's --m_pendingEventCount; false aborts. */
    method TriggerEvent(fd: nat, e: Event) returns (ok: bool)
      requires AllOk(contexts) && fd < |contexts|
      modifies this`contexts, this`fibers
      ensures |contexts| == |old(contexts)| && AllOk(contexts)
      ensures ok <==> Slot(fd, e) in old(Contents()).table
      ensures ok ==> Contents().(pending := pending - 1) == Woken(old(Contents()), Slot(fd, e))
      ensures ok ==> |Bits(contexts)| == |old(Bits(contexts))| - 1
    {
      ok := e in contexts[fd].events;
      if ok {
        Vacate(contexts, fd, e);
        var x := Ctx(contexts[fd], e);
        fibers := fibers + [Queued(if x.cb.Some? then CallTask(x.cb.value) else FiberTask(x.fiber.value), -1)];
        contexts := contexts[fd := SetCtx(contexts[fd], contexts[fd].events - {e}, e, NOBODY)];
      }
    }

    /** TriggerEvent and --m_pendingEventCount. */
    method Wake(fd: nat, e: Event) returns (ok: bool)
      requires Valid() && fd < |contexts|
      modifies this
      ensures |contexts| == |old(contexts)| && (ok <==> Slot(fd, e) in old(Contents()).table)
      ensures ok ==> Valid() && Contents() == Woken(old(Contents()), Slot(fd, e))
    {
      ok := TriggerEvent(fd, e);
      pending := pending - 1;
    }

    /** schedule: returns whether to tickle. */
    method Schedule(task: Task, thread: int) returns (tickle: bool)
      requires Valid()
      modifies this`fibers
      ensures Valid() && Contents() == old(Contents()).(queue := old(fibers) + [Queued(task, thread)])
      ensures tickle <==> old(fibers) == []
    {
      tickle := fibers == [];
      fibers := fibers + [Queued(task, thread)];
    }

    /** The locked scan of Scheduler::run by worker w, while the fibers in `running` are in
        state EXEC. */
    method Take(w: int, running: set<nat>) returns (r: Option<Queued>, tickle: bool)
      requires Valid()
      modifies this`fibers
      ensures Valid()
      ensures var q, i := old(fibers), FirstFor(old(fibers), w, running, 0);
        && (if i == |q| then r == None && fibers == q else r == Some(q[i]) && fibers == q[..i] + q[i + 1..])
        && (tickle <==> (exists j :: 0 <= j < i && PinnedElsewhere(q[j].thread, w)) || i + 1 < |q|)
    {
      r, tickle := None, false;
      var i: nat := 0;
      while i < |fibers|
        invariant i <= |fibers| && fibers == old(fibers) && r.None?
        invariant FirstFor(fibers, w, running, 0) == FirstFor(fibers, w, running, i)
        invariant tickle <==> exists j :: 0 <= j < i && PinnedElsewhere(fibers[j].thread, w)
      {
        if PinnedElsewhere(fibers[i].thread, w) {
          tickle := true;
        } else if !(fibers[i].task.FiberTask? && fibers[i].task.fiber in running) {
          r := Some(fibers[i]);
          tickle := tickle || i + 1 < |fibers|;
          fibers := fibers[..i] + fibers[i + 1..];
          return;
        }
        i := i + 1;
      }
    }

    method DelEvent(fd: nat, e: Event, ctl: bool) returns (ok: bool)
      requires Valid()
      modifies this`contexts, this`pending
      ensures Valid() && (ok <==> Slot(fd, e) in old(Contents()).table && ctl)
      ensures Contents() == if ok then Dropped(old(Contents()), Slot(fd, e)) else old(Contents())
    {
      if fd >= |contexts| || e !in contexts[fd].events || !ctl { return false; }
      Vacate(contexts, fd, e);
      pending := pending - 1;
      contexts := contexts[fd := SetCtx(contexts[fd], contexts[fd].events - {e}, e, NOBODY)];
      ok := true;
    }

    method CancleEvent(fd: nat, e: Event, ctl: bool) returns (ok: bool)
      requires Valid()
      modifies this
      ensures Valid() && (ok <==> Slot(fd, e) in old(Contents()).table && ctl)
      ensures Contents() == if ok then Woken(old(Contents()), Slot(fd, e)) else old(Contents())
    {
      if fd >= |contexts| || e !in contexts[fd].events || !ctl { return false; }
      ok := Wake(fd, e);
    }

    /** cancleAll never trips triggerEvent's assertion or its own. */
    method CancleAll(fd: nat, ctl: bool) returns (ok: bool)
      requires Valid()
      modifies this
      ensures Valid() && (ok <==> Watched(old(Contents()).table.Keys, fd) != {} && ctl)
      ensures Some(Contents()) == Handled(old(Contents()), Report(fd, {}, true, ctl))
    {
      WatchedIs(contexts, fd);
      if fd >= |contexts| || contexts[fd].events == {} || !ctl { return false; }
      assert Real(Contents(), Report(fd, {}, true, ctl)) == contexts[fd].events;
      ok := Fire(fd, contexts[fd].events);
    }

    /** The two triggers that end cancleAll and a turn of idle's loop; false aborts. */
    method Fire(fd: nat, evs: set<Event>) returns (ok: bool)
      requires Valid() && fd < |contexts|
      modifies this
      ensures |contexts| == |old(contexts)| && (ok <==> evs <= Watched(old(Contents()).table.Keys, fd))
      ensures ok ==> Valid() && Contents() == Fired(old(Contents()), fd, evs)
    {
      WatchedAll(Contents().table, fd, evs);
      ok := true;
      if Read in evs { ok := Wake(fd, Read); }
      if ok && Write in evs { ok := Wake(fd, Write); }
    }

    /** One turn of idle's loop over what epoll_wait returned; false aborts. */
    method HandleReport(r: Report) returns (ok: bool)
      requires Valid() && r.fd < |contexts|
      modifies this
      ensures |contexts| == |old(contexts)| && (ok <==> Handled(old(Contents()), r).Some?)
      ensures ok ==> Valid() && Some(Contents()) == Handled(old(Contents()), r)
    {
      var evs := r.bits;
      if r.err { evs := evs + contexts[r.fd].events; }
      HandledCases(Contents(), r, evs, contexts);
      if contexts[r.fd].events * evs == {} || !r.ctl { return true; }
      ok := Fire(r.fd, evs);
    }

    method HandleReports(rs: seq<Report>) returns (ok: bool)
      requires Valid() && forall i :: 0 <= i < |rs| ==> rs[i].fd < |contexts|
      modifies this
      ensures ok <==> HandledAll(old(Contents()), rs).Some?
      ensures ok ==> Valid() && Some(Contents()) == HandledAll(old(Contents()), rs)
    {
      var i: nat := 0;
      while i < |rs|
        invariant i <= |rs| && Valid() && |contexts| == |old(contexts)|
        invariant HandledAll(old(Contents()), rs[..i]) == Some(Contents())
      {
        assert rs[..i + 1][..i] == rs[..i];
        ok := HandleReport(rs[i]);
        if !ok {
          AbortStays(old(Contents()), rs, i + 1);
          return false;
        }
        i := i + 1;
      }
      assert rs[..i] == rs;
      ok := true;
    }
  }

  lemma {:induction false} AbortStays(v: View, rs: seq<Report>, n: nat)
    requires n <= |rs| && HandledAll(v, rs[..n]).None?
    ensures HandledAll(v, rs).None?
    decreases |rs|
  {
    if n == |rs| {
      assert rs[..n] == rs;
    } else {
      var p := rs[..|rs| - 1];
      assert p[..n] == rs[..n];
      AbortStays(v, p, n);
    }
  }

  /** Handling a batch of reports loses and invents nothing: what leaves the table enters
      the queue, one for one, and the count drops by as much. */
  lemma {:induction false} ReportsConserve(v: View, rs: seq<Report>)
    requires HandledAll(v, rs).Some?
    ensures var u := HandledAll(v, rs).value;
      && u.table.Keys <= v.table.Keys && v.queue <= u.queue
      && |u.queue| - |v.queue| == |v.table.Keys| - |u.table.Keys| == v.pending - u.pending
  {
    if rs != [] {
      var p := rs[..|rs| - 1];
      ReportsConserve(v, p);
      ReportConserves(HandledAll(v, p).value, rs[|rs| - 1]);
    }
  }

  lemma WokenConserves(v: View, k: Slot)
    requires k in v.table
    ensures var u := Woken(v, k);
      && u.table.Keys <= v.table.Keys && v.queue <= u.queue
      && |u.queue| - |v.queue| == |v.table.Keys| - |u.table.Keys| == v.pending - u.pending
  {
    assert Woken(v, k).table.Keys == v.table.Keys - {k};
  }

  lemma ReportConserves(v: View, r: Report)
    requires Handled(v, r).Some?
    ensures var u := Handled(v, r).value;
      && u.table.Keys <= v.table.Keys && v.queue <= u.queue
      && |u.queue| - |v.queue| == |v.table.Keys| - |u.table.Keys| == v.pending - u.pending
  {
    var evs := Real(v, r);
    if evs * Watched(v.table.Keys, r.fd) != {} && r.ctl {
      var u := WokenIf(v, Slot(r.fd, Read), Read in evs);
      if Read in evs { WokenConserves(v, Slot(r.fd, Read)); }
      if Write in evs { WokenConserves(u, Slot(r.fd, Write)); }
    }
  }
}
