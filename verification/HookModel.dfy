/**
  The wait protocol of do_io (sylar/hook.cpp) as a step system: one fiber makes any number
  of calls on one file descriptor; each retry arms a timer, registers the event and waits.
  Readiness, closing and the timers' callbacks act on their own.
 */
module HookModel {
  import opened Basics

  /** Outside a call; calling the system function; timer armed, event not yet registered;
      event registered and fiber suspended; resumed with the timer cancelled. */
  datatype Phase = Idle | Trying | Armed | Waiting | Checking

  /** A timer's life: in the manager's set; collected, its callback queued; the callback has
      set `cancelled` and is about to call cancleEvent; over. */
  datatype Stage = Pending | Queued | Marked | Over

  datatype Timer = Timer(call: nat, deadline: nat, stage: Stage)

  /** A call and its timer_info: timeout, first EAGAIN, whether the timer_info still exists,
      whether it says ETIMEDOUT, and when the call reported that. */
  datatype Call = Call(timeout: Option<nat>, first: Option<nat>, alive: bool, cancelled: bool, reported: Option<nat>)

  /** `slot` is the wait the event context holds the fiber for; `wakes` lists, for every time
      the fiber was enqueued, the wait it was taken from; `own` is the current retry's timer. */
  datatype State = State(clock: nat, phase: Phase, calls: seq<Call>, timers: seq<Timer>, own: Option<nat>,
                         waits: nat, slot: Option<nat>, queued: bool, wakes: seq<nat>)

  /** How many workers there are, and whether epoll_ctl may fail in cancleEvent. */
  datatype Config = Config(workers: nat, faulty: bool)

  datatype Action =
    | Pass(ms: nat)                          // time goes by
    | Begin(timeout: Option<nat>)            // a call starts
    | Finish                                 // the system function answers; the call returns
    | Again                                  // EAGAIN: the timer, if any, is added
    | Register(ok: bool)                     // addEvent, then the fiber is suspended
    | Ready                                  // readiness, cancleEvent or cancleAll from elsewhere
    | Collect(i: nat)                        // listExpiredCb takes timer i
    | Mark(i: nat)                           // its callback locks the weak pointer and sets cancelled
    | CancelEvent(i: nat, ok: bool)          // ... and calls cancleEvent
    | Resume                                 // the fiber runs again and cancels its timer
    | Check                                  // it looks at cancelled

  function Start(): State { State(0, Idle, [], [], None, 0, None, false, []) }

  predicate AnyMarked(s: State) {
    exists i :: 0 <= i < |s.timers| && s.timers[i].stage == Marked
  }

  /** With one worker nothing else runs while the fiber does, and a callback runs to its end. */
  predicate Turn(cfg: Config, s: State, a: Action) {
    cfg.workers >= 2 ||
    match a
    case Ready => s.phase == Waiting && !AnyMarked(s)
    case Collect(_) => s.phase == Waiting && !AnyMarked(s)
    case Mark(_) => (s.phase == Waiting || s.phase == Idle) && !AnyMarked(s)
    case CancelEvent(_, _) => true
    case Pass(_) => true
    case _ => !AnyMarked(s)
  }

  predicate HasTimer(s: State, i: nat, stage: Stage) {
    i < |s.timers| && s.timers[i].stage == stage
  }

  predicate Enabled(cfg: Config, s: State, a: Action) {
    && Turn(cfg, s, a)
    && match a
       case Pass(_) => true
       case Begin(_) => s.phase == Idle
       case Finish => s.phase == Trying && s.calls != []
       case Again => s.phase == Trying && s.calls != []
       case Register(_) => s.phase == Armed && s.calls != []
       case Ready => s.slot.Some?
       case Collect(i) => HasTimer(s, i, Pending) && s.timers[i].deadline <= s.clock
       case Mark(i) => HasTimer(s, i, Queued) && s.timers[i].call < |s.calls|
       case CancelEvent(i, ok) => HasTimer(s, i, Marked) && (ok || cfg.faulty)
       case Resume => s.phase == Waiting && s.queued
       case Check => s.phase == Checking && s.calls != []
  }

  // ---------------------------------------------------------------- pieces of the steps

  function Last(s: State): nat
    requires s.calls != []
  {
    |s.calls| - 1
  }

  function SetCall(s: State, k: nat, c: Call): State
    requires k < |s.calls|
  {
    s.(calls := s.calls[k := c])
  }

  function SetStage(s: State, i: nat, stage: Stage): State
    requires i < |s.timers|
  {
    s.(timers := s.timers[i := s.timers[i].(stage := stage)])
  }

  /** triggerEvent: the fiber moves from the event context to the queue. */
  function Wake(s: State): State {
    if s.slot.None? then s else s.(slot := None, queued := true, wakes := s.wakes + [s.slot.value])
  }

  /** timer->cancle(): only a timer still in the set is affected. */
  function DropTimer(s: State): State {
    if s.own.Some? && HasTimer(s, s.own.value, Pending) then SetStage(s, s.own.value, Over) else s
  }

  /** The call returns; its timer_info goes away. */
  function Return(s: State, report: bool): State
    requires s.calls != []
  {
    var c := s.calls[Last(s)];
    SetCall(s, Last(s), c.(alive := false, reported := if report then Some(s.clock) else None)).(phase := Idle, own := None)
  }

  /** EAGAIN: note the first one, and arm a timer unless the timeout is -1. */
  function Arm(s: State): State
    requires s.calls != []
  {
    var k := Last(s);
    var c := s.calls[k];
    var c' := c.(first := if c.first.None? then Some(s.clock) else c.first);
    var armed := SetCall(s, k, c').(phase := Armed);
    if c.timeout.None? then armed.(own := None)
    else armed.(own := Some(|s.timers|), timers := s.timers + [Timer(k, s.clock + c.timeout.value, Pending)])
  }

  function Hold(s: State): State {
    s.(phase := Waiting, slot := Some(s.waits), waits := s.waits + 1, queued := false)
  }

  /** The callback: nothing if the timer_info is gone or already says so. */
  function MarkStep(s: State, i: nat): State
    requires i < |s.timers| && s.timers[i].call < |s.calls|
  {
    var k := s.timers[i].call;
    var c := s.calls[k];
    if !c.alive || c.cancelled then SetStage(s, i, Over)
    else SetCall(SetStage(s, i, Marked), k, c.(cancelled := true))
  }

  function Apply(cfg: Config, s: State, a: Action): State
    requires Enabled(cfg, s, a)
  {
    match a
    case Pass(ms) => s.(clock := s.clock + ms)
    case Begin(timeout) => s.(phase := Trying, calls := s.calls + [Call(timeout, None, true, false, None)], own := None)
    case Finish => Return(s, false)
    case Again => Arm(s)
    case Register(ok) => if ok then Hold(s) else Return(DropTimer(s), false)
    case Ready => Wake(s)
    case Collect(i) => SetStage(s, i, Queued)
    case Mark(i) => MarkStep(s, i)
    case CancelEvent(i, ok) => if ok then Wake(SetStage(s, i, Over)) else SetStage(s, i, Over)
    case Resume => DropTimer(s).(phase := Checking, queued := false)
    case Check => if s.calls[Last(s)].cancelled then Return(s, true) else s.(phase := Trying)
  }

  /** The state after a run; None if some step was not possible. */
  ghost function RunTo(cfg: Config, acts: seq<Action>): Option<State> {
    if acts == [] then Some(Start())
    else
      match RunTo(cfg, acts[..|acts| - 1])
      case None => None
      case Some(s) => if Enabled(cfg, s, acts[|acts| - 1]) then Some(Apply(cfg, s, acts[|acts| - 1])) else None
  }
}

/** What every run of the wait protocol keeps. */
module HookTheorems {
  import opened Basics
  import opened HookModel

  // ---------------------------------------------------------------- one wake per wait

  /** The waits are woken in order, each once; the one in the event context not yet. */
  predicate WakesOk(s: State) {
    && |s.wakes| + (if s.slot.Some? then 1 else 0) == s.waits
    && (forall i :: 0 <= i < |s.wakes| ==> s.wakes[i] == i)
    && (s.slot.Some? ==> s.slot.value == s.waits - 1)
    && (s.phase == Waiting <==> s.slot.Some? || s.queued)
    && !(s.slot.Some? && s.queued)
    && (s.phase != Idle ==> s.calls != [])
  }

  lemma WakesStep(cfg: Config, s: State, a: Action)
    requires WakesOk(s) && Enabled(cfg, s, a)
    ensures WakesOk(Apply(cfg, s, a))
  {
  }

  /** The fiber is suspended exactly while it is in the event context or in the queue, never
      both; and of all waits begun, each was enqueued exactly once, in order, except the one
      still in the event context, which was not enqueued at all. */
  lemma {:induction false} OneWakePerWait(cfg: Config, acts: seq<Action>)
    requires RunTo(cfg, acts).Some?
    ensures WakesOk(RunTo(cfg, acts).value)
  {
    if acts != [] {
      var n := |acts| - 1;
      OneWakePerWait(cfg, acts[..n]);
      WakesStep(cfg, RunTo(cfg, acts[..n]).value, acts[n]);
    }
  }

  // ---------------------------------------------------------------- leftover timers

  /** The only timer that can be in the manager's set is the current retry's, and only until
      the fiber runs again. */
  predicate OnePending(s: State) {
    && (forall i :: 0 <= i < |s.timers| && s.timers[i].stage == Pending ==> s.own == Some(i))
    && (s.own.Some? && s.own.value < |s.timers| && s.timers[s.own.value].stage == Pending ==>
          s.phase == Armed || s.phase == Waiting)
  }

  lemma PendingStep(cfg: Config, s: State, a: Action)
    requires OnePending(s) && Enabled(cfg, s, a)
    ensures OnePending(Apply(cfg, s, a))
  {
    if a.Register? || a.Resume? { DropPending(cfg, s, a); }
  }

  lemma DropPending(cfg: Config, s: State, a: Action)
    requires OnePending(s) && Enabled(cfg, s, a) && (a.Register? || a.Resume?)
    ensures OnePending(Apply(cfg, s, a))
  {
  }

  /** Whatever ends a wait or a call, its timer is cancelled or was collected before; retries
      leave no timer behind in the set. */
  lemma {:induction false} RetriesCancelTimers(cfg: Config, acts: seq<Action>)
    requires RunTo(cfg, acts).Some?
    ensures OnePending(RunTo(cfg, acts).value)
  {
    if acts != [] {
      var n := |acts| - 1;
      RetriesCancelTimers(cfg, acts[..n]);
      PendingStep(cfg, RunTo(cfg, acts[..n]).value, acts[n]);
    }
  }

  // ---------------------------------------------------------------- no early timeout

  /** By now `timeout` ms have gone by since the call's first EAGAIN. */
  predicate TimedOutBy(c: Call, now: nat) {
    c.timeout.Some? && c.first.Some? && c.first.value + c.timeout.value <= now
  }

  predicate TimerOk(s: State, t: Timer) {
    && t.call < |s.calls|
    && TimedOutBy(s.calls[t.call], t.deadline)
    && (t.stage in {Queued, Marked} ==> t.deadline <= s.clock)
  }

  predicate CallOk(c: Call, now: nat) {
    && (c.first.Some? ==> c.first.value <= now)
    && (c.cancelled ==> TimedOutBy(c, now))
    && (c.reported.Some? ==> TimedOutBy(c, c.reported.value))
  }

  ghost predicate TimesOk(s: State) {
    && (forall i :: 0 <= i < |s.timers| ==> TimerOk(s, s.timers[i]))
    && (forall k :: 0 <= k < |s.calls| ==> CallOk(s.calls[k], s.clock))
  }

  lemma ArmTimes(s: State)
    requires TimesOk(s) && s.calls != []
    ensures TimesOk(Arm(s))
  {
    var s' := Arm(s);
    forall i | 0 <= i < |s'.timers| ensures TimerOk(s', s'.timers[i]) {
      if i < |s.timers| { assert TimerOk(s, s.timers[i]); }
    }
    forall k | 0 <= k < |s'.calls| ensures CallOk(s'.calls[k], s'.clock) { assert CallOk(s.calls[k], s.clock); }
  }

  lemma MarkTimes(s: State, i: nat)
    requires TimesOk(s) && HasTimer(s, i, Queued) && s.timers[i].call < |s.calls|
    ensures TimesOk(MarkStep(s, i))
  {
    var s' := MarkStep(s, i);
    assert TimerOk(s, s.timers[i]);
    forall j | 0 <= j < |s'.timers| ensures TimerOk(s', s'.timers[j]) { assert TimerOk(s, s.timers[j]); }
    forall k | 0 <= k < |s'.calls| ensures CallOk(s'.calls[k], s'.clock) { assert CallOk(s.calls[k], s.clock); }
  }

  /** Steps that only move stages on, end calls or let time pass. */
  lemma QuietTimes(s: State, s': State)
    requires TimesOk(s) && s'.clock >= s.clock && |s'.timers| == |s.timers| && |s'.calls| >= |s.calls|
    requires forall i :: 0 <= i < |s.timers| ==>
      && s'.timers[i].call == s.timers[i].call && s'.timers[i].deadline == s.timers[i].deadline
      && (s'.timers[i].stage in {Queued, Marked} ==> s.timers[i].stage in {Queued, Marked} || s.timers[i].deadline <= s.clock)
    requires forall k :: 0 <= k < |s'.calls| ==>
      if k < |s.calls| then SameTimes(s.calls[k], s'.calls[k], s.clock)
      else s'.calls[k].first.None? && !s'.calls[k].cancelled && s'.calls[k].reported.None?
    ensures TimesOk(s')
  {
    forall i | 0 <= i < |s'.timers| ensures TimerOk(s', s'.timers[i]) { assert TimerOk(s, s.timers[i]); }
    forall k | 0 <= k < |s'.calls| ensures CallOk(s'.calls[k], s'.clock) {
      if k < |s.calls| { assert CallOk(s.calls[k], s.clock); }
    }
  }

  predicate SameTimes(c: Call, d: Call, now: nat) {
    && d.timeout == c.timeout && d.first == c.first && d.cancelled == c.cancelled
    && (d.reported == c.reported || d.reported.None? || (c.cancelled && d.reported == Some(now)))
  }

  lemma TimesStep(cfg: Config, s: State, a: Action)
    requires TimesOk(s) && Enabled(cfg, s, a)
    ensures TimesOk(Apply(cfg, s, a))
  {
    match a
    case Again => ArmTimes(s);
    case Mark(i) => MarkTimes(s, i);
    case Register(_) => RegisterTimes(cfg, s, a);
    case _ => QuietTimes(s, Apply(cfg, s, a));
  }

  lemma RegisterTimes(cfg: Config, s: State, a: Action)
    requires TimesOk(s) && Enabled(cfg, s, a) && a.Register?
    ensures TimesOk(Apply(cfg, s, a))
  {
    QuietTimes(s, Apply(cfg, s, a));
  }

  lemma {:induction false} RunTimes(cfg: Config, acts: seq<Action>)
    requires RunTo(cfg, acts).Some?
    ensures TimesOk(RunTo(cfg, acts).value)
  {
    if acts != [] {
      var n := |acts| - 1;
      RunTimes(cfg, acts[..n]);
      TimesStep(cfg, RunTo(cfg, acts[..n]).value, acts[n]);
    }
  }

  // ---------------------------------------------------------------- the states a run passes

  lemma {:induction false} PrefixRuns(cfg: Config, acts: seq<Action>, i: nat)
    requires i <= |acts| && RunTo(cfg, acts).Some?
    ensures RunTo(cfg, acts[..i]).Some?
    decreases |acts|
  {
    if i < |acts| {
      var p := acts[..|acts| - 1];
      PrefixRuns(cfg, p, i);
      assert p[..i] == acts[..i];
    } else {
      assert acts[..i] == acts;
    }
  }

  /** The state before step i, or at the end. */
  ghost function StateAt(cfg: Config, acts: seq<Action>, i: nat): State
    requires i <= |acts| && RunTo(cfg, acts).Some?
  {
    PrefixRuns(cfg, acts, i);
    RunTo(cfg, acts[..i]).value
  }

  lemma StepAt(cfg: Config, acts: seq<Action>, i: nat)
    requires i < |acts| && RunTo(cfg, acts).Some?
    ensures Enabled(cfg, StateAt(cfg, acts, i), acts[i])
    ensures StateAt(cfg, acts, i + 1) == Apply(cfg, StateAt(cfg, acts, i), acts[i])
  {
    PrefixRuns(cfg, acts, i);
    PrefixRuns(cfg, acts, i + 1);
    assert acts[..i + 1][..i] == acts[..i];
  }

  /** The same states, seen from a prefix of the run. */
  lemma StateOfPrefix(cfg: Config, acts: seq<Action>, n: nat, i: nat)
    requires i <= n <= |acts| && RunTo(cfg, acts).Some?
    ensures RunTo(cfg, acts[..n]).Some? && StateAt(cfg, acts[..n], i) == StateAt(cfg, acts, i)
  {
    PrefixRuns(cfg, acts, n);
    assert acts[..n][..i] == acts[..i];
  }

  lemma StateAtEnd(cfg: Config, acts: seq<Action>)
    requires RunTo(cfg, acts).Some?
    ensures StateAt(cfg, acts, |acts|) == RunTo(cfg, acts).value
  {
    assert acts[..|acts|] == acts;
  }

  /** The last call is alive until it returns, and reports nothing before; the others are over. */
  predicate LivesOk(s: State) {
    && (forall k :: 0 <= k < |s.calls| ==> (s.calls[k].alive <==> s.phase != Idle && k == |s.calls| - 1))
    && (forall k :: 0 <= k < |s.calls| && s.calls[k].alive ==> s.calls[k].reported.None?)
    && (s.phase != Idle ==> s.calls != [])
  }

  lemma LivesStep(cfg: Config, s: State, a: Action)
    requires LivesOk(s) && Enabled(cfg, s, a)
    ensures LivesOk(Apply(cfg, s, a))
  {
  }

  lemma {:induction false} RunLives(cfg: Config, acts: seq<Action>)
    requires RunTo(cfg, acts).Some?
    ensures LivesOk(RunTo(cfg, acts).value)
  {
    if acts != [] {
      var n := |acts| - 1;
      RunLives(cfg, acts[..n]);
      LivesStep(cfg, RunTo(cfg, acts[..n]).value, acts[n]);
    }
  }

  // ---------------------------------------------------------------- what a call reports

  predicate CancelledIn(s: State, k: nat) { k < |s.calls| && s.calls[k].cancelled }

  /** Between these two states the fiber looked at `cancelled` in call k. */
  predicate Looked(s: State, s': State, k: nat) {
    s.phase == Checking && k == |s.calls| - 1 && s'.phase != Checking
  }

  function ReportOf(s: State, k: nat): Option<nat> {
    if k < |s.calls| then s.calls[k].reported else None
  }

  /** A report is made exactly when the fiber looks and finds the call cancelled, and the call
      is over then; otherwise the fiber tries again. */
  lemma ReportStep(cfg: Config, s: State, a: Action, k: nat)
    requires LivesOk(s) && Enabled(cfg, s, a)
    ensures var s' := Apply(cfg, s, a);
      && ReportOf(s', k) == (if Looked(s, s', k) && CancelledIn(s, k) then Some(s.clock) else ReportOf(s, k))
      && (Looked(s, s', k) ==> s'.phase == if CancelledIn(s, k) then Idle else Trying)
  {
  }

  ghost predicate LookedAt(cfg: Config, acts: seq<Action>, j: nat, k: nat)
    requires RunTo(cfg, acts).Some?
  {
    j < |acts| && Looked(StateAt(cfg, acts, j), StateAt(cfg, acts, j + 1), k)
  }

  /** At step j the fiber found call k cancelled, at clock t. */
  ghost predicate FoundAt(cfg: Config, acts: seq<Action>, j: nat, k: nat, t: nat)
    requires RunTo(cfg, acts).Some?
  {
    && LookedAt(cfg, acts, j, k)
    && CancelledIn(StateAt(cfg, acts, j), k) && StateAt(cfg, acts, j).clock == t
  }

  /** In any run: a call has reported ETIMEDOUT at clock t if and only if its fiber looked at
      `cancelled` at t and found it set. */
  lemma {:induction false} ReportedIff(cfg: Config, acts: seq<Action>, k: nat, t: nat)
    requires RunTo(cfg, acts).Some?
    ensures ReportOf(RunTo(cfg, acts).value, k) == Some(t) <==> exists j: nat :: FoundAt(cfg, acts, j, k, t)
  {
    if acts != [] {
      ReportedIff(cfg, acts[..|acts| - 1], k, t);
      FoundMore(cfg, acts, k, t);
      ReportMore(cfg, acts, k, t);
    }
  }

  /** The looks of a run are those of the run without its last step, and perhaps that step. */
  lemma FoundMore(cfg: Config, acts: seq<Action>, k: nat, t: nat)
    requires RunTo(cfg, acts).Some? && acts != []
    ensures var p := acts[..|acts| - 1];
      && RunTo(cfg, p).Some?
      && forall j: nat :: FoundAt(cfg, acts, j, k, t) <==> FoundAt(cfg, p, j, k, t) || (j == |p| && FoundAt(cfg, acts, j, k, t))
  {
    var p := acts[..|acts| - 1];
    forall j: nat | j < |p| ensures FoundAt(cfg, acts, j, k, t) <==> FoundAt(cfg, p, j, k, t) {
      StateOfPrefix(cfg, acts, |p|, j);
      StateOfPrefix(cfg, acts, |p|, j + 1);
    }
  }

  lemma ReportMore(cfg: Config, acts: seq<Action>, k: nat, t: nat)
    requires RunTo(cfg, acts).Some? && acts != []
    ensures var n := |acts| - 1;
      && RunTo(cfg, acts[..n]).Some?
      && (ReportOf(RunTo(cfg, acts).value, k) == Some(t) <==>
            FoundAt(cfg, acts, n, k, t) || ReportOf(RunTo(cfg, acts[..n]).value, k) == Some(t))
  {
    var n := |acts| - 1;
    var p := acts[..n];
    PrefixRuns(cfg, acts, n);
    RunLives(cfg, p);
    ReportStep(cfg, RunTo(cfg, p).value, acts[n], k);
    StateAtEnd(cfg, acts);
    assert StateAt(cfg, acts, n) == RunTo(cfg, p).value;
  }

  // ---------------------------------------------------------------- who cancels a wait

  /** At step i the call becomes cancelled. */
  ghost predicate MarkedAt(cfg: Config, acts: seq<Action>, i: nat, k: nat)
    requires RunTo(cfg, acts).Some?
  {
    i < |acts| && !CancelledIn(StateAt(cfg, acts, i), k) && CancelledIn(StateAt(cfg, acts, i + 1), k)
  }

  /** Only the callback of one of the call's own timers does that, when the timer is due and
      the call is not over. */
  lemma MarkedByTimer(cfg: Config, acts: seq<Action>, i: nat, k: nat)
    requires RunTo(cfg, acts).Some? && MarkedAt(cfg, acts, i, k)
    ensures acts[i].Mark?
    ensures var s := StateAt(cfg, acts, i);
      && k < |s.calls| && s.calls[k].alive
      && acts[i].i < |s.timers| && s.timers[acts[i].i].call == k && s.timers[acts[i].i].deadline <= s.clock
  {
    StepAt(cfg, acts, i);
    PrefixRuns(cfg, acts, i);
    RunTimes(cfg, acts[..i]);
    MarkStepIs(cfg, StateAt(cfg, acts, i), acts[i], k);
  }

  lemma MarkStepIs(cfg: Config, s: State, a: Action, k: nat)
    requires TimesOk(s) && Enabled(cfg, s, a) && !CancelledIn(s, k) && CancelledIn(Apply(cfg, s, a), k)
    ensures a.Mark? && k < |s.calls| && s.calls[k].alive
    ensures a.i < |s.timers| && s.timers[a.i].call == k && s.timers[a.i].deadline <= s.clock
  {
    if a.Mark? { assert TimerOk(s, s.timers[a.i]); }
  }

  /** The callback of a queued timer of a live call that is not cancelled does cancel it. */
  lemma MarkCancels(cfg: Config, acts: seq<Action>, i: nat)
    requires RunTo(cfg, acts).Some? && i < |acts| && acts[i].Mark?
    ensures var s := StateAt(cfg, acts, i);
      && acts[i].i < |s.timers| && s.timers[acts[i].i].call < |s.calls|
      && var k := s.timers[acts[i].i].call;
         CancelledIn(StateAt(cfg, acts, i + 1), k) <==> s.calls[k].alive || s.calls[k].cancelled
  {
    StepAt(cfg, acts, i);
  }

  /** Cancelled during its wait, call k is still on its way to look at that. */
  predicate WillLook(s: State, k: nat) {
    (s.phase == Waiting || s.phase == Checking) && CancelledIn(s, k) && k == |s.calls| - 1
  }

  lemma WillLookStep(cfg: Config, s: State, a: Action, k: nat)
    requires LivesOk(s) && WillLook(s, k) && Enabled(cfg, s, a)
    ensures WillLook(Apply(cfg, s, a), k) || ReportOf(Apply(cfg, s, a), k) == Some(s.clock)
  {
  }

  lemma ReportStays(cfg: Config, s: State, a: Action, k: nat)
    requires LivesOk(s) && Enabled(cfg, s, a) && ReportOf(s, k).Some?
    ensures ReportOf(Apply(cfg, s, a), k) == ReportOf(s, k)
  {
    ReportStep(cfg, s, a, k);
  }

  lemma {:induction false} LooksOrReported(cfg: Config, acts: seq<Action>, i: nat, k: nat)
    requires RunTo(cfg, acts).Some? && i <= |acts| && WillLook(StateAt(cfg, acts, i), k)
    ensures WillLook(RunTo(cfg, acts).value, k) || ReportOf(RunTo(cfg, acts).value, k).Some?
    decreases |acts|
  {
    if i == |acts| {
      StateAtEnd(cfg, acts);
    } else {
      var n := |acts| - 1;
      var p := acts[..n];
      StateOfPrefix(cfg, acts, n, i);
      LooksOrReported(cfg, p, i, k);
      RunLives(cfg, p);
      if WillLook(RunTo(cfg, p).value, k) {
        WillLookStep(cfg, RunTo(cfg, p).value, acts[n], k);
      } else {
        ReportStays(cfg, RunTo(cfg, p).value, acts[n], k);
      }
    }
  }

  /** A call whose timer cancels it while it waits, or before it looks, reports ETIMEDOUT: it
      cannot end in any other way. */
  lemma TimedOutReports(cfg: Config, acts: seq<Action>, i: nat, k: nat)
    requires RunTo(cfg, acts).Some? && MarkedAt(cfg, acts, i, k)
    requires StateAt(cfg, acts, i).phase == Waiting || StateAt(cfg, acts, i).phase == Checking
    requires IsOver(RunTo(cfg, acts).value, k)
    ensures ReportOf(RunTo(cfg, acts).value, k).Some?
  {
    MarkedByTimer(cfg, acts, i, k);
    StepAt(cfg, acts, i);
    PrefixRuns(cfg, acts, i);
    RunLives(cfg, acts[..i]);
    LooksOrReported(cfg, acts, i + 1, k);
    RunLives(cfg, acts);
  }

  /** The call was made and has returned. */
  predicate IsOver(s: State, k: nat) { k < |s.calls| && !s.calls[k].alive }

  /** A call that is over reported ETIMEDOUT if and only if it was cancelled at some moment
      at which its fiber waited, or had just resumed. */
  lemma TimedOutIff(cfg: Config, acts: seq<Action>, k: nat)
    requires RunTo(cfg, acts).Some? && IsOver(RunTo(cfg, acts).value, k)
    ensures ReportOf(RunTo(cfg, acts).value, k).Some?
       <==> exists i: nat :: i <= |acts| && WillLook(StateAt(cfg, acts, i), k)
  {
    RunLives(cfg, acts);
    if ReportOf(RunTo(cfg, acts).value, k).Some? {
      ReportedIff(cfg, acts, k, ReportOf(RunTo(cfg, acts).value, k).value);
      var j: nat :| FoundAt(cfg, acts, j, k, ReportOf(RunTo(cfg, acts).value, k).value);
      assert WillLook(StateAt(cfg, acts, j), k);
    }
    if i: nat :| i <= |acts| && WillLook(StateAt(cfg, acts, i), k) {
      LooksOrReported(cfg, acts, i, k);
    }
  }

  // ---------------------------------------------------------------- what EAGAIN arms

  /** Between these two states the system function of call k answered EAGAIN. */
  predicate Eagain(s: State, s': State, k: nat) {
    s.phase == Trying && s'.phase == Armed && k == |s.calls| - 1
  }

  /** The timer with which a call's wait at this clock ends. */
  predicate TimerOf(t: Timer, k: nat, clock: nat, timeout: nat) {
    t.call == k && t.deadline == clock + timeout
  }

  function FirstOf(s: State, k: nat): Option<nat> {
    if k < |s.calls| then s.calls[k].first else None
  }

  function TimeoutOf(s: State, k: nat): Option<nat> {
    if k < |s.calls| then s.calls[k].timeout else None
  }

  /** EAGAIN in a call with a timeout adds exactly one timer, due that long after now, which
      becomes the retry's own; without a timeout it adds none. */
  lemma EagainArms(cfg: Config, s: State, a: Action, k: nat)
    requires Enabled(cfg, s, a) && Eagain(s, Apply(cfg, s, a), k)
    ensures var s' := Apply(cfg, s, a);
      if TimeoutOf(s, k).None? then s'.own == None && s'.timers == s.timers
      else && s'.own == Some(|s.timers|) && |s'.timers| == |s.timers| + 1 && s'.timers[..|s.timers|] == s.timers
           && TimerOf(s'.timers[|s.timers|], k, s.clock, TimeoutOf(s, k).value)
           && s'.timers[|s.timers|].stage == Pending
  {
  }

  /** Nothing else adds a timer or moves one's deadline; a call keeps its timeout, and its
      `first` is set by its EAGAINs only, and only once. */
  lemma TimersStep(cfg: Config, s: State, a: Action)
    requires Enabled(cfg, s, a)
    ensures var s' := Apply(cfg, s, a);
      && |s.timers| <= |s'.timers| <= |s.timers| + 1
      && (forall j :: 0 <= j < |s.timers| ==>
            s'.timers[j].call == s.timers[j].call && s'.timers[j].deadline == s.timers[j].deadline)
      && (|s'.timers| > |s.timers| ==> s.calls != [] && Eagain(s, s', |s.calls| - 1))
      && |s.calls| <= |s'.calls| <= |s.calls| + 1
  {
    if a.Again? && s.calls[Last(s)].timeout.Some? { EagainArms(cfg, s, a, Last(s)); }
  }

  lemma FirstStep(cfg: Config, s: State, a: Action, k: nat)
    requires Enabled(cfg, s, a)
    ensures var s' := Apply(cfg, s, a);
      && (k < |s.calls| ==> TimeoutOf(s', k) == TimeoutOf(s, k))
      && FirstOf(s', k) == (if FirstOf(s, k).None? && Eagain(s, s', k) then Some(s.clock) else FirstOf(s, k))
  {
  }

  ghost predicate EagainAt(cfg: Config, acts: seq<Action>, i: nat, k: nat)
    requires RunTo(cfg, acts).Some?
  {
    i < |acts| && Eagain(StateAt(cfg, acts, i), StateAt(cfg, acts, i + 1), k)
  }

  lemma EagainOfPrefix(cfg: Config, acts: seq<Action>, n: nat, i: nat, k: nat)
    requires RunTo(cfg, acts).Some? && i < n <= |acts|
    ensures RunTo(cfg, acts[..n]).Some?
    ensures EagainAt(cfg, acts[..n], i, k) <==> EagainAt(cfg, acts, i, k)
  {
    StateOfPrefix(cfg, acts, n, i);
    StateOfPrefix(cfg, acts, n, i + 1);
  }

  /** Every timer there is comes from one EAGAIN of its call, and is due exactly the call's
      timeout after the clock of that EAGAIN. */
  lemma {:induction false} TimerFromEagain(cfg: Config, acts: seq<Action>, j: nat)
    requires RunTo(cfg, acts).Some? && j < |RunTo(cfg, acts).value.timers|
    ensures var s := RunTo(cfg, acts).value; TimeoutOf(s, s.timers[j].call).Some?
    ensures var s := RunTo(cfg, acts).value; exists i: nat ::
      && EagainAt(cfg, acts, i, s.timers[j].call) && |StateAt(cfg, acts, i).timers| == j
      && s.timers[j].deadline == StateAt(cfg, acts, i).clock + TimeoutOf(s, s.timers[j].call).value
  {
    var n := |acts| - 1;
    var p := acts[..n];
    PrefixRuns(cfg, acts, n);
    StepAt(cfg, acts, n);
    StateAtEnd(cfg, acts);
    RunTimes(cfg, p);
    var s, s' := RunTo(cfg, p).value, RunTo(cfg, acts).value;
    TimersStep(cfg, s, acts[n]);
    var k := s'.timers[j].call;
    FirstStep(cfg, s, acts[n], k);
    if j < |s.timers| {
      assert TimerOk(s, s.timers[j]);
      TimerFromEagain(cfg, p, j);
      var i: nat :| EagainAt(cfg, p, i, k) && |StateAt(cfg, p, i).timers| == j
                 && s.timers[j].deadline == StateAt(cfg, p, i).clock + TimeoutOf(s, k).value;
      StateOfPrefix(cfg, acts, n, i);
      EagainOfPrefix(cfg, acts, n, i, k);
      assert EagainAt(cfg, acts, i, k);
    } else {
      EagainArms(cfg, s, acts[n], |s.calls| - 1);
      assert EagainAt(cfg, acts, n, k);
    }
  }

  /** The call's first EAGAIN is step i. */
  ghost predicate FirstEagainAt(cfg: Config, acts: seq<Action>, i: nat, k: nat)
    requires RunTo(cfg, acts).Some?
  {
    EagainAt(cfg, acts, i, k) && forall h: nat :: h < i ==> !EagainAt(cfg, acts, h, k)
  }

  /** `first` is the clock of the call's first EAGAIN in the run; with none, it is empty. */
  lemma {:induction false} FirstIsFirst(cfg: Config, acts: seq<Action>, k: nat)
    requires RunTo(cfg, acts).Some?
    ensures FirstOf(RunTo(cfg, acts).value, k).None? ==> forall i: nat :: !EagainAt(cfg, acts, i, k)
    ensures FirstOf(RunTo(cfg, acts).value, k).Some? ==> exists i: nat ::
      FirstEagainAt(cfg, acts, i, k) && FirstOf(RunTo(cfg, acts).value, k).value == StateAt(cfg, acts, i).clock
  {
    if acts != [] {
      var n := |acts| - 1;
      var p := acts[..n];
      PrefixRuns(cfg, acts, n);
      FirstIsFirst(cfg, p, k);
      StepAt(cfg, acts, n);
      StateAtEnd(cfg, acts);
      FirstStep(cfg, RunTo(cfg, p).value, acts[n], k);
      forall i: nat | i < n ensures EagainAt(cfg, p, i, k) <==> EagainAt(cfg, acts, i, k) {
        EagainOfPrefix(cfg, acts, n, i, k);
      }
      if FirstOf(RunTo(cfg, p).value, k).Some? {
        var i: nat :| FirstEagainAt(cfg, p, i, k) && FirstOf(RunTo(cfg, p).value, k).value == StateAt(cfg, p, i).clock;
        StateOfPrefix(cfg, acts, n, i);
        assert FirstEagainAt(cfg, acts, i, k);
      } else if EagainAt(cfg, acts, n, k) {
        assert FirstEagainAt(cfg, acts, n, k);
      }
    }
  }

  /** A call that reports ETIMEDOUT at clock t had its first EAGAIN at least its timeout
      before t, whatever its retries, its leftover timers and other calls' timers did. */
  lemma NoEarlyTimeout(cfg: Config, acts: seq<Action>, k: nat, t: nat)
    requires RunTo(cfg, acts).Some? && ReportOf(RunTo(cfg, acts).value, k) == Some(t)
    ensures TimeoutOf(RunTo(cfg, acts).value, k).Some?
    ensures exists i: nat ::
      FirstEagainAt(cfg, acts, i, k) && StateAt(cfg, acts, i).clock + TimeoutOf(RunTo(cfg, acts).value, k).value <= t
  {
    RunTimes(cfg, acts);
    var s := RunTo(cfg, acts).value;
    assert CallOk(s.calls[k], s.clock);
    FirstIsFirst(cfg, acts, k);
    var i: nat :| FirstEagainAt(cfg, acts, i, k) && FirstOf(s, k).value == StateAt(cfg, acts, i).clock;
  }

  // ---------------------------------------------------------------- who runs when

  /** Readiness and a cancelEvent that succeeds queue the fiber of a registered wait. */
  lemma EventWakes(cfg: Config, s: State, a: Action)
    requires Enabled(cfg, s, a) && s.slot.Some? && (a.Ready? || (a.CancelEvent? && a.ok))
    ensures var s' := Apply(cfg, s, a); s'.slot.None? && s'.queued && s'.wakes == s.wakes + [s.slot.value]
  {
  }

  /** The fiber's way through a call: it is suspended only after registering, resumes only
      when queued, and the phases come in this order. */
  lemma PhaseStep(cfg: Config, s: State, a: Action)
    requires WakesOk(s) && Enabled(cfg, s, a)
    ensures var s' := Apply(cfg, s, a);
      match s'.phase
      case Idle => s.phase in {Idle, Trying, Armed, Checking}
      case Trying => s.phase in {Idle, Trying, Checking}
      case Armed => s.phase in {Trying, Armed}
      case Waiting => s.phase == Waiting || (s.phase == Armed && s'.slot == Some(s.waits) && s'.waits == s.waits + 1)
      case Checking => s.phase == Checking || (s.phase == Waiting && s.queued && s'.wakes == s.wakes)
  {
  }

  // ---------------------------------------------------------------- no lost timeout

  /** Timer i will end the present wait when its callback runs. */
  predicate Guards(s: State, i: nat) {
    && i < |s.timers| && s.calls != [] && s.timers[i].call == Last(s)
    && (s.timers[i].stage == Marked
        || (s.timers[i].stage in {Pending, Queued} && s.calls[Last(s)].alive && !s.calls[Last(s)].cancelled))
  }

  /** A fiber waiting with a timeout still has a timer that will end its wait. */
  ghost predicate Guarded(s: State) {
    s.slot.Some? && s.calls != [] && s.calls[Last(s)].timeout.Some? ==> exists i :: Guards(s, i)
  }

  /** With one worker and no failing epoll_ctl: a callback is half-way only while the fiber
      waits in the same call, and a waiting fiber's timer is still to come. */
  predicate Single(s: State) {
    && WakesOk(s)
    && (forall i :: 0 <= i < |s.timers| && s.timers[i].stage == Marked ==>
          s.phase == Waiting && s.timers[i].call == |s.calls| - 1)
    && (s.phase != Idle ==> s.calls[Last(s)].alive)
    && (forall k :: 0 <= k < |s.calls| && s.calls[k].alive ==> s.phase != Idle && k == |s.calls| - 1)
    && (s.phase == Trying || s.phase == Armed ==> !s.calls[Last(s)].cancelled)
    && (s.phase == Armed && s.calls[Last(s)].timeout.Some? ==> OwnIn(s, {Pending}))
    && (s.slot.Some? && !AnyMarked(s) ==>
          !s.calls[Last(s)].cancelled && (s.calls[Last(s)].timeout.Some? ==> OwnIn(s, {Pending, Queued})))
  }

  predicate OwnIn(s: State, stages: set<Stage>) {
    && s.own.Some? && s.own.value < |s.timers|
    && s.timers[s.own.value].call == |s.calls| - 1 && s.timers[s.own.value].stage in stages
  }

  /** A step of the fiber itself. */
  predicate OwnStep(a: Action) {
    a.Begin? || a.Finish? || a.Again? || a.Register? || a.Resume? || a.Check?
  }

  lemma SingleOwnStep(cfg: Config, s: State, a: Action)
    requires cfg.workers <= 1 && !cfg.faulty && Single(s) && Enabled(cfg, s, a) && OwnStep(a)
    ensures Single(Apply(cfg, s, a))
  {
  }

  lemma SingleOtherStep(cfg: Config, s: State, a: Action)
    requires cfg.workers <= 1 && !cfg.faulty && Single(s) && Enabled(cfg, s, a) && !OwnStep(a)
    ensures Single(Apply(cfg, s, a))
  {
    var s' := Apply(cfg, s, a);
    match a
    case Mark(i) =>
      if s'.timers[i].stage == Marked { assert AnyMarked(s'); }
    case Collect(i) =>
      assert forall j :: 0 <= j < |s.timers| ==> s.timers[j].stage != Marked;
    case Pass(_) =>
      assert AnyMarked(s') == AnyMarked(s);
    case _ =>
  }

  lemma {:induction false} RunSingle(cfg: Config, acts: seq<Action>)
    requires cfg.workers <= 1 && !cfg.faulty && RunTo(cfg, acts).Some?
    ensures Single(RunTo(cfg, acts).value)
  {
    if acts != [] {
      var n := |acts| - 1;
      RunSingle(cfg, acts[..n]);
      var s := RunTo(cfg, acts[..n]).value;
      if OwnStep(acts[n]) { SingleOwnStep(cfg, s, acts[n]); } else { SingleOtherStep(cfg, s, acts[n]); }
    }
  }

  lemma SingleGuarded(s: State)
    requires Single(s)
    ensures Guarded(s)
  {
    if s.slot.Some? && s.calls[Last(s)].timeout.Some? {
      if AnyMarked(s) {
        var i :| 0 <= i < |s.timers| && s.timers[i].stage == Marked;
        assert Guards(s, i);
      } else {
        assert Guards(s, s.own.value);
      }
    }
  }

  /** The timer fires between being added and the event being registered: its cancleEvent
      finds nothing to cancel. */
  function EarlyActions(): seq<Action> {
    [Begin(Some(0)), Again, Collect(0), Mark(0), CancelEvent(0, true), Register(true)]
  }

  /** epoll_ctl fails in the timer's cancleEvent. */
  function FaultActions(): seq<Action> {
    [Begin(Some(0)), Again, Register(true), Collect(0), Mark(0), CancelEvent(0, false)]
  }

  function Lost(): State {
    State(0, Waiting, [Call(Some(0), Some(0), true, true, None)], [Timer(0, 0, Over)], Some(0), 1, Some(0), false, [])
  }

  lemma RunNext(cfg: Config, acts: seq<Action>, n: nat, s: State, after: State)
    requires n < |acts| && RunTo(cfg, acts[..n]) == Some(s) && Enabled(cfg, s, acts[n])
    requires Apply(cfg, s, acts[n]) == after
    ensures RunTo(cfg, acts[..n + 1]) == Some(after)
  {
    assert acts[..n + 1][..n] == acts[..n];
  }

  function Mid(phase: Phase, cancelled: bool, stage: Stage, held: bool): State {
    State(0, phase, [Call(Some(0), Some(0), true, cancelled, None)], [Timer(0, 0, stage)], Some(0),
          if held then 1 else 0, if held then Some(0) else None, false, [])
  }

  lemma MidSteps(phase: Phase, cancelled: bool, stage: Stage, held: bool, next: Stage)
    ensures SetStage(Mid(phase, cancelled, stage, held), 0, next) == Mid(phase, cancelled, next, held)
    ensures MarkStep(Mid(phase, false, Queued, held), 0) == Mid(phase, true, Marked, held)
  {
    assert [Timer(0, 0, stage)][0 := Timer(0, 0, next)] == [Timer(0, 0, next)];
    assert [Timer(0, 0, Queued)][0 := Timer(0, 0, Marked)] == [Timer(0, 0, Marked)];
    var c := Call(Some(0), Some(0), true, false, None);
    assert [c][0 := c.(cancelled := true)] == [c.(cancelled := true)];
  }

  lemma ArmMid()
    ensures Arm(State(0, Trying, [Call(Some(0), None, true, false, None)], [], None, 0, None, false, []))
         == Mid(Armed, false, Pending, false)
  {
    var c := Call(Some(0), None, true, false, None);
    assert [c][0 := c.(first := Some(0))] == [c.(first := Some(0))];
    assert [] + [Timer(0, 0, Pending)] == [Timer(0, 0, Pending)];
  }

  function Began(): State {
    State(0, Trying, [Call(Some(0), None, true, false, None)], [], None, 0, None, false, [])
  }

  lemma Opening(cfg: Config, acts: seq<Action>)
    requires |acts| >= 2 && acts[0] == Begin(Some(0)) && acts[1] == Again
    ensures RunTo(cfg, acts[..2]) == Some(Mid(Armed, false, Pending, false))
  {
    RunNext(cfg, acts, 0, Start(), Began());
    ArmMid();
    RunNext(cfg, acts, 1, Began(), Mid(Armed, false, Pending, false));
  }

  /** The callback's three steps, with the event registered or not. */
  lemma Callback(cfg: Config, acts: seq<Action>, n: nat, phase: Phase, held: bool)
    requires n + 1 < |acts| && acts[n] == Collect(0) && acts[n + 1] == Mark(0)
    requires cfg.workers >= 2 || phase == Waiting
    requires RunTo(cfg, acts[..n]) == Some(Mid(phase, false, Pending, held))
    ensures RunTo(cfg, acts[..n + 2]) == Some(Mid(phase, true, Marked, held))
  {
    MidSteps(phase, false, Pending, held, Queued);
    RunNext(cfg, acts, n, Mid(phase, false, Pending, held), Mid(phase, false, Queued, held));
    RunNext(cfg, acts, n + 1, Mid(phase, false, Queued, held), Mid(phase, true, Marked, held));
  }

  lemma EarlyRun(cfg: Config)
    requires cfg.workers >= 2
    ensures RunTo(cfg, EarlyActions()) == Some(Lost())
  {
    var acts := EarlyActions();
    Opening(cfg, acts);
    Callback(cfg, acts, 2, Armed, false);
    MidSteps(Armed, true, Marked, false, Over);
    RunNext(cfg, acts, 4, Mid(Armed, true, Marked, false), Mid(Armed, true, Over, false));
    RunNext(cfg, acts, 5, Mid(Armed, true, Over, false), Lost());
    assert acts[..6] == acts;
  }

  lemma FaultWaits(cfg: Config, acts: seq<Action>)
    requires acts == FaultActions()
    ensures RunTo(cfg, acts[..3]) == Some(Mid(Waiting, false, Pending, true))
  {
    Opening(cfg, acts);
    RunNext(cfg, acts, 2, Mid(Armed, false, Pending, false), Mid(Waiting, false, Pending, true));
  }

  lemma FaultRun(cfg: Config)
    requires cfg.faulty
    ensures RunTo(cfg, FaultActions()) == Some(Lost())
  {
    var acts := FaultActions();
    FaultWaits(cfg, acts);
    Callback(cfg, acts, 3, Waiting, true);
    MidSteps(Waiting, true, Marked, true, Over);
    RunNext(cfg, acts, 5, Mid(Waiting, true, Marked, true), Lost());
    assert acts[..6] == acts;
  }

  /** A timed wait can always still time out, in every run, if and only if there is at most
      one worker and epoll_ctl does not fail. */
  lemma TimeoutNeverLostIff(cfg: Config)
    ensures (forall acts: seq<Action> :: RunTo(cfg, acts).Some? ==> Guarded(RunTo(cfg, acts).value))
       <==> cfg.workers <= 1 && !cfg.faulty
  {
    if cfg.workers <= 1 && !cfg.faulty {
      forall acts: seq<Action> | RunTo(cfg, acts).Some? ensures Guarded(RunTo(cfg, acts).value) {
        RunSingle(cfg, acts);
        SingleGuarded(RunTo(cfg, acts).value);
      }
    } else {
      assert !Guarded(Lost());
      if cfg.faulty { FaultRun(cfg); } else { EarlyRun(cfg); }
    }
  }

  // ---------------------------------------------------------------- the timeout comes about

  /** With one worker there is one callback half-way at most, and its call is cancelled. */
  predicate MarksOk(s: State) {
    && (forall i, j :: 0 <= i < |s.timers| && 0 <= j < |s.timers| && s.timers[i].stage == Marked && s.timers[j].stage == Marked ==> i == j)
    && (forall i :: 0 <= i < |s.timers| && s.timers[i].stage == Marked ==> CancelledIn(s, s.timers[i].call))
  }

  lemma MarksStep(cfg: Config, s: State, a: Action)
    requires cfg.workers <= 1 && MarksOk(s) && Enabled(cfg, s, a)
    ensures MarksOk(Apply(cfg, s, a))
  {
    if a.Register? || a.Resume? { DropMarks(cfg, s, a); }
  }

  lemma DropMarks(cfg: Config, s: State, a: Action)
    requires cfg.workers <= 1 && MarksOk(s) && Enabled(cfg, s, a) && (a.Register? || a.Resume?)
    ensures MarksOk(Apply(cfg, s, a))
  {
  }

  lemma {:induction false} RunMarks(cfg: Config, acts: seq<Action>)
    requires cfg.workers <= 1 && RunTo(cfg, acts).Some?
    ensures MarksOk(RunTo(cfg, acts).value)
  {
    if acts != [] {
      var n := |acts| - 1;
      RunMarks(cfg, acts[..n]);
      MarksStep(cfg, RunTo(cfg, acts[..n]).value, acts[n]);
    }
  }

  /** One more action. */
  lemma RunMore(cfg: Config, acts: seq<Action>, a: Action)
    requires RunTo(cfg, acts).Some? && Enabled(cfg, RunTo(cfg, acts).value, a)
    ensures RunTo(cfg, acts + [a]) == Some(Apply(cfg, RunTo(cfg, acts).value, a))
  {
    assert (acts + [a])[..|acts|] == acts;
  }

  /** The fiber waits in call k, registered. */
  predicate Sleeps(s: State, k: nat) { s.phase == Waiting && s.slot.Some? && |s.calls| == k + 1 }

  lemma CanCollect(cfg: Config, acts: seq<Action>, j: nat, k: nat) returns (r: seq<Action>)
    requires RunTo(cfg, acts).Some? && Sleeps(RunTo(cfg, acts).value, k) && !AnyMarked(RunTo(cfg, acts).value)
    requires HasTimer(RunTo(cfg, acts).value, j, Pending)
    ensures acts <= r && RunTo(cfg, r).Some?
    ensures var s, s' := RunTo(cfg, acts).value, RunTo(cfg, r).value;
      && Sleeps(s', k) && !AnyMarked(s') && HasTimer(s', j, Queued)
      && s'.calls == s.calls && s'.timers[j].call == s.timers[j].call
  {
    var s := RunTo(cfg, acts).value;
    var later := Pass(s.timers[j].deadline);
    RunMore(cfg, acts, later);
    assert AnyMarked(Apply(cfg, s, later)) == AnyMarked(s);
    RunMore(cfg, acts + [later], Collect(j));
    r := acts + [later] + [Collect(j)];
  }

  lemma CanMark(cfg: Config, acts: seq<Action>, j: nat, k: nat) returns (r: seq<Action>)
    requires RunTo(cfg, acts).Some? && Sleeps(RunTo(cfg, acts).value, k) && !AnyMarked(RunTo(cfg, acts).value)
    requires var s := RunTo(cfg, acts).value;
      HasTimer(s, j, Queued) && s.timers[j].call == k && s.calls[k].alive && !s.calls[k].cancelled
    ensures acts <= r && RunTo(cfg, r).Some?
    ensures Sleeps(RunTo(cfg, r).value, k) && HasTimer(RunTo(cfg, r).value, j, Marked)
  {
    RunMore(cfg, acts, Mark(j));
    r := acts + [Mark(j)];
  }

  lemma CanReport(cfg: Config, acts: seq<Action>, j: nat, k: nat) returns (r: seq<Action>)
    requires RunTo(cfg, acts).Some? && Sleeps(RunTo(cfg, acts).value, k) && HasTimer(RunTo(cfg, acts).value, j, Marked)
    requires MarksOk(RunTo(cfg, acts).value) && RunTo(cfg, acts).value.calls[k].cancelled
    ensures acts <= r && RunTo(cfg, r).Some?
    ensures ReportOf(RunTo(cfg, r).value, k) == Some(RunTo(cfg, acts).value.clock)
  {
    var a1 := CancelEvent(j, true);
    RunMore(cfg, acts, a1);
    assert !AnyMarked(RunTo(cfg, acts + [a1]).value);
    RunMore(cfg, acts + [a1], Resume);
    assert !AnyMarked(RunTo(cfg, acts + [a1] + [Resume]).value);
    RunMore(cfg, acts + [a1] + [Resume], Check);
    r := acts + [a1] + [Resume] + [Check];
  }

  /** With one worker and no failing epoll_ctl: from every reachable state in which the fiber
      waits in a call with a timeout, the run can go on so that the call reports ETIMEDOUT. */
  lemma TimeoutStillComes(cfg: Config, acts: seq<Action>, k: nat) returns (r: seq<Action>)
    requires cfg.workers <= 1 && !cfg.faulty && RunTo(cfg, acts).Some?
    requires Sleeps(RunTo(cfg, acts).value, k) && TimeoutOf(RunTo(cfg, acts).value, k).Some?
    ensures acts <= r && RunTo(cfg, r).Some? && ReportOf(RunTo(cfg, r).value, k).Some?
  {
    RunSingle(cfg, acts);
    var s := RunTo(cfg, acts).value;
    r := acts;
    var j: nat;
    if AnyMarked(s) {
      j :| j < |s.timers| && s.timers[j].stage == Marked;
    } else {
      j := s.own.value;
      if s.timers[j].stage == Pending { r := CanCollect(cfg, r, j, k); }
      r := CanMark(cfg, r, j, k);
    }
    RunMarks(cfg, r);
    RunSingle(cfg, r);
    r := CanReport(cfg, r, j, k);
  }
}
