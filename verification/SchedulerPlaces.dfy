/**
  Where a token is until it is run, and that it is run: every fiber or callback that waits or
  is queued is in exactly one place, one event context, one queue entry or one worker's hands,
  and what a worker dequeues it executes.
 */
module SchedulerPlaces {
  import opened Basics
  import opened SchedulerModel
  import opened SchedulerInvariant
  import opened SchedulerTheorems
  import opened SchedulerDelivery

  // ---------------------------------------------------------------- what is dequeued is executed

  /** Between these states worker w, which had dequeued `t`, began to execute it: on its own
      fiber, or, a callback, on the recycled fiber, which is a new one if there was none. */
  ghost predicate Executes(s: Sys, s': Sys, w: nat, t: Task) {
    && w < |s.workers| && w < |s'.workers|
    && var x, x' := s.workers[w], s'.workers[w];
       && x'.pc.Run? && OnStack(s', w, x'.pc.fiber)
       && x'.pc.fiber in s'.fibers && s'.fibers[x'.pc.fiber] == Exec
       && match t
          case FiberTask(f) => x'.pc.fiber == f && !x'.pc.own && x'.spare == x.spare
          case CallTask(_) => x'.pc.own && x'.spare == Some(x'.pc.fiber)
                              && (if x.spare.Some? then x'.spare == x.spare else x'.pc.fiber !in s.fibers)
  }

  lemma TookExecutes(cfg: Config, s: Sys, a: Action, w: nat)
    requires Inv(cfg, s) && Enabled(cfg, s, a) && Asserts(cfg, s, a)
    requires w < |s.workers| && s.workers[w].pc.Took?
    requires w < |Apply(cfg, s, a).workers| ==> Apply(cfg, s, a).workers[w].pc != s.workers[w].pc
    ensures a == SwapIn(w) || (a.StartCall? && a.w == w)
    ensures Executes(s, Apply(cfg, s, a), w, s.workers[w].pc.task)
  {
    AnyEffect(cfg, s, a);
    assert Holds(s, AtWorker(w), s.workers[w].pc.task);
    if !Hands(a) { OthersHold(cfg, s, a); }
  }

  /** In every run: the only thing a worker ever does with what it has dequeued is to execute
      it. In particular no dequeued fiber is found TERM or EXCEPT. */
  lemma TookIsRun(cfg: Config, acts: seq<Action>, a: Action, w: nat, t: Task)
    requires Safe(cfg) && RunTo(cfg, acts).At? && PcIs(RunTo(cfg, acts).sys, w, Took(t))
    requires RunTo(cfg, acts + [a]).At? && !PcIs(RunTo(cfg, acts + [a]).sys, w, Took(t))
    ensures Executes(RunTo(cfg, acts).sys, RunTo(cfg, acts + [a]).sys, w, t)
  {
    RunInv(cfg, acts);
    RunMore(cfg, acts, RunTo(cfg, acts).sys, a);
    TookExecutes(cfg, RunTo(cfg, acts).sys, a, w);
  }

  // ---------------------------------------------------------------- the record of a run

  /** The entry with this number was executed on this fiber. */
  datatype Ran = Ran(entry: nat, fiber: nat)

  /** The entry each worker has dequeued and not yet switched in, and the entries executed, in
      order. */
  datatype Record = Record(hands: map<nat, nat>, runs: seq<Ran>)

  predicate HasRun(r: Record, t: nat) { exists k :: 0 <= k < |r.runs| && r.runs[k].entry == t }

  predicate InHand(r: Record, t: nat) { exists w :: w in r.hands && r.hands[w] == t }

  /** What is seen of worker w between two states: it now holds an entry, the last one
      dequeued; or it no longer does, and if it runs a fiber now, that entry was executed. */
  function Noted(r: Record, s: Sys, s': Sys, w: nat): Record {
    if w >= |s.workers| || w >= |s'.workers| then r
    else
      var pc, pc' := s.workers[w].pc, s'.workers[w].pc;
      if !pc.Took? && pc'.Took? && s'.done != [] then r.(hands := r.hands[w := s'.done[|s'.done| - 1]])
      else if pc.Took? && !pc'.Took? && w in r.hands then
        Record(r.hands - {w}, if pc'.Run? then r.runs + [Ran(r.hands[w], pc'.fiber)] else r.runs)
      else r
  }

  /** A step is seen at the worker it moves. */
  function Recorded(r: Record, s: Sys, s': Sys, mover: Option<nat>): Record {
    match mover
    case None => r
    case Some(w) => Noted(r, s, s', w)
  }

  ghost function Records(cfg: Config, acts: seq<Action>): Record
    requires RunTo(cfg, acts).At?
  {
    if acts == [] then Record(map[], [])
    else
      var n := |acts| - 1;
      Recorded(Records(cfg, acts[..n]), RunTo(cfg, acts[..n]).sys, RunTo(cfg, acts).sys, Mover(acts[n]))
  }

  ghost predicate HandOk(s: Sys, r: Record, w: nat) {
    && (w in r.hands <==> w < |s.workers| && s.workers[w].pc.Took?)
    && (w in r.hands ==>
          && r.hands[w] < |s.log| && r.hands[w] in s.done && !HasRun(r, r.hands[w])
          && s.workers[w].pc == Took(s.log[r.hands[w]].task))
  }

  /** Entry `e` was dequeued, and executed on its own fiber if it has one. */
  ghost predicate RanOk(s: Sys, e: Ran) {
    && e.entry < |s.log| && e.entry in s.done
    && (s.log[e.entry].task.FiberTask? ==> e.fiber == s.log[e.entry].task.fiber)
  }

  /** Workers hold what they dequeued, and what was dequeued is held by one worker or was
      executed, once. */
  ghost predicate RecordOk(s: Sys, r: Record) {
    && (forall w: nat :: HandOk(s, r, w))
    && (forall v, w :: v in r.hands && w in r.hands && r.hands[v] == r.hands[w] ==> v == w)
    && (forall k :: 0 <= k < |r.runs| ==> RanOk(s, r.runs[k]))
    && (forall j, k :: 0 <= j < k < |r.runs| ==> r.runs[j].entry != r.runs[k].entry)
    && (forall t: nat :: t in s.done ==> HasRun(r, t) || InHand(r, t))
  }

  predicate Hands(a: Action) { a.Scan? || a.SwapIn? || a.StartCall? }

  /** All other actions leave the dequeued entries where they are. */
  lemma OthersHold(cfg: Config, s: Sys, a: Action)
    requires !Hands(a) && Enabled(cfg, s, a) && Asserts(cfg, s, a)
    ensures var s' := Apply(cfg, s, a); s'.done == s.done && s.log <= s'.log
    ensures Mover(a).Some? ==>
      !s.workers[Mover(a).value].pc.Took? && !Apply(cfg, s, a).workers[Mover(a).value].pc.Took?
  {
    if IsIdle(a) {
      if !a.CollectTimers? { var x := IdleMoves(cfg, s, a); }
    } else if Mover(a).Some? {
      MoversHold(cfg, s, a);
    } else {
      AnyEffect(cfg, s, a);
    }
  }

  lemma MoversHold(cfg: Config, s: Sys, a: Action)
    requires !Hands(a) && IsSwitch(a) && Enabled(cfg, s, a) && Asserts(cfg, s, a)
    ensures var s' := Apply(cfg, s, a); s'.done == s.done && s.log <= s'.log
    ensures !s.workers[Mover(a).value].pc.Took? && !Apply(cfg, s, a).workers[Mover(a).value].pc.Took?
  {
    if a.Yield? && cfg.fused { FusedHolds(cfg, s, a.w, a.to); }
  }

  lemma FusedHolds(cfg: Config, s: Sys, w: nat, to: FiberState)
    requires cfg.fused && Enabled(cfg, s, Yield(w, to)) && Asserts(cfg, s, Yield(w, to))
    ensures var s' := Apply(cfg, s, Yield(w, to)); s'.done == s.done && s'.log == s.log && w < |s'.workers| && !s'.workers[w].pc.Took?
  {
  }

  /** Nothing was dequeued or put down. */
  lemma SameRecord(s: Sys, s': Sys, r: Record)
    requires RecordOk(s, r) && s'.done == s.done && s.log <= s'.log && |s'.workers| == |s.workers|
    requires forall w: nat :: w < |s.workers| ==>
      s'.workers[w].pc == s.workers[w].pc || (!s.workers[w].pc.Took? && !s'.workers[w].pc.Took?)
    ensures RecordOk(s', r)
  {
    forall w: nat ensures HandOk(s', r, w) { assert HandOk(s, r, w); }
    forall k | 0 <= k < |r.runs| ensures RanOk(s', r.runs[k]) { assert RanOk(s, r.runs[k]); }
  }

  lemma OtherRecord(cfg: Config, s: Sys, a: Action, r: Record)
    requires !Hands(a) && RecordOk(s, r) && Enabled(cfg, s, a) && Asserts(cfg, s, a)
    ensures RecordOk(Apply(cfg, s, a), r)
    ensures Recorded(r, s, Apply(cfg, s, a), Mover(a)) == r
  {
    OthersHold(cfg, s, a);
    AnyEffect(cfg, s, a);
    SameRecord(s, Apply(cfg, s, a), r);
  }

  lemma ScanRecord(cfg: Config, s: Sys, w: nat, r: Record)
    requires QueueOk(s) && RecordOk(s, r) && Enabled(cfg, s, Scan(w))
    ensures RecordOk(ScanStep(s, w), Noted(r, s, ScanStep(s, w), w))
  {
    var i := FirstEligible(s, w, 0);
    var s' := ScanStep(s, w);
    if i == |s.queue| {
      SameRecord(s, s', r);
    } else {
      TakenRecord(s, s', w, s.queue[i], r);
    }
  }

  /** Worker w takes entry n. */
  lemma TakenRecord(s: Sys, s': Sys, w: nat, n: nat, r: Record)
    requires RecordOk(s, r) && w < |s.workers| && !s.workers[w].pc.Took?
    requires n < |s.log| && n !in s.done && s'.done == s.done + [n] && s'.log == s.log
    requires s'.workers == s.workers[w := s.workers[w].(pc := Took(s.log[n].task))]
    ensures RecordOk(s', Noted(r, s, s', w))
  {
    var r' := Noted(r, s, s', w);
    assert r' == r.(hands := r.hands[w := n]);
    assert forall t :: HasRun(r', t) <==> HasRun(r, t);
    assert HandOk(s, r, w);
    assert !HasRun(r, n) by {
      if k :| 0 <= k < |r.runs| && r.runs[k].entry == n { assert RanOk(s, r.runs[k]); }
    }
    forall v: nat ensures HandOk(s', r', v) { assert HandOk(s, r, v); }
    forall k | 0 <= k < |r'.runs| ensures RanOk(s', r'.runs[k]) { assert RanOk(s, r.runs[k]); }
    forall v, u | v in r'.hands && u in r'.hands && r'.hands[v] == r'.hands[u] ensures v == u {
      assert HandOk(s, r, v) && HandOk(s, r, u);
    }
    forall t: nat | t in s'.done ensures HasRun(r', t) || InHand(r', t) {
      if t == n {
        assert r'.hands[w] == t;
      } else if v :| v in r.hands && r.hands[v] == t {
        assert r'.hands[v] == t;
      }
    }
  }

  lemma ReleaseRecord(cfg: Config, s: Sys, a: Action, w: nat, r: Record)
    requires Inv(cfg, s) && RecordOk(s, r) && Enabled(cfg, s, a) && Asserts(cfg, s, a)
    requires a == SwapIn(w) || (a.StartCall? && a.w == w)
    ensures RecordOk(Apply(cfg, s, a), Noted(r, s, Apply(cfg, s, a), w))
  {
    var s' := Apply(cfg, s, a);
    AnyEffect(cfg, s, a);
    assert Holds(s, AtWorker(w), s.workers[w].pc.task);
    TookExecutes(cfg, s, a, w);
    assert s'.done == s.done && s'.log == s.log;
    StartedRecord(s, s', w, r);
  }

  /** Worker w begins to execute the entry in its hands. */
  lemma StartedRecord(s: Sys, s': Sys, w: nat, r: Record)
    requires RecordOk(s, r) && w < |s.workers| && s.workers[w].pc.Took? && Executes(s, s', w, s.workers[w].pc.task)
    requires s'.done == s.done && s'.log == s.log && s'.workers == s.workers[w := s'.workers[w]]
    ensures RecordOk(s', Noted(r, s, s', w))
  {
    assert HandOk(s, r, w);
    var n := r.hands[w];
    var e := Ran(n, s'.workers[w].pc.fiber);
    var r' := Noted(r, s, s', w);
    assert r' == Record(r.hands - {w}, r.runs + [e]);
    forall t ensures HasRun(r', t) <==> HasRun(r, t) || t == n {
      if t == n { assert r'.runs[|r.runs|].entry == t; }
      if k :| 0 <= k < |r.runs| && r.runs[k].entry == t { assert r'.runs[k].entry == t; }
    }
    forall v: nat ensures HandOk(s', r', v) { assert HandOk(s, r, v); }
    forall k | 0 <= k < |r'.runs| ensures RanOk(s', r'.runs[k]) {
      if k < |r.runs| { assert RanOk(s, r.runs[k]); }
    }
    forall t: nat | t in s'.done ensures HasRun(r', t) || InHand(r', t) {
      if t != n && !HasRun(r, t) {
        var v :| v in r.hands && r.hands[v] == t;
        assert r'.hands[v] == t;
      }
    }
  }

  lemma {:induction false} RunRecord(cfg: Config, acts: seq<Action>)
    requires Safe(cfg) && RunTo(cfg, acts).At?
    ensures RecordOk(RunTo(cfg, acts).sys, Records(cfg, acts))
  {
    if acts == [] {
      forall w: nat ensures HandOk(InitSys(cfg), Record(map[], []), w) { }
    } else {
      var n := |acts| - 1;
      RunRecord(cfg, acts[..n]);
      RunInv(cfg, acts[..n]);
      RecordStep(cfg, RunTo(cfg, acts[..n]).sys, acts[n], Records(cfg, acts[..n]));
    }
  }

  lemma RecordStep(cfg: Config, s: Sys, a: Action, r: Record)
    requires Inv(cfg, s) && RecordOk(s, r) && Enabled(cfg, s, a) && Asserts(cfg, s, a)
    ensures RecordOk(Apply(cfg, s, a), Recorded(r, s, Apply(cfg, s, a), Mover(a)))
  {
    if a.Scan? {
      ScanRecord(cfg, s, a.w, r);
    } else if Hands(a) {
      ReleaseRecord(cfg, s, a, a.w, r);
    } else {
      OtherRecord(cfg, s, a, r);
    }
  }

  // ---------------------------------------------------------------- exactly one place

  /** The token is in one place and no other. */
  ghost predicate InOnePlace(s: Sys, t: Task) {
    exists p: Place :: Holds(s, p, t) && forall q: Place :: Holds(s, q, t) ==> q == p
  }

  lemma HeldOnce(cfg: Config, s: Sys, p: Place, t: Task)
    requires Inv(cfg, s) && Holds(s, p, t)
    ensures InOnePlace(s, t)
  {
  }

  /** Until it is executed, a queued fiber or callback is in exactly one place. */
  lemma QueuedInOnePlace(cfg: Config, acts: seq<Action>, t: nat)
    requires Safe(cfg) && RunTo(cfg, acts).At? && t < |RunTo(cfg, acts).sys.log| && !HasRun(Records(cfg, acts), t)
    ensures InOnePlace(RunTo(cfg, acts).sys, RunTo(cfg, acts).sys.log[t].task)
  {
    RunInv(cfg, acts);
    RunRecord(cfg, acts);
    var s, r := RunTo(cfg, acts).sys, Records(cfg, acts);
    if t in s.queue {
      HeldOnce(cfg, s, InQueue(t), s.log[t].task);
    } else {
      var w: nat :| w in r.hands && r.hands[w] == t;
      assert HandOk(s, r, w);
      HeldOnce(cfg, s, AtWorker(w), s.log[t].task);
    }
  }

  /** A registration that was not deleted, and whose entry, if any, has not been executed:
      its fiber or callback is in exactly one place. */
  lemma WaitingInOnePlace(cfg: Config, acts: seq<Action>, n: nat)
    requires Safe(cfg) && RunTo(cfg, acts).At?
    requires n < |RunTo(cfg, acts).sys.regs| && n !in RunTo(cfg, acts).sys.dropped
    requires forall t: nat :: DeliveredBy(RunTo(cfg, acts).sys, t, n) ==> !HasRun(Records(cfg, acts), t)
    ensures InOnePlace(RunTo(cfg, acts).sys, RunTo(cfg, acts).sys.regs[n])
  {
    RunInv(cfg, acts);
    WaitsExactlyOnce(cfg, acts);
    var s := RunTo(cfg, acts).sys;
    assert Accounted(s, n);
    if k :| Registering(s, k, n) {
      HeldOnce(cfg, s, InSlot(k), s.regs[n]);
    } else {
      var t: nat :| DeliveredBy(s, t, n);
      QueuedInOnePlace(cfg, acts, t);
    }
  }
}
