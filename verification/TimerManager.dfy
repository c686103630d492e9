/**
  TimerManager as an object (sylar/timer.cpp). A timer handle is the timer's creation
  number; the fields of the timer objects are kept in `cells`. Each method is one critical
  section and performs one step of TimerModel.
 */
module TimerManagers {
  import opened Basics
  import opened TimerModel
  import opened TimerTheorems

  /** The step takes t to after with the given answers, and is well defined. */
  ghost predicate Performed(t: Timers, a: Action, after: Timers, ok: bool, notified: bool) {
    Sound(t) && Can(t, a) && Step(t, a) == Result(after, ok, [], notified, false)
  }

  /** The states that satisfy the invariant. As a set, so that proofs keep it folded. */
  ghost function Lawful(clocks: seq<nat>): iset<Timers> {
    iset t: Timers | Inv(t, clocks)
  }

  lemma StepLawful(t: Timers, a: Action, clocks: seq<nat>)
    requires t in Lawful(clocks) && Can(t, a)
    ensures Sound(t) && !Step(t, a).bad && Step(t, a).st in Lawful(clocks + ClockOf(a))
  {
    StepInv(t, a, clocks);
  }

  lemma LawfulParts(t: Timers, clocks: seq<nat>)
    requires t in Lawful(clocks)
    ensures Sound(t) && forall id :: 0 <= id < |t.cells| ==> t.cells[id].deadline >= t.cells[id].period
    ensures forall id :: 0 <= id < |t.cells| && t.cells[id].cb.Some? ==>
      Find(t.cells, t.order, KeyOf(t.cells[id])) < |t.order|
  {
    forall id | 0 <= id < |t.cells| ensures t.cells[id].deadline >= t.cells[id].period {
      assert Started(t.cells[id], clocks);
    }
    forall id | 0 <= id < |t.cells| && t.cells[id].cb.Some?
      ensures Find(t.cells, t.order, KeyOf(t.cells[id])) < |t.order|
    {
      LiveIsFound(t.cells, t.order, id);
    }
  }

  lemma RefreshServes(t: Timers, id: nat, now: nat, clocks: seq<nat>)
    requires t in Lawful(clocks) && id < |t.cells| && t.cells[id].cb.Some?
    ensures var c := t.cells[id];
      && Sound(t) && Has(t, id)
      && var after := PutBack(Without(t, id, Refreshed(c, now)), id);
         Performed(t, Refresh(id, now), after, true, false) && after in Lawful(clocks + [now])
  {
    StepLawful(t, Refresh(id, now), clocks);
    LawfulParts(t, clocks);
  }

  lemma ResetServes(t: Timers, id: nat, period: nat, fromNow: bool, now: nat, clocks: seq<nat>)
    requires t in Lawful(clocks) && id < |t.cells| && t.cells[id].cb.Some? && (period != t.cells[id].period || fromNow)
    ensures var c := t.cells[id];
      && c.deadline >= c.period && Sound(t) && Has(t, id)
      && var e := Enter(Without(t, id, Restarted(c, period, fromNow, now)), id);
         Performed(t, Reset(id, period, fromNow, now), e.st, true, e.notified) && e.st in Lawful(clocks + [now])
  {
    StepLawful(t, Reset(id, period, fromNow, now), clocks);
    LawfulParts(t, clocks);
  }

  lemma AddServes(t: Timers, addr: nat, ms: nat, recurring: bool, cb: nat, now: nat, clocks: seq<nat>)
    requires t in Lawful(clocks) && Can(t, Add(addr, ms, recurring, cb, now))
    ensures Sound(t)
    ensures var c, r := Cell(addr, recurring, ms, now + ms, Some(cb)), Step(t, Add(addr, ms, recurring, cb, now));
      r.st.cells == t.cells + [c] && (r.notified <==> !t.tickled && Leads(c, t.cells, t.order, |t.cells|))
  {
    AddExact(t, addr, ms, recurring, cb, now, clocks);
  }

  lemma RefreshFields(t: Timers, id: nat, now: nat, clocks: seq<nat>)
    requires t in Lawful(clocks) && id < |t.cells|
    ensures Sound(t)
    ensures Step(t, Refresh(id, now)).st.cells == RefreshedCells(t, id, now)
  {
    RefreshExact(t, id, now, clocks);
  }

  function RefreshedCells(t: Timers, id: nat, now: nat): seq<Cell>
    requires id < |t.cells|
  {
    var c := t.cells[id];
    if c.cb.Some? then t.cells[id := Cell(c.addr, c.recurring, c.period, now + c.period, c.cb)] else t.cells
  }

  lemma ResetFields(t: Timers, id: nat, ms: nat, fromNow: bool, now: nat, clocks: seq<nat>)
    requires t in Lawful(clocks) && id < |t.cells|
    ensures Sound(t)
    ensures var c, r := t.cells[id], Step(t, Reset(id, ms, fromNow, now));
      && r.ok == (c.cb.Some? || (ms == c.period && !fromNow)) && |r.st.cells| == |t.cells|
      && (forall x: nat :: x < |t.cells| && x != id ==> r.st.cells[x] == t.cells[x])
      && (r.notified ==> !t.tickled && r.st.tickled && Leads(r.st.cells[id], t.cells, t.order, id))
      && if c.cb.Some? && (ms != c.period || fromNow) then ResetTo(c, r.st.cells[id], ms, fromNow, now) else r.st == t
  {
    ResetInv(t, id, ms, fromNow, now, clocks);
    ResetExact(t, id, ms, fromNow, now, clocks);
  }

  /** reset and refresh leave a timer without a callback alone, and so does a reset to the
      same period. */
  lemma IdleServes(t: Timers, a: Action, clocks: seq<nat>)
    requires t in Lawful(clocks) && Can(t, a) && (a.Refresh? || a.Reset?)
    requires t.cells[a.id].cb.None? || (a.Reset? && a.period == t.cells[a.id].period && !a.fromNow)
    ensures Performed(t, a, t, a.Reset? && a.period == t.cells[a.id].period && !a.fromNow, false)
    ensures t in Lawful(clocks + [a.now])
  {
    StepLawful(t, a, clocks);
  }

  class TimerManager {
    var cells: seq<Cell>
    var order: seq<nat>
    var tickled: bool
    ghost var clocks: seq<nat>

    constructor ()
      ensures Valid() && Abs() == Timers([], [], false) && clocks == []
    {
      cells, order, tickled, clocks := [], [], false, [];
    }

    ghost function Abs(): Timers
      reads this
    {
      Timers(cells, order, tickled)
    }

    /** The invariant of the steps. */
    ghost predicate Valid()
      reads this
    {
      Abs() in Lawful(clocks)
    }

    /** std::set::lower_bound. */
    method Bound(k: Key) returns (i: nat)
      requires InRange(cells, order)
      ensures i == LowerBound(cells, order, k)
    {
      i := 0;
      while i < |order| && Less(KeyOf(cells[order[i]]), k)
        invariant i <= |order| && BoundFrom(cells, order, k, i) == BoundFrom(cells, order, k, 0)
      {
        i := i + 1;
      }
    }

    /** std::set::find. */
    method Lookup(id: nat) returns (i: nat)
      requires InRange(cells, order) && id < |cells|
      ensures i == Find(cells, order, KeyOf(cells[id]))
    {
      i := Bound(KeyOf(cells[id]));
      if i < |order| && Less(KeyOf(cells[id]), KeyOf(cells[order[i]])) { i := |order|; }
    }

    /** std::set::erase at a position. */
    method EraseAt(i: nat)
      requires i < |order|
      modifies this`order
      ensures order == Erase(old(order), i)
    {
      order := order[..i] + order[i + 1..];
    }

    /** std::set::insert; returns the position of the element. */
    method InsertTimer(id: nat) returns (i: nat)
      requires InRange(cells, order) && id < |cells|
      modifies this`order
      ensures order == Insert(cells, old(order), id)
      ensures i == LowerBound(cells, old(order), KeyOf(cells[id]))
    {
      i := Bound(KeyOf(cells[id]));
      if i == |order| || Less(KeyOf(cells[id]), KeyOf(cells[order[i]])) {
        order := order[..i] + [id] + order[i..];
        assert order == InsertAt(old(order), i, id);
      }
    }

    /** addTimer(val, lock); returns whether onTimerInsertedAtFront is called. */
    method EnterTimer(id: nat) returns (notified: bool)
      requires InRange(cells, order) && id < |cells|
      modifies this`order, this`tickled
      ensures Abs() == Enter(old(Abs()), id).st && notified == Enter(old(Abs()), id).notified
    {
      var i := InsertTimer(id);
      notified := i == 0 && !tickled;
      if notified { tickled := true; }
    }

    method AddTimer(addr: nat, ms: nat, cb: nat, recurring: bool, now: nat) returns (id: nat, notified: bool)
      requires Valid() && forall i :: 0 <= i < |order| ==> cells[order[i]].addr != addr
      modifies this
      ensures Valid() && id == |old(cells)| && clocks == old(clocks) + [now]
      ensures Performed(old(Abs()), Add(addr, ms, recurring, cb, now), Abs(), true, notified)
      ensures cells == old(cells) + [Cell(addr, recurring, ms, now + ms, Some(cb))]
      ensures notified <==> !old(tickled) && Leads(cells[id], old(cells), old(order), id)
    {
      AddServes(Abs(), addr, ms, recurring, cb, now, clocks);
      StepLawful(Abs(), Add(addr, ms, recurring, cb, now), clocks);
      clocks := clocks + [now];
      id := |cells|;
      cells := cells + [Cell(addr, recurring, ms, now + ms, Some(cb))];
      notified := EnterTimer(id);
    }

    /** Timer::cancle. */
    method Cancle(id: nat) returns (r: bool)
      requires Valid() && id < |cells|
      modifies this`cells, this`order
      ensures Valid() && Performed(old(Abs()), Cancel(id), Abs(), r, false)
      ensures r == old(cells[id].cb.Some?) && cells == old(cells)[id := old(cells)[id].(cb := None)]
    {
      StepLawful(Abs(), Cancel(id), clocks);
      assert clocks + [] == clocks;
      r := cells[id].cb.Some?;
      if r {
        cells := cells[id := cells[id].(cb := None)];
        var it := Lookup(id);
        EraseAt(it);
      }
    }

    /** Look the timer up and erase it; then set its fields. */
    method TakeOut(id: nat, c: Cell) returns (found: bool)
      requires InRange(cells, order) && id < |cells|
      modifies this`order, this`cells
      ensures found <==> Has(old(Abs()), id)
      ensures Abs() == if found then Without(old(Abs()), id, c) else old(Abs())
    {
      var it := Lookup(id);
      found := it < |order|;
      if found {
        EraseAt(it);
        cells := cells[id := c];
      }
    }

    method Move(id: nat, c: Cell) returns (found: bool)
      requires InRange(cells, order) && id < |cells|
      modifies this`cells, this`order
      ensures found <==> Has(old(Abs()), id)
      ensures Abs() == if found then PutBack(Without(old(Abs()), id, c), id) else old(Abs())
    {
      found := TakeOut(id, c);
      if found { var at := InsertTimer(id); }
    }

    /** Timer::refresh. */
    method RefreshTimer(id: nat, now: nat) returns (r: bool)
      requires Valid() && id < |cells|
      modifies this`cells, this`order, this`clocks
      ensures Valid() && clocks == old(clocks) + [now] && tickled == old(tickled)
      ensures Performed(old(Abs()), Refresh(id, now), Abs(), r, false) && r == old(cells[id].cb.Some?)
      ensures cells == RefreshedCells(old(Abs()), id, now)
    {
      ghost var t := Abs();
      RefreshFields(t, id, now, clocks);
      r := cells[id].cb.Some?;
      if r {
        RefreshServes(t, id, now, clocks);
        r := Move(id, Refreshed(cells[id], now));
      } else {
        IdleServes(t, Refresh(id, now), clocks);
      }
      clocks := clocks + [now];
    }

    method Restart(id: nat, c: Cell) returns (found: bool, notified: bool)
      requires InRange(cells, order) && id < |cells|
      modifies this`cells, this`order, this`tickled
      ensures found <==> Has(old(Abs()), id)
      ensures found ==> Abs() == Enter(Without(old(Abs()), id, c), id).st
      ensures found ==> notified == Enter(Without(old(Abs()), id, c), id).notified
      ensures !found ==> Abs() == old(Abs()) && !notified
    {
      notified := false;
      found := TakeOut(id, c);
      if found { notified := EnterTimer(id); }
    }

    /** Timer::reset. */
    method ResetTimer(id: nat, ms: nat, fromNow: bool, now: nat) returns (r: bool, notified: bool)
      requires Valid() && id < |cells|
      modifies this`cells, this`order, this`tickled, this`clocks
      ensures Valid() && clocks == old(clocks) + [now]
      ensures Performed(old(Abs()), Reset(id, ms, fromNow, now), Abs(), r, notified)
      ensures r <==> old(cells)[id].cb.Some? || (ms == old(cells)[id].period && !fromNow)
      ensures |cells| == |old(cells)| && forall x: nat :: x < |cells| && x != id ==> cells[x] == old(cells)[x]
      ensures if old(cells)[id].cb.Some? && (ms != old(cells)[id].period || fromNow)
        then ResetTo(old(cells)[id], cells[id], ms, fromNow, now) else Abs() == old(Abs())
      ensures notified ==> !old(tickled) && tickled && Leads(cells[id], old(cells), old(order), id)
    {
      ghost var t := Abs();
      ResetFields(t, id, ms, fromNow, now, clocks);
      r, notified := ms == cells[id].period && !fromNow, false;
      if !r && cells[id].cb.Some? {
        ResetServes(t, id, ms, fromNow, now, clocks);
        r, notified := Restart(id, Restarted(cells[id], ms, fromNow, now));
      } else {
        IdleServes(t, Reset(id, ms, fromNow, now), clocks);
      }
      clocks := clocks + [now];
    }

    /** None is ~0ull. */
    method GetNextTimer(now: nat) returns (r: Option<nat>)
      requires Valid()
      modifies this`tickled, this`clocks
      ensures Valid() && clocks == old(clocks) + [now]
      ensures Performed(old(Abs()), Next(now), Abs(), true, false)
      ensures r == Delay(old(Abs()), now)
    {
      StepLawful(Abs(), Next(now), clocks);
      tickled := false;
      clocks := clocks + [now];
      if order == [] { return None; }
      var d := cells[order[0]].deadline;
      r := Some(if now >= d then 0 else d - now);
    }

    /** One turn of the loop over the expired timers. */
    method RearmTimer(id: nat, now: nat)
      requires Sound(Abs()) && id < |cells|
      modifies this`cells, this`order
      ensures Abs() == RearmOne(old(Abs()), id, now)
      ensures |cells| == |old(cells)| && forall i :: 0 <= i < |cells| && i != id ==> cells[i] == old(cells)[i]
    {
      if cells[id].recurring {
        cells := cells[id := Refreshed(cells[id], now)];
        var at := InsertTimer(id);
      } else {
        cells := cells[id := cells[id].(cb := None)];
      }
    }

    method RearmTimers(expired: seq<nat>, now: nat) returns (cbs: seq<nat>)
      requires Sound(Abs()) && InRange(cells, expired) && NoDup(expired)
      requires forall i :: 0 <= i < |expired| ==> cells[expired[i]].cb.Some?
      modifies this`cells, this`order
      ensures Abs() == Rearm(old(Abs()), expired, now)
      ensures |cbs| == |expired| && forall i :: 0 <= i < |cbs| ==> Some(cbs[i]) == old(cells)[expired[i]].cb
    {
      cbs := [];
      var k: nat := 0;
      while k < |expired|
        invariant k <= |expired| && |cbs| == k && Sound(Abs()) && |cells| == |old(cells)|
        invariant forall i :: 0 <= i < k ==> Some(cbs[i]) == old(cells)[expired[i]].cb
        invariant forall i :: k <= i < |expired| ==> cells[expired[i]] == old(cells)[expired[i]]
        invariant Rearm(Abs(), expired[k..], now) == Rearm(old(Abs()), expired, now)
      {
        cbs := cbs + [cells[expired[k]].cb.value];
        assert expired[k..][1..] == expired[k + 1..];
        RearmTimer(expired[k], now);
        k := k + 1;
      }
    }

    /** The first timer that is not due. */
    method FirstAfter(now: nat, probe: nat) returns (it: nat)
      requires InRange(cells, order)
      ensures it == SkipNow(cells, order, now, LowerBound(cells, order, Key(now, probe)))
    {
      it := Bound(Key(now, probe));
      while it < |order| && cells[order[it]].deadline == now
        invariant it <= |order|
        invariant SkipNow(cells, order, now, it) == SkipNow(cells, order, now, LowerBound(cells, order, Key(now, probe)))
      {
        it := it + 1;
      }
    }

    /** Collect the callbacks of the timers that are due. */
    method ListExpiredCb(now: nat, probe: nat) returns (cbs: seq<nat>)
      requires Valid()
      modifies this`cells, this`order, this`clocks
      ensures Valid() && clocks == old(clocks) + [now]
      ensures Sound(old(Abs())) && Abs() == ExpireStep(old(Abs()), now, probe).st
      ensures Collected(old(Abs()), ExpireStep(old(Abs()), now, probe).fired, cbs)
    {
      ghost var t := Abs();
      StepLawful(t, Expire(now, probe), clocks);
      clocks := clocks + [now];
      cbs := [];
      if order != [] {
        var it := FirstAfter(now, probe);
        var expired := order[..it];
        ExpiredReady(t, old(clocks), it);
        order := order[it..];
        cbs := RearmTimers(expired, now);
      }
    }
  }

  /** The callbacks of these timers, in order. */
  ghost predicate Collected(t: Timers, fired: seq<nat>, cbs: seq<nat>) {
    && |cbs| == |fired|
    && forall i :: 0 <= i < |fired| ==> fired[i] < |t.cells| && Some(cbs[i]) == t.cells[fired[i]].cb
  }

  lemma ExpiredReady(t: Timers, clocks: seq<nat>, it: nat)
    requires t in Lawful(clocks) && it <= |t.order|
    ensures InRange(t.cells, t.order[..it]) && NoDup(t.order[..it])
    ensures forall i :: 0 <= i < it ==> t.cells[t.order[i]].cb.Some?
  {
    CutHolds(t.cells, t.order, it);
    forall i | 0 <= i < it ensures t.cells[t.order[i]].cb.Some? { assert t.order[i] in t.order; }
  }
}
