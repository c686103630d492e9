/**
  The timer manager (sylar/timer.cpp) as a step function: a set ordered by (deadline,
  address), where the deadline is a mutable field of the elements. Every step is one
  critical section of the manager's lock and carries the clock value its caller read.
 */
module TimerModel {
  import opened Basics

  /** A timer. A cleared callback is None. */
  datatype Cell = Cell(addr: nat, recurring: bool, period: nat, deadline: nat, cb: Option<nat>)

  /** All timers ever created, and those in m_timers, by creation number, in set order. */
  datatype Timers = Timers(cells: seq<Cell>, order: seq<nat>, tickled: bool)

  datatype Key = Key(deadline: nat, addr: nat)

  function KeyOf(c: Cell): Key { Key(c.deadline, c.addr) }

  /** Timer::Comparator on two non-null timers. */
  predicate Less(a: Key, b: Key) {
    a.deadline < b.deadline || (a.deadline == b.deadline && a.addr < b.addr)
  }

  predicate InRange(cells: seq<Cell>, order: seq<nat>) {
    forall i :: 0 <= i < |order| ==> order[i] < |cells|
  }

  // ---------------------------------------------------------------- std::set

  /** The first element not below k. */
  function LowerBound(cells: seq<Cell>, order: seq<nat>, k: Key): (i: nat)
    requires InRange(cells, order)
    ensures i <= |order|
    ensures forall j :: 0 <= j < i ==> Less(KeyOf(cells[order[j]]), k)
    ensures i < |order| ==> !Less(KeyOf(cells[order[i]]), k)
  {
    BoundFrom(cells, order, k, 0)
  }

  function BoundFrom(cells: seq<Cell>, order: seq<nat>, k: Key, from: nat): (i: nat)
    requires InRange(cells, order) && from <= |order|
    ensures from <= i <= |order|
    ensures forall j :: from <= j < i ==> Less(KeyOf(cells[order[j]]), k)
    ensures i < |order| ==> !Less(KeyOf(cells[order[i]]), k)
    decreases |order| - from
  {
    if from < |order| && Less(KeyOf(cells[order[from]]), k) then BoundFrom(cells, order, k, from + 1) else from
  }

  /** The element equivalent to k, or the end. */
  function Find(cells: seq<Cell>, order: seq<nat>, k: Key): (i: nat)
    requires InRange(cells, order)
    ensures i <= |order|
  {
    var i := LowerBound(cells, order, k);
    if i < |order| && !Less(k, KeyOf(cells[order[i]])) then i else |order|
  }

  function Erase(order: seq<nat>, i: nat): (r: seq<nat>)
    requires i < |order|
    ensures |r| == |order| - 1
  {
    seq(|order| - 1, j requires 0 <= j < |order| - 1 => if j < i then order[j] else order[j + 1])
  }

  function InsertAt(order: seq<nat>, i: nat, id: nat): (r: seq<nat>)
    requires i <= |order|
    ensures |r| == |order| + 1
  {
    seq(|order| + 1, j requires 0 <= j <= |order| =>
      if j < i then order[j] else if j == i then id else order[j - 1])
  }

  /** Insert timer id, unless the set holds an equivalent element. */
  function Insert(cells: seq<Cell>, order: seq<nat>, id: nat): (r: seq<nat>)
    requires InRange(cells, order) && id < |cells|
    ensures InRange(cells, r)
  {
    if Find(cells, order, KeyOf(cells[id])) < |order| then order
    else InsertAt(order, LowerBound(cells, order, KeyOf(cells[id])), id)
  }

  // ---------------------------------------------------------------- the operations

  datatype Action =
    | Add(addr: nat, period: nat, recurring: bool, cb: nat, now: nat)
    | Cancel(id: nat)
    | Refresh(id: nat, now: nat)
    | Reset(id: nat, period: nat, fromNow: bool, now: nat)
    | Next(now: nat)
    | Expire(now: nat, probe: nat)

  /** What a step leaves and tells its caller: the returned flag, the timers whose callbacks
      were collected, and whether onTimerInsertedAtFront is called. `bad` stands for undefined
      behaviour: erasing the end of the set, or a start time below zero. */
  datatype Result = Result(st: Timers, ok: bool, fired: seq<nat>, notified: bool, bad: bool)

  predicate Sound(t: Timers) { InRange(t.cells, t.order) }

  function Same(t: Timers, ok: bool): Result { Result(t, ok, [], false, false) }

  function Bad(t: Timers): Result { Result(t, false, [], false, true) }

  /** addTimer(val, lock). */
  function Enter(t: Timers, id: nat): (r: Result)
    requires Sound(t) && id < |t.cells|
    ensures Sound(r.st)
  {
    var front := LowerBound(t.cells, t.order, KeyOf(t.cells[id])) == 0 && !t.tickled;
    Result(Timers(t.cells, Insert(t.cells, t.order, id), t.tickled || front), true, [], front, false)
  }

  function AddStep(t: Timers, addr: nat, period: nat, recurring: bool, cb: nat, now: nat): (r: Result)
    requires Sound(t)
    ensures Sound(r.st)
  {
    Enter(t.(cells := t.cells + [Cell(addr, recurring, period, now + period, Some(cb))]), |t.cells|)
  }

  predicate Has(t: Timers, id: nat)
    requires Sound(t) && id < |t.cells|
  {
    Find(t.cells, t.order, KeyOf(t.cells[id])) < |t.order|
  }

  /** The timer is looked up and erased, and its fields are set. */
  function Without(t: Timers, id: nat, c: Cell): (r: Timers)
    requires Sound(t) && id < |t.cells| && Has(t, id)
    ensures Sound(r) && |r.cells| == |t.cells|
  {
    Timers(t.cells[id := c], Erase(t.order, Find(t.cells, t.order, KeyOf(t.cells[id]))), t.tickled)
  }

  /** A plain insert. */
  function PutBack(t: Timers, id: nat): (r: Timers)
    requires Sound(t) && id < |t.cells|
    ensures Sound(r)
  {
    t.(order := Insert(t.cells, t.order, id))
  }

  function CancelStep(t: Timers, id: nat): (r: Result)
    requires Sound(t) && id < |t.cells|
    ensures Sound(r.st)
  {
    if t.cells[id].cb.None? then Same(t, false)
    else
      var cells := t.cells[id := t.cells[id].(cb := None)];
      var i := Find(cells, t.order, KeyOf(cells[id]));
      if i == |t.order| then Bad(t.(cells := cells))
      else Same(Timers(cells, Erase(t.order, i), t.tickled), true)
  }

  /** The timer counting one period from now. */
  function Refreshed(c: Cell, now: nat): Cell {
    c.(deadline := now + c.period)
  }

  function RefreshStep(t: Timers, id: nat, now: nat): (r: Result)
    requires Sound(t) && id < |t.cells|
    ensures Sound(r.st)
  {
    var c := t.cells[id];
    if c.cb.None? || !Has(t, id) then Same(t, false)
    else Same(PutBack(Without(t, id, Refreshed(c, now)), id), true)
  }

  /** The timer with another period, counted from now or from where it started. */
  function Restarted(c: Cell, period: nat, fromNow: bool, now: nat): Cell
    requires fromNow || c.deadline >= c.period
  {
    var start := if fromNow then now else c.deadline - c.period;
    c.(period := period, deadline := start + period)
  }

  function ResetStep(t: Timers, id: nat, period: nat, fromNow: bool, now: nat): (r: Result)
    requires Sound(t) && id < |t.cells|
    ensures Sound(r.st)
  {
    var c := t.cells[id];
    if period == c.period && !fromNow then Same(t, true)
    else if c.cb.None? || !Has(t, id) then Same(t, false)
    else if !fromNow && c.deadline < c.period then Bad(t)
    else Enter(Without(t, id, Restarted(c, period, fromNow, now)), id)
  }

  /** The end of the run of elements whose deadline is now, from i on. */
  function SkipNow(cells: seq<Cell>, order: seq<nat>, now: nat, i: nat): (r: nat)
    requires InRange(cells, order) && i <= |order|
    ensures i <= r <= |order|
    ensures forall j :: i <= j < r ==> cells[order[j]].deadline == now
    ensures r < |order| ==> cells[order[r]].deadline != now
    decreases |order| - i
  {
    if i < |order| && cells[order[i]].deadline == now then SkipNow(cells, order, now, i + 1) else i
  }

  /** The loop over the expired timers: a recurring one is re-armed and put back, a one-shot
      one loses its callback. */
  function Rearm(t: Timers, expired: seq<nat>, now: nat): (r: Timers)
    requires Sound(t) && InRange(t.cells, expired)
    ensures Sound(r) && |r.cells| == |t.cells|
    decreases |expired|
  {
    if expired == [] then t else Rearm(RearmOne(t, expired[0], now), expired[1..], now)
  }

  function RearmOne(t: Timers, id: nat, now: nat): (r: Timers)
    requires Sound(t) && id < |t.cells|
    ensures Sound(r) && |r.cells| == |t.cells|
  {
    var c := t.cells[id];
    if c.recurring then
      var cells := t.cells[id := Refreshed(c, now)];
      t.(cells := cells, order := Insert(cells, t.order, id))
    else
      t.(cells := t.cells[id := c.(cb := None)])
  }

  function ExpireStep(t: Timers, now: nat, probe: nat): (r: Result)
    requires Sound(t)
    ensures Sound(r.st)
  {
    var i := SkipNow(t.cells, t.order, now, LowerBound(t.cells, t.order, Key(now, probe)));
    Result(Rearm(t.(order := t.order[i..]), t.order[..i], now), true, t.order[..i], false, false)
  }

  /** A step is possible: it names an existing timer, or a new one whose address no timer in
      the set has. */
  predicate Can(t: Timers, a: Action) {
    match a
    case Add(addr, _, _, _, _) => forall i :: 0 <= i < |t.order| && t.order[i] < |t.cells| ==> t.cells[t.order[i]].addr != addr
    case Cancel(id) => id < |t.cells|
    case Refresh(id, _) => id < |t.cells|
    case Reset(id, _, _, _) => id < |t.cells|
    case _ => true
  }

  function Step(t: Timers, a: Action): (r: Result)
    requires Sound(t) && Can(t, a)
    ensures Sound(r.st)
  {
    match a
    case Add(addr, period, recurring, cb, now) => AddStep(t, addr, period, recurring, cb, now)
    case Cancel(id) => CancelStep(t, id)
    case Refresh(id, now) => RefreshStep(t, id, now)
    case Reset(id, period, fromNow, now) => ResetStep(t, id, period, fromNow, now)
    case Next(_) => Same(t.(tickled := false), true)
    case Expire(now, probe) => ExpireStep(t, now, probe)
  }

  /** What getNextTimer returns; None is ~0ull. */
  function Delay(t: Timers, now: nat): Option<nat>
    requires Sound(t)
  {
    if t.order == [] then None
    else
      var d := t.cells[t.order[0]].deadline;
      Some(if now >= d then 0 else d - now)
  }
}
