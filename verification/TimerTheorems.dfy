/**
  What every run of the timer manager keeps: the callback is set exactly for the timers in
  the set, lookups never miss, start times are observed clock values, no wake-up is lost,
  and a timer fires when due, in order, and never after it was cancelled.
 */
module TimerTheorems {
  import opened Basics
  import opened TimerModel

  // ---------------------------------------------------------------- the ordered set

  predicate Sorted(cells: seq<Cell>, order: seq<nat>)
    requires InRange(cells, order)
  {
    forall i: nat, j: nat :: i < j < |order| ==> Before(cells, order, i, j)
  }

  predicate Before(cells: seq<Cell>, order: seq<nat>, i: nat, j: nat)
    requires InRange(cells, order) && i < |order| && j < |order|
  {
    Less(KeyOf(cells[order[i]]), KeyOf(cells[order[j]]))
  }

  predicate Apart(cells: seq<Cell>, a: nat, b: nat)
    requires a < |cells| && b < |cells|
  {
    cells[a].cb.Some? && cells[b].cb.Some? ==> cells[a].addr != cells[b].addr
  }

  /** Timers with a callback have different addresses. */
  ghost predicate AllApart(cells: seq<Cell>) {
    forall a: nat, b: nat :: a < |cells| && b < |cells| && a != b ==> Apart(cells, a, b)
  }

  lemma ApartFrame(cells: seq<Cell>, id: nat, c: Cell)
    requires AllApart(cells) && id < |cells| && c.addr == cells[id].addr && (c.cb.Some? ==> cells[id].cb.Some?)
    ensures AllApart(cells[id := c])
  {
    var after := cells[id := c];
    forall a: nat, b: nat | a < |after| && b < |after| && a != b ensures Apart(after, a, b) {
      assert Apart(cells, a, b);
    }
  }

  /** Looking up a member by its current key finds it. */
  lemma FindHits(cells: seq<Cell>, order: seq<nat>, i: nat)
    requires InRange(cells, order) && Sorted(cells, order) && i < |order|
    ensures Find(cells, order, KeyOf(cells[order[i]])) == i
  {
    var k := LowerBound(cells, order, KeyOf(cells[order[i]]));
    assert k <= i;
    assert k < i ==> Before(cells, order, k, i);
  }

  /** The part below k is a prefix. */
  lemma BoundSplits(cells: seq<Cell>, order: seq<nat>, k: Key)
    requires InRange(cells, order) && Sorted(cells, order)
    ensures forall j :: LowerBound(cells, order, k) <= j < |order| ==> !Less(KeyOf(cells[order[j]]), k)
  {
    var i := LowerBound(cells, order, k);
    forall j | i <= j < |order| ensures !Less(KeyOf(cells[order[j]]), k) {
      assert i < j ==> Before(cells, order, i, j);
    }
  }

  ghost predicate Members(r: seq<nat>, order: seq<nat>, id: nat) {
    forall x: nat :: x in r <==> x in order || x == id
  }

  lemma EraseSorted(cells: seq<Cell>, order: seq<nat>, i: nat)
    requires InRange(cells, order) && Sorted(cells, order) && i < |order|
    ensures InRange(cells, Erase(order, i)) && Sorted(cells, Erase(order, i))
    ensures Members(order, Erase(order, i), order[i]) && order[i] !in Erase(order, i)
  {
    var r := Erase(order, i);
    forall x: nat ensures x in order <==> x in r || x == order[i] {
      if x in order {
        var j :| 0 <= j < |order| && order[j] == x;
        if j < i { assert r[j] == x; } else if j > i { assert r[j - 1] == x; }
      }
    }
    forall j: nat, k: nat | j < k < |r| ensures Before(cells, r, j, k) {
      assert Before(cells, order, if j < i then j else j + 1, if k < i then k else k + 1);
    }
    forall j: nat | j < |r| ensures r[j] != order[i] {
      if j < i { assert Before(cells, order, j, i); } else { assert Before(cells, order, i, j + 1); }
    }
  }

  /** r is order with id put in at i. */
  ghost predicate Placed(r: seq<nat>, order: seq<nat>, i: nat, id: nat) {
    && i <= |order| && |r| == |order| + 1 && r[i] == id
    && (forall j :: 0 <= j < i ==> r[j] == order[j])
    && (forall j :: i <= j < |order| ==> r[j + 1] == order[j])
  }

  lemma PlacedMembers(r: seq<nat>, order: seq<nat>, i: nat, id: nat)
    requires Placed(r, order, i, id)
    ensures Members(r, order, id)
  {
    forall x: nat ensures x in r <==> x in order || x == id {
      if x in order {
        var j :| 0 <= j < |order| && order[j] == x;
        if j < i { assert r[j] == x; } else { assert r[j + 1] == x; }
      }
      if x in r && x != id {
        var j :| 0 <= j < |r| && r[j] == x;
        if j < i { assert order[j] == x; } else { assert r[j - 1 + 1] == order[j - 1]; }
      }
    }
  }

  lemma PlacedSorted(cells: seq<Cell>, r: seq<nat>, order: seq<nat>, i: nat, id: nat)
    requires Placed(r, order, i, id) && InRange(cells, order) && id < |cells| && Sorted(cells, order)
    requires forall j :: 0 <= j < i ==> Less(KeyOf(cells[order[j]]), KeyOf(cells[id]))
    requires forall j :: i <= j < |order| ==> Less(KeyOf(cells[id]), KeyOf(cells[order[j]]))
    ensures InRange(cells, r) && Sorted(cells, r)
  {
    forall j | 0 <= j < |r| ensures r[j] < |cells| {
      if j > i { assert r[j - 1 + 1] == order[j - 1]; }
    }
    forall j: nat, k: nat | j < k < |r| ensures Before(cells, r, j, k) {
      var x, y := if j < i then j else j - 1, if k < i then k else k - 1;
      assert j > i ==> r[j - 1 + 1] == order[x];
      assert k > i ==> r[k - 1 + 1] == order[y];
      assert j != i && k != i ==> Before(cells, order, x, y);
    }
  }

  lemma InsertPlaces(cells: seq<Cell>, order: seq<nat>, id: nat, i: nat)
    requires InRange(cells, order) && Sorted(cells, order) && id < |cells|
    requires forall i :: 0 <= i < |order| ==> cells[order[i]].addr != cells[id].addr
    requires i == LowerBound(cells, order, KeyOf(cells[id]))
    ensures forall j :: i <= j < |order| ==> Less(KeyOf(cells[id]), KeyOf(cells[order[j]]))
    ensures Placed(Insert(cells, order, id), order, i, id)
  {
    BoundSplits(cells, order, KeyOf(cells[id]));
    assert Insert(cells, order, id) == InsertAt(order, i, id);
  }

  /** Inserting a timer whose address no member has. */
  lemma InsertSorted(cells: seq<Cell>, order: seq<nat>, id: nat)
    requires InRange(cells, order) && Sorted(cells, order) && id < |cells|
    requires forall i :: 0 <= i < |order| ==> cells[order[i]].addr != cells[id].addr
    ensures Sorted(cells, Insert(cells, order, id)) && Members(Insert(cells, order, id), order, id)
    ensures Placed(Insert(cells, order, id), order, LowerBound(cells, order, KeyOf(cells[id])), id)
  {
    var i := LowerBound(cells, order, KeyOf(cells[id]));
    InsertPlaces(cells, order, id, i);
    PlacedMembers(Insert(cells, order, id), order, i, id);
    PlacedSorted(cells, Insert(cells, order, id), order, i, id);
  }

  /** Only the keys of the members matter. */
  lemma SortedFrame(a: seq<Cell>, b: seq<Cell>, order: seq<nat>)
    requires InRange(a, order) && Sorted(a, order) && |a| <= |b|
    requires forall i :: 0 <= i < |order| ==> KeyOf(b[order[i]]) == KeyOf(a[order[i]])
    ensures Sorted(b, order)
  {
    forall i: nat, j: nat | i < j < |order| ensures Before(b, order, i, j) {
      assert Before(a, order, i, j);
    }
  }

  // ---------------------------------------------------------------- the invariant

  /** m_timers holds the timers with a callback, except those in `out`, which listExpiredCb
      has taken out and not yet dealt with. */
  ghost predicate Holding(cells: seq<Cell>, order: seq<nat>, out: set<nat>) {
    && InRange(cells, order) && Sorted(cells, order)
    && (forall id :: id in out ==> id < |cells|)
    && (forall id: nat :: id < |cells| ==> (cells[id].cb.Some? <==> id in order || id in out))
    && (forall id: nat :: id in order ==> id !in out)
    && AllApart(cells)
  }

  /** deadline - period is one of the clock values read so far. */
  predicate Started(c: Cell, clocks: seq<nat>) {
    c.deadline >= c.period && c.deadline - c.period in clocks
  }

  predicate AllStarted(cells: seq<Cell>, clocks: seq<nat>) {
    forall id :: 0 <= id < |cells| ==> Started(cells[id], clocks)
  }

  ghost predicate Inv(t: Timers, clocks: seq<nat>) {
    Holding(t.cells, t.order, {}) && AllStarted(t.cells, clocks)
  }

  /** The lookup by key finds any timer that has a callback. */
  lemma LiveIsFound(cells: seq<Cell>, order: seq<nat>, id: nat)
    requires Holding(cells, order, {}) && id < |cells| && cells[id].cb.Some?
    ensures var i := Find(cells, order, KeyOf(cells[id])); i < |order| && order[i] == id
  {
    var i :| 0 <= i < |order| && order[i] == id;
    FindHits(cells, order, i);
  }

  lemma InsertHolds(cells: seq<Cell>, order: seq<nat>, id: nat)
    requires Holding(cells, order, {id})
    ensures id < |cells| && Holding(cells, Insert(cells, order, id), {})
  {
    assert id in {id};
    forall i | 0 <= i < |order| ensures cells[order[i]].addr != cells[id].addr {
      assert order[i] in order && Apart(cells, order[i], id);
    }
    InsertSorted(cells, order, id);
  }

  lemma AddHolds(cells: seq<Cell>, order: seq<nat>, c: Cell)
    requires Holding(cells, order, {}) && c.cb.Some?
    requires forall i :: 0 <= i < |order| ==> cells[order[i]].addr != c.addr
    ensures Holding(cells + [c], order, {|cells|})
    ensures Holding(cells + [c], Insert(cells + [c], order, |cells|), {})
  {
    SortedFrame(cells, cells + [c], order);
    forall a: nat | a < |cells| && cells[a].cb.Some? ensures cells[a].addr != c.addr {
      var i :| 0 <= i < |order| && order[i] == a;
    }
    forall a: nat, b: nat | a < |cells + [c]| && b < |cells + [c]| && a != b ensures Apart(cells + [c], a, b) {
      assert a < |cells| && b < |cells| ==> Apart(cells, a, b);
    }
    assert Holding(cells + [c], order, {|cells|});
    InsertHolds(cells + [c], order, |cells|);
  }

  /** Taking a live timer out of the set, changing its deadline or period, putting it back. */
  lemma MoveHolds(cells: seq<Cell>, order: seq<nat>, id: nat, c: Cell)
    requires Holding(cells, order, {}) && id < |cells| && cells[id].cb.Some?
    requires c.addr == cells[id].addr && c.cb.Some?
    ensures var i, after := Find(cells, order, KeyOf(cells[id])), cells[id := c];
      && i < |order| && order[i] == id && Holding(after, Erase(order, i), {id})
      && Holding(after, Insert(after, Erase(order, i), id), {})
  {
    LiveIsFound(cells, order, id);
    var i := Find(cells, order, KeyOf(cells[id]));
    EraseSorted(cells, order, i);
    SortedFrame(cells, cells[id := c], Erase(order, i));
    ApartFrame(cells, id, c);
    assert Holding(cells[id := c], Erase(order, i), {id});
    InsertHolds(cells[id := c], Erase(order, i), id);
  }

  lemma CancelHolds(cells: seq<Cell>, order: seq<nat>, id: nat)
    requires Holding(cells, order, {}) && id < |cells| && cells[id].cb.Some?
    ensures var after := cells[id := cells[id].(cb := None)];
      var i := Find(after, order, KeyOf(after[id]));
      i < |order| && Holding(after, Erase(order, i), {})
  {
    var after := cells[id := cells[id].(cb := None)];
    SortedFrame(cells, after, order);
    ApartFrame(cells, id, cells[id].(cb := None));
    var i :| 0 <= i < |order| && order[i] == id;
    FindHits(after, order, i);
    EraseSorted(after, order, i);
  }

  lemma PutBackHolds(cells: seq<Cell>, order: seq<nat>, out: set<nat>, id: nat, c: Cell)
    requires Holding(cells, order, out) && id in out && c.addr == cells[id].addr && c.cb.Some?
    ensures Holding(cells[id := c], Insert(cells[id := c], order, id), out - {id})
  {
    var after := cells[id := c];
    SortedFrame(cells, after, order);
    ApartFrame(cells, id, c);
    forall i | 0 <= i < |order| ensures after[order[i]].addr != after[id].addr {
      assert order[i] in order && Apart(cells, order[i], id);
    }
    InsertSorted(after, order, id);
  }

  lemma ClearHolds(cells: seq<Cell>, order: seq<nat>, out: set<nat>, id: nat)
    requires Holding(cells, order, out) && id in out
    ensures Holding(cells[id := cells[id].(cb := None)], order, out - {id})
  {
    SortedFrame(cells, cells[id := cells[id].(cb := None)], order);
    ApartFrame(cells, id, cells[id].(cb := None));
  }

  // `== true` keeps the verifier from unfolding the predicate in the goal.
  lemma RearmOneHolds(t: Timers, out: set<nat>, id: nat, now: nat)
    requires Holding(t.cells, t.order, out) && id in out
    ensures var r := RearmOne(t, id, now); Holding(r.cells, r.order, out - {id}) == true
  {
    var c := t.cells[id];
    if c.recurring {
      PutBackHolds(t.cells, t.order, out, id, Refreshed(c, now));
    } else {
      ClearHolds(t.cells, t.order, out, id);
    }
  }

  function Elems(s: seq<nat>): set<nat> { set x | x in s }

  predicate NoDup(s: seq<nat>) { forall i, j :: 0 <= i < j < |s| ==> s[i] != s[j] }

  lemma {:induction false} RearmHolds(t: Timers, out: seq<nat>, now: nat)
    requires Holding(t.cells, t.order, Elems(out)) && NoDup(out) && InRange(t.cells, out)
    ensures var r := Rearm(t, out, now); Holding(r.cells, r.order, {})
    decreases |out|
  {
    if out != [] {
      RearmOneHolds(t, Elems(out), out[0], now);
      assert Elems(out) - {out[0]} == Elems(out[1..]);
      RearmHolds(RearmOne(t, out[0], now), out[1..], now);
    } else {
      assert Elems(out) == {};
    }
  }

  // ---------------------------------------------------------------- expiry

  /** Where listExpiredCb cuts the set: before it every deadline has passed, after it none
      has, whatever the address of the probe timer. */
  lemma ExpiryCut(cells: seq<Cell>, order: seq<nat>, now: nat, probe: nat)
    requires InRange(cells, order) && Sorted(cells, order)
    ensures var i := SkipNow(cells, order, now, LowerBound(cells, order, Key(now, probe)));
      forall j :: 0 <= j < |order| ==> (cells[order[j]].deadline <= now <==> j < i)
  {
    var i := SkipNow(cells, order, now, LowerBound(cells, order, Key(now, probe)));
    BoundSplits(cells, order, Key(now, probe));
    forall j: nat | i < j < |order| ensures cells[order[j]].deadline > now {
      assert Before(cells, order, i, j);
    }
  }

  /** What expiry makes of a timer. */
  function Expired(c: Cell, now: nat): Cell {
    if c.recurring then Cell(c.addr, true, c.period, now + c.period, c.cb)
    else Cell(c.addr, false, c.period, c.deadline, None)
  }

  lemma {:induction false} RearmCells(t: Timers, out: seq<nat>, now: nat, id: nat)
    requires Sound(t) && InRange(t.cells, out) && id < |t.cells|
    requires forall i, j :: 0 <= i < j < |out| ==> out[i] != out[j]
    ensures Rearm(t, out, now).cells[id] == if id in out then Expired(t.cells[id], now) else t.cells[id]
    decreases |out|
  {
    if out != [] {
      RearmCells(RearmOne(t, out[0], now), out[1..], now, id);
      assert id in out <==> id == out[0] || id in out[1..];
      if id in out[1..] {
        var j :| 0 <= j < |out[1..]| && out[1..][j] == id;
        assert out[j + 1] == id != out[0];
      }
    }
  }

  lemma {:induction false} RearmTickled(t: Timers, out: seq<nat>, now: nat)
    requires Sound(t) && InRange(t.cells, out)
    ensures Rearm(t, out, now).tickled == t.tickled
    decreases |out|
  {
    if out != [] { RearmTickled(RearmOne(t, out[0], now), out[1..], now); }
  }

  /** A prefix of the set is cut off. */
  lemma CutHolds(cells: seq<Cell>, order: seq<nat>, i: nat)
    requires Holding(cells, order, {}) && i <= |order|
    ensures Holding(cells, order[i..], Elems(order[..i])) && NoDup(order[..i])
  {
    assert order == order[..i] + order[i..];
    assert forall id: nat :: id in order <==> id in order[..i] || id in order[i..];
    forall id: nat | id in order[i..] ensures id !in order[..i] {
      var j :| 0 <= j < |order[i..]| && order[i..][j] == id;
      var m := i + j;
      assert order[m] == id;
      forall k: nat | k < i ensures order[k] != id { assert Before(cells, order, k, m); }
    }
    forall j: nat, k: nat | j < k < |order| - i ensures Before(cells, order[i..], j, k) {
      assert Before(cells, order, i + j, i + k);
    }
    forall j: nat, k: nat | j < k < i ensures order[j] != order[k] {
      assert Before(cells, order, j, k);
    }
  }

  /** The order of the set, on the timers themselves. */
  predicate Earlier(c: Cell, d: Cell) {
    c.deadline < d.deadline || (c.deadline == d.deadline && c.addr < d.addr)
  }

  /** listExpiredCb collects exactly the timers in the set that are due, in (deadline,
      address) order. */
  lemma FiredAreDue(t: Timers, now: nat, probe: nat)
    requires Holding(t.cells, t.order, {})
    ensures var fired := ExpireStep(t, now, probe).fired;
      && (forall id: nat :: id in fired <==> id in t.order && t.cells[id].deadline <= now)
      && InRange(t.cells, fired) && Sorted(t.cells, fired)
      && (forall j, k :: 0 <= j < k < |fired| ==> Earlier(t.cells[fired[j]], t.cells[fired[k]]))
  {
    var i := SkipNow(t.cells, t.order, now, LowerBound(t.cells, t.order, Key(now, probe)));
    ExpiryCut(t.cells, t.order, now, probe);
    var fired := t.order[..i];
    forall id: nat ensures id in fired <==> id in t.order && t.cells[id].deadline <= now {
      if id in t.order && t.cells[id].deadline <= now {
        var j :| 0 <= j < |t.order| && t.order[j] == id;
        assert fired[j] == id;
      }
    }
    forall j: nat, k: nat | j < k < |fired| ensures Before(t.cells, fired, j, k) {
      assert Before(t.cells, t.order, j, k);
    }
    forall j: nat, k: nat | j < k < |fired| ensures Earlier(t.cells[fired[j]], t.cells[fired[k]]) {
      assert Before(t.cells, fired, j, k);
    }
  }

  /** Of the timers collected, the recurring ones are re-armed from now and the one-shot ones
      lose their callback; all others are untouched. */
  lemma FiredCells(t: Timers, now: nat, probe: nat)
    requires Holding(t.cells, t.order, {})
    ensures var r := ExpireStep(t, now, probe);
      && |r.st.cells| == |t.cells| && r.st.tickled == t.tickled
      && (forall id: nat :: id < |t.cells| ==>
            r.st.cells[id] == if id in r.fired then Expired(t.cells[id], now) else t.cells[id])
  {
    var i := SkipNow(t.cells, t.order, now, LowerBound(t.cells, t.order, Key(now, probe)));
    var u, out := t.(order := t.order[i..]), t.order[..i];
    CutHolds(t.cells, t.order, i);
    RearmTickled(u, out, now);
    forall id: nat | id < |t.cells|
      ensures Rearm(u, out, now).cells[id] == if id in out then Expired(t.cells[id], now) else t.cells[id]
    {
      RearmCells(u, out, now, id);
    }
  }

  lemma ExpireHolds(t: Timers, now: nat, probe: nat)
    requires Holding(t.cells, t.order, {})
    ensures var r := ExpireStep(t, now, probe); Holding(r.st.cells, r.st.order, {})
  {
    var i := SkipNow(t.cells, t.order, now, LowerBound(t.cells, t.order, Key(now, probe)));
    CutHolds(t.cells, t.order, i);
    RearmHolds(t.(order := t.order[i..]), t.order[..i], now);
  }

  /** Exactly the one-shot timers that were due leave the set. */
  lemma ExpireMembers(t: Timers, now: nat, probe: nat, id: nat)
    requires Holding(t.cells, t.order, {})
    ensures var r := ExpireStep(t, now, probe);
      id in r.st.order <==> id in t.order && (t.cells[id].deadline > now || t.cells[id].recurring)
  {
    FiredAreDue(t, now, probe);
    FiredCells(t, now, probe);
    ExpireHolds(t, now, probe);
    var r := ExpireStep(t, now, probe);
    assert id in r.st.order || id in t.order ==> id < |t.cells|;
    if id < |t.cells| { assert r.st.cells[id].cb.Some? <==> id in r.st.order; }
  }

  // ---------------------------------------------------------------- every step

  /** The clock value a step read, if any. */
  function ClockOf(a: Action): seq<nat> {
    match a
    case Add(_, _, _, _, now) => [now]
    case Cancel(_) => []
    case Refresh(_, now) => [now]
    case Reset(_, _, _, now) => [now]
    case Next(now) => [now]
    case Expire(now, _) => [now]
  }

  lemma StartedLater(cells: seq<Cell>, clocks: seq<nat>, more: seq<nat>)
    requires AllStarted(cells, clocks)
    ensures AllStarted(cells, clocks + more)
  {
  }

  /** A timer's start time becomes one of the clock values. */
  lemma StartedUpdate(cells: seq<Cell>, id: nat, c: Cell, clocks: seq<nat>, more: seq<nat>)
    requires AllStarted(cells, clocks) && id < |cells| && Started(c, clocks + more)
    ensures AllStarted(cells[id := c], clocks + more)
  {
  }

  lemma CancelInv(t: Timers, id: nat, clocks: seq<nat>)
    requires Inv(t, clocks) && id < |t.cells|
    ensures var r := CancelStep(t, id); !r.bad && Inv(r.st, clocks) && r.ok == t.cells[id].cb.Some?
  {
    if t.cells[id].cb.Some? { CancelHolds(t.cells, t.order, id); }
  }

  lemma RefreshCells(t: Timers, id: nat, now: nat)
    requires Holding(t.cells, t.order, {}) && id < |t.cells| && t.cells[id].cb.Some?
    ensures var c := t.cells[id];
      Has(t, id) && RefreshStep(t, id, now) == Same(PutBack(Without(t, id, Refreshed(c, now)), id), true)
  {
    LiveIsFound(t.cells, t.order, id);
  }

  lemma RefreshHolds(t: Timers, id: nat, now: nat)
    requires Holding(t.cells, t.order, {}) && id < |t.cells| && t.cells[id].cb.Some?
    ensures var r := RefreshStep(t, id, now); Holding(r.st.cells, r.st.order, {})
  {
    var c := t.cells[id];
    MoveHolds(t.cells, t.order, id, Refreshed(c, now));
    RefreshCells(t, id, now);
  }

  lemma ResetCells(t: Timers, id: nat, period: nat, fromNow: bool, now: nat)
    requires Holding(t.cells, t.order, {}) && id < |t.cells| && t.cells[id].cb.Some?
    requires (period != t.cells[id].period || fromNow) && t.cells[id].deadline >= t.cells[id].period
    ensures Has(t, id)
    ensures ResetStep(t, id, period, fromNow, now)
      == Enter(Without(t, id, Restarted(t.cells[id], period, fromNow, now)), id)
  {
    LiveIsFound(t.cells, t.order, id);
  }

  lemma ResetHolds(t: Timers, id: nat, period: nat, fromNow: bool, now: nat)
    requires Holding(t.cells, t.order, {}) && id < |t.cells| && t.cells[id].cb.Some?
    requires (period != t.cells[id].period || fromNow) && t.cells[id].deadline >= t.cells[id].period
    ensures var r := ResetStep(t, id, period, fromNow, now); Holding(r.st.cells, r.st.order, {})
  {
    MoveHolds(t.cells, t.order, id, Restarted(t.cells[id], period, fromNow, now));
    ResetCells(t, id, period, fromNow, now);
  }

  lemma RefreshStarts(t: Timers, id: nat, now: nat, clocks: seq<nat>)
    requires Inv(t, clocks) && id < |t.cells| && t.cells[id].cb.Some?
    ensures var r := RefreshStep(t, id, now); !r.bad && r.ok && AllStarted(r.st.cells, clocks + [now])
  {
    var c := t.cells[id];
    RefreshCells(t, id, now);
    StartedUpdate(t.cells, id, Refreshed(c, now), clocks, [now]);
  }

  lemma RefreshInv(t: Timers, id: nat, now: nat, clocks: seq<nat>)
    requires Inv(t, clocks) && id < |t.cells|
    ensures var r := RefreshStep(t, id, now);
      !r.bad && Inv(r.st, clocks + [now]) && r.ok == t.cells[id].cb.Some?
  {
    var c := t.cells[id];
    if c.cb.Some? {
      RefreshHolds(t, id, now);
      RefreshStarts(t, id, now, clocks);
    } else {
      StartedLater(t.cells, clocks, [now]);
    }
  }

  lemma ResetInv(t: Timers, id: nat, period: nat, fromNow: bool, now: nat, clocks: seq<nat>)
    requires Inv(t, clocks) && id < |t.cells|
    ensures var r := ResetStep(t, id, period, fromNow, now);
      && !r.bad && Inv(r.st, clocks + [now])
      && r.ok == (t.cells[id].cb.Some? || (period == t.cells[id].period && !fromNow))
  {
    assert Started(t.cells[id], clocks);
    if t.cells[id].cb.None? || (period == t.cells[id].period && !fromNow) {
      StartedLater(t.cells, clocks, [now]);
    } else {
      ResetHolds(t, id, period, fromNow, now);
      ResetStarts(t, id, period, fromNow, now, clocks);
    }
  }

  lemma ResetStarts(t: Timers, id: nat, period: nat, fromNow: bool, now: nat, clocks: seq<nat>)
    requires Inv(t, clocks) && id < |t.cells| && t.cells[id].cb.Some? && (period != t.cells[id].period || fromNow)
    ensures var r := ResetStep(t, id, period, fromNow, now);
      !r.bad && r.ok && AllStarted(r.st.cells, clocks + [now])
  {
    var c := t.cells[id];
    assert Started(c, clocks);
    ResetCells(t, id, period, fromNow, now);
    RestartStarts(c, period, fromNow, now, clocks);
    StartedUpdate(t.cells, id, Restarted(c, period, fromNow, now), clocks, [now]);
  }

  lemma RestartStarts(c: Cell, period: nat, fromNow: bool, now: nat, clocks: seq<nat>)
    requires Started(c, clocks)
    ensures Started(Restarted(c, period, fromNow, now), clocks + [now])
  {
  }

  lemma ExpireInv(t: Timers, now: nat, probe: nat, clocks: seq<nat>)
    requires Inv(t, clocks)
    ensures Inv(ExpireStep(t, now, probe).st, clocks + [now])
  {
    ExpireHolds(t, now, probe);
    FiredCells(t, now, probe);
    StartedLater(t.cells, clocks, [now]);
    var r := ExpireStep(t, now, probe);
    forall id | 0 <= id < |t.cells| ensures Started(r.st.cells[id], clocks + [now]) {
      assert Started(t.cells[id], clocks + [now]);
    }
  }

  lemma AddInv(t: Timers, addr: nat, period: nat, recurring: bool, cb: nat, now: nat, clocks: seq<nat>)
    requires Inv(t, clocks) && Can(t, Add(addr, period, recurring, cb, now))
    ensures Inv(AddStep(t, addr, period, recurring, cb, now).st, clocks + [now])
  {
    AddHolds(t.cells, t.order, Cell(addr, recurring, period, now + period, Some(cb)));
    StartedLater(t.cells, clocks, [now]);
  }

  /** Whatever the step: no lookup misses, no start time underflows, the invariant is kept. */
  lemma StepInv(t: Timers, a: Action, clocks: seq<nat>)
    requires Inv(t, clocks) && Can(t, a)
    ensures !Step(t, a).bad && Inv(Step(t, a).st, clocks + ClockOf(a))
  {
    match a
    case Add(addr, period, recurring, cb, now) => AddInv(t, addr, period, recurring, cb, now, clocks);
    case Cancel(id) =>
      CancelInv(t, id, clocks);
      assert clocks + [] == clocks;
    case Refresh(id, now) => RefreshInv(t, id, now, clocks);
    case Reset(id, period, fromNow, now) => ResetInv(t, id, period, fromNow, now, clocks);
    case Next(now) => StartedLater(t.cells, clocks, [now]);
    case Expire(now, probe) => ExpireInv(t, now, probe, clocks);
  }

  // ---------------------------------------------------------------- the fields, one by one

  /** c would be the first of the set, timer id left aside. */
  ghost predicate Leads(c: Cell, cells: seq<Cell>, order: seq<nat>, id: nat) {
    forall x: nat :: x in order && x != id && x < |cells| ==> Earlier(c, cells[x])
  }

  /** The manager is told exactly if the timer goes to the front and nobody was told before. */
  lemma EnterNotifies(t: Timers, id: nat)
    requires Holding(t.cells, t.order, {id})
    ensures id in {id} && Sound(t) && id < |t.cells|
    ensures var r := Enter(t, id);
      && (r.notified <==> !t.tickled && Leads(t.cells[id], t.cells, t.order, id))
      && r.st.tickled == (t.tickled || r.notified) && r.st.cells == t.cells && r.ok && !r.bad
  {
    assert id in {id};
    var k := KeyOf(t.cells[id]);
    BoundSplits(t.cells, t.order, k);
    forall i | 0 <= i < |t.order| ensures t.cells[t.order[i]].addr != t.cells[id].addr {
      assert t.order[i] in t.order && Apart(t.cells, t.order[i], id);
    }
    if LowerBound(t.cells, t.order, k) > 0 {
      assert t.order[0] in t.order && t.order[0] != id;
      assert Less(KeyOf(t.cells[t.order[0]]), k);
    }
  }

  /** A new timer: the fields it was given, due one period after the clock value read. */
  lemma AddExact(t: Timers, addr: nat, period: nat, recurring: bool, cb: nat, now: nat, clocks: seq<nat>)
    requires Inv(t, clocks) && Can(t, Add(addr, period, recurring, cb, now))
    ensures var c, r := Cell(addr, recurring, period, now + period, Some(cb)), AddStep(t, addr, period, recurring, cb, now);
      && r.st.cells == t.cells + [c] && (forall x: nat :: x in r.st.order <==> x in t.order || x == |t.cells|)
      && (r.notified <==> !t.tickled && Leads(c, t.cells, t.order, |t.cells|))
      && r.st.tickled == (t.tickled || r.notified)
  {
    var c := Cell(addr, recurring, period, now + period, Some(cb));
    AddHolds(t.cells, t.order, c);
    var u := t.(cells := t.cells + [c]);
    EnterNotifies(u, |t.cells|);
    assert forall x: nat :: x in t.order ==> x < |t.cells| && u.cells[x] == t.cells[x];
    Membership(t.cells, t.order, u.cells, AddStep(t, addr, period, recurring, cb, now).st.order);
  }

  /** The set follows the callbacks. */
  lemma Membership(cells: seq<Cell>, order: seq<nat>, after: seq<Cell>, r: seq<nat>)
    requires Holding(cells, order, {}) && Holding(after, r, {})
    ensures forall x: nat :: x in order <==> x < |cells| && cells[x].cb.Some?
    ensures forall x: nat :: x in r <==> x < |after| && after[x].cb.Some?
  {
  }

  /** cancle: the callback goes, and the timer leaves the set. */
  lemma CancelExact(t: Timers, id: nat, clocks: seq<nat>)
    requires Inv(t, clocks) && id < |t.cells|
    ensures var c, r := t.cells[id], CancelStep(t, id);
      && r.st.cells == t.cells[id := Cell(c.addr, c.recurring, c.period, c.deadline, None)]
      && (forall x: nat :: x in r.st.order <==> x in t.order && x != id) && r.st.tickled == t.tickled
      && (c.cb.None? ==> r.st == t)
  {
    CancelInv(t, id, clocks);
    Membership(t.cells, t.order, CancelStep(t, id).st.cells, CancelStep(t, id).st.order);
  }

  /** refresh: the deadline is one period from now; nothing else changes. */
  lemma RefreshExact(t: Timers, id: nat, now: nat, clocks: seq<nat>)
    requires Inv(t, clocks) && id < |t.cells|
    ensures var c, r := t.cells[id], RefreshStep(t, id, now);
      && (c.cb.Some? ==> r.st.cells == t.cells[id := Cell(c.addr, c.recurring, c.period, now + c.period, c.cb)])
      && (forall x: nat :: x in r.st.order <==> x in t.order) && r.st.tickled == t.tickled
      && (c.cb.None? ==> r.st == t)
  {
    RefreshInv(t, id, now, clocks);
    if t.cells[id].cb.Some? { RefreshCells(t, id, now); }
    Membership(t.cells, t.order, RefreshStep(t, id, now).st.cells, RefreshStep(t, id, now).st.order);
  }

  /** What reset makes of the timer's fields. */
  ghost predicate ResetTo(c: Cell, d: Cell, period: nat, fromNow: bool, now: nat) {
    && d.period == period
    && d.deadline == (if fromNow then now + period else c.deadline - c.period + period)
    && d.addr == c.addr && d.recurring == c.recurring && d.cb == c.cb
  }

  /** reset: the period is the new one, counted from now or from where the timer started; no
      other field and no other timer changes, and a timer without a callback, or reset to its
      own period, is left as it is. */
  lemma ResetExact(t: Timers, id: nat, period: nat, fromNow: bool, now: nat, clocks: seq<nat>)
    requires Inv(t, clocks) && id < |t.cells|
    ensures var c, r := t.cells[id], ResetStep(t, id, period, fromNow, now);
      && (forall x: nat :: x in r.st.order <==> x in t.order)
      && if c.cb.Some? && (period != c.period || fromNow) then
           && |r.st.cells| == |t.cells| && ResetTo(c, r.st.cells[id], period, fromNow, now)
           && (forall x: nat :: x < |t.cells| && x != id ==> r.st.cells[x] == t.cells[x])
           && (r.notified <==> !t.tickled && Leads(r.st.cells[id], t.cells, t.order, id))
           && r.st.tickled == (t.tickled || r.notified)
         else r.st == t && !r.notified
  {
    ResetInv(t, id, period, fromNow, now, clocks);
    assert Started(t.cells[id], clocks);
    if t.cells[id].cb.Some? && (period != t.cells[id].period || fromNow) {
      ResetMoves(t, id, period, fromNow, now);
    }
    var r := ResetStep(t, id, period, fromNow, now);
    Membership(t.cells, t.order, r.st.cells, r.st.order);
  }

  lemma ResetMoves(t: Timers, id: nat, period: nat, fromNow: bool, now: nat)
    requires Holding(t.cells, t.order, {}) && id < |t.cells| && t.cells[id].cb.Some?
    requires (period != t.cells[id].period || fromNow) && t.cells[id].deadline >= t.cells[id].period
    ensures var r := ResetStep(t, id, period, fromNow, now);
      && r.st.cells == t.cells[id := Restarted(t.cells[id], period, fromNow, now)]
      && (r.notified <==> !t.tickled && Leads(r.st.cells[id], t.cells, t.order, id))
      && r.st.tickled == (t.tickled || r.notified)
  {
    var d := Restarted(t.cells[id], period, fromNow, now);
    ResetCells(t, id, period, fromNow, now);
    MoveHolds(t.cells, t.order, id, d);
    var i := Find(t.cells, t.order, KeyOf(t.cells[id]));
    EraseSorted(t.cells, t.order, i);
    var u := Without(t, id, d);
    EnterNotifies(u, id);
    assert forall x: nat :: x in t.order && x != id ==> x in u.order && u.cells[x] == t.cells[x];
  }

  // ---------------------------------------------------------------- wake-ups

  /** No member is due before `seen`; with None, there is no member. */
  ghost predicate NoneBefore(cells: seq<Cell>, order: seq<nat>, seen: Option<nat>)
    requires InRange(cells, order)
  {
    match seen
    case None => order == []
    case Some(d) => forall id: nat :: id in order ==> cells[id].deadline >= d
  }

  /** Either the sleeper has been woken, or nothing is due before what it last saw. */
  ghost predicate WakeOk(t: Timers, seen: Option<nat>)
    requires Sound(t)
  {
    t.tickled || NoneBefore(t.cells, t.order, seen)
  }

  /** The earliest deadline, as getNextTimer looks at it. */
  function Front(t: Timers): Option<nat>
    requires Sound(t)
  {
    if t.order == [] then None else Some(t.cells[t.order[0]].deadline)
  }

  lemma FrontIsFirst(t: Timers)
    requires Holding(t.cells, t.order, {})
    ensures NoneBefore(t.cells, t.order, Front(t))
  {
    forall id: nat | id in t.order ensures t.cells[id].deadline >= t.cells[t.order[0]].deadline {
      var j :| 0 <= j < |t.order| && t.order[j] == id;
      assert j > 0 ==> Before(t.cells, t.order, 0, j);
    }
  }

  /** The delay getNextTimer returns: none if there is no timer, 0 if one is due, and
      otherwise the time after which, and not before, one is. */
  lemma DelayIsExact(t: Timers, now: nat)
    requires Holding(t.cells, t.order, {})
    ensures Delay(t, now).None? <==> t.order == []
    ensures Delay(t, now) == Some(0) <==> exists id: nat :: id in t.order && t.cells[id].deadline <= now
    ensures Delay(t, now).Some? && Delay(t, now).value > 0 ==>
      && (forall id: nat :: id in t.order ==> t.cells[id].deadline >= now + Delay(t, now).value)
      && exists id: nat :: id in t.order && t.cells[id].deadline == now + Delay(t, now).value
  {
    FrontIsFirst(t);
    if t.order != [] { assert t.order[0] in t.order; }
  }

  /** addTimer notices when it puts a timer before everything the sleeper saw. */
  lemma EnterWakes(t: Timers, id: nat, seen: Option<nat>)
    requires Holding(t.cells, t.order, {id}) && (t.tickled || t.order == [] || NoneBefore(t.cells, t.order, seen))
    ensures id in {id} && WakeOk(Enter(t, id).st, seen)
  {
    var cells, order := t.cells, t.order;
    assert id in {id};
    if !Enter(t, id).st.tickled {
      var i := LowerBound(cells, order, KeyOf(cells[id]));
      assert i > 0 && Less(KeyOf(cells[order[0]]), KeyOf(cells[id]));
      assert order[0] in order;
      forall j | 0 <= j < |order| ensures cells[order[j]].addr != cells[id].addr {
        assert order[j] in order && Apart(cells, order[j], id);
      }
      InsertSorted(cells, order, id);
    }
  }

  /** Expiry re-arms from now, and what was collected was due by now. */
  lemma ExpireWakes(t: Timers, now: nat, probe: nat, seen: Option<nat>)
    requires Holding(t.cells, t.order, {}) && WakeOk(t, seen)
    ensures WakeOk(ExpireStep(t, now, probe).st, seen)
  {
    FiredCells(t, now, probe);
    FiredAreDue(t, now, probe);
    ExpireHolds(t, now, probe);
    var r := ExpireStep(t, now, probe);
    forall id: nat | id in r.st.order ensures id in t.order && r.st.cells[id].deadline >= t.cells[id].deadline {
      ExpireMembers(t, now, probe, id);
    }
    if r.st.order != [] { assert r.st.order[0] in r.st.order; }
  }

  /** refresh inserts without looking at the front; a clock that does not run back makes
      that safe. */
  lemma RefreshWakes(t: Timers, id: nat, now: nat, seen: Option<nat>)
    requires Holding(t.cells, t.order, {}) && WakeOk(t, seen) && id < |t.cells|
    requires now + t.cells[id].period >= t.cells[id].deadline
    ensures WakeOk(RefreshStep(t, id, now).st, seen)
  {
    var c := t.cells[id];
    if c.cb.Some? {
      RefreshCells(t, id, now);
      RefreshHolds(t, id, now);
      var r := RefreshStep(t, id, now).st;
      forall x: nat | x in r.order ensures x in t.order && r.cells[x].deadline >= t.cells[x].deadline {
        assert r.cells[x].cb.Some?;
        assert t.cells[x].cb.Some?;
      }
      assert id in t.order;
    }
  }

  lemma ResetWakes(t: Timers, id: nat, period: nat, fromNow: bool, now: nat, seen: Option<nat>)
    requires Holding(t.cells, t.order, {}) && WakeOk(t, seen) && id < |t.cells|
    requires t.cells[id].deadline >= t.cells[id].period
    ensures WakeOk(ResetStep(t, id, period, fromNow, now).st, seen)
  {
    var c := t.cells[id];
    if c.cb.Some? && (period != c.period || fromNow) {
      var d := Restarted(c, period, fromNow, now);
      ResetCells(t, id, period, fromNow, now);
      MoveHolds(t.cells, t.order, id, d);
      var i := Find(t.cells, t.order, KeyOf(c));
      EraseSorted(t.cells, t.order, i);
      assert id in t.order;
      EnterWakes(Timers(t.cells[id := d], Erase(t.order, i), t.tickled), id, seen);
    }
  }

  lemma CancelWakes(t: Timers, id: nat, seen: Option<nat>)
    requires Holding(t.cells, t.order, {}) && WakeOk(t, seen) && id < |t.cells|
    ensures WakeOk(CancelStep(t, id).st, seen)
  {
    if t.cells[id].cb.Some? {
      CancelHolds(t.cells, t.order, id);
      var r := CancelStep(t, id).st;
      forall x: nat | x in r.order ensures x in t.order && r.cells[x] == t.cells[x] {
        assert r.cells[x].cb.Some?;
      }
      assert id in t.order;
    }
  }

  /** What the sleeper knows after a step. */
  function SeenAfter(t: Timers, a: Action, seen: Option<nat>): Option<nat>
    requires Sound(t)
  {
    if a.Next? then Front(t) else seen
  }

  lemma AddWakes(t: Timers, addr: nat, period: nat, recurring: bool, cb: nat, now: nat, seen: Option<nat>)
    requires Holding(t.cells, t.order, {}) && WakeOk(t, seen) && Can(t, Add(addr, period, recurring, cb, now))
    ensures WakeOk(AddStep(t, addr, period, recurring, cb, now).st, seen)
  {
    var c := Cell(addr, recurring, period, now + period, Some(cb));
    AddHolds(t.cells, t.order, c);
    EnterWakes(t.(cells := t.cells + [c]), |t.cells|, seen);
  }

  lemma WakeStep(t: Timers, a: Action, clocks: seq<nat>, seen: Option<nat>)
    requires Inv(t, clocks) && Can(t, a) && WakeOk(t, seen)
    requires a.Refresh? ==> forall c :: c in clocks ==> c <= a.now
    ensures WakeOk(Step(t, a).st, SeenAfter(t, a, seen))
  {
    match a
    case Add(addr, period, recurring, cb, now) =>
      AddWakes(t, addr, period, recurring, cb, now, seen);
    case Cancel(id) => CancelWakes(t, id, seen);
    case Refresh(id, now) =>
      assert Started(t.cells[id], clocks);
      RefreshWakes(t, id, now, seen);
    case Reset(id, period, fromNow, now) =>
      assert Started(t.cells[id], clocks);
      ResetWakes(t, id, period, fromNow, now, seen);
    case Next(_) => FrontIsFirst(t);
    case Expire(now, probe) => ExpireWakes(t, now, probe, seen);
  }

  // ---------------------------------------------------------------- runs

  /** A run's state, what the last getNextTimer saw, and how often onTimerInsertedAtFront
      has been called since. */
  datatype History = History(t: Timers, seen: Option<nat>, notices: nat)

  ghost function Play(acts: seq<Action>): (h: Option<History>)
    ensures h.Some? ==> Sound(h.value.t)
  {
    if acts == [] then Some(History(Timers([], [], false), None, 0))
    else
      var a := acts[|acts| - 1];
      match Play(acts[..|acts| - 1])
      case None => None
      case Some(h) =>
        if !Can(h.t, a) then None
        else
          var r := Step(h.t, a);
          Some(History(r.st, SeenAfter(h.t, a, h.seen),
                       if a.Next? then 0 else h.notices + if r.notified then 1 else 0))
  }

  /** The clock values read in a run, in order. */
  function Clocks(acts: seq<Action>): seq<nat> {
    if acts == [] then [] else Clocks(acts[..|acts| - 1]) + ClockOf(acts[|acts| - 1])
  }

  /** In every reachable state: a callback is set exactly for the members of m_timers, the
      set is in order, start times are observed clock values; and no step taken there misses
      a lookup or underflows. */
  lemma {:induction false} EveryRunSafe(acts: seq<Action>)
    requires Play(acts).Some?
    ensures Inv(Play(acts).value.t, Clocks(acts))
    ensures forall a: Action :: Can(Play(acts).value.t, a) ==> !Step(Play(acts).value.t, a).bad
  {
    if acts != [] {
      var n := |acts| - 1;
      EveryRunSafe(acts[..n]);
      StepInv(Play(acts[..n]).value.t, acts[n], Clocks(acts[..n]));
    }
    var t := Play(acts).value.t;
    forall a: Action | Can(t, a) ensures !Step(t, a).bad { StepInv(t, a, Clocks(acts)); }
  }

  /** refresh reads the clock inside its critical section: no earlier step of the run read a
      later value. Every other step may use a stale one. */
  predicate MonotoneRefresh(acts: seq<Action>) {
    forall i :: 0 <= i < |acts| && acts[i].Refresh? ==> forall c :: c in Clocks(acts[..i]) ==> c <= acts[i].now
  }

  /** No wake-up is lost: in every reachable state the sleeper has been woken since it last
      looked, or nothing is due before the deadline it saw. And it is woken at most once. */
  lemma {:induction false} NoLostWakeup(acts: seq<Action>)
    requires Play(acts).Some? && MonotoneRefresh(acts)
    ensures var h := Play(acts).value; WakeOk(h.t, h.seen)
  {
    if acts != [] {
      var n := |acts| - 1;
      var p := acts[..n];
      assert MonotoneRefresh(p) by {
        forall i | 0 <= i < |p| && p[i].Refresh? ensures forall c :: c in Clocks(p[..i]) ==> c <= p[i].now {
          assert p[i] == acts[i] && p[..i] == acts[..i];
        }
      }
      NoLostWakeup(p);
      EveryRunSafe(p);
      var h := Play(p).value;
      WakeStep(h.t, acts[n], Clocks(p), h.seen);
    }
  }

  /** A step that is not getNextTimer calls onTimerInsertedAtFront exactly when it turns
      m_tickled on, and none turns it off. */
  lemma NoticeStep(t: Timers, a: Action)
    requires Sound(t) && Can(t, a) && !a.Next?
    ensures var r := Step(t, a); r.notified == (r.st.tickled && !t.tickled) && (t.tickled ==> r.st.tickled)
  {
    if a.Expire? {
      var i := SkipNow(t.cells, t.order, a.now, LowerBound(t.cells, t.order, Key(a.now, a.probe)));
      RearmTickled(t.(order := t.order[i..]), t.order[..i], a.now);
    }
  }

  lemma {:induction false} WokenAtMostOnce(acts: seq<Action>)
    requires Play(acts).Some?
    ensures var h := Play(acts).value; h.notices == if h.t.tickled then 1 else 0
  {
    if acts != [] {
      var n := |acts| - 1;
      WokenAtMostOnce(acts[..n]);
      if !acts[n].Next? { NoticeStep(Play(acts[..n]).value.t, acts[n]); }
    }
  }

  /** Exactly when a refresh is safe whatever the sleeper saw: it was woken already, or the
      new deadline is not before the present front. */
  lemma RefreshSafeIff(t: Timers, id: nat, now: nat)
    requires Holding(t.cells, t.order, {}) && id < |t.cells| && t.cells[id].cb.Some?
    ensures (forall seen :: WakeOk(t, seen) ==> WakeOk(RefreshStep(t, id, now).st, seen))
       <==> t.tickled || now + t.cells[id].period >= Front(t).value
  {
    RefreshCells(t, id, now);
    RefreshHolds(t, id, now);
    FrontIsFirst(t);
    assert id in t.order && t.order[0] in t.order;
    var r := RefreshStep(t, id, now).st;
    assert id in r.order by { assert r.cells[id].cb.Some?; }
    forall x: nat | x in r.order ensures x in t.order && (x != id ==> r.cells[x] == t.cells[x]) {
      assert r.cells[x].cb.Some?;
    }
    if now + t.cells[id].period < Front(t).value && !t.tickled {
      assert WakeOk(t, Front(t)) && !WakeOk(r, Front(t));
    }
  }

  /** Such a state is reachable when the clock runs back: the only timer is refreshed to
      before what the sleeper saw, and nobody is told. */
  lemma BackwardClockLosesWakeup()
    ensures var p := Play([Add(0, 5, false, 0, 100), Next(100), Refresh(0, 50)]);
      p.Some? && !WakeOk(p.value.t, p.value.seen)
  {
    var a, b, c := Add(0, 5, false, 0, 100), Next(100), Refresh(0, 50);
    var x := Cell(0, false, 5, 105, Some(0));
    var y := Cell(0, false, 5, 55, Some(0));
    assert [a, b, c][..2] == [a, b] && [a, b][..1] == [a] && [a][..0] == [];
    assert Play([]) == Some(History(Timers([], [], false), None, 0));
    var h1 := History(Timers([x], [0], true), None, 1);
    assert InsertAt([], 0, 0) == [0];
    assert [] + [x] == [x];
    assert Play([a]) == Some(h1);
    var h2 := History(Timers([x], [0], false), Some(105), 0);
    assert Play([a, b]) == Some(h2);
    assert Find([x], [0], KeyOf(x)) == 0;
    assert Erase([0], 0) == [] && [x][0 := y] == [y];
    assert RefreshStep(h2.t, 0, 50).st == Timers([y], [0], false);
    assert 0 in [0];
  }

  // ---------------------------------------------------------------- callbacks

  /** A timer without a callback stays so, and a recurring timer stays recurring. */
  lemma StepLife(t: Timers, a: Action, clocks: seq<nat>, id: nat)
    requires Inv(t, clocks) && Can(t, a) && id < |t.cells|
    ensures var r := Step(t, a);
      && id < |r.st.cells| && r.st.cells[id].recurring == t.cells[id].recurring
      && (t.cells[id].cb.None? ==> r.st.cells[id].cb.None? && id !in r.fired)
      && (id in r.fired && !t.cells[id].recurring ==> r.st.cells[id].cb.None?)
      && (a == Cancel(id) && r.ok ==> r.st.cells[id].cb.None?)
  {
    match a
    case Expire(now, probe) =>
      FiredCells(t, now, probe);
      FiredAreDue(t, now, probe);
    case Refresh(k, now) =>
      if t.cells[k].cb.Some? { RefreshCells(t, k, now); }
    case Reset(k, period, fromNow, now) =>
      assert Started(t.cells[k], clocks);
      if t.cells[k].cb.Some? && (period != t.cells[k].period || fromNow) { ResetCells(t, k, period, fromNow, now); }
    case _ =>
  }

  lemma {:induction false} PrefixPlays(acts: seq<Action>, i: nat)
    requires i <= |acts| && Play(acts).Some?
    ensures Play(acts[..i]).Some?
    decreases |acts|
  {
    if i < |acts| {
      var p := acts[..|acts| - 1];
      PrefixPlays(p, i);
      assert p[..i] == acts[..i];
    } else {
      assert acts[..i] == acts;
    }
  }

  /** The state of a run before its step i. */
  ghost function StateAt(acts: seq<Action>, i: nat): (t: Timers)
    requires Play(acts).Some? && i <= |acts|
    ensures Sound(t)
  {
    PrefixPlays(acts, i);
    Play(acts[..i]).value.t
  }

  lemma InvAt(acts: seq<Action>, i: nat)
    requires Play(acts).Some? && i <= |acts|
    ensures Inv(StateAt(acts, i), Clocks(acts[..i]))
  {
    PrefixPlays(acts, i);
    EveryRunSafe(acts[..i]);
  }

  lemma CanAt(acts: seq<Action>, i: nat)
    requires Play(acts).Some? && i < |acts|
    ensures Can(StateAt(acts, i), acts[i]) && StateAt(acts, i + 1) == Step(StateAt(acts, i), acts[i]).st
  {
    PrefixPlays(acts, i + 1);
    var p := acts[..i + 1];
    assert p[..i] == acts[..i];
  }

  ghost function StepAt(acts: seq<Action>, i: nat): Result
    requires Play(acts).Some? && i < |acts|
  {
    CanAt(acts, i);
    Step(StateAt(acts, i), acts[i])
  }

  predicate Gone(t: Timers, id: nat) {
    id < |t.cells| && t.cells[id].cb.None?
  }

  lemma GoneStep(t: Timers, a: Action, clocks: seq<nat>, id: nat)
    requires Inv(t, clocks) && Can(t, a) && Gone(t, id)
    ensures Gone(Step(t, a).st, id) && id !in Step(t, a).fired
  {
    StepLife(t, a, clocks, id);
  }

  lemma EndsStep(t: Timers, a: Action, clocks: seq<nat>, id: nat)
    requires Inv(t, clocks) && Can(t, a) && Ends(a, Step(t, a), t, id)
    ensures Gone(Step(t, a).st, id)
  {
    StepLife(t, a, clocks, id);
  }

  lemma GoneAt(acts: seq<Action>, i: nat, id: nat)
    requires Play(acts).Some? && i < |acts| && Gone(StateAt(acts, i), id)
    ensures Gone(StateAt(acts, i + 1), id) && id !in StepAt(acts, i).fired
  {
    CanAt(acts, i);
    InvAt(acts, i);
    GoneStep(StateAt(acts, i), acts[i], Clocks(acts[..i]), id);
  }

  lemma {:induction false} Persists(gone: seq<bool>, i: nat, j: nat)
    requires i <= j < |gone| && gone[i] && forall k :: 0 <= k < |gone| - 1 && gone[k] ==> gone[k + 1]
    ensures gone[j]
    decreases j
  {
    if i < j { Persists(gone, i, j - 1); }
  }

  /** Once gone, a callback stays gone for the rest of the run. */
  lemma StaysGone(acts: seq<Action>, i: nat, j: nat, id: nat)
    requires Play(acts).Some? && i <= j <= |acts| && Gone(StateAt(acts, i), id)
    ensures Gone(StateAt(acts, j), id)
  {
    var gone := seq(|acts| + 1, k requires 0 <= k <= |acts| => Gone(StateAt(acts, k), id));
    forall k | 0 <= k < |acts| && gone[k] ensures gone[k + 1] { GoneAt(acts, k, id); }
    Persists(gone, i, j);
  }

  /** The step collects the one-shot timer id, or is a cancle of it that returns true. */
  predicate Ends(a: Action, r: Result, t: Timers, id: nat) {
    id < |t.cells| && if a == Cancel(id) then r.ok else id in r.fired && !t.cells[id].recurring
  }

  /** Over any run, once a one-shot timer's callback is collected, or a cancle of the timer
      returned true, its callback is never collected again. */
  lemma CollectedAtMostOnce(acts: seq<Action>, i: nat, j: nat, id: nat)
    requires Play(acts).Some? && i < j < |acts| && Ends(acts[i], StepAt(acts, i), StateAt(acts, i), id)
    ensures id !in StepAt(acts, j).fired
  {
    CanAt(acts, i);
    CanAt(acts, j);
    InvAt(acts, i);
    EndsStep(StateAt(acts, i), acts[i], Clocks(acts[..i]), id);
    StaysGone(acts, i + 1, j, id);
    GoneAt(acts, j, id);
  }

  /** The timer was due at now: its period has gone by since one of the clock values. */
  predicate Due(c: Cell, clocks: seq<nat>, now: nat) {
    Started(c, clocks) && c.deadline <= now
  }

  lemma FiredStep(t: Timers, a: Action, clocks: seq<nat>)
    requires Inv(t, clocks) && Can(t, a) && Step(t, a).fired != []
    ensures a.Expire? && NoDup(Step(t, a).fired)
    ensures forall id :: id in Step(t, a).fired ==> id < |t.cells| && Due(t.cells[id], clocks, a.now)
  {
    FiredAreDue(t, a.now, a.probe);
    var fired := Step(t, a).fired;
    forall j: nat, k: nat | j < k < |fired| ensures fired[j] != fired[k] { assert Before(t.cells, fired, j, k); }
  }

  /** In any run, what a step collects is due and each timer is collected once. */
  lemma CollectedWhenDue(acts: seq<Action>, i: nat)
    requires Play(acts).Some? && i < |acts| && StepAt(acts, i).fired != []
    ensures acts[i].Expire? && NoDup(StepAt(acts, i).fired)
    ensures forall id :: id in StepAt(acts, i).fired ==>
      id < |StateAt(acts, i).cells| && Due(StateAt(acts, i).cells[id], Clocks(acts[..i]), acts[i].now)
  {
    CanAt(acts, i);
    InvAt(acts, i);
    FiredStep(StateAt(acts, i), acts[i], Clocks(acts[..i]));
  }
}
