/** kernel/sched.c: add_timer and the timer part of do_timer.  Timers form a list
    in which every entry holds the ticks left after the entry before it. */
module Timers {
  import opened Sequences

  const TIME_REQUESTS: int := 64

  /** fn is the routine to call; id tells apart the calls of add_timer. */
  datatype Entry = Entry(fn: int, delta: int, id: nat)

  datatype Firing = Firing(fn: int, id: nat, time: nat)

  /** The number of ticks so far, the pending timers and what has been called. */
  datatype Clock = Clock(now: nat, list: seq<Entry>, fired: seq<Firing>)

  /** add_timer(ticks, fn), from anywhere (also from a timer routine), or a tick. */
  datatype Event = Add(ticks: int, fn: int, id: nat) | Tick

  /** add_timer's walk: the new timer is not taken off the one behind it. */
  function Insert(list: seq<Entry>, e: Entry): seq<Entry> {
    if list == [] || list[0].delta >= e.delta then [e] + list
    else [list[0]] + Insert(list[1..], e.(delta := e.delta - list[0].delta))
  }

  function Next(c: Clock, ev: Event): Clock {
    match ev
    case Add(ticks, fn, id) =>
      if ticks <= 0 then c.(fired := c.fired + [Firing(fn, id, c.now)])
      else c.(list := Insert(c.list, Entry(fn, ticks, id)))
    case Tick =>
      if c.list == [] then c.(now := c.now + 1)
      else if c.list[0].delta > 1 then c.(now := c.now + 1,
                                          list := [c.list[0].(delta := c.list[0].delta - 1)] + c.list[1..])
      else Clock(c.now + 1, c.list[1..], c.fired + [Firing(c.list[0].fn, c.list[0].id, c.now + 1)])
  }

  /** The ticks left until entry i is called, if nothing is added. */
  function Left(list: seq<Entry>, i: nat): int
    requires i < |list|
  {
    list[0].delta + if i == 0 then 0 else Left(list[1..], i - 1)
  }

  ghost predicate Waits(list: seq<Entry>) { forall i :: 0 <= i < |list| ==> list[i].delta >= 1 }

  /** Every timer waits at least a tick more than the one before, and every call
      of add_timer is pending at most once or was called at most once, not both. */
  ghost predicate Inv(c: Clock) {
    && Waits(c.list)
    && (forall i, j :: 0 <= i < j < |c.list| ==> c.list[i].id != c.list[j].id)
    && (forall i, j :: 0 <= i < j < |c.fired| ==> c.fired[i].id != c.fired[j].id)
    && (forall i, j :: 0 <= i < |c.list| && 0 <= j < |c.fired| ==> c.list[i].id != c.fired[j].id)
  }

  predicate Fresh(c: Clock, ev: Event) {
    ev.Add? ==>
         (forall i :: 0 <= i < |c.list| ==> c.list[i].id != ev.id)
         && (forall i :: 0 <= i < |c.fired| ==> c.fired[i].id != ev.id)
  }

  /** Where the new entry goes: before the first entry that is due no sooner. */
  function Place(list: seq<Entry>, ticks: int): (p: nat)
    ensures p <= |list|
  {
    if list == [] || list[0].delta >= ticks then 0 else 1 + Place(list[1..], ticks - list[0].delta)
  }

  /** What the new entry keeps of its ticks. */
  function Rest(list: seq<Entry>, ticks: int): int {
    if list == [] || list[0].delta >= ticks then ticks else Rest(list[1..], ticks - list[0].delta)
  }

  lemma {:induction false} InsertIs(list: seq<Entry>, e: Entry)
    requires Waits(list) && e.delta >= 1
    ensures var p := Place(list, e.delta); Insert(list, e) == list[..p] + [e.(delta := Rest(list, e.delta))] + list[p..]
    ensures 1 <= Rest(list, e.delta) <= e.delta
    ensures Left(Insert(list, e), Place(list, e.delta)) == e.delta
  {
    if list != [] && list[0].delta < e.delta {
      var e1 := e.(delta := e.delta - list[0].delta);
      var p := Place(list[1..], e1.delta);
      InsertIs(list[1..], e1);
      assert [list[0]] + list[1..][..p] == list[..p + 1];
      assert list[1..][p..] == list[p + 1..];
      assert Insert(list, e)[1..] == Insert(list[1..], e1);
    }
  }

  /** Who is delayed by a new timer, and by how much: the timers due no sooner than
      it, by what it keeps. */
  lemma {:induction false} InsertLeft(list: seq<Entry>, e: Entry, i: nat)
    requires Waits(list) && e.delta >= 1 && i < |list|
    ensures Left(list, i) >= 1
    ensures var j := if e.delta <= Left(list, i) then i + 1 else i;
      && j < |Insert(list, e)| && Insert(list, e)[j] == list[i]
      && Left(Insert(list, e), j) == Left(list, i) + if e.delta <= Left(list, i) then Rest(list, e.delta) else 0
  {
    LeftPositive(list, i);
    if list[0].delta >= e.delta {
      LeftCons(e, list, i);
      if i > 0 { LeftPositive(list[1..], i - 1); }
    } else {
      var e1 := e.(delta := e.delta - list[0].delta);
      if i > 0 {
        InsertLeft(list[1..], e1, i - 1);
        hide Rest, Place;
        LeftCons(list[0], Insert(list[1..], e1), if e1.delta <= Left(list[1..], i - 1) then i else i - 1);
      }
    }
  }

  lemma LeftCons(x: Entry, rest: seq<Entry>, i: nat)
    requires i < |rest|
    ensures Left([x] + rest, i + 1) == x.delta + Left(rest, i) && ([x] + rest)[i + 1] == rest[i]
  {
    assert ([x] + rest)[1..] == rest;
  }

  lemma {:induction false} LeftPositive(list: seq<Entry>, i: nat)
    requires Waits(list) && i < |list|
    ensures Left(list, i) >= 1
  {
    if i > 0 { LeftPositive(list[1..], i - 1); }
  }

  /** Slots hold ids once, and at most one timer is called in a tick. */
  lemma NextKeeps(c: Clock, ev: Event)
    requires Inv(c) && Fresh(c, ev)
    ensures Inv(Next(c, ev)) && |c.fired| <= |Next(c, ev).fired| <= |c.fired| + 1
  {
    if ev.Add? && ev.ticks > 0 {
      var e := Entry(ev.fn, ev.ticks, ev.id);
      InsertIs(c.list, e);
      var p := Place(c.list, e.delta);
      InsertDistinct(c, e, p, Rest(c.list, e.delta));
    }
  }

  lemma InsertDistinct(c: Clock, e: Entry, p: nat, rest: int)
    requires Inv(c) && Fresh(c, Add(1, e.fn, e.id)) && p <= |c.list| && rest >= 1
    ensures Inv(c.(list := c.list[..p] + [e.(delta := rest)] + c.list[p..]))
  {
    var list := c.list[..p] + [e.(delta := rest)] + c.list[p..];
    forall i | 0 <= i < |list|
      ensures list[i] == if i < p then c.list[i] else if i == p then e.(delta := rest) else c.list[i - 1]
    { }
  }

  /** All ids in a run are new when they are used. */
  predicate Sound(c: Clock, es: seq<Event>)
    decreases |es|
  {
    es == [] || (Fresh(c, es[0]) && Sound(Next(c, es[0]), es[1..]))
  }

  function After(c: Clock, es: seq<Event>): Clock
    decreases |es|
  {
    if es == [] then c else After(Next(c, es[0]), es[1..])
  }

  /** This call of add_timer delays the timer id. */
  predicate Delays(c: Clock, ev: Event, id: nat) {
    ev.Add? && ev.ticks > 0 && exists i :: 0 <= i < |c.list| && c.list[i].id == id && ev.ticks <= Left(c.list, i)
  }

  /** The ticks by which later calls of add_timer push the timer id back. */
  function Slip(c: Clock, id: nat, es: seq<Event>): int
    decreases |es|
  {
    if es == [] then 0
    else (if Delays(c, es[0], id) then Rest(c.list, es[0].ticks) else 0) + Slip(Next(c, es[0]), id, es[1..])
  }

  predicate Undelayed(c: Clock, id: nat, es: seq<Event>)
    decreases |es|
  {
    es == [] || (!Delays(c, es[0], id) && Undelayed(Next(c, es[0]), id, es[1..]))
  }

  lemma {:induction false} SlipZero(c: Clock, id: nat, es: seq<Event>)
    requires Inv(c) && Sound(c, es)
    ensures Slip(c, id, es) >= 0 && (Slip(c, id, es) == 0 <==> Undelayed(c, id, es))
    decreases |es|
  {
    if es != [] {
      NextKeeps(c, es[0]);
      SlipZero(Next(c, es[0]), id, es[1..]);
      if Delays(c, es[0], id) { InsertIs(c.list, Entry(es[0].fn, es[0].ticks, es[0].id)); }
    }
  }

  /** A timer that was called stays called, once, and is never delayed again. */
  lemma {:induction false} StaysFired(c: Clock, k: nat, es: seq<Event>)
    requires Inv(c) && Sound(c, es) && k < |c.fired|
    ensures Slip(c, c.fired[k].id, es) == 0 && k < |After(c, es).fired| && After(c, es).fired[k] == c.fired[k]
    decreases |es|
  {
    if es != [] {
      NextKeeps(c, es[0]);
      StaysFired(Next(c, es[0]), k, es[1..]);
    }
  }

  /** The timer e was called at tick due, or is pending and due then. */
  ghost predicate Kept(e: Entry, due: int, c: Clock) {
    || (exists i :: 0 <= i < |c.list| && PendingAt(e, due, c, i))
    || (due >= 0 && Firing(e.fn, e.id, due) in c.fired)
  }

  ghost predicate PendingAt(e: Entry, due: int, c: Clock, i: int)
    requires 0 <= i < |c.list|
  {
    c.list[i].id == e.id && c.list[i].fn == e.fn && c.now + Left(c.list, i) == due
  }

  /** One step of entry i: it is called now (-1), or pending at the result, pushed
      back by what the step adds in front of it. */
  lemma Follow(c: Clock, ev: Event, i: nat) returns (j: int)
    requires Inv(c) && Fresh(c, ev) && i < |c.list|
    ensures var x := c.list[i];
        var due := c.now + Left(c.list, i) + if Delays(c, ev, x.id) then Rest(c.list, ev.ticks) else 0;
      if j < 0 then due >= 0 && |c.fired| < |Next(c, ev).fired|
         && Next(c, ev).fired[|c.fired|] == Firing(x.fn, x.id, due)
      else j < |Next(c, ev).list| && PendingAt(x, due, Next(c, ev), j)
  {
    LeftPositive(c.list, i);
    if ev.Tick? {
      if c.list[0].delta <= 1 && i == 0 { return -1; }
      TickLeft(c, i);
      return if c.list[0].delta <= 1 then i - 1 else i;
    }
    if ev.ticks <= 0 { return i; }
    InsertLeft(c.list, Entry(ev.fn, ev.ticks, ev.id), i);
    assert Delays(c, ev, c.list[i].id) <==> ev.ticks <= Left(c.list, i);
    return if ev.ticks <= Left(c.list, i) then i + 1 else i;
  }

  lemma {:induction false} FireTime(c: Clock, e: Entry, due: int, i: nat, es: seq<Event>)
    requires Inv(c) && Sound(c, es) && i < |c.list| && PendingAt(e, due, c, i)
    ensures Kept(e, due + Slip(c, e.id, es), After(c, es))
    decreases |es|
  {
    if es == [] {
      assert PendingAt(e, due, c, i);
    } else {
      var j := Follow(c, es[0], i);
      NextKeeps(c, es[0]);
      hide Inv, Next, Fresh;
      var pushed := due + if Delays(c, es[0], e.id) then Rest(c.list, es[0].ticks) else 0;
      if j >= 0 {
        FireTime(Next(c, es[0]), e, pushed, j, es[1..]);
      } else {
        StaysFired(Next(c, es[0]), |c.fired|, es[1..]);
      }
    }
  }

  lemma TickLeft(c: Clock, i: nat)
    requires Inv(c) && i < |c.list| && !(c.list[0].delta <= 1 && i == 0)
    ensures var c' := Next(c, Tick); var j := if c.list[0].delta <= 1 then i - 1 else i;
      && 0 <= j < |c'.list| && c'.list[j].id == c.list[i].id && c'.list[j].fn == c.list[i].fn
      && Left(c'.list, j) == Left(c.list, i) - 1
  {
    var c' := Next(c, Tick);
    if c.list[0].delta > 1 { assert c'.list[1..] == c.list[1..]; }
  }

  /** A call add_timer(ticks, fn) is never answered early, at most once, and right
      on time exactly when no later call asks for no more ticks than this timer
      still has to wait. */
  lemma NeverEarly(c: Clock, ticks: int, fn: int, id: nat, es: seq<Event>)
    requires Inv(c) && ticks > 0 && Sound(c, [Add(ticks, fn, id)] + es)
    ensures var c1 := Next(c, Add(ticks, fn, id)); var due := c.now + ticks + Slip(c1, id, es); var c2 := After(c1, es);
      && Kept(Entry(fn, ticks, id), due, c2) && due >= c.now + ticks
      && (due == c.now + ticks <==> Undelayed(c1, id, es))
      && forall f :: f in c2.fired && f.id == id ==> f == Firing(fn, id, due)
  {
    hide Inv, Next, PendingAt, Sound, Slip, Undelayed, After, Kept;
    var e := Entry(fn, ticks, id);
    var c1 := Next(c, Add(ticks, fn, id));
    JustAdded(c, ticks, fn, id, es);
    SlipZero(c1, id, es);
    FireTime(c1, e, c.now + ticks, Place(c.list, ticks), es);
    AfterKeeps(c1, es);
    OneFiring(e, c.now + ticks + Slip(c1, id, es), After(c1, es));
  }

  lemma JustAdded(c: Clock, ticks: int, fn: int, id: nat, es: seq<Event>)
    requires Inv(c) && ticks > 0 && Sound(c, [Add(ticks, fn, id)] + es)
    ensures var c1 := Next(c, Add(ticks, fn, id)); var p := Place(c.list, ticks);
      Inv(c1) && Sound(c1, es) && p < |c1.list| && PendingAt(Entry(fn, ticks, id), c.now + ticks, c1, p)
  {
    var all := [Add(ticks, fn, id)] + es;
    assert all[0] == Add(ticks, fn, id) && all[1..] == es;
    NextKeeps(c, all[0]);
    InsertIs(c.list, Entry(fn, ticks, id));
  }

  lemma OneFiring(e: Entry, due: int, c: Clock)
    requires Inv(c) && Kept(e, due, c)
    ensures forall f :: f in c.fired && f.id == e.id ==> due >= 0 && f == Firing(e.fn, e.id, due)
  { }

  lemma {:induction false} AfterKeeps(c: Clock, es: seq<Event>)
    requires Inv(c) && Sound(c, es)
    ensures Inv(After(c, es))
    decreases |es|
  {
    if es != [] {
      NextKeeps(c, es[0]);
      AfterKeeps(Next(c, es[0]), es[1..]);
    }
  }

  /** Exactness fails: two timers set for the same tick are called 5 ticks apart. */
  lemma TwoAtOnce()
    ensures var c := After(Clock(0, [], []), [Add(5, 7, 0), Add(5, 8, 1)]);
      Left(c.list, 0) == 5 && c.list[0].id == 1 && Left(c.list, 1) == 10 && c.list[1].id == 0
  {
    var c1 := Next(Clock(0, [], []), Add(5, 7, 0));
    assert c1.list == [Entry(7, 5, 0)];
    var c2 := Next(c1, Add(5, 8, 1));
    assert c2.list == [Entry(8, 5, 1), Entry(7, 5, 0)];
    assert After(Clock(0, [], []), [Add(5, 7, 0), Add(5, 8, 1)]) == After(c1, [Add(5, 8, 1)]) by {
      assert [Add(5, 7, 0), Add(5, 8, 1)][1..] == [Add(5, 8, 1)];
    }
    assert After(c1, [Add(5, 8, 1)]) == After(c2, []) by { assert [Add(5, 8, 1)][1..] == []; }
  }

  /** The timers as the links and slots have them. */
  ghost function Entries(slots: seq<int>, fn: seq<int>, jiffies: seq<int>, ids: seq<nat>): (r: seq<Entry>)
    requires |fn| == |jiffies| == |ids| == TIME_REQUESTS && forall i :: 0 <= i < |slots| ==>
        0 <= slots[i] < TIME_REQUESTS
    ensures |r| == |slots| && forall i :: 0 <= i < |slots| ==>
        r[i] == Entry(fn[slots[i]], jiffies[slots[i]], ids[slots[i]])
  {
    seq(|slots|, i requires 0 <= i < |slots| => Entry(fn[slots[i]], jiffies[slots[i]], ids[slots[i]]))
  }

  ghost predicate Linked(slots: seq<int>, next: seq<int>, head: int) {
    && |next| == TIME_REQUESTS && head == At(slots, 0)
    && (forall i :: 0 <= i < |slots| ==> 0 <= slots[i] < TIME_REQUESTS && next[slots[i]] == At(slots, i + 1))
    && (forall i, j :: 0 <= i < j < |slots| ==> slots[i] != slots[j])
  }

  /** A slot is in use exactly when it is in the list. */
  ghost predicate InUse(slots: seq<int>, fn: seq<int>) {
    |fn| == TIME_REQUESTS && forall p :: 0 <= p < TIME_REQUESTS ==> (fn[p] != 0 <==> p in slots)
  }

  /** The walk of add_timer: it has passed k old timers, and slot k of the longer
      list holds the new one. */
  ghost predicate Bubbled(list: seq<Entry>, now: seq<Entry>, e: Entry, k: nat) {
    k <= |list| && now == list[..k] + [e] + list[k..]
  }

  lemma BubbleStep(list: seq<Entry>, now: seq<Entry>, e: Entry, k: nat, now': seq<Entry>)
    requires Bubbled(list, now, e, k) && k < |list| && |now'| == |now|
    requires now'[k] == list[k] && now'[k + 1] == e.(delta := e.delta - list[k].delta)
    requires forall j :: 0 <= j < |now| && j != k && j != k + 1 ==> now'[j] == now[j]
    ensures Bubbled(list, now', e.(delta := e.delta - list[k].delta), k + 1)
  {
    forall j | 0 <= j < |now'|
      ensures now'[j] == (list[..k + 1] + [e.(delta := e.delta - list[k].delta)] + list[k + 1..])[j]
    { }
  }

  lemma InsertMore(list: seq<Entry>, e: Entry, k: nat)
    requires k < |list| && list[k].delta < e.delta
    ensures list[..k] + Insert(list[k..], e)
            == list[..k + 1] + Insert(list[k + 1..], e.(delta := e.delta - list[k].delta))
  {
    assert list[k..][1..] == list[k + 1..] && list[..k + 1] == list[..k] + [list[k]];
  }

  lemma InsertDone(list: seq<Entry>, e: Entry, k: nat)
    requires k <= |list| && (k < |list| ==> list[k].delta >= e.delta)
    ensures list[..k] + Insert(list[k..], e) == list[..k] + [e] + list[k..]
  { }

  datatype Request = Request(ticks: int, fn: int, id: nat)

  function Events(adds: seq<Request>): (es: seq<Event>)
    ensures |es| == |adds| && forall i :: 0 <= i < |adds| ==> es[i] == Add(adds[i].ticks, adds[i].fn, adds[i].id)
  {
    seq(|adds|, i requires 0 <= i < |adds| => Add(adds[i].ticks, adds[i].fn, adds[i].id))
  }

  class TimerTable {
    var fn: seq<int>
    var jiffies: seq<int>
    var next: seq<int>
    var nextTimer: int
    ghost var ids: seq<nat>
    ghost var slots: seq<int>
    ghost var now: nat
    ghost var fired: seq<Firing>

    ghost predicate Shape() reads `fn, `jiffies, `next, `nextTimer, `ids, `slots {
      |fn| == |jiffies| == |ids| == TIME_REQUESTS && InUse(slots, fn) && Linked(slots, next, nextTimer)
    }

    ghost function List(): seq<Entry>
      requires Shape()
      reads `fn, `jiffies, `next, `nextTimer, `ids, `slots
    { Entries(slots, fn, jiffies, ids) }

    ghost function Clk(): Clock
      requires Shape()
      reads this
    { Clock(now, List(), fired) }

    ghost predicate Valid() reads this { Shape() && Inv(Clk()) }

    constructor ()
      ensures Valid() && Clk() == Clock(0, [], [])
    {
      fn, jiffies, next := seq(TIME_REQUESTS, _ => 0), seq(TIME_REQUESTS, _ => 0), seq(TIME_REQUESTS, _ => NULL);
      nextTimer := NULL;
      ids := seq(TIME_REQUESTS, _ => 0);
      slots, now, fired := [], 0, [];
    }

    /** The swap of add_timer: what slots p and q hold changes places, p's ticks
        less q's. */
    method Swap(p: int, q: int)
      requires |fn| == |jiffies| == |ids| == TIME_REQUESTS && 0 <= p < TIME_REQUESTS && 0 <= q < TIME_REQUESTS && p != q
      modifies `fn, `jiffies, `ids
      ensures fn == old(fn)[p := old(fn)[q]][q := old(fn)[p]] && ids == old(ids)[p := old(ids)[q]][q := old(ids)[p]]
      ensures jiffies == old(jiffies)[p := old(jiffies)[q]][q := old(jiffies)[p] - old(jiffies)[q]]
    {
      jiffies := jiffies[p := jiffies[p] - jiffies[q]];
      var f := fn[p];
      fn := fn[p := fn[q]];
      fn := fn[q := f];
      ids := ids[p := ids[q]][q := ids[p]];
      var j := jiffies[p];
      jiffies := jiffies[p := jiffies[q]];
      jiffies := jiffies[q := j];
    }

    /** The free slot p becomes the first timer. */
    method Link(p: int, ticks: int, routine: int, ghost id: nat)
      requires Shape() && 0 <= p < TIME_REQUESTS && |fn| == TIME_REQUESTS && fn[p] == 0 && routine != 0
      modifies `fn, `jiffies, `next, `nextTimer, `ids, `slots
      ensures Shape() && List() == [Entry(routine, ticks, id)] + old(List()) && slots == [p] + old(slots)
              && nextTimer == p
    {
      fn := fn[p := routine];
      jiffies := jiffies[p := ticks];
      next := next[p := nextTimer];
      nextTimer := p;
      ids := ids[p := id];
      LinkShape(old(slots), old(fn), old(next), old(nextTimer), p, routine);
      slots := [p] + slots;
      hide InUse, Linked;
      LinkList(old(slots), old(fn), old(jiffies), old(ids), p, Entry(routine, ticks, id));
    }

    /** The walk of add_timer: the first timer, just linked, moves to its place. */
    method Settle(ghost list: seq<Entry>, ghost first: Entry)
      requires Shape() && List() == [first] + list
      modifies `fn, `jiffies, `ids
      ensures Shape() && List() == Insert(list, first)
    {
      hide InUse, Linked, Insert;
      HeadSlot(slots, next, nextTimer);
      var p := nextTimer;
      ghost var k, e := 0, first;
      assert list[..0] + [e] + list[0..] == [e] + list && list[..0] + Insert(list[0..], e) == Insert(list, e) by {
        assert list[0..] == list;
      }
      while next[p] != NULL && jiffies[next[p]] < jiffies[p]
        invariant Shape() && k <= |list| && |slots| == |list| + 1 && p == slots[k] && 0 <= p < TIME_REQUESTS == |next|
        invariant next[p] == NULL || 0 <= next[p] < TIME_REQUESTS
        invariant Bubbled(list, List(), e, k) && list[..k] + Insert(list[k..], e) == Insert(list, first)
        decreases |list| - k
      {
        NextSlot(slots, next, nextTimer, k);
        ghost var was := List();
        var q := next[p];
        assert was[k] == e && was[k + 1] == list[k];
        InsertMore(list, e, k);
        SwapList(slots, fn, jiffies, ids, nextTimer, next, k);
        SwapInUse(slots, fn, p, q);
        Swap(p, q);
        BubbleStep(list, was, e, k, List());
        e := e.(delta := e.delta - list[k].delta);
        k := k + 1;
        p := q;
        NextSlot(slots, next, nextTimer, k);
      }
      NextSlot(slots, next, nextTimer, k);
      assert List()[k] == e && (k < |list| ==> List()[k + 1] == list[k]);
      InsertDone(list, e, k);
    }

    method FreeSlot() returns (p: int)
      requires |fn| == TIME_REQUESTS && exists q :: 0 <= q < TIME_REQUESTS && fn[q] == 0
      ensures 0 <= p < TIME_REQUESTS && fn[p] == 0 && forall q :: 0 <= q < p ==> fn[q] != 0
    {
      p := 0;
      while fn[p] != 0
        invariant 0 <= p < TIME_REQUESTS && forall q :: 0 <= q < p ==> fn[q] != 0
        decreases TIME_REQUESTS - p
      {
        p := p + 1;
      }
    }

    /** add_timer.  (Without a free slot the source panics.) */
    method AddTimer(ticks: int, routine: int, ghost id: nat)
      requires Valid() && routine != 0 && Fresh(Clk(), Add(ticks, routine, id))
      requires ticks > 0 ==> |fn| == TIME_REQUESTS && exists p :: 0 <= p < TIME_REQUESTS && fn[p] == 0
      modifies this
      ensures Shape() && Inv(Clk()) && Clk() == Next(old(Clk()), Add(ticks, routine, id))
      ensures |slots| <= |old(slots)| + 1
    {
      ghost var list := List();
      NextKeeps(Clk(), Add(ticks, routine, id));
      ghost var c := Clk();
      assert Next(c, Add(ticks, routine, id)) == if ticks <= 0 then c.(fired := c.fired + [Firing(routine, id, c.now)])
                                                 else c.(list := Insert(c.list, Entry(routine, ticks, id)));
      hide Inv, Fresh, Linked, InUse, Insert, Entries, Next;
      if ticks <= 0 {
        fired := fired + [Firing(routine, id, now)];
        return;
      }
      var p := FreeSlot();
      Link(p, ticks, routine, id);
      Settle(list, Entry(routine, ticks, id));
    }

    /** The head is called and leaves the list; its slot is free again. */
    method Expire()
      requires Shape() && nextTimer != NULL
      modifies `fn, `nextTimer, `slots, `fired
      ensures Shape() && old(List()) != [] && List() == old(List())[1..]
      ensures fired == old(fired) + [Firing(old(List())[0].fn, old(List())[0].id, now)]
    {
      HeadIn(slots, next, nextTimer);
      TailShape(slots, fn, next, nextTimer);
      TailList(slots, fn, jiffies, ids, nextTimer, next);
      var f := fn[nextTimer];
      fired := fired + [Firing(f, ids[nextTimer], now)];
      fn := fn[nextTimer := 0];
      nextTimer := next[nextTimer];
      slots := slots[1..];
    }

    /** The timer part of do_timer; adds is what the routine that is called, if one
        is, asks of add_timer.  Never more than one timer is called in a tick. */
    method DoTimer(adds: seq<Request>)
      requires Valid() && |slots| + |adds| <= TIME_REQUESTS && Sound(Next(Clk(), Tick), Events(adds))
      requires forall i :: 0 <= i < |adds| ==> adds[i].fn != 0
      modifies this
      ensures Shape() && Inv(Clk()) && Clk() == Timed(old(Clk()), adds)
    {
      hide Inv, Linked, InUse, After, Sound, Entries, Next, Timed, Down, Counted;
      ghost var c := Clk();
      NextKeeps(c, Tick);
      TimedIs(c, adds);
      FirstSlot(slots, fn, jiffies, ids, next, nextTimer, now, fired);
      CountedIs(c, adds);
      now := now + 1;
      if nextTimer != NULL {
        jiffies := jiffies[nextTimer := jiffies[nextTimer] - 1];
        CallExpired(adds, c);
      }
    }

    /** The loop in do_timer. */
    method CallExpired(adds: seq<Request>, ghost c: Clock)
      requires Shape() && |slots| + |adds| <= TIME_REQUESTS && Counted(Clk(), c, adds)
      modifies this
      ensures Shape() && Inv(Clk()) && Clk() == Timed(c, adds)
    {
      NextKeeps(c, Tick);
      TimedIs(c, adds);
      HeadOf(slots, fn, jiffies, ids, next, nextTimer);
      hide Inv, Linked, InUse, After, Sound, Entries, Next, Timed;
      ghost var called := false;
      while nextTimer != NULL && jiffies[nextTimer] <= 0
        invariant Shape() && (nextTimer != NULL ==> 0 <= nextTimer < TIME_REQUESTS)
        invariant !called ==>
            nextTimer != NULL && jiffies[nextTimer] == c.list[0].delta - 1 && |slots| == |old(slots)|
            && Clk() == Down(c)
        invariant called ==> Inv(Clk()) && Clk() == Timed(c, adds) && (nextTimer == NULL || jiffies[nextTimer] >= 1)
        decreases !called
      {
        CallHead(adds, Next(c, Tick));
        called := true;
      }
    }

    /** One round of the loop in do_timer: the head is called and runs. */
    method CallHead(adds: seq<Request>, ghost c: Clock)
      requires Shape() && nextTimer != NULL && List() != [] && Inv(c) && Sound(c, Events(adds))
      requires c == Clock(now, List()[1..], fired + [Firing(List()[0].fn, List()[0].id, now)])
      requires |slots| + |adds| <= TIME_REQUESTS && forall i :: 0 <= i < |adds| ==> adds[i].fn != 0
      modifies this
      ensures Shape() && Inv(Clk()) && Clk() == After(c, Events(adds))
      ensures nextTimer != NULL ==> 0 <= nextTimer < TIME_REQUESTS && jiffies[nextTimer] >= 1
    {
      hide Inv, Linked, InUse, After, Sound, Entries;
      Expire();
      Calls(adds, c);
      if nextTimer != NULL {
        HeadIn(slots, next, nextTimer);
        InvWaits(Clk());
        HeadWaits(slots, fn, jiffies, ids, next, nextTimer);
      }
    }

    /** A timer routine calls add_timer. */
    method Calls(adds: seq<Request>, ghost c: Clock)
      requires Shape() && Inv(Clk()) && Clk() == c && Sound(c, Events(adds)) && |slots| + |adds| <= TIME_REQUESTS
      requires forall i :: 0 <= i < |adds| ==> adds[i].fn != 0
      modifies this
      ensures Shape() && Inv(Clk()) && Clk() == After(c, Events(adds))
    {
      for i := 0 to |adds|
        invariant Shape() && Inv(Clk()) && Sound(Clk(), Events(adds)[i..])
                  && After(Clk(), Events(adds)[i..]) == After(c, Events(adds))
        invariant |slots| + |adds| - i <= TIME_REQUESTS
      {
        assert Events(adds)[i..][0] == Events(adds)[i] && Events(adds)[i..][1..] == Events(adds)[i + 1..];
        RoomLeft(slots, fn);
        AddTimer(adds[i].ticks, adds[i].fn, adds[i].id);
      }
    }
  }

  lemma HeadIn(slots: seq<int>, next: seq<int>, head: int)
    requires Linked(slots, next, head) && head != NULL
    ensures slots != [] && head == slots[0] && 0 <= head < TIME_REQUESTS == |next|
  { }

  lemma FirstSlot(slots: seq<int>, fn: seq<int>, jiffies: seq<int>, ids: seq<nat>, next: seq<int>, head: int, now: nat,
                  fired: seq<Firing>)
    requires |fn| == |jiffies| == |ids| == TIME_REQUESTS && Linked(slots, next, head)
    ensures head == NULL ==> Entries(slots, fn, jiffies, ids) == []
    ensures head != NULL ==> 0 <= head < TIME_REQUESTS && Entries(slots, fn, jiffies, ids) != []
    ensures head != NULL ==>
      Clock(now + 1, Entries(slots, fn, jiffies[head := jiffies[head] - 1], ids),
            fired) == Down(Clock(now, Entries(slots, fn, jiffies, ids), fired))
  {
    if head != NULL { CountDown(slots, fn, jiffies, ids, next, head); }
  }

  lemma TailShape(slots: seq<int>, fn: seq<int>, next: seq<int>, head: int)
    requires Linked(slots, next, head) && InUse(slots, fn) && slots != []
    ensures 0 <= head < TIME_REQUESTS && Linked(slots[1..], next, next[head]) && InUse(slots[1..], fn[head := 0])
  {
    forall p | 0 <= p < TIME_REQUESTS ensures p in slots[1..] <==> p in slots && p != head {
      if p in slots && p != head {
        var i :| 0 <= i < |slots| && slots[i] == p;
        assert slots[1..][i - 1] == p;
      }
    }
    assert next[slots[0]] == At(slots, 1) == At(slots[1..], 0);
    forall i | 0 <= i < |slots[1..]|
      ensures next[slots[1..][i]] == At(slots[1..], i + 1)
    {
      assert slots[1..][i] == slots[i + 1];
    }
  }

  lemma TailList(slots: seq<int>, fn: seq<int>, jiffies: seq<int>, ids: seq<nat>, head: int, next: seq<int>)
    requires |fn| == |jiffies| == |ids| == TIME_REQUESTS && Linked(slots, next, head) && slots != []
    ensures 0 <= head < TIME_REQUESTS
            && Entries(slots[1..], fn[head := 0], jiffies, ids) == Entries(slots, fn, jiffies, ids)[1..]
    ensures Entries(slots, fn, jiffies, ids)[0] == Entry(fn[head], jiffies[head], ids[head])
  { }

  lemma CountDown(slots: seq<int>, fn: seq<int>, jiffies: seq<int>, ids: seq<nat>, next: seq<int>, head: int)
    requires |fn| == |jiffies| == |ids| == TIME_REQUESTS && Linked(slots, next, head) && slots != []
    ensures 0 <= head < TIME_REQUESTS
    ensures var was := Entries(slots, fn, jiffies, ids);
      && was[0] == Entry(fn[head], jiffies[head], ids[head])
      && Entries(slots, fn, jiffies[head := jiffies[head] - 1], ids) == [was[0].(delta := was[0].delta - 1)] + was[1..]
  {
    var was := Entries(slots, fn, jiffies, ids);
    var now := Entries(slots, fn, jiffies[head := jiffies[head] - 1], ids);
    forall i | 1 <= i < |slots| ensures now[i] == was[i] == was[1..][i - 1] { assert slots[i] != slots[0]; }
  }

  lemma InvWaits(c: Clock)
    requires Inv(c)
    ensures Waits(c.list)
  { }

  lemma HeadOf(slots: seq<int>, fn: seq<int>, jiffies: seq<int>, ids: seq<nat>, next: seq<int>, head: int)
    requires |fn| == |jiffies| == |ids| == TIME_REQUESTS && Linked(slots, next, head) && slots != []
    ensures 0 <= head < TIME_REQUESTS && jiffies[head] == Entries(slots, fn, jiffies, ids)[0].delta
  { }

  /** The tick counted, nothing called yet. */
  function Down(c: Clock): Clock
    requires c.list != []
  {
    Clock(c.now + 1, [c.list[0].(delta := c.list[0].delta - 1)] + c.list[1..], c.fired)
  }

  /** d is c with the tick counted, before anything is called. */
  ghost predicate Counted(d: Clock, c: Clock, adds: seq<Request>) {
    c.list != [] && d == Down(c) && Inv(c) && Sound(Next(c, Tick), Events(adds)) && forall i :: 0 <= i < |adds| ==>
         adds[i].fn != 0
  }

  lemma CountedIs(c: Clock, adds: seq<Request>)
    requires Inv(c) && Sound(Next(c, Tick), Events(adds)) && forall i :: 0 <= i < |adds| ==> adds[i].fn != 0
    ensures c.list != [] ==> Counted(Down(c), c, adds)
  { }

  /** A tick, and what the routine it calls adds. */
  function Timed(c: Clock, adds: seq<Request>): Clock
    requires Sound(Next(c, Tick), Events(adds))
  {
    var c1 := Next(c, Tick);
    if |c1.fired| > |c.fired| then After(c1, Events(adds)) else c1
  }

  lemma TimedIs(c: Clock, adds: seq<Request>)
    requires Inv(c) && Sound(Next(c, Tick), Events(adds))
    ensures c.list == [] ==> Timed(c, adds) == Next(c, Tick) == c.(now := c.now + 1)
    ensures c.list != [] ==> c.list[0].delta >= 1
    ensures c.list != [] && c.list[0].delta > 1 ==> Timed(c, adds) == Next(c, Tick) == Down(c)
    ensures c.list != [] && c.list[0].delta == 1 ==>
      && Timed(c, adds) == After(Next(c, Tick), Events(adds))
      && Next(c, Tick) == Clock(c.now + 1, c.list[1..], c.fired + [Firing(c.list[0].fn, c.list[0].id, c.now + 1)])
  { }

  /** In good order the head waits at least a tick. */
  lemma HeadWaits(slots: seq<int>, fn: seq<int>, jiffies: seq<int>, ids: seq<nat>, next: seq<int>, head: int)
    requires |fn| == |jiffies| == |ids| == TIME_REQUESTS && Linked(slots, next, head) && slots != []
    requires Waits(Entries(slots, fn, jiffies, ids))
    ensures 0 <= head < TIME_REQUESTS && jiffies[head] >= 1
  { }

  /** Fewer timers than slots: one slot is free. */
  lemma RoomLeft(slots: seq<int>, fn: seq<int>)
    requires InUse(slots, fn) && |slots| < TIME_REQUESTS
    ensures exists p :: 0 <= p < TIME_REQUESTS && fn[p] == 0
  {
    if forall p :: 0 <= p < TIME_REQUESTS ==> fn[p] != 0 {
      Pigeons(slots, TIME_REQUESTS);
    }
  }

  lemma {:induction false} Pigeons(slots: seq<int>, n: nat)
    requires forall p :: 0 <= p < n ==> p in slots
    ensures |slots| >= n
  {
    if n > 0 {
      assert n - 1 in slots;
      var i :| 0 <= i < |slots| && slots[i] == n - 1;
      var rest := slots[..i] + slots[i + 1..];
      forall p | 0 <= p < n - 1 ensures p in rest {
        assert p in slots;
        var j :| 0 <= j < |slots| && slots[j] == p;
        assert rest[if j < i then j else j - 1] == p;
      }
      Pigeons(rest, n - 1);
    }
  }

  lemma HeadSlot(slots: seq<int>, next: seq<int>, head: int)
    requires Linked(slots, next, head) && slots != []
    ensures head == slots[0] && 0 <= head < TIME_REQUESTS == |next|
            && (next[head] == NULL || 0 <= next[head] < TIME_REQUESTS)
  {
    NextSlot(slots, next, head, 0);
  }

  lemma LinkShape(slots: seq<int>, fn: seq<int>, next: seq<int>, head: int, p: int, routine: int)
    requires InUse(slots, fn) && Linked(slots, next, head) && 0 <= p < TIME_REQUESTS && fn[p] == 0 && routine != 0
    ensures p !in slots && InUse([p] + slots, fn[p := routine]) && Linked([p] + slots, next[p := head], p)
  {
    var slots' := [p] + slots;
    var next' := next[p := head];
    forall i | 0 <= i < |slots'| ensures 0 <= slots'[i] < TIME_REQUESTS && next'[slots'[i]] == At(slots', i + 1) {
      if i > 0 { assert slots'[i] == slots[i - 1] && slots[i - 1] in slots; }
    }
  }

  lemma LinkList(slots: seq<int>, fn: seq<int>, jiffies: seq<int>, ids: seq<nat>, p: int, e: Entry)
    requires |fn| == |jiffies| == |ids| == TIME_REQUESTS && forall i :: 0 <= i < |slots| ==>
        0 <= slots[i] < TIME_REQUESTS
    requires 0 <= p < TIME_REQUESTS && p !in slots
    ensures Entries([p] + slots, fn[p := e.fn], jiffies[p := e.delta], ids[p := e.id])
            == [e] + Entries(slots, fn, jiffies, ids)
  {
    forall i | 0 <= i < |slots| ensures slots[i] != p { assert slots[i] in slots; }
  }

  lemma NextSlot(slots: seq<int>, next: seq<int>, head: int, k: nat)
    requires Linked(slots, next, head) && k < |slots|
    ensures 0 <= slots[k] < TIME_REQUESTS == |next| && next[slots[k]] == At(slots, k + 1)
    ensures k + 1 < |slots| ==>
        0 <= slots[k + 1] < TIME_REQUESTS && slots[k + 1] != slots[k] && slots[k] in slots && slots[k + 1] in slots
    ensures next[slots[k]] == NULL <==> k + 1 == |slots|
  { }

  lemma SwapInUse(slots: seq<int>, fn: seq<int>, p: int, q: int)
    requires InUse(slots, fn) && p in slots && q in slots && 0 <= p < TIME_REQUESTS && 0 <= q < TIME_REQUESTS
    ensures InUse(slots, fn[p := fn[q]][q := fn[p]])
  { }

  lemma SwapList(slots: seq<int>, fn: seq<int>, jiffies: seq<int>, ids: seq<nat>, head: int, next: seq<int>, k: nat)
    requires |fn| == |jiffies| == |ids| == TIME_REQUESTS && Linked(slots, next, head) && k + 1 < |slots|
    ensures var p := slots[k]; var q := slots[k + 1]; var was := Entries(slots, fn, jiffies, ids);
      var now := Entries(slots, fn[p := fn[q]][q := fn[p]], jiffies[p := jiffies[q]][q := jiffies[p] - jiffies[q]],
                         ids[p := ids[q]][q := ids[p]]);
      && now[k] == was[k + 1] && now[k + 1] == was[k].(delta := was[k].delta - was[k + 1].delta)
      && forall j :: 0 <= j < |now| && j != k && j != k + 1 ==> now[j] == was[j]
  { }
}
