/** kernel/sched.c: schedule(), the counters that do_timer runs down, and sys_nice. */
module Scheduling {
  const NR_TASKS: int := 64

  /** One entry of task[]. */
  datatype Task = Free | Task(running: bool, counter: nat, priority: int)

  datatype State = State(task: seq<Task>, current: int)

  /** What happens to the running task and the others.  A user tick is one that
      finds the processor in user mode. */
  datatype Event =
    | UserTick
    | KernelTick
    | Sleep
    | Yield
    | Wake(i: int)
    | Nice(increment: int)
    | Fork(i: int)
    | Reap(i: int)

  ghost predicate Good(t: Task) { t.Task? ==> t.priority >= 1 }

  ghost predicate Inv(s: State) {
    && |s.task| == NR_TASKS && 0 <= s.current < NR_TASKS && s.task[s.current].Task? && s.task[0].Task?
    && forall i :: 0 <= i < NR_TASKS ==> Good(s.task[i])
  }

  function Running(task: seq<Task>, i: int): bool
    requires 0 <= i < |task|
  { task[i].Task? && task[i].running }

  datatype Choice = Choice(c: int, next: int)

  /** The scan of schedule() over task[63] down to task[i]: the first task of
      greatest counter, or task 0 and -1. */
  function Best(task: seq<Task>, i: int): Choice
    requires 1 <= i <= |task|
    decreases |task| - i
  {
    if i == |task| then Choice(-1, 0)
    else
      var rest := Best(task, i + 1);
      if Running(task, i) && task[i].counter > rest.c then Choice(task[i].counter, i) else rest
  }

  lemma {:induction false} BestIs(task: seq<Task>, i: int)
    requires 1 <= i <= |task|
    ensures var b := Best(task, i);
      && (forall j :: i <= j < |task| && Running(task, j) ==> task[j].counter <= b.c)
      && (if b.c < 0 then b == Choice(-1, 0)
          else i <= b.next < |task| && Running(task, b.next) && task[b.next].counter == b.c)
      && (forall j :: i <= j < |task| && j > b.next && Running(task, j) ==> b.c >= 0 && task[j].counter < b.c)
    decreases |task| - i
  {
    if i < |task| { BestIs(task, i + 1); }
  }

  /** The recomputation: half of what is left and the priority, task 0 excepted. */
  function Refilled(t: Task): Task {
    if t.Task? then t.(counter := t.counter / 2 + if t.priority >= 0 then t.priority else 0) else t
  }

  function Refill(task: seq<Task>): (r: seq<Task>)
    ensures |r| == |task| && forall i :: 0 <= i < |task| ==> r[i] == if i == 0 then task[i] else Refilled(task[i])
  {
    seq(|task|, i requires 0 <= i < |task| => if i == 0 then task[i] else Refilled(task[i]))
  }

  /** schedule(): whether it had to refill, and its result. */
  predicate Refills(task: seq<Task>)
    requires |task| >= 1
  { Best(task, 1).c == 0 }

  function Scheduled(s: State): State
    requires |s.task| >= 1
  {
    if Refills(s.task) then State(Refill(s.task), Best(Refill(s.task), 1).next) else s.(current := Best(s.task, 1).next)
  }

  ghost predicate Idle(task: seq<Task>) { forall j :: 1 <= j < |task| ==> !Running(task, j) }

  /** The running task can run, has ticks left, no other has more, and none further
      down the table as many. */
  ghost predicate Greatest(s: State) {
    && 1 <= s.current < |s.task| && Running(s.task, s.current) && s.task[s.current].counter > 0
    && (forall j :: 1 <= j < |s.task| && Running(s.task, j) ==> s.task[j].counter <= s.task[s.current].counter)
    && forall j :: s.current < j < |s.task| && Running(s.task, j) ==> s.task[j].counter < s.task[s.current].counter
  }

  /** Two passes are enough, and the choice is the last runnable task of greatest
      counter, or task 0 when nothing else can run. */
  lemma ScheduledIs(s: State)
    requires Inv(s)
    ensures Inv(Scheduled(s)) && (Refills(s.task) ==> !Refills(Refill(s.task)))
    ensures if Idle(s.task) then Scheduled(s) == s.(current := 0) else Greatest(Scheduled(s))
    ensures Refills(s.task) ==> forall j :: 1 <= j < NR_TASKS && Running(s.task, j) ==> s.task[j].counter == 0
  {
    BestIs(s.task, 1);
    if Refills(s.task) {
      var r := Refill(s.task);
      BestIs(r, 1);
      var n := Best(s.task, 1).next;
      assert Running(s.task, n) && Running(r, n) && Good(s.task[n]);
      assert r[n].counter > 0;
      forall j | 0 <= j < NR_TASKS ensures Good(r[j]) { assert Good(s.task[j]); }
    }
  }

  predicate Legal(s: State, ev: Event)
    requires |s.task| == NR_TASKS && 0 <= s.current < NR_TASKS
  {
    match ev
    case Sleep => s.current != 0
    case Wake(i) => 0 <= i < NR_TASKS && s.task[i].Task?
    case Fork(i) => 1 <= i < NR_TASKS && s.task[i].Free?
    case Reap(i) => 1 <= i < NR_TASKS && i != s.current && s.task[i].Task? && !s.task[i].running
    case _ => true
  }

  /** do_timer's last lines: the counter goes down to 0, never below. */
  function Ticked(s: State): State
    requires 0 <= s.current < |s.task| && s.task[s.current].Task?
  {
    var t := s.task[s.current];
    s.(task := s.task[s.current := t.(counter := if t.counter > 0 then t.counter - 1 else 0)])
  }

  function Next(s: State, ev: Event): State
    requires |s.task| == NR_TASKS && 0 <= s.current < NR_TASKS && s.task[s.current].Task?
  {
    if !Legal(s, ev) then s else
      match ev
      case UserTick => if s.task[s.current].counter > 1 then Ticked(s) else Scheduled(Ticked(s))
      case KernelTick => Ticked(s)
      case Sleep => Scheduled(s.(task := s.task[s.current := s.task[s.current].(running := false)]))
      case Yield => Scheduled(s)
      case Wake(i) => s.(task := s.task[i := s.task[i].(running := true)])
      case Nice(increment) =>
        var t := s.task[s.current];
        if t.priority - increment > 0 then s.(task := s.task[s.current := t.(priority := t.priority - increment)])
        else s
      case Fork(i) =>
        var p := s.task[s.current].priority;
        s.(task := s.task[i := Task(true, if p >= 0 then p else 0, p)])
      case Reap(i) => s.(task := s.task[i := Free])
  }

  /** The state schedule() finds in this event, if the event calls it. */
  function Calling(s: State, ev: Event): State
    requires |s.task| == NR_TASKS && 0 <= s.current < NR_TASKS && s.task[s.current].Task?
  {
    match ev
    case UserTick => Ticked(s)
    case Sleep => s.(task := s.task[s.current := s.task[s.current].(running := false)])
    case _ => s
  }

  predicate CallsSchedule(s: State, ev: Event)
    requires |s.task| == NR_TASKS && 0 <= s.current < NR_TASKS && s.task[s.current].Task?
  {
    Legal(s, ev) && match ev
      case UserTick => s.task[s.current].counter <= 1
      case Sleep => true
      case Yield => true
      case _ => false
  }

  lemma NextKeeps(s: State, ev: Event)
    requires Inv(s)
    ensures Inv(Next(s, ev))
    ensures CallsSchedule(s, ev) ==> Inv(Calling(s, ev)) && Next(s, ev) == Scheduled(Calling(s, ev))
  {
    if CallsSchedule(s, ev) {
      CallingKeeps(s, ev);
      ScheduledIs(Calling(s, ev));
      hide Inv;
    } else {
      assert Good(s.task[s.current]);
    }
  }

  lemma CallingKeeps(s: State, ev: Event)
    requires Inv(s)
    ensures Inv(Calling(s, ev))
  {
    forall i | 0 <= i < NR_TASKS ensures Good(Calling(s, ev).task[i]) { assert Good(s.task[i]); }
  }

  /** At fixed priorities no counter reaches twice the priority. */
  ghost predicate Below(t: Task) { t.Task? ==> t.counter < 2 * t.priority }

  ghost predicate Bounded(task: seq<Task>) { forall i :: 0 <= i < |task| ==> Below(task[i]) }

  lemma RefillBelow(t: Task)
    requires Good(t) && Below(t)
    ensures Below(Refilled(t)) && Good(Refilled(t)) && (t.Task? ==> Refilled(t).counter >= t.priority)
  { }

  lemma RefillBounded(task: seq<Task>)
    requires Bounded(task) && forall i :: 0 <= i < |task| ==> Good(task[i])
    ensures Bounded(Refill(task))
  {
    forall i | 0 <= i < |task| ensures Below(Refill(task)[i]) {
      assert Below(task[i]) && Good(task[i]);
      RefillBelow(task[i]);
    }
  }

  lemma BoundedKeeps(s: State, ev: Event)
    requires Inv(s) && Bounded(s.task) && !ev.Nice?
    ensures Bounded(Next(s, ev).task)
  {
    if CallsSchedule(s, ev) {
      CallingBounded(s, ev);
      CallingKeeps(s, ev);
      NextKeeps(s, ev);
      RefillBounded(Calling(s, ev).task);
    } else {
      assert Good(s.task[s.current]) && Below(s.task[s.current]);
    }
  }

  lemma CallingBounded(s: State, ev: Event)
    requires Inv(s) && Bounded(s.task)
    ensures Bounded(Calling(s, ev).task)
  {
    forall i | 0 <= i < NR_TASKS ensures Below(Calling(s, ev).task[i]) { assert Below(s.task[i]); }
  }

  function Count(t: Task): nat { if t.Task? then t.counter else 0 }

  /** All ticks left in the counters. */
  function Sum(task: seq<Task>): nat { if task == [] then 0 else Count(task[0]) + Sum(task[1..]) }

  lemma {:induction false} SumUpdate(task: seq<Task>, i: nat, t: Task)
    requires i < |task|
    ensures Sum(task[i := t]) == Sum(task) - Count(task[i]) + Count(t) && Count(task[i]) <= Sum(task)
  {
    if i == 0 {
      assert task[i := t][1..] == task[1..];
    } else {
      assert task[i := t][1..] == task[1..][i - 1 := t];
      SumUpdate(task[1..], i - 1, t);
    }
  }

  /** Task t can run and is not chosen, through all of es. */
  predicate Waiting(s: State, t: int, es: seq<Event>)
    requires Inv(s) && 1 <= t < NR_TASKS
    decreases |es|
  {
    NextIsInv(s, es);
    Running(s.task, t) && s.current != t && (es == [] || Waiting(Next(s, es[0]), t, es[1..]))
  }

  lemma NextIsInv(s: State, es: seq<Event>)
    requires Inv(s)
    ensures es != [] ==> Inv(Next(s, es[0]))
  {
    if es != [] { NextKeeps(s, es[0]); }
  }

  /** No call of schedule() in es recomputes the counters. */
  predicate NoRefill(s: State, es: seq<Event>)
    requires Inv(s)
    decreases |es|
  {
    NextIsInv(s, es);
    es == [] || (!(CallsSchedule(s, es[0]) && Refills(Calling(s, es[0]).task)) && NoRefill(Next(s, es[0]), es[1..]))
  }

  function UserTicks(es: seq<Event>): nat {
    if es == [] then 0 else (if es[0].UserTick? then 1 else 0) + UserTicks(es[1..])
  }

  /** The ticks that a fork gives to the child. */
  function Gift(s: State, ev: Event): nat
    requires |s.task| == NR_TASKS && 0 <= s.current < NR_TASKS && s.task[s.current].Task?
  {
    if ev.Fork? && Legal(s, ev) && s.task[s.current].priority >= 0 then s.task[s.current].priority else 0
  }

  /** All that forks give away during es. */
  function Gifts(s: State, es: seq<Event>): nat
    requires Inv(s)
    decreases |es|
  {
    NextIsInv(s, es);
    if es == [] then 0 else Gift(s, es[0]) + Gifts(Next(s, es[0]), es[1..])
  }

  /** The ticks that can pass before t is chosen or the counters are refilled. */
  function Patience(s: State, t: int): int
    requires 0 <= s.current < |s.task| && s.task[s.current].Task? && 0 <= t < |s.task|
  {
    Sum(s.task) - Count(s.task[t]) + if s.task[s.current].counter == 0 then 1 else 0
  }

  /** While t waits every user tick uses up patience, and only forks add to it. */
  lemma PatienceDrops(s: State, t: int, ev: Event)
    requires Inv(s) && 1 <= t < NR_TASKS && Running(s.task, t) && s.current != t
    requires CallsSchedule(s, ev) ==> !Refills(Calling(s, ev).task)
    ensures Inv(Next(s, ev)) && Count(Next(s, ev).task[t]) == Count(s.task[t]) && Running(Next(s, ev).task, t)
    ensures Patience(Next(s, ev), t) + (if ev.UserTick? then 1 else 0) <= Patience(s, t) + Gift(s, ev)
    ensures Sum(Next(s, ev).task) <= Sum(s.task) + Gift(s, ev)
  {
    NextKeeps(s, ev);
    var c := s.task[s.current];
    SumUpdate(s.task, s.current, c.(counter := if c.counter > 0 then c.counter - 1 else 0));
    SumUpdate(s.task, s.current, c.(running := false));
    if CallsSchedule(s, ev) {
      ScheduledIs(Calling(s, ev));
      assert Running(Calling(s, ev).task, t);
    } else if Legal(s, ev) {
      match ev
      case Wake(i) => SumUpdate(s.task, i, s.task[i].(running := true));
      case Nice(increment) => SumUpdate(s.task, s.current, c.(priority := c.priority - increment));
      case Fork(i) => SumUpdate(s.task, i, Next(s, ev).task[i]);
      case Reap(i) => SumUpdate(s.task, i, Free);
      case _ =>
    }
  }

  lemma {:induction false} TicksWithinPatience(s: State, t: int, es: seq<Event>)
    requires Inv(s) && 1 <= t < NR_TASKS && Waiting(s, t, es) && NoRefill(s, es)
    ensures UserTicks(es) <= Patience(s, t) + Gifts(s, es)
    decreases |es|
  {
    SumUpdate(s.task, t, s.task[t]);
    if es != [] {
      PatienceDrops(s, t, es[0]);
      TicksWithinPatience(Next(s, es[0]), t, es[1..]);
    }
  }

  /** A waiting task that has ticks left keeps the counters from being refilled. */
  lemma {:induction false} NoRefillAhead(s: State, t: int, es: seq<Event>)
    requires Inv(s) && 1 <= t < NR_TASKS && Waiting(s, t, es) && Count(s.task[t]) > 0
    ensures NoRefill(s, es)
    decreases |es|
  {
    if es != [] {
      NextKeeps(s, es[0]);
      if CallsSchedule(s, es[0]) {
        ScheduledIs(Calling(s, es[0]));
        assert Running(Calling(s, es[0]).task, t) && Calling(s, es[0]).task[t] == s.task[t];
      }
      PatienceDrops(s, t, es[0]);
      NoRefillAhead(Next(s, es[0]), t, es[1..]);
    }
  }

  /** Fairness: a runnable task with ticks left is chosen before the user ticks
      outnumber the counters, with what forks add to them, and before any
      recomputation. */
  lemma ChosenInTime(s: State, t: int, es: seq<Event>)
    requires Inv(s) && 1 <= t < NR_TASKS && Waiting(s, t, es) && Count(s.task[t]) > 0
    ensures NoRefill(s, es) && UserTicks(es) <= Sum(s.task) + Gifts(s, es)
  {
    NoRefillAhead(s, t, es);
    TicksWithinPatience(s, t, es);
  }

  /** Through all of es no priority exceeds m. */
  predicate Modest(s: State, es: seq<Event>, m: nat)
    requires Inv(s)
    decreases |es|
  {
    NextIsInv(s, es);
    AllWithin(s.task, m) && (es == [] || Modest(Next(s, es[0]), es[1..], m))
  }

  predicate AllWithin(task: seq<Task>, m: nat) {
    forall i :: 0 <= i < |task| && task[i].Task? ==> task[i].priority <= m
  }

  lemma {:induction false} SumRefilled(task: seq<Task>, m: nat)
    requires AllWithin(task, m)
    ensures Sum(Refill(task)) <= Sum(task) + |task| * m
  {
    if task != [] {
      var more := Refill(task);
      RefilledFrom(task[1..], more[1..], m);
      assert |task| * m == (|task| - 1) * m + m;
    }
  }

  lemma {:induction false} RefilledFrom(task: seq<Task>, more: seq<Task>, m: nat)
    requires AllWithin(task, m) && |more| == |task| && forall i :: 0 <= i < |task| ==> more[i] == Refilled(task[i])
    ensures Sum(more) <= Sum(task) + |task| * m
  {
    if task != [] {
      RefilledFrom(task[1..], more[1..], m);
      assert |task| * m == (|task| - 1) * m + m;
    }
  }

  lemma CallingWithin(s: State, ev: Event, m: nat)
    requires Inv(s) && AllWithin(s.task, m)
    ensures AllWithin(Calling(s, ev).task, m) && Sum(Calling(s, ev).task) <= Sum(s.task)
  {
    var c := s.task[s.current];
    SumUpdate(s.task, s.current, c.(counter := if c.counter > 0 then c.counter - 1 else 0));
    SumUpdate(s.task, s.current, c.(running := false));
  }

  /** No starvation: a runnable task, ticks left or not, is chosen within twice all
      ticks there are, those from forks included, and 64 times the highest priority
      that occurs, whatever forks and nice calls there are. */
  lemma {:induction false} NoStarvation(s: State, t: int, es: seq<Event>, m: nat)
    requires Inv(s) && 1 <= t < NR_TASKS && Waiting(s, t, es) && Modest(s, es, m)
    ensures UserTicks(es) <= Patience(s, t) + 1 + Sum(s.task) + 2 * Gifts(s, es) + NR_TASKS * m
    ensures UserTicks(es) <= 2 * (Sum(s.task) + Gifts(s, es)) + 2 + NR_TASKS * m
    decreases |es|
  {
    SumUpdate(s.task, t, s.task[t]);
    if es != [] {
      NextKeeps(s, es[0]);
      var s' := Next(s, es[0]);
      if CallsSchedule(s, es[0]) && Refills(Calling(s, es[0]).task) {
        RefilledTicks(s, t, es[0]);
        ChosenInTime(s', t, es[1..]);
        CallingWithin(s, es[0], m);
        SumRefilled(Calling(s, es[0]).task, m);
      } else {
        PatienceDrops(s, t, es[0]);
        NoStarvation(s', t, es[1..], m);
      }
    }
  }

  /** Without forks nothing is given away: starvation needs forks. */
  lemma {:induction false} NoGifts(s: State, es: seq<Event>)
    requires Inv(s) && NoFork(es)
    ensures Gifts(s, es) == 0
    decreases |es|
  {
    if es != [] {
      NextKeeps(s, es[0]);
      assert NoFork(es[1..]);
      NoGifts(Next(s, es[0]), es[1..]);
    }
  }

  predicate NoFork(es: seq<Event>) { forall i :: 0 <= i < |es| ==> !es[i].Fork? }

  /* ---- with forks a task can wait for ever ---- */

  /** Task 1 has one tick left; task i, which runs, has 15 and hands on 15. */
  function Chain(i: int): State {
    State(seq(NR_TASKS, k => if k == 0 then Task(true, 0, 15) else if k == 1 then Task(true, 1, 15)
                             else if k == i then Task(true, 15, 15) else Free), i)
  }

  /** It forks, uses one tick and exits; its child does the same. */
  function Generations(i: int, n: nat): seq<Event>
    decreases n
  {
    if n == 0 then [] else [Fork(5 - i)] + ([UserTick] + ([Sleep] + ([Reap(i)] + Generations(5 - i, n - 1))))
  }

  lemma OneGeneration(i: int)
    requires i == 2 || i == 3
    ensures Inv(Chain(i)) && Chain(i).current == i && Running(Chain(i).task, 1)
    ensures var s1 := Next(Chain(i), Fork(5 - i));
      && Inv(s1) && s1.current == i && Running(s1.task, 1)
      && var s2 := Next(s1, UserTick);
         && Inv(s2) && s2.current == i && Running(s2.task, 1)
         && var s3 := Next(s2, Sleep);
            Inv(s3) && s3.current == 5 - i && Running(s3.task, 1) && Next(s3, Reap(i)) == Chain(5 - i)
  {
    var s0, j := Chain(i), 5 - i;
    var s1 := Next(s0, Fork(j));
    NextKeeps(s0, Fork(j));
    var s2 := Next(s1, UserTick);
    NextKeeps(s1, UserTick);
    NextKeeps(s2, Sleep);
    var c := Calling(s2, Sleep);
    BestIs(c.task, 1);
    assert Running(c.task, j) && c.task[j].counter == 15;
    var s3 := Next(s2, Sleep);
    assert s3 == c.(current := j);
    assert Next(s3, Reap(i)).task == Chain(j).task;
  }

  /** Task 1 can run and is not chosen for n user ticks, whatever n is. */
  lemma {:induction false} ForksStarve(i: int, n: nat)
    requires i == 2 || i == 3
    ensures Inv(Chain(i)) && Waiting(Chain(i), 1, Generations(i, n)) && UserTicks(Generations(i, n)) == n
    decreases n
  {
    OneGeneration(i);
    if n > 0 {
      ForksStarve(5 - i, n - 1);
      FourMore(i, Generations(5 - i, n - 1));
    }
  }

  lemma OneMore(s: State, ev: Event, es: seq<Event>)
    requires Inv(s) && Running(s.task, 1) && s.current != 1 && Inv(Next(s, ev)) && Waiting(Next(s, ev), 1, es)
    ensures Waiting(s, 1, [ev] + es) && UserTicks([ev] + es) == UserTicks(es) + if ev.UserTick? then 1 else 0
  {
    assert ([ev] + es)[1..] == es;
  }

  lemma FourMore(i: int, es: seq<Event>)
    requires (i == 2 || i == 3) && Inv(Chain(5 - i)) && Waiting(Chain(5 - i), 1, es)
    ensures var all := [Fork(5 - i)] + ([UserTick] + ([Sleep] + ([Reap(i)] + es)));
      Inv(Chain(i)) && Waiting(Chain(i), 1, all) && UserTicks(all) == 1 + UserTicks(es)
  {
    hide Inv, Next, Chain, Waiting, UserTicks;
    OneGeneration(i);
    var s1 := Next(Chain(i), Fork(5 - i));
    var s2 := Next(s1, UserTick);
    var s3 := Next(s2, Sleep);
    OneMore(s3, Reap(i), es);
    OneMore(s2, Sleep, [Reap(i)] + es);
    OneMore(s1, UserTick, [Sleep] + ([Reap(i)] + es));
    OneMore(Chain(i), Fork(5 - i), [UserTick] + ([Sleep] + ([Reap(i)] + es)));
  }

  ghost predicate Low(t: Task, m: nat) { Below(t) && (t.Task? ==> t.priority <= m) }

  ghost predicate Capped(task: seq<Task>, m: nat) { forall i :: 0 <= i < |task| ==> Low(task[i], m) }

  lemma CappedKeeps(s: State, ev: Event, m: nat)
    requires Inv(s) && Capped(s.task, m) && !ev.Nice?
    ensures Capped(Next(s, ev).task, m)
  {
    if CallsSchedule(s, ev) {
      forall i | 0 <= i < NR_TASKS ensures Low(Calling(s, ev).task[i], m) { assert Low(s.task[i], m); }
      CallingKeeps(s, ev);
      NextKeeps(s, ev);
      forall i | 0 <= i < NR_TASKS ensures Low(Refill(Calling(s, ev).task)[i], m) {
        assert Low(Calling(s, ev).task[i], m) && Good(Calling(s, ev).task[i]);
        RefillBelow(Calling(s, ev).task[i]);
      }
    } else {
      assert Good(s.task[s.current]) && Low(s.task[s.current], m);
    }
  }

  lemma {:induction false} SumCapped(task: seq<Task>, m: nat)
    requires Capped(task, m)
    ensures Sum(task) <= |task| * (2 * m)
  {
    if task != [] {
      assert Low(task[0], m);
      forall i | 0 <= i < |task[1..]| ensures Low(task[1..][i], m) { assert Low(task[i + 1], m); }
      SumCapped(task[1..], m);
      assert |task| * (2 * m) == (|task| - 1) * (2 * m) + 2 * m;
    }
  }

  predicate NoNice(es: seq<Event>) { forall i :: 0 <= i < |es| ==> !es[i].Nice? }

  /** At fixed priorities up to m, within Sum + 128*m + 2 user ticks. */
  lemma {:induction false} NoStarvationFixed(s: State, t: int, es: seq<Event>, m: nat)
    requires Inv(s) && 1 <= t < NR_TASKS && Waiting(s, t, es) && Capped(s.task, m) && NoNice(es)
    ensures UserTicks(es) <= Patience(s, t) + 1 + NR_TASKS * (2 * m) + Gifts(s, es)
    ensures UserTicks(es) <= Sum(s.task) + 2 + NR_TASKS * (2 * m) + Gifts(s, es)
    decreases |es|
  {
    SumUpdate(s.task, t, s.task[t]);
    if es != [] {
      NextKeeps(s, es[0]);
      CappedKeeps(s, es[0], m);
      var s' := Next(s, es[0]);
      assert NoNice(es[1..]);
      if CallsSchedule(s, es[0]) && Refills(Calling(s, es[0]).task) {
        RefilledTicks(s, t, es[0]);
        ChosenInTime(s', t, es[1..]);
        SumCapped(s'.task, m);
      } else {
        PatienceDrops(s, t, es[0]);
        NoStarvationFixed(s', t, es[1..], m);
      }
    }
  }

  lemma RefilledTicks(s: State, t: int, ev: Event)
    requires Inv(s) && 1 <= t < NR_TASKS && Running(s.task, t) && CallsSchedule(s, ev) && Refills(Calling(s, ev).task)
             && s.current != t
    ensures Count(Next(s, ev).task[t]) > 0
  {
    CallingKeeps(s, ev);
    NextKeeps(s, ev);
    assert Calling(s, ev).task[t] == s.task[t] && Good(s.task[t]);
  }

  class Scheduler {
    var task: seq<Task>
    var current: int

    ghost function St(): State reads this { State(task, current) }

    /** init_task in slot 0. */
    constructor (priority: nat)
      requires priority >= 1
      ensures Inv(St()) && Bounded(task) && task[0] == Task(true, priority, priority) && current == 0
    {
      task := seq(NR_TASKS, i => if i == 0 then Task(true, priority, priority) else Free);
      current := 0;
    }

    method Schedule()
      requires Inv(St())
      modifies this
      ensures Inv(St()) && St() == Scheduled(old(St()))
    {
      ScheduledIs(St());
      ghost var start := task;
      ghost var refilled := false;
      var c, next := -1, 0;
      while true
        invariant current == old(current) && |task| == NR_TASKS && Inv(St())
        invariant task == if refilled then Refill(start) else start
        invariant refilled ==> Refills(start)
        decreases !refilled
      {
        c, next := Scan();
        if c != 0 { break; }
        Recompute();
        refilled := true;
      }
      current := next;
    }

    method Scan() returns (c: int, next: int)
      requires |task| == NR_TASKS
      ensures Choice(c, next) == Best(task, 1)
    {
      c, next := -1, 0;
      var i := NR_TASKS;
      while i > 1
        invariant 1 <= i <= NR_TASKS && Choice(c, next) == Best(task, i)
      {
        i := i - 1;
        if task[i].Task? && task[i].running && task[i].counter > c {
          c, next := task[i].counter, i;
        }
      }
    }

    method Recompute()
      requires |task| == NR_TASKS && forall i :: 0 <= i < NR_TASKS ==> Good(task[i])
      modifies `task
      ensures task == Refill(old(task))
    {
      ghost var start := task;
      var i := NR_TASKS - 1;
      while i > 0
        invariant 0 <= i < NR_TASKS && |task| == NR_TASKS
        invariant forall j :: 0 <= j < NR_TASKS ==> task[j] == if j <= i then start[j] else Refilled(start[j])
      {
        if task[i].Task? {
          assert Good(start[i]);
          task := task[i := task[i].(counter := task[i].counter / 2 + task[i].priority)];
        }
        i := i - 1;
      }
    }

    /** The counter part of do_timer; cpl says that user code was running. */
    method DoTimer(cpl: bool)
      requires Inv(St())
      modifies this
      ensures Inv(St()) && St() == Next(old(St()), if cpl then UserTick else KernelTick)
    {
      NextKeeps(St(), if cpl then UserTick else KernelTick);
      CallingKeeps(St(), UserTick);
      var left := task[current].counter - 1;
      task := task[current := task[current].(counter := if left > 0 then left else 0)];
      if left > 0 { return; }
      if !cpl { return; }
      Schedule();
    }

    method SysNice(increment: int)
      requires Inv(St())
      modifies `task
      ensures Inv(St()) && St() == Next(old(St()), Nice(increment))
    {
      NextKeeps(St(), Nice(increment));
      if task[current].priority - increment > 0 {
        task := task[current := task[current].(priority := task[current].priority - increment)];
      }
    }
  }
}
