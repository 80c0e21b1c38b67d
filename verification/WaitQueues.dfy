/** kernel/sched.c: sleep_on and wake_up.  A wait queue is a head pointer; the
    rest of it is threaded through the `tmp` variables on the stacks of the
    sleeping tasks.  Tasks are numbers below NR_TASKS, NULL is no task. */
module WaitQueues {
  import opened Sequences

  const NR_TASKS: int := 64

  /** head[q] is the queue's pointer; asleep[t] says that the state of task t is
      TASK_UNINTERRUPTIBLE; tmp[t] is the saved pointer of a task inside sleep_on. */
  datatype State = State(head: seq<int>, asleep: seq<bool>, tmp: map<int, int>)

  datatype Op = SleepOn(t: int, q: int) | WakeUp(q: int) | Resume(t: int)

  /** A task other than 0 that runs outside sleep_on may call it; a task inside
      sleep_on goes on when it is runnable. */
  predicate Enabled(s: State, op: Op) {
    match op
    case SleepOn(t, q) => 0 < t < |s.asleep| && !s.asleep[t] && t !in s.tmp && 0 <= q < |s.head|
    case WakeUp(q) => 0 <= q < |s.head|
    case Resume(t) => 0 < t < |s.asleep| && !s.asleep[t] && t in s.tmp
  }

  function Wake(asleep: seq<bool>, t: int): seq<bool> { if 0 <= t < |asleep| then asleep[t := false] else asleep }

  function Next(s: State, op: Op): State {
    if !Enabled(s, op) then s else
      match op
      case SleepOn(t, q) => State(s.head[q := t], s.asleep[t := true], s.tmp[t := s.head[q]])
      case WakeUp(q) => State(s.head[q := NULL], Wake(s.asleep, s.head[q]), s.tmp)
      case Resume(t) => State(s.head, Wake(s.asleep, s.tmp[t]), s.tmp - {t})
  }

  /** Where a chain of sleepers starts: at a queue, or at a task that was woken and
      has yet to wake the one it remembers. */
  datatype Root = Queue(q: int) | Woken(t: int)

  ghost predicate Chain(s: State, r: Root, c: seq<int>) {
    && (forall i :: 0 <= i < |c| ==> 0 < c[i] < |s.asleep| && c[i] in s.tmp && s.tmp[c[i]] == At(c, i + 1))
    && (forall i, j :: 0 <= i < j < |c| ==> c[i] != c[j])
    && match r
       case Queue(q) => 0 <= q < |s.head| && s.head[q] == At(c, 0) && forall i :: 0 <= i < |c| ==> s.asleep[c[i]]
       case Woken(t) => c != [] && c[0] == t && !s.asleep[t] && forall i :: 1 <= i < |c| ==> s.asleep[c[i]]
  }

  /** The tasks of `inside` are each in exactly one chain. */
  ghost predicate Placed(inside: set<int>, chains: map<Root, seq<int>>, place: map<int, Root>) {
    && place.Keys == inside
    && (forall t :: t in place ==> place[t] in chains && t in chains[place[t]])
    && (forall r :: r in chains ==> HasRoot(chains[r], place, r))
  }

  ghost predicate HasRoot(c: seq<int>, place: map<int, Root>, r: Root) {
    forall t :: t in c ==> t in place && place[t] == r
  }

  ghost predicate Chains(s: State, chains: map<Root, seq<int>>) {
    && (forall q :: 0 <= q < |s.head| ==> Queue(q) in chains)
    && (forall r :: r in chains ==> Chain(s, r, chains[r]))
  }

  /** Every task inside sleep_on is in exactly one chain, and only those sleep. */
  ghost predicate Inv(s: State, chains: map<Root, seq<int>>, place: map<int, Root>) {
    && |s.asleep| == NR_TASKS && Chains(s, chains) && Placed(s.tmp.Keys, chains, place)
    && forall t :: 0 <= t < |s.asleep| && s.asleep[t] ==> t in s.tmp
  }

  lemma ChainFrame(s: State, s': State, r: Root, c: seq<int>)
    requires Chain(s, r, c) && |s'.asleep| == |s.asleep| && |s'.head| == |s.head|
    requires r.Queue? ==> s'.head[r.q] == s.head[r.q]
    requires forall t :: t in c ==> t in s'.tmp && s'.tmp[t] == s.tmp[t] && s'.asleep[t] == s.asleep[t]
    ensures Chain(s', r, c)
  {
    forall i | 0 <= i < |c|
      ensures c[i] in s'.tmp && s'.tmp[c[i]] == s.tmp[c[i]] && s'.asleep[c[i]] == s.asleep[c[i]]
    {
      assert c[i] in c;
    }
  }

  /** A step that touches only tasks of chain r0 keeps the other chains. */
  lemma OtherChains(s: State, s': State, chains: map<Root, seq<int>>, place: map<int, Root>, r0: Root,
                    touched: set<int>)
    requires Chains(s, chains) && Placed(s.tmp.Keys, chains, place) && |s'.asleep| == |s.asleep|
             && |s'.head| == |s.head|
    requires forall q :: 0 <= q < |s.head| && Queue(q) != r0 ==> s'.head[q] == s.head[q]
    requires forall t :: t in touched && t in place ==> place[t] == r0
    requires forall t :: t in s.tmp && t !in touched ==> t in s'.tmp && s'.tmp[t] == s.tmp[t]
    requires forall t :: 0 <= t < |s.asleep| && t !in touched ==> s'.asleep[t] == s.asleep[t]
    ensures forall r :: r in chains && r != r0 ==> Chain(s', r, chains[r])
  {
    forall r | r in chains && r != r0 ensures Chain(s', r, chains[r]) {
      assert HasRoot(chains[r], place, r) && Chain(s, r, chains[r]);
      forall t | t in chains[r] ensures t !in touched && 0 <= t < |s.asleep| && t in s.tmp { }
      ChainFrame(s, s', r, chains[r]);
    }
  }

  lemma SleepKeeps(s: State, chains: map<Root, seq<int>>, place: map<int, Root>, t: int, q: int)
    requires Inv(s, chains, place) && Enabled(s, SleepOn(t, q))
    ensures Queue(q) in chains
    ensures Inv(Next(s, SleepOn(t, q)), chains[Queue(q) := [t] + chains[Queue(q)]], place[t := Queue(q)])
  {
    var s' := Next(s, SleepOn(t, q));
    var c := chains[Queue(q)];
    var chains' := chains[Queue(q) := [t] + c];
    assert t !in place;
    assert HasRoot(c, place, Queue(q)) && Chain(s, Queue(q), c);
    OtherChains(s, s', chains, place, Queue(q), {t});
    PushChain(s, c, t, q);
    PushPlaced(s.tmp.Keys, chains, place, t, q);
    assert s'.tmp.Keys == s.tmp.Keys + {t};
    hide Chain, Placed;
    assert Chains(s', chains');
  }

  lemma PushChain(s: State, c: seq<int>, t: int, q: int)
    requires Enabled(s, SleepOn(t, q)) && Chain(s, Queue(q), c) && t !in c
    ensures Chain(Next(s, SleepOn(t, q)), Queue(q), [t] + c)
  {
    var s' := Next(s, SleepOn(t, q));
    var c' := [t] + c;
    forall i | 0 <= i < |c'| ensures c'[i] in s'.tmp && s'.tmp[c'[i]] == At(c', i + 1) && s'.asleep[c'[i]] {
      if i > 0 { assert c'[i] == c[i - 1] && c[i - 1] in c; assert At(c', i + 1) == At(c, i - 1 + 1); }
    }
  }

  lemma PushPlaced(inside: set<int>, chains: map<Root, seq<int>>, place: map<int, Root>, t: int, q: int)
    requires Placed(inside, chains, place) && t !in inside && Queue(q) in chains
    ensures Placed(inside + {t}, chains[Queue(q) := [t] + chains[Queue(q)]], place[t := Queue(q)])
  {
    var chains' := chains[Queue(q) := [t] + chains[Queue(q)]];
    forall r | r in chains'
      ensures HasRoot(chains'[r], place[t := Queue(q)], r)
    {
      assert HasRoot(chains[r], place, r);
    }
  }

  /** The whole chain of one root gets another root. */
  function Moved(place: map<int, Root>, from: Root, to: Root): map<int, Root> {
    map t | t in place :: if place[t] == from then to else place[t]
  }

  lemma WakeKeeps(s: State, chains: map<Root, seq<int>>, place: map<int, Root>, q: int)
    requires Inv(s, chains, place) && Enabled(s, WakeUp(q)) && s.head[q] != NULL
    ensures Queue(q) in chains && Woken(s.head[q]) !in chains
    ensures Inv(Next(s, WakeUp(q)), chains[Queue(q) := []][Woken(s.head[q]) := chains[Queue(q)]],
                Moved(place, Queue(q), Woken(s.head[q])))
  {
    hide Chains, Placed, Moved, Chain;
    QueueHead(s, chains, place, q);
    WakeChains(s, chains, place, q);
    WakePlaced(s.tmp.Keys, chains, place, q, s.head[q]);
    assert |Next(s, WakeUp(q)).asleep| == NR_TASKS && Next(s, WakeUp(q)).tmp == s.tmp;
  }

  lemma WakeChains(s: State, chains: map<Root, seq<int>>, place: map<int, Root>, q: int)
    requires Inv(s, chains, place) && Enabled(s, WakeUp(q)) && s.head[q] != NULL && Queue(q) in chains
    ensures Chains(Next(s, WakeUp(q)), chains[Queue(q) := []][Woken(s.head[q]) := chains[Queue(q)]])
  {
    hide Chain, Placed;
    QueueHead(s, chains, place, q);
    OtherChains(s, Next(s, WakeUp(q)), chains, place, Queue(q), {s.head[q]});
    WakeChain(s, chains[Queue(q)], q);
    var chains' := chains[Queue(q) := []][Woken(s.head[q]) := chains[Queue(q)]];
    forall r | r in chains' ensures Chain(Next(s, WakeUp(q)), r, chains'[r]) {
      if r != Queue(q) && r != Woken(s.head[q]) { assert r in chains && chains'[r] == chains[r]; }
    }
  }

  lemma QueueHead(s: State, chains: map<Root, seq<int>>, place: map<int, Root>, q: int)
    requires Inv(s, chains, place) && 0 <= q < |s.head| && s.head[q] != NULL
    ensures Queue(q) in chains && Chain(s, Queue(q), chains[Queue(q)]) && chains[Queue(q)] != []
            && chains[Queue(q)][0] == s.head[q]
    ensures s.head[q] in place && place[s.head[q]] == Queue(q) && 0 < s.head[q] < NR_TASKS
            && Woken(s.head[q]) !in chains
  {
    assert Chain(s, Queue(q), chains[Queue(q)]) && HasRoot(chains[Queue(q)], place, Queue(q));
    assert s.head[q] in chains[Queue(q)];
    NotWoken(s, chains, place, Queue(q), s.head[q]);
  }

  lemma NotWoken(s: State, chains: map<Root, seq<int>>, place: map<int, Root>, r: Root, t: int)
    requires Inv(s, chains, place) && r in chains && t in chains[r] && r != Woken(t)
    ensures Woken(t) !in chains
  {
    assert HasRoot(chains[r], place, r);
    StartsItself(s, chains, place, t);
  }

  lemma StartsItself(s: State, chains: map<Root, seq<int>>, place: map<int, Root>, t: int)
    requires Inv(s, chains, place)
    ensures Woken(t) in chains ==> t in place && place[t] == Woken(t)
  {
    if Woken(t) in chains {
      assert Chain(s, Woken(t), chains[Woken(t)]) && HasRoot(chains[Woken(t)], place, Woken(t));
      assert chains[Woken(t)][0] in chains[Woken(t)];
    }
  }

  lemma WakeChain(s: State, c: seq<int>, q: int)
    requires Enabled(s, WakeUp(q)) && Chain(s, Queue(q), c) && c != []
    ensures Chain(Next(s, WakeUp(q)), Woken(c[0]), c) && Chain(Next(s, WakeUp(q)), Queue(q), [])
  { }

  lemma WakePlaced(inside: set<int>, chains: map<Root, seq<int>>, place: map<int, Root>, q: int, h: int)
    requires Placed(inside, chains, place) && Queue(q) in chains && Woken(h) !in chains
    ensures Placed(inside, chains[Queue(q) := []][Woken(h) := chains[Queue(q)]], Moved(place, Queue(q), Woken(h)))
  {
    var chains' := chains[Queue(q) := []][Woken(h) := chains[Queue(q)]];
    var place' := Moved(place, Queue(q), Woken(h));
    assert place'.Keys == place.Keys;
    forall r | r in chains' ensures HasRoot(chains'[r], place', r) {
      if r == Woken(h) { assert HasRoot(chains[Queue(q)], place, Queue(q)); }
      else if r != Queue(q) { assert HasRoot(chains[r], place, r); }
    }
  }

  lemma WokenIsRoot(s: State, chains: map<Root, seq<int>>, place: map<int, Root>, t: int)
    requires Inv(s, chains, place) && t in s.tmp && 0 <= t < |s.asleep| && !s.asleep[t]
    ensures t in place && place[t] == Woken(t) && Woken(t) in chains && chains[Woken(t)] != []
            && chains[Woken(t)][0] == t
  {
    assert t in place;
    var r := place[t];
    assert Chain(s, r, chains[r]);
    var i :| 0 <= i < |chains[r]| && chains[r][i] == t;
  }

  /** The chains after t resumed and woke the task it remembered. */
  function Passed(chains: map<Root, seq<int>>, t: int, n: int): map<Root, seq<int>>
    requires Woken(t) in chains && chains[Woken(t)] != []
  {
    if n == NULL then chains - {Woken(t)} else (chains - {Woken(t)})[Woken(n) := chains[Woken(t)][1..]]
  }

  lemma ResumeKeeps(s: State, chains: map<Root, seq<int>>, place: map<int, Root>, t: int)
    requires Inv(s, chains, place) && Enabled(s, Resume(t))
    ensures Woken(t) in chains && chains[Woken(t)] != [] && (s.tmp[t] != NULL ==> Woken(s.tmp[t]) !in chains)
    ensures Inv(Next(s, Resume(t)), Passed(chains, t, s.tmp[t]), Moved(place - {t}, Woken(t), Woken(s.tmp[t])))
  {
    var n := s.tmp[t];
    WokenHead(s, chains, place, t);
    var c := chains[Woken(t)];
    ResumeChains(s, chains, place, t);
    ResumePlaced(s.tmp.Keys, chains, place, t, n);
    assert Next(s, Resume(t)).tmp.Keys == s.tmp.Keys - {t};
    hide Chains, Placed, Moved, Passed;
    assert |Next(s, Resume(t)).asleep| == NR_TASKS;
  }

  lemma ResumeChains(s: State, chains: map<Root, seq<int>>, place: map<int, Root>, t: int)
    requires Inv(s, chains, place) && Enabled(s, Resume(t)) && Woken(t) in chains && chains[Woken(t)] != []
    ensures Chains(Next(s, Resume(t)), Passed(chains, t, s.tmp[t]))
  {
    WokenHead(s, chains, place, t);
    ResumeTouches(s, chains, place, t);
    ResumeChain(s, chains[Woken(t)], t);
    hide Chain, Placed, Enabled;
    assert Next(s, Resume(t)).head == s.head;
  }

  lemma ResumeTouches(s: State, chains: map<Root, seq<int>>, place: map<int, Root>, t: int)
    requires Chains(s, chains) && Placed(s.tmp.Keys, chains, place) && Enabled(s, Resume(t))
    requires t in place && place[t] == Woken(t)
    requires s.tmp[t] != NULL ==> s.tmp[t] in place && place[s.tmp[t]] == Woken(t) && 0 < s.tmp[t] < NR_TASKS
    ensures forall r :: r in chains && r != Woken(t) ==> Chain(Next(s, Resume(t)), r, chains[r])
  {
    hide Chain, Placed;
    if s.tmp[t] == NULL {
      OtherChains(s, Next(s, Resume(t)), chains, place, Woken(t), {t});
    } else {
      OtherChains(s, Next(s, Resume(t)), chains, place, Woken(t), {t, s.tmp[t]});
    }
  }

  lemma WokenHead(s: State, chains: map<Root, seq<int>>, place: map<int, Root>, t: int)
    requires Inv(s, chains, place) && Enabled(s, Resume(t))
    ensures t in place && place[t] == Woken(t) && Woken(t) in chains && chains[Woken(t)] != []
    ensures var c := chains[Woken(t)];
      && Chain(s, Woken(t), c) && c[0] == t && (forall i :: 1 <= i < |c| ==> c[i] != t) && s.tmp[t] == At(c, 1)
      && (s.tmp[t] == NULL ==> c == [t])
      && (s.tmp[t] != NULL ==>
             s.tmp[t] in place && place[s.tmp[t]] == Woken(t) && 0 < s.tmp[t] < NR_TASKS && Woken(s.tmp[t]) !in chains)
  {
    WokenIsRoot(s, chains, place, t);
    var c := chains[Woken(t)];
    assert Chain(s, Woken(t), c) && HasRoot(c, place, Woken(t)) && s.tmp[c[0]] == At(c, 1);
    if s.tmp[t] != NULL {
      assert s.tmp[t] == c[1] && c[1] in c;
      NotWoken(s, chains, place, Woken(t), s.tmp[t]);
    }
  }

  lemma ResumeChain(s: State, c: seq<int>, t: int)
    requires Enabled(s, Resume(t)) && Chain(s, Woken(t), c)
    ensures if s.tmp[t] == NULL then c == [t] else Chain(Next(s, Resume(t)), Woken(s.tmp[t]), c[1..])
  {
    var s' := Next(s, Resume(t));
    var d := c[1..];
    assert s.tmp[c[0]] == At(c, 1);
    if s.tmp[t] != NULL {
      forall i | 0 <= i < |d| ensures d[i] in s'.tmp && s'.tmp[d[i]] == At(d, i + 1) && s'.asleep[d[i]] == (i > 0) {
        assert d[i] == c[i + 1] && At(d, i + 1) == At(c, i + 2);
      }
    }
  }

  lemma ResumePlaced(inside: set<int>, chains: map<Root, seq<int>>, place: map<int, Root>, t: int, n: int)
    requires Placed(inside, chains, place) && Woken(t) in chains && chains[Woken(t)] != [] && chains[Woken(t)][0] == t
    requires forall i :: 1 <= i < |chains[Woken(t)]| ==> chains[Woken(t)][i] != t
    requires if n == NULL then chains[Woken(t)] == [t] else Woken(n) !in chains
    ensures Placed(inside - {t}, Passed(chains, t, n), Moved(place - {t}, Woken(t), Woken(n)))
  {
    var c := chains[Woken(t)];
    var chains' := Passed(chains, t, n);
    var place' := Moved(place - {t}, Woken(t), Woken(n));
    assert HasRoot(c, place, Woken(t)) && t in c;
    assert place'.Keys == place.Keys - {t};
    forall r | r in chains' ensures HasRoot(chains'[r], place', r) {
      if r in chains && r != Woken(t) { assert HasRoot(chains[r], place, r); }
    }
    forall u | u in place' ensures place'[u] in chains' && u in chains'[place'[u]] {
      if place[u] == Woken(t) {
        var i :| 0 <= i < |c| && c[i] == u;
        assert c[1..][i - 1] == u;
      }
    }
  }

  /** What a step does to the chains: a sleeper goes in front of its queue; a
      wake-up hands the whole queue to its first task; a task that resumes hands
      the rest on; every other chain stays. */
  ghost predicate Follows(s: State, chains: map<Root, seq<int>>, op: Op, chains': map<Root, seq<int>>) {
    && (forall q :: 0 <= q < |s.head| ==>
           Queue(q) in chains && Queue(q) in chains' && chains'[Queue(q)] == Line(s, op, q, chains[Queue(q)]))
    && (forall t :: Woken(t) in chains && op != Resume(t) ==>
           Woken(t) in chains' && chains'[Woken(t)] == chains[Woken(t)])
    && (op.Resume? ==> HandsOn(chains, Woken(op.t), 1, chains'))
    && (op.WakeUp? && Enabled(s, op) ==> HandsOn(chains, Queue(op.q), 0, chains'))
  }

  /** The chain of r from place k on now has its first task as root. */
  ghost predicate HandsOn(chains: map<Root, seq<int>>, r: Root, k: nat, chains': map<Root, seq<int>>) {
    r in chains && k < |chains[r]| ==> Woken(chains[r][k]) in chains' && chains'[Woken(chains[r][k])] == chains[r][k..]
  }

  /** Every step keeps the chains in order. */
  lemma StepKeeps(s: State, chains: map<Root, seq<int>>, place: map<int, Root>, op: Op)
    returns (chains': map<Root, seq<int>>, place': map<int, Root>)
    requires Inv(s, chains, place)
    ensures Inv(Next(s, op), chains', place') && Follows(s, chains, op, chains')
  {
    chains', place' := chains, place;
    QueuesIn(s, chains, place);
    if !Enabled(s, op) {
      FollowsIdle(s, chains, place, op);
      return;
    }
    hide Inv, Follows, Moved, Chain;
    match op
    case SleepOn(t, q) =>
      SleepKeeps(s, chains, place, t, q);
      SleepFollows(s, chains, t, q);
      chains', place' := chains[Queue(q) := [t] + chains[Queue(q)]], place[t := Queue(q)];
    case WakeUp(q) =>
      if s.head[q] == NULL {
        NoneToWake(s, chains, place, q);
        assert Next(s, op) == s;
      } else {
        WakeKeeps(s, chains, place, q);
        QueueHead(s, chains, place, q);
        WakeFollows(s, chains, q);
        chains' := chains[Queue(q) := []][Woken(s.head[q]) := chains[Queue(q)]];
        place' := Moved(place, Queue(q), Woken(s.head[q]));
      }
    case Resume(t) =>
      ResumeKeeps(s, chains, place, t);
      WokenHead(s, chains, place, t);
      ResumeFollows(s, chains, t);
      chains', place' := Passed(chains, t, s.tmp[t]), Moved(place - {t}, Woken(t), Woken(s.tmp[t]));
  }

  lemma SleepFollows(s: State, chains: map<Root, seq<int>>, t: int, q: int)
    requires Enabled(s, SleepOn(t, q)) && forall g :: 0 <= g < |s.head| ==> Queue(g) in chains
    ensures Follows(s, chains, SleepOn(t, q), chains[Queue(q) := [t] + chains[Queue(q)]])
  { }

  lemma WakeFollows(s: State, chains: map<Root, seq<int>>, q: int)
    requires Enabled(s, WakeUp(q)) && forall g :: 0 <= g < |s.head| ==> Queue(g) in chains
    requires Woken(s.head[q]) !in chains && chains[Queue(q)] != [] && chains[Queue(q)][0] == s.head[q]
    ensures Follows(s, chains, WakeUp(q), chains[Queue(q) := []][Woken(s.head[q]) := chains[Queue(q)]])
  {
    assert chains[Queue(q)][0..] == chains[Queue(q)];
  }

  lemma ResumeFollows(s: State, chains: map<Root, seq<int>>, t: int)
    requires Enabled(s, Resume(t)) && forall g :: 0 <= g < |s.head| ==> Queue(g) in chains
    requires Woken(t) in chains && chains[Woken(t)] != [] && s.tmp[t] == At(chains[Woken(t)], 1)
    requires if s.tmp[t] == NULL then |chains[Woken(t)]| == 1 else Woken(s.tmp[t]) !in chains && |chains[Woken(t)]| > 1
    ensures Follows(s, chains, Resume(t), Passed(chains, t, s.tmp[t]))
  { }

  /** A task that may not resume heads no chain of woken tasks. */
  lemma FollowsIdle(s: State, chains: map<Root, seq<int>>, place: map<int, Root>, op: Op)
    requires Inv(s, chains, place) && !Enabled(s, op)
    ensures Follows(s, chains, op, chains)
  {
    forall t | Woken(t) in chains ensures Enabled(s, Resume(t)) {
      assert Chain(s, Woken(t), chains[Woken(t)]);
      assert 0 < chains[Woken(t)][0] < |s.asleep|;
    }
  }

  lemma QueuesIn(s: State, chains: map<Root, seq<int>>, place: map<int, Root>)
    requires Inv(s, chains, place)
    ensures forall q :: 0 <= q < |s.head| ==> Queue(q) in chains
  { }

  lemma NoneToWake(s: State, chains: map<Root, seq<int>>, place: map<int, Root>, q: int)
    requires Inv(s, chains, place) && 0 <= q < |s.head| && s.head[q] == NULL
    ensures Queue(q) in chains && chains[Queue(q)] == [] && Follows(s, chains, WakeUp(q), chains)
  {
    assert Chain(s, Queue(q), chains[Queue(q)]);
    assert forall i :: 0 <= i < |chains[Queue(q)]| ==> 0 < chains[Queue(q)][i];
  }

  /** The tasks waiting on q, latest first, after one more step. */
  function Line(s: State, op: Op, q: int, line: seq<int>): seq<int> {
    if Enabled(s, op) && op.SleepOn? && op.q == q then [op.t] + line
    else if op == WakeUp(q) then []
    else line
  }

  function Run(s: State, ops: seq<Op>): State
    decreases |ops|
  { if ops == [] then s else Run(Next(s, ops[0]), ops[1..]) }

  /** Who called sleep_on(q) since the last wake_up(q), latest first. */
  function Sleepers(s: State, ops: seq<Op>, q: int, line: seq<int>): seq<int>
    decreases |ops|
  {
    if ops == [] then line else Sleepers(Next(s, ops[0]), ops[1..], q, Line(s, ops[0], q, line))
  }

  /** How many tasks of line c, of which k had resumed, have resumed after ops. */
  function Resumed(c: seq<int>, k: nat, ops: seq<Op>): (j: nat)
    requires k <= |c|
    ensures k <= j <= |c|
    decreases |ops|
  {
    if ops == [] then k else Resumed(c, if k < |c| && ops[0] == Resume(c[k]) then k + 1 else k, ops[1..])
  }

  lemma {:induction false} RunKeeps(s: State, chains: map<Root, seq<int>>, place: map<int, Root>, ops: seq<Op>, q: int)
    returns (chains': map<Root, seq<int>>, place': map<int, Root>)
    requires Inv(s, chains, place) && 0 <= q < |s.head| && Queue(q) in chains
    ensures Inv(Run(s, ops), chains', place') && |Run(s, ops).head| == |s.head|
    ensures Queue(q) in chains' && chains'[Queue(q)] == Sleepers(s, ops, q, chains[Queue(q)])
    decreases |ops|
  {
    if ops == [] {
      chains', place' := chains, place;
    } else {
      chains', place' := StepKeeps(s, chains, place, ops[0]);
      chains', place' := RunKeeps(Next(s, ops[0]), chains', place', ops[1..], q);
    }
  }

  lemma {:induction false} ResumeInOrder(s: State, chains: map<Root, seq<int>>, place: map<int, Root>, c: seq<int>,
                                         k: nat, ops: seq<Op>)
    requires Inv(s, chains, place) && k <= |c| && (k < |c| ==> Woken(c[k]) in chains && chains[Woken(c[k])] == c[k..])
    ensures var j := Resumed(c, k, ops); j < |c| ==> Chain(Run(s, ops), Woken(c[j]), c[j..])
    decreases |ops|
  {
    hide Inv, Chain;
    if ops == [] {
      if k < |c| { RootChain(s, chains, place, Woken(c[k])); }
    } else {
      var chains', place' := StepKeeps(s, chains, place, ops[0]);
      if k < |c| && ops[0] == Resume(c[k]) {
        assert k + 1 < |c| ==> c[k..][1] == c[k + 1] && c[k..][1..] == c[k + 1..];
        ResumeInOrder(Next(s, ops[0]), chains', place', c, k + 1, ops[1..]);
      } else {
        ResumeInOrder(Next(s, ops[0]), chains', place', c, k, ops[1..]);
      }
    }
  }

  lemma RootChain(s: State, chains: map<Root, seq<int>>, place: map<int, Root>, r: Root)
    requires Inv(s, chains, place) && r in chains
    ensures Chain(s, r, chains[r])
  { }

  /** No lost sleepers: all tasks that called sleep_on(q) since the last wake_up(q)
      are woken by the next one, in turn: whatever happens afterwards, when j of
      them have resumed the next is runnable and the others follow behind it. */
  lemma NoLostSleepers(s: State, chains: map<Root, seq<int>>, place: map<int, Root>, before: seq<Op>, q: int,
                       after: seq<Op>)
    requires Inv(s, chains, place) && 0 <= q < |s.head| && Queue(q) in chains
    ensures var c := Sleepers(s, before, q, chains[Queue(q)]);
      var s' := Run(Next(Run(s, before), WakeUp(q)), after);
      var j := Resumed(c, 0, after);
      j < |c| ==> Chain(s', Woken(c[j]), c[j..])
  {
    var chains1, place1 := RunKeeps(s, chains, place, before, q);
    var s1 := Run(s, before);
    var c := Sleepers(s, before, q, chains[Queue(q)]);
    var chains2, place2 := StepKeeps(s1, chains1, place1, WakeUp(q));
    assert c != [] ==> c[0..] == c;
    ResumeInOrder(Next(s1, WakeUp(q)), chains2, place2, c, 0, after);
  }

  /** Where a pointer to a task can be: in a queue head or in a saved tmp. */
  datatype Pointer = Head(q: int) | Tmp(t: int)

  ghost function Pointers(s: State, t: int): set<Pointer> {
    (set q | 0 <= q < |s.head| && s.head[q] == t :: Head(q)) + (set u | u in s.tmp && s.tmp[u] == t :: Tmp(u))
  }

  /** Each sleeper is pointed to exactly once, and no pointer is left to a task
      that no longer sleeps. */
  lemma OnePointer(s: State, chains: map<Root, seq<int>>, place: map<int, Root>, t: int)
    requires Inv(s, chains, place) && 0 <= t < NR_TASKS
    ensures if s.asleep[t] then exists p :: Pointers(s, t) == {p} else Pointers(s, t) == {}
  {
    forall p | p in Pointers(s, t) ensures s.asleep[t] && t in place && p == PointerTo(chains, place, t) {
      PointedTo(s, chains, place, t, p);
    }
    if s.asleep[t] {
      HasPointer(s, chains, place, t);
      assert Pointers(s, t) == {PointerTo(chains, place, t)};
    }
  }

  ghost function IndexOf(c: seq<int>, t: int): (i: nat)
    requires t in c
    ensures i < |c| && c[i] == t
  {
    var i :| 0 <= i < |c| && c[i] == t; i
  }

  /** The pointer to t that its chain has. */
  ghost function PointerTo(chains: map<Root, seq<int>>, place: map<int, Root>, t: int): Pointer
    requires t in place && place[t] in chains && t in chains[place[t]]
  {
    var c := chains[place[t]];
    var i := IndexOf(c, t);
    if i > 0 then Tmp(c[i - 1]) else if place[t].Queue? then Head(place[t].q) else Head(NULL)
  }

  lemma HasPointer(s: State, chains: map<Root, seq<int>>, place: map<int, Root>, t: int)
    requires Inv(s, chains, place) && 0 <= t < |s.asleep| && s.asleep[t]
    ensures t in place && PointerTo(chains, place, t) in Pointers(s, t)
  {
    assert t in place;
    var c := chains[place[t]];
    assert Chain(s, place[t], c);
    var i := IndexOf(c, t);
    assert PointerTo(chains, place, t) == if i > 0 then Tmp(c[i - 1]) else if place[t].Queue? then Head(place[t].q)
                                          else Head(NULL);
    if i > 0 {
      assert s.tmp[c[i - 1]] == At(c, i);
      SavesIt(s, c[i - 1], t);
    } else {
      LeadsIt(s, place[t], c);
    }
  }

  lemma SavesIt(s: State, u: int, t: int)
    requires u in s.tmp && s.tmp[u] == t
    ensures Tmp(u) in Pointers(s, t)
  { }

  lemma LeadsIt(s: State, r: Root, c: seq<int>)
    requires Chain(s, r, c) && c != [] && 0 <= c[0] < |s.asleep| && s.asleep[c[0]]
    ensures r.Queue? && Head(r.q) in Pointers(s, c[0])
  { }

  lemma PointedTo(s: State, chains: map<Root, seq<int>>, place: map<int, Root>, t: int, p: Pointer)
    requires Inv(s, chains, place) && 0 <= t < |s.asleep| && p in Pointers(s, t)
    ensures s.asleep[t] && t in place && p == PointerTo(chains, place, t)
  {
    hide Chain, HasRoot, Placed, Chains, PointerTo;
    if p.Head? {
      HeadPoints(s, chains, place, t, p.q);
    } else {
      TmpPoints(s, chains, place, t, p.t);
    }
  }

  lemma HeadPoints(s: State, chains: map<Root, seq<int>>, place: map<int, Root>, t: int, q: int)
    requires Inv(s, chains, place) && 0 <= t < |s.asleep| && 0 <= q < |s.head| && s.head[q] == t
    ensures s.asleep[t] && t in place && Head(q) == PointerTo(chains, place, t)
  {
    assert Queue(q) in chains && Chain(s, Queue(q), chains[Queue(q)]);
    InChain(s, chains, place, Queue(q), 0);
  }

  lemma TmpPoints(s: State, chains: map<Root, seq<int>>, place: map<int, Root>, t: int, u: int)
    requires Inv(s, chains, place) && 0 <= t < |s.asleep| && u in s.tmp && s.tmp[u] == t
    ensures s.asleep[t] && t in place && Tmp(u) == PointerTo(chains, place, t)
  {
    hide Inv, IndexOf;
    SavedNext(s, chains, place, u);
    InChain(s, chains, place, place[u], IndexOf(chains[place[u]], u) + 1);
  }

  /** What a task saved is the next task of its chain, which sleeps. */
  lemma SavedNext(s: State, chains: map<Root, seq<int>>, place: map<int, Root>, u: int)
    requires Inv(s, chains, place) && u in s.tmp && s.tmp[u] >= 0
    ensures u in place && place[u] in chains && u in chains[place[u]]
            && IndexOf(chains[place[u]], u) < |chains[place[u]]|
    ensures var c := chains[place[u]]; var k := IndexOf(c, u) + 1;
      k < |c| && c[k] == s.tmp[u] && 0 < c[k] < |s.asleep| && s.asleep[c[k]]
  {
    assert Chain(s, place[u], chains[place[u]]);
    hide HasRoot, Placed, Chains;
  }

  /** Element k of a chain is in that chain only, and only there. */
  lemma InChain(s: State, chains: map<Root, seq<int>>, place: map<int, Root>, r: Root, k: nat)
    requires Inv(s, chains, place) && r in chains && k < |chains[r]|
    ensures chains[r][k] in place && place[chains[r][k]] == r && IndexOf(chains[r], chains[r][k]) == k
  {
    assert HasRoot(chains[r], place, r) && Chain(s, r, chains[r]);
    assert chains[r][k] in chains[r];
  }

  class WaitLists {
    var head: seq<int>
    var asleep: seq<bool>
    var tmp: map<int, int>
    ghost var chains: map<Root, seq<int>>
    ghost var place: map<int, Root>

    ghost function St(): State reads this { State(head, asleep, tmp) }

    ghost predicate Valid() reads this { Inv(St(), chains, place) }

    constructor (queues: nat)
      ensures Valid() && head == seq(queues, _ => NULL) && tmp == map[] && forall q :: 0 <= q < queues ==>
          Queue(q) in chains && chains[Queue(q)] == []
    {
      head := seq(queues, _ => NULL);
      asleep := seq(NR_TASKS, _ => false);
      tmp := map[];
      chains := map q | 0 <= q < queues :: Queue(q) := [];
      place := map[];
    }

    /** sleep_on by task t up to the call of schedule(). */
    method SleepOn(t: int, q: int)
      requires Valid() && 0 < t < NR_TASKS && |asleep| == NR_TASKS && !asleep[t] && t !in tmp && q < |head|
      modifies this
      ensures Valid() && St() == Next(old(St()), Op.SleepOn(t, q))
      ensures q >= 0 ==> t in tmp && asleep[t] && head[q] == t
    {
      hide Inv, Follows, Chain;
      if q < 0 { return; }
      ghost var s := St();
      chains, place := StepKeeps(s, chains, place, Op.SleepOn(t, q));
      tmp := tmp[t := head[q]];
      head := head[q := t];
      asleep := asleep[t := true];
    }

    method WakeUp(q: int)
      requires Valid() && q < |head|
      modifies this
      ensures Valid() && St() == Next(old(St()), Op.WakeUp(q))
    {
      hide Inv, Follows, Chain;
      chains, place := StepKeeps(St(), chains, place, Op.WakeUp(q));
      assert q >= 0 ==> head[q := head[q]] == head;
      if q >= 0 && head[q] != NULL {
        if 0 <= head[q] < |asleep| { asleep := asleep[head[q] := false]; }
        head := head[q := NULL];
      }
    }

    /** The rest of sleep_on, when the woken task t runs again. */
    method Resume(t: int)
      requires Valid() && 0 < t < NR_TASKS && |asleep| == NR_TASKS && !asleep[t] && t in tmp
      modifies this
      ensures Valid() && St() == Next(old(St()), Op.Resume(t)) && t !in tmp
    {
      hide Inv, Follows, Chain;
      chains, place := StepKeeps(St(), chains, place, Op.Resume(t));
      if tmp[t] != NULL {
        if 0 <= tmp[t] < |asleep| { asleep := asleep[tmp[t] := false]; }
      }
      tmp := tmp - {t};
    }

    /** Any run of sleep_on and wake_up by any tasks. */
    method Steps(ops: seq<Op>)
      requires Valid() && |asleep| == NR_TASKS
      modifies this
      ensures Valid() && St() == Run(old(St()), ops)
    {
      ghost var s := St();
      for i := 0 to |ops|
        invariant Valid() && |asleep| == NR_TASKS && Run(St(), ops[i..]) == Run(s, ops)
      {
        assert ops[i..][0] == ops[i] && ops[i..][1..] == ops[i + 1..];
        match ops[i]
        case SleepOn(t, q) => if 0 < t < NR_TASKS && !asleep[t] && t !in tmp && 0 <= q < |head| { SleepOn(t, q); }
        case WakeUp(q) => if 0 <= q < |head| { WakeUp(q); }
        case Resume(t) => if 0 < t < NR_TASKS && !asleep[t] && t in tmp { Resume(t); }
      }
    }
  }
}
