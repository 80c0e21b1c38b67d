/** kernel/blk_drv/ll_rw_blk.c: the request table, one linked queue per major
    number, and the processes that wait for a buffer lock or a free slot. */
module RequestQueue {
  import opened BufferLists
  import opened Sequences
  import opened BufferCache
  import E = Elevator

  const NR_REQUEST: int := 32
  const NR_BLK_DEV: int := 7

  datatype Cmd = Read | Write

  /** dev < 0 marks a free slot; left is nr_sectors. */
  datatype Request = Request(dev: int, cmd: nat, sector: nat, left: nat, bh: int, next: int)

  function Major(dev: int): int { dev / 256 }

  /** Sectors of one block share their key, so the driver may advance the head. */
  function KeyOf(x: Request): E.Key { E.Key(x.cmd, if x.dev >= 0 then x.dev else 0, x.sector / 2) }

  /** IN_ORDER of kernel/blk_drv/blk.h. */
  predicate InOrder(x: Request, y: Request) {
    || x.cmd < y.cmd
    || (x.cmd == y.cmd && (x.dev < y.dev || (x.dev == y.dev && x.sector < y.sector)))
  }

  lemma InOrderIsBefore(x: Request, y: Request)
    requires x.dev >= 0 && y.dev >= 0 && KeyOf(x) != KeyOf(y)
    ensures InOrder(x, y) <==> E.Before(KeyOf(x), KeyOf(y))
  { }

  function Keys(request: seq<Request>, q: seq<int>): (r: seq<E.Key>)
    requires InRange(q, |request|)
    ensures |r| == |q| && forall i :: 0 <= i < |q| ==> r[i] == KeyOf(request[q[i]])
  {
    seq(|q|, i requires 0 <= i < |q| => KeyOf(request[q[i]]))
  }

  /** The slots of q are linked from head to NULL. */
  ghost predicate Row(request: seq<Request>, head: int, q: seq<int>) {
    && InRange(q, |request|) && Distinct(q) && head == At(q, 0)
    && forall i :: 0 <= i < |q| ==> request[q[i]].next == At(q, i + 1)
  }

  ghost predicate Rows(request: seq<Request>, current: seq<int>, queue: seq<seq<int>>) {
    && |request| == NR_REQUEST && |current| == |queue| == NR_BLK_DEV
    && forall m :: 0 <= m < NR_BLK_DEV ==> Row(request, current[m], queue[m])
  }

  /** Who has locked a buffer: the request in a slot, or a process that waits
      for a slot. */
  datatype Owner = Slot(r: int) | Waiter(p: int)

  /** Where a process sleeps in make_request. */
  datatype Pc =
    | ForLock(b: int, cmd: Cmd, major: int)
    | ForSlot(b: int, cmd: Cmd, major: int)

  ghost predicate Filled(bh: seq<Buf>, owner: map<int, Owner>, drivers: set<int>, r: int, x: Request) {
    && Major(x.dev) in drivers && 0 <= x.bh < |bh| && x.dev == bh[x.bh].dev
       && x.sector == 2 * bh[x.bh].block + (2 - x.left)
    && x.bh in owner && owner[x.bh] == Slot(r) && x.cmd <= 1 && 1 <= x.left <= 2
       && (x.cmd == 1 ==> r < NR_REQUEST * 2 / 3)
  }

  ghost predicate Waits(bh: seq<Buf>, owner: map<int, Owner>, drivers: set<int>, p: int, pc: Pc) {
    && 0 <= pc.b < |bh| && Major(bh[pc.b].dev) == pc.major && pc.major in drivers
    && (pc.ForSlot? ==> pc.b in owner && owner[pc.b] == Waiter(p))
  }

  /** Every locked buffer has exactly one owner, and every used slot and every
      process that waits for a slot owns a buffer. */
  ghost predicate Owned(bh: seq<Buf>, request: seq<Request>, owner: map<int, Owner>, proc: map<int, Pc>,
                        drivers: set<int>) {
    && (forall b :: b in owner <==> 0 <= b < |bh| && bh[b].lock)
    && (forall b :: b in owner ==>
           if owner[b].Slot? then 0 <= owner[b].r < |request| && request[owner[b].r].dev >= 0
              && request[owner[b].r].bh == b
                                   else owner[b].p in proc && proc[owner[b].p].ForSlot? && proc[owner[b].p].b == b)
    && (forall r :: 0 <= r < |request| && request[r].dev >= 0 ==> Filled(bh, owner, drivers, r, request[r]))
    && (forall p :: p in proc ==> Waits(bh, owner, drivers, p, proc[p]))
  }

  /** A slot is in use exactly when it is in the queue of its major number. */
  ghost predicate Placed(request: seq<Request>, queue: seq<seq<int>>) {
    && |queue| == NR_BLK_DEV
    && (forall m, r :: 0 <= m < NR_BLK_DEV && 0 <= r < |request| ==>
          (r in queue[m] <==> request[r].dev >= 0 && Major(request[r].dev) == m))
    && (forall r :: 0 <= r < |request| && request[r].dev >= 0 ==> 0 <= Major(request[r].dev) < NR_BLK_DEV)
  }

  ghost predicate Ordered(request: seq<Request>, queue: seq<seq<int>>) {
    && |queue| == NR_BLK_DEV
    && forall m :: 0 <= m < NR_BLK_DEV ==> InRange(queue[m], |request|) && E.Sweeps(Keys(request, queue[m]))
  }

  ghost function KeysOf(request: seq<Request>, queue: seq<seq<int>>): (r: seq<seq<E.Key>>)
    requires |queue| == NR_BLK_DEV && forall m :: 0 <= m < NR_BLK_DEV ==> InRange(queue[m], |request|)
    ensures |r| == NR_BLK_DEV && forall m :: 0 <= m < NR_BLK_DEV ==> r[m] == Keys(request, queue[m])
  {
    seq(NR_BLK_DEV, m requires 0 <= m < NR_BLK_DEV => Keys(request, queue[m]))
  }

  /** Two requests that wait at once have different keys. */
  lemma KeysDiffer(bh: seq<Buf>, request: seq<Request>, owner: map<int, Owner>, drivers: set<int>, r: int, s: int)
    requires Unique(bh) && 0 <= r < |request| && 0 <= s < |request| && r != s
    requires request[r].dev > 0 && request[s].dev > 0
    requires Filled(bh, owner, drivers, r, request[r]) && Filled(bh, owner, drivers, s, request[s])
    ensures KeyOf(request[r]) != KeyOf(request[s])
  {
    assert request[r].bh != request[s].bh;
  }

  /** Free slot r holds x, linked in behind place p of the queue. */
  function LinkedIn(request: seq<Request>, q: seq<int>, p: int, r: int, x: Request): seq<Request>
    requires 1 <= p <= |q| && InRange(q, |request|) && 0 <= r < |request|
  {
    var next := request[q[p - 1]].next;
    request[r := x.(next := next)][q[p - 1] := request[r := x][q[p - 1]].(next := r)]
  }

  lemma RowInsert(request: seq<Request>, head: int, q: seq<int>, p: int, r: int, x: Request)
    requires Row(request, head, q) && 1 <= p <= |q| && 0 <= r < |request| && r !in q
    ensures Row(LinkedIn(request, q, p, r, x), head, q[..p] + [r] + q[p..])
  {
    var q' := q[..p] + [r] + q[p..];
    var request' := LinkedIn(request, q, p, r, x);
    InsertAt(q, p, r);
    LinkedNext(request, q, p, r, x);
    InsertRange(q, p, r, |request|);
    hide Linked;
    assert forall j :: 0 <= j < |q| ==> q[j] != r;
    forall i | 0 <= i < |q'| ensures request'[q'[i]].next == At(q', i + 1) {
      if i < p - 1 {
        assert q'[i] == q[i] != q[p - 1];
      } else if i > p {
        assert q'[i] == q[i - 1] != q[p - 1];
        assert At(q', i + 1) == At(q, i);
      }
    }
  }

  lemma InsertAt(q: seq<int>, p: int, r: int)
    requires 1 <= p <= |q|
    ensures var q' := q[..p] + [r] + q[p..];
      && |q'| == |q| + 1 && q'[p] == r && (forall j :: 0 <= j < p ==> q'[j] == q[j])
      && (forall j :: p < j < |q'| ==> q'[j] == q[j - 1])
  { }

  lemma InsertRange(q: seq<int>, p: int, r: int, n: int)
    requires 1 <= p <= |q| && InRange(q, n) && Distinct(q) && r !in q && 0 <= r < n
    ensures InRange(q[..p] + [r] + q[p..], n) && Distinct(q[..p] + [r] + q[p..])
  {
    InsertAt(q, p, r);
    var q' := q[..p] + [r] + q[p..];
    forall i, j | 0 <= i < j < |q'| ensures q'[i] != q'[j] { }
  }

  lemma LinkedNext(request: seq<Request>, q: seq<int>, p: int, r: int, x: Request)
    requires Distinct(q) && 1 <= p <= |q| && InRange(q, |request|) && 0 <= r < |request| && r !in q
    ensures var request' := LinkedIn(request, q, p, r, x);
      && |request'| == |request| && request'[r].next == request[q[p - 1]].next && request'[q[p - 1]].next == r
      && (forall i :: 0 <= i < |request| && i != r && i != q[p - 1] ==> request'[i] == request[i])
      && request'[r] == x.(next := request[q[p - 1]].next) && request'[q[p - 1]] == request[q[p - 1]].(next := r)
  { }

  /** Slots outside a row do not matter to it. */
  lemma RowFrame(request: seq<Request>, request': seq<Request>, head: int, q: seq<int>)
    requires Row(request, head, q) && |request'| == |request| && forall i :: 0 <= i < |q| ==>
        request'[q[i]].next == request[q[i]].next
    ensures Row(request', head, q)
  { }

  lemma KeysFrame(request: seq<Request>, request': seq<Request>, q: seq<int>)
    requires InRange(q, |request|) && |request'| == |request| && forall i :: 0 <= i < |q| ==>
        KeyOf(request'[q[i]]) == KeyOf(request[q[i]])
    ensures Keys(request', q) == Keys(request, q)
  { }

  /** Only links between slots differ. */
  ghost predicate SameButNext(request: seq<Request>, request': seq<Request>) {
    |request'| == |request| && forall s :: 0 <= s < |request| ==> request'[s] == request[s].(next := request'[s].next)
  }

  /** add_request: the queue of slots after slot r, with key k, joined it. */
  function Joined(request: seq<Request>, q: seq<int>, r: int, k: E.Key): seq<int>
    requires InRange(q, |request|)
  {
    if q == [] then [r] else var p := E.Place(Keys(request, q), k); q[..p] + [r] + q[p..]
  }

  /** The slot r was free and now holds x, somewhere in a queue. */
  ghost predicate Filling(request: seq<Request>, request': seq<Request>, r: int, x: Request) {
    && 0 <= r < |request| && request[r].dev < 0 && x.dev >= 0 && SameButNext(request[r := x], request')
  }

  lemma LockKeeps(bh: seq<Buf>, request: seq<Request>, owner: map<int, Owner>, proc: map<int, Pc>, drivers: set<int>,
                  p: int)
    requires Owned(bh, request, owner, proc, drivers) && p in proc && proc[p].ForLock? && 0 <= proc[p].b < |bh|
             && !bh[proc[p].b].lock
    ensures var b := proc[p].b;
      Owned(bh[b := bh[b].(lock := true)], request, owner[b := Waiter(p)],
            proc[p := ForSlot(b, proc[p].cmd, proc[p].major)], drivers)
  {
    var b := proc[p].b;
    assert Waits(bh, owner, drivers, p, proc[p]);
    assert b !in owner;
  }

  lemma UnlockKeeps(bh: seq<Buf>, request: seq<Request>, owner: map<int, Owner>, proc: map<int, Pc>, drivers: set<int>,
                    p: int)
    requires Owned(bh, request, owner, proc, drivers) && p in proc && proc[p].ForSlot?
    ensures var b := proc[p].b;
      0 <= b < |bh| && bh[b].lock && Owned(bh[b := bh[b].(lock := false)], request, owner - {b}, proc - {p}, drivers)
  {
    assert Waits(bh, owner, drivers, p, proc[p]);
  }

  lemma SubmitOwned(bh: seq<Buf>, request: seq<Request>, owner: map<int, Owner>, proc: map<int, Pc>, drivers: set<int>,
                    p: int, r: int, x: Request, request': seq<Request>)
    requires Owned(bh, request, owner, proc, drivers) && p in proc && proc[p].ForSlot?
             && Filling(request, request', r, x)
    requires x.bh == proc[p].b && 0 <= x.bh < |bh| && x.dev == bh[x.bh].dev && x.sector == 2 * bh[x.bh].block
             && x.left == 2 && x.cmd <= 1
    requires x.cmd == 1 ==> r < NR_REQUEST * 2 / 3
    ensures Owned(bh[x.bh := bh[x.bh].(dirt := false)], request', owner[x.bh := Slot(r)], proc - {p}, drivers)
  {
    assert Waits(bh, owner, drivers, p, proc[p]);
    var bh' := bh[x.bh := bh[x.bh].(dirt := false)];
    var owner' := owner[x.bh := Slot(r)];
    assert request'[r] == request[r := x][r].(next := request'[r].next);
    forall s | 0 <= s < |request'| && request'[s].dev >= 0 ensures Filled(bh', owner', drivers, s, request'[s]) {
      assert request'[s] == request[r := x][s].(next := request'[s].next);
      if s != r { assert Filled(bh, owner, drivers, s, request[s]); }
    }
    forall c | c in owner' && owner'[c].Slot? && c != x.bh
      ensures request'[owner'[c].r].bh == c && request'[owner'[c].r].dev >= 0
    {
      assert owner[c].r != r;
    }
  }

  lemma SubmitPlaced(request: seq<Request>, queue: seq<seq<int>>, r: int, x: Request, request': seq<Request>, m: int,
                     q': seq<int>)
    requires Placed(request, queue) && Filling(request, request', r, x) && Major(x.dev) == m && 0 <= m < NR_BLK_DEV
    requires forall s :: s in q' <==> s in queue[m] || s == r
    ensures Placed(request', queue[m := q'])
  {
    assert request'[r] == request[r := x][r].(next := request'[r].next);
    forall s | 0 <= s < |request| && s != r ensures request'[s].dev == request[s].dev {
      assert request'[s] == request[r := x][s].(next := request'[s].next);
    }
  }

  /** No two used slots share a key. */
  ghost predicate KeysApart(request: seq<Request>) {
    forall r, s :: 0 <= r < |request| && 0 <= s < |request| && r != s && request[r].dev > 0 && request[s].dev > 0 ==>
      KeyOf(request[r]) != KeyOf(request[s])
  }

  lemma OwnedApart(bh: seq<Buf>, request: seq<Request>, owner: map<int, Owner>, proc: map<int, Pc>, drivers: set<int>)
    requires Owned(bh, request, owner, proc, drivers) && Unique(bh)
    ensures KeysApart(request)
  {
    forall r, s | 0 <= r < |request| && 0 <= s < |request| && r != s && request[r].dev > 0 && request[s].dev > 0
      ensures KeyOf(request[r]) != KeyOf(request[s])
    {
      KeysDiffer(bh, request, owner, drivers, r, s);
    }
  }

  /** The queue of slots joins where the queue of keys does. */
  lemma JoinedKeys(request: seq<Request>, q: seq<int>, r: int, x: Request, request': seq<Request>)
    requires InRange(q, |request|) && r !in q && 0 <= r < |request| && SameButNext(request[r := x], request')
    ensures InRange(Joined(request, q, r, KeyOf(x)), |request'|)
    ensures Keys(request', Joined(request, q, r, KeyOf(x))) == E.Insert(Keys(request, q), KeyOf(x))
    ensures forall s :: s in Joined(request, q, r, KeyOf(x)) <==> s in q || s == r
  {
    var k := KeyOf(x);
    forall s | 0 <= s < |request| && s != r ensures KeyOf(request'[s]) == KeyOf(request[s]) {
      assert request'[s] == request[r := x][s].(next := request'[s].next);
    }
    assert KeyOf(request'[r]) == k by { assert request'[r] == request[r := x][r].(next := request'[r].next); }
    hide SameButNext, KeyOf;
    if q != [] {
      var p := E.Place(Keys(request, q), k);
      InsertMembers(q, p, r);
      hide E.Place;
      InsertedKeys(request, request', q, p, r, k);
    }
  }

  lemma InsertedKeys(request: seq<Request>, request': seq<Request>, q: seq<int>, p: int, r: int, k: E.Key)
    requires InRange(q, |request|) && |request'| == |request| && r !in q && 0 <= r < |request| && 1 <= p <= |q|
             && KeyOf(request'[r]) == k
    requires forall s :: 0 <= s < |request| && s != r ==> KeyOf(request'[s]) == KeyOf(request[s])
    ensures InRange(q[..p] + [r] + q[p..], |request'|)
    ensures Keys(request', q[..p] + [r] + q[p..]) == Keys(request, q)[..p] + [k] + Keys(request, q)[p..]
  {
    hide KeyOf;
    var q' := q[..p] + [r] + q[p..];
    InsertAt(q, p, r);
    forall i | 0 <= i < |q'| ensures 0 <= q'[i] < |request'| && (i != p ==> q'[i] in q) {
      if i < p { assert q'[i] == q[i]; } else if i > p { assert q'[i] == q[i - 1]; }
    }
    var keys := Keys(request, q);
    assert Keys(request', q') == keys[..p] + [k] + keys[p..];
  }

  lemma InsertMembers(q: seq<int>, p: int, r: int)
    requires 1 <= p <= |q|
    ensures forall s :: s in q[..p] + [r] + q[p..] <==> s in q || s == r
  {
    InsertAt(q, p, r);
    var q' := q[..p] + [r] + q[p..];
    forall s | s in q ensures s in q' {
      var i :| 0 <= i < |q| && q[i] == s;
      assert q'[if i < p then i else i + 1] == s;
    }
  }

  ghost predicate Majors(drivers: set<int>) { forall m :: m in drivers ==> 0 < m < NR_BLK_DEV }

  lemma SubmitOrdered(bh: seq<Buf>, request: seq<Request>, owner: map<int, Owner>, proc: map<int, Pc>,
                      drivers: set<int>, queue: seq<seq<int>>, r: int, x: Request, request': seq<Request>, m: int)
    requires Ordered(request, queue) && Placed(request, queue) && Majors(drivers) && Filling(request, request', r, x)
    requires Owned(bh, request', owner, proc, drivers) && Unique(bh) && Major(x.dev) == m && 0 <= m < NR_BLK_DEV
    ensures KeyOf(x) !in Keys(request, queue[m])
    ensures Ordered(request', queue[m := Joined(request, queue[m], r, KeyOf(x))])
    ensures Keys(request', Joined(request, queue[m], r, KeyOf(x))) == E.Insert(Keys(request, queue[m]), KeyOf(x))
    ensures forall g :: 0 <= g < NR_BLK_DEV && g != m ==>
        InRange(queue[g], |request'|) && Keys(request', queue[g]) == Keys(request, queue[g])
  {
    OwnedApart(bh, request', owner, proc, drivers);
    FillingKeys(request, request', r, x);
    var q := queue[m];
    forall i | 0 <= i < |q| ensures Keys(request, q)[i] != KeyOf(x) {
      assert q[i] in queue[m];
      OwnedDev(bh, request', owner, proc, drivers, q[i]);
      OwnedDev(bh, request', owner, proc, drivers, r);
    }
    hide Owned, Filling;
    JoinedKeys(request, q, r, x, request');
    E.InsertKeepsSweeps(Keys(request, q), KeyOf(x));
    forall g | 0 <= g < NR_BLK_DEV && g != m
      ensures InRange(queue[g], |request'|) && Keys(request', queue[g]) == Keys(request, queue[g])
    {
      forall i | 0 <= i < |queue[g]| ensures queue[g][i] != r { assert queue[g][i] in queue[g]; }
      KeysFrame(request, request', queue[g]);
    }
  }

  lemma OwnedDev(bh: seq<Buf>, request: seq<Request>, owner: map<int, Owner>, proc: map<int, Pc>, drivers: set<int>,
                 r: int)
    requires Owned(bh, request, owner, proc, drivers) && Majors(drivers) && 0 <= r < |request| && request[r].dev >= 0
    ensures request[r].dev > 0
  {
    assert Filled(bh, owner, drivers, r, request[r]);
  }

  lemma FillingKeys(request: seq<Request>, request': seq<Request>, r: int, x: Request)
    requires Filling(request, request', r, x)
    ensures SameButNext(request[r := x], request') && |request'| == |request| && KeyOf(request'[r]) == KeyOf(x)
            && request'[r].dev >= 0
    ensures forall s :: 0 <= s < |request| && s != r ==>
        KeyOf(request'[s]) == KeyOf(request[s]) && request'[s].dev == request[s].dev
  {
    forall s | 0 <= s < |request| ensures request'[s] == request[r := x][s].(next := request'[s].next) { }
  }

  /** end_request: the head slot of queue m is freed. */
  lemma EndOwned(bh: seq<Buf>, request: seq<Request>, owner: map<int, Owner>, proc: map<int, Pc>, drivers: set<int>,
                 r: int, ok: bool)
    requires Owned(bh, request, owner, proc, drivers) && 0 <= r < |request| && request[r].dev >= 0
    ensures var b := request[r].bh;
      && 0 <= b < |bh| && bh[b].lock
      && Owned(bh[b := bh[b].(uptodate := ok, lock := false)], request[r := request[r].(dev := -1)], owner - {b}, proc,
               drivers)
  {
    assert Filled(bh, owner, drivers, r, request[r]);
  }

  lemma EndRows(request: seq<Request>, current: seq<int>, queue: seq<seq<int>>, m: int)
    requires Rows(request, current, queue) && Placed(request, queue) && Ordered(request, queue) && 0 <= m < NR_BLK_DEV
             && queue[m] != []
    ensures var r := current[m]; var request' := request[r := request[r].(dev := -1)];
        var queue' := queue[m := queue[m][1..]];
      && 0 <= r < |request| && r == queue[m][0] && Rows(request', current[m := request[r].next], queue')
         && Placed(request', queue') && Ordered(request', queue')
      && InRange(queue[m][1..], NR_REQUEST) && Keys(request', queue[m][1..]) == Keys(request, queue[m])[1..]
      && forall g :: 0 <= g < NR_BLK_DEV && g != m ==>
           InRange(queue[g], NR_REQUEST) && Keys(request', queue[g]) == Keys(request, queue[g])
  {
    assert Row(request, current[m], queue[m]);
    var r := current[m];
    assert r in queue[m];
    var request' := request[r := request[r].(dev := -1)];
    var queue' := queue[m := queue[m][1..]];
    RowTail(request, current[m], queue[m]);
    E.PopKeepsSweeps(Keys(request, queue[m]));
    forall g | 0 <= g < NR_BLK_DEV
      ensures Row(request', current[m := request[r].next][g], queue'[g]) && E.Sweeps(Keys(request', queue'[g]))
      ensures Keys(request', queue'[g]) == if g == m then Keys(request, queue[m])[1..] else Keys(request, queue[g])
    {
      assert Row(request, current[g], queue[g]);
      assert r !in queue'[g];
      forall i | 0 <= i < |queue'[g]| ensures queue'[g][i] != r { assert queue'[g][i] in queue'[g]; }
      RowFrame(request, request', current[m := request[r].next][g], queue'[g]);
      KeysFrame(request, request', queue'[g]);
    }
    EndPlaced(request, current[m], queue, m);
  }

  lemma RowTail(request: seq<Request>, head: int, q: seq<int>)
    requires Row(request, head, q) && q != []
    ensures Row(request, request[head].next, q[1..]) && head !in q[1..]
            && Keys(request, q[1..]) == Keys(request, q)[1..]
  { }

  lemma EndPlaced(request: seq<Request>, head: int, queue: seq<seq<int>>, m: int)
    requires Placed(request, queue) && 0 <= m < NR_BLK_DEV && Row(request, head, queue[m]) && queue[m] != []
    ensures Placed(request[head := request[head].(dev := -1)], queue[m := queue[m][1..]])
  {
    TailMembers(queue[m]);
    assert head in queue[m];
    hide Row;
    var tail := queue[m][1..];
    var request' := request[head := request[head].(dev := -1)];
    var queue' := queue[m := tail];
    forall g, s | 0 <= g < NR_BLK_DEV && 0 <= s < |request|
      ensures s in queue'[g] <==> request'[s].dev >= 0 && Major(request'[s].dev) == g
    {
      assert s in queue[g] <==> request[s].dev >= 0 && Major(request[s].dev) == g;
      assert queue'[g] == if g == m then tail else queue[g];
    }
  }

  lemma TailMembers(q: seq<int>)
    requires q != [] && Distinct(q)
    ensures forall s :: s in q[1..] <==> s in q && s != q[0]
  {
    forall s | s in q && s != q[0] ensures s in q[1..] {
      var i :| 0 <= i < |q| && q[i] == s;
      assert q[1..][i - 1] == s;
    }
  }

  lemma AdvanceOwned(bh: seq<Buf>, request: seq<Request>, owner: map<int, Owner>, proc: map<int, Pc>, drivers: set<int>,
                     r: int)
    requires Owned(bh, request, owner, proc, drivers) && 0 <= r < |request| && request[r].dev >= 0
             && request[r].left == 2
    ensures var x := request[r].(sector := request[r].sector + 1, left := 1);
      KeyOf(x) == KeyOf(request[r]) && Owned(bh, request[r := x], owner, proc, drivers)
  {
    assert Filled(bh, owner, drivers, r, request[r]);
  }

  /** A slot changes without its key, its link and its use. */
  lemma SameShape(request: seq<Request>, current: seq<int>, queue: seq<seq<int>>, r: int, x: Request)
    requires Rows(request, current, queue) && Placed(request, queue) && Ordered(request, queue)
    requires 0 <= r < |request| && KeyOf(x) == KeyOf(request[r]) && x.next == request[r].next && x.dev == request[r].dev
    ensures Rows(request[r := x], current, queue) && Placed(request[r := x], queue) && Ordered(request[r := x], queue)
    ensures forall g :: 0 <= g < NR_BLK_DEV ==>
        InRange(queue[g], NR_REQUEST) && Keys(request[r := x], queue[g]) == Keys(request, queue[g])
  {
    forall g | 0 <= g < NR_BLK_DEV
      ensures Row(request[r := x], current[g], queue[g]) && Keys(request[r := x], queue[g]) == Keys(request, queue[g])
    {
      assert Row(request, current[g], queue[g]);
      RowFrame(request, request[r := x], current[g], queue[g]);
      KeysFrame(request, request[r := x], queue[g]);
    }
  }

  /** The buffer cache may change a buffer's flags; its key only while nobody
      holds it, so nobody waits to lock it. */
  lemma BufferKeeps(bh: seq<Buf>, request: seq<Request>, owner: map<int, Owner>, proc: map<int, Pc>, drivers: set<int>,
                    b: int, x: Buf)
    requires Owned(bh, request, owner, proc, drivers) && 0 <= b < |bh| && x.lock == bh[b].lock
    requires Keyed(x, bh[b].dev, bh[b].block) || (!x.lock && forall p :: p in proc ==> proc[p].b != b)
    ensures Owned(bh[b := x], request, owner, proc, drivers)
  {
    forall r | 0 <= r < |request| && request[r].dev >= 0 ensures Filled(bh[b := x], owner, drivers, r, request[r]) {
      assert Filled(bh, owner, drivers, r, request[r]);
      assert request[r].bh in owner;
    }
    forall p | p in proc ensures Waits(bh[b := x], owner, drivers, p, proc[p]) {
      assert Waits(bh, owner, drivers, p, proc[p]);
    }
  }

  /** What a step does to the queues, seen as keys. */
  datatype Note = Quiet | On(m: int, e: E.Event)

  /** A step queues or completes one request, or leaves the queues alone. */
  ghost predicate Noted(keys: seq<seq<E.Key>>, done: seq<seq<E.Key>>, note: Note, keys': seq<seq<E.Key>>,
                        done': seq<seq<E.Key>>) {
    match note
    case Quiet => keys' == keys && done' == done
    case On(m, e) =>
      && 0 <= m < |keys| == |done| && E.Fits(keys[m], e) && keys' == keys[m := E.After(keys[m], e)]
      && done' == if e.Done? then done[m := done[m] + [keys[m][0]]] else done
  }

  lemma QuietNote(keys: seq<seq<E.Key>>, done: seq<seq<E.Key>>)
    ensures Noted(keys, done, Quiet, keys, done)
  { }

  function CmdCode(cmd: Cmd): nat { if cmd.Read? then 0 else 1 }

  ghost predicate NoSlot(request: seq<Request>, cmd: Cmd) {
    forall s :: 0 <= s < |request| && (cmd.Write? ==> s < NR_REQUEST * 2 / 3) ==> request[s].dev >= 0
  }

  datatype Op =
    | Begin(p: int, cmd: Cmd, ahead: bool, b: int)
    | Wake(p: int)
    | End(m: int, ok: bool)
    | Advanced(m: int)
    | Changed(b: int, x: Buf)

  /** What the drivers and the cache can see of the queues. */
  datatype Snap = Snap(bh: seq<Buf>, request: seq<Request>, proc: map<int, Pc>, waiting: seq<seq<E.Key>>,
                       done: seq<seq<E.Key>>)

  ghost predicate Still(a: Snap, note: Note, c: Snap) { note == Quiet && c.request == a.request && c.bh == a.bh }

  /** A write of a clean buffer and a read of a current one need no request. */
  predicate Useless(cmd: Cmd, x: Buf) { if cmd.Write? then !x.dirt else x.uptodate }

  /** make_request from `repeat:` on, for buffer b that p has locked. */
  ghost predicate Slotted(a: Snap, p: int, b: int, cmd: Cmd, m: int, ahead: bool, note: Note, c: Snap) {
    && 0 <= b < |a.bh|
    && if NoSlot(a.request, cmd) then
         && note == Quiet && c.request == a.request
         && c.bh == (if ahead then a.bh[b := a.bh[b].(lock := false)] else a.bh)
         && c.proc == (if ahead then a.proc - {p} else a.proc)
       else
         && note == On(m, E.Add(E.Key(CmdCode(cmd), a.bh[b].dev, a.bh[b].block)))
         && c.bh == a.bh[b := a.bh[b].(dirt := false)] && c.proc == a.proc - {p}
  }

  /** make_request from lock_buffer on. */
  ghost predicate Locking(a: Snap, p: int, b: int, cmd: Cmd, m: int, ahead: bool, note: Note, c: Snap) {
    && 0 <= b < |a.bh|
    && if a.bh[b].lock then Still(a, note, c) && c.proc == a.proc
       else if Useless(cmd, a.bh[b]) then Still(a, note, c) && c.proc == a.proc - {p}
       else Slotted(a.(bh := a.bh[b := a.bh[b].(lock := true)], proc := a.proc[p := ForSlot(b, cmd, m)]), p, b, cmd, m,
                    ahead, note, c)
  }

  /** The head of queue m is done: its buffer is unlocked. */
  ghost predicate Completed(a: Snap, m: int, ok: bool, note: Note, c: Snap)
    requires 0 <= m < |a.waiting| && a.waiting[m] != []
  {
    && note == On(m, E.Done) && c.proc == a.proc
    && exists b :: 0 <= b < |a.bh| && a.bh[b].lock && Keyed(a.bh[b], a.waiting[m][0].dev, a.waiting[m][0].block)
                   && c.bh == a.bh[b := a.bh[b].(uptodate := ok, lock := false)]
  }

  /** The buffer cache may change flags at any time, a key only of a buffer that is
      unlocked and that nobody is about to lock. */
  predicate CanChange(a: Snap, b: int, x: Buf) {
    && 0 <= b < |a.bh| && x.lock == a.bh[b].lock
    && (|| Keyed(x, a.bh[b].dev, a.bh[b].block)
        || (&& !x.lock && x.dev != 0 && (forall p :: p in a.proc ==> a.proc[p].b != b)
            && forall c :: 0 <= c < |a.bh| ==> !Keyed(a.bh[c], x.dev, x.block)))
  }

  /** One event; nothing happens where it could not occur. */
  ghost predicate Stepped(drivers: set<int>, op: Op, a: Snap, note: Note, c: Snap) {
    && Noted(a.waiting, a.done, note, c.waiting, c.done)
    && match op
       case Begin(p, cmd, ahead, b) =>
         if !(0 <= b < |a.bh| && p !in a.proc && Major(a.bh[b].dev) in drivers && !(ahead && a.bh[b].lock)) then
           Still(a, note, c) && c.proc == a.proc
         else
           var m := Major(a.bh[b].dev);
           Locking(a.(proc := a.proc[p := ForLock(b, cmd, m)]), p, b, cmd, m, ahead, note, c)
       case Wake(p) =>
         if p !in a.proc then Still(a, note, c) && c.proc == a.proc
         else if a.proc[p].ForLock? then Locking(a, p, a.proc[p].b, a.proc[p].cmd, a.proc[p].major, false, note, c)
         else Slotted(a, p, a.proc[p].b, a.proc[p].cmd, a.proc[p].major, false, note, c)
       case End(m, ok) =>
         if 0 <= m < |a.waiting| && a.waiting[m] != [] then Completed(a, m, ok, note, c)
         else Still(a, note, c) && c.proc == a.proc
       case Advanced(_) => note == Quiet && c.bh == a.bh && c.proc == a.proc
       case Changed(b, x) =>
         note == Quiet && c.request == a.request && c.proc == a.proc
         && c.bh == if CanChange(a, b, x) then a.bh[b := x] else a.bh
  }

  /** Every request of q is served within the first two sweeps of line. */
  ghost predicate InTurn(q: seq<E.Key>, line: seq<E.Key>) {
    forall x :: x in q ==> x in line && E.Descents(E.Until(line, x)) <= 1
  }

  ghost predicate Whole(bh: seq<Buf>, request: seq<Request>, current: seq<int>, owner: map<int, Owner>,
                        proc: map<int, Pc>, drivers: set<int>, queue: seq<seq<int>>)
  {
    && Majors(drivers) && Rows(request, current, queue) && Placed(request, queue) && Ordered(request, queue)
    && Owned(bh, request, owner, proc, drivers) && Unique(bh)
  }

  class Disks {
    /** The major numbers that have a request function. */
    const drivers: set<int>
    var bh: seq<Buf>
    var request: seq<Request>
    var current: seq<int>
    var proc: map<int, Pc>
    ghost var queue: seq<seq<int>>
    ghost var owner: map<int, Owner>
    /** What each device has completed, oldest first. */
    ghost var done: seq<seq<E.Key>>

    ghost predicate Valid() reads this {
      |done| == NR_BLK_DEV && Whole(bh, request, current, owner, proc, drivers, queue)
    }

    /** The keys waiting at each device, in service order. */
    ghost function Waiting(): seq<seq<E.Key>>
      requires Valid()
      reads this
    {
      KeysOf(request, queue)
    }

    ghost function Sn(): Snap
      requires Valid()
      reads this
    {
      Snap(bh, request, proc, Waiting(), done)
    }

    /** blk_dev_init, with the buffers as the cache has them, none locked. */
    constructor Init(buffers: seq<Buf>, majors: set<int>)
      requires Unique(buffers) && Majors(majors) && forall b :: 0 <= b < |buffers| ==> !buffers[b].lock
      ensures Valid() && bh == buffers && drivers == majors && proc == map[]
    {
      drivers := majors;
      bh := buffers;
      request := seq(NR_REQUEST, _ => Request(-1, 0, 0, 0, 0, NULL));
      current := seq(NR_BLK_DEV, _ => NULL);
      proc := map[];
      queue := seq(NR_BLK_DEV, _ => []);
      owner := map[];
      done := seq(NR_BLK_DEV, _ => []);
    }

    /** The search in make_request: from the top, writes only in the lower two
        thirds of the table. */
    method FindSlot(cmd: Cmd) returns (r: int)
      requires |request| == NR_REQUEST
      ensures var limit := if cmd.Read? then NR_REQUEST else NR_REQUEST * 2 / 3;
        if r < 0 then forall s :: 0 <= s < limit ==> request[s].dev >= 0
        else r < limit && request[r].dev < 0 && forall s :: r < s < limit ==> request[s].dev >= 0
    {
      r := if cmd.Read? then NR_REQUEST else NR_REQUEST * 2 / 3;
      ghost var limit := r;
      r := r - 1;
      while r >= 0 && request[r].dev >= 0
        invariant -1 <= r < limit && forall s :: r < s < limit ==> request[s].dev >= 0
      {
        r := r - 1;
      }
    }

    /** The walk of add_request along queue m to the slot that r goes behind. */
    method Walk(m: int, r: int) returns (tmp: int)
      requires 0 <= m < |current| == |queue| && Row(request, current[m], queue[m]) && 0 <= r < |request|
               && request[r].dev >= 0
      requires queue[m] != [] && E.Distinct(Keys(request, queue[m]))
      requires forall s :: s in queue[m] ==>
          0 <= s < |request| && request[s].dev >= 0 && KeyOf(request[s]) != KeyOf(request[r])
      ensures tmp == queue[m][E.Place(Keys(request, queue[m]), KeyOf(request[r])) - 1]
    {
      ghost var q := queue[m];
      ghost var k := KeyOf(request[r]);
      tmp := current[m];
      ghost var i := 0;
      while request[tmp].next != NULL
        invariant 0 <= i < |q| && tmp == q[i]
        invariant forall j :: 0 <= j < i ==> !E.Stops(Keys(request, q), k, j)
        decreases |q| - i
      {
        assert q[i] in q && q[i + 1] in q;
        KeysApartAt(request, q, i);
        InOrderIsBefore(request[tmp], request[r]);
        InOrderIsBefore(request[tmp], request[q[i + 1]]);
        InOrderIsBefore(request[r], request[q[i + 1]]);
        if (InOrder(request[tmp], request[r]) || !InOrder(request[tmp], request[request[tmp].next]))
           && InOrder(request[r], request[request[tmp].next])
        {
          break;
        }
        tmp := request[tmp].next;
        i := i + 1;
      }
      E.PlaceIsFirstStop(Keys(request, q), k, i);
    }

    /** add_request: slot r, filled and in no queue, joins the queue of major m. */
    method AddRequest(m: int, r: int)
      requires Rows(request, current, queue) && Joinable(request, queue, m, r) && 0 <= request[r].bh < |bh|
      modifies `bh, `request, `current, `queue
      ensures SameButNext(old(request), request) && Rows(request, current, queue)
      ensures bh == old(bh)[old(request)[r].bh := old(bh)[old(request)[r].bh].(dirt := false)]
      ensures queue == old(queue)[m := Joined(old(request), old(queue)[m], r, KeyOf(old(request)[r]))]
    {
      ghost var q := queue[m];
      AddPath(request, current, queue, m, r);
      hide Rows, SameButNext, Joinable, Linkable, InRange, Keys, Joined, E.Place, KeyOf, Relinked;
      request := request[r := request[r].(next := NULL)];
      bh := bh[request[r].bh := bh[request[r].bh].(dirt := false)];
      if current[m] == NULL {
        current := current[m := r];
        queue := queue[m := [r]];
        return;
      }
      LinkBehind(m, r);
      queue := queue[m := Joined(old(request), q, r, KeyOf(old(request)[r]))];
    }

    /** The rest of add_request: walk to the place, link in. */
    method LinkBehind(m: int, r: int)
      requires 0 <= m < |current| == |queue| && Linkable(request, current[m], queue[m], r)
      modifies `request
      ensures request
              == Relinked(old(request), queue[m][E.Place(Keys(old(request), queue[m]), KeyOf(old(request)[r])) - 1], r)
    {
      var tmp := Walk(m, r);
      request := request[r := request[r].(next := request[tmp].next)];
      request := request[tmp := request[tmp].(next := r)];
    }

    /** ll_rw_block and the start of make_request, up to the next sleep. */
    method LlRwBlock(p: int, cmd: Cmd, ahead: bool, b: int) returns (ghost note: Note)
      requires Valid() && 0 <= b < |bh| && p !in proc
      modifies this
      ensures Valid() && Noted(old(Waiting()), old(done), note, Waiting(), done)
      ensures Stepped(drivers, Begin(p, cmd, ahead, b), old(Sn()), note, Sn())
    {
      hide Rows, Placed, Ordered, Owned, Unique, KeysOf;
      var major := Major(bh[b].dev);
      if major !in drivers { return Quiet; }
      if ahead && bh[b].lock { return Quiet; }
      BeginOwned(bh, request, owner, proc, drivers, p, ForLock(b, cmd, major));
      proc := proc[p := ForLock(b, cmd, major)];
      note := LockBuffer(p, ahead);
    }

    /** make_request from lock_buffer on, up to the next sleep. */
    method LockBuffer(p: int, ahead: bool) returns (ghost note: Note)
      requires Valid() && p in proc && proc[p].ForLock?
      modifies this
      ensures Valid() && Noted(old(Waiting()), old(done), note, Waiting(), done)
      ensures Locking(old(Sn()), p, old(proc)[p].b, old(proc)[p].cmd, old(proc)[p].major, ahead, note, Sn())
    {
      WaitsFor(bh, request, owner, proc, drivers, p);
      var b, cmd := proc[p].b, proc[p].cmd;
      if bh[b].lock { return Quiet; }
      LockKeeps(bh, request, owner, proc, drivers, p);
      FlagsKeepKeys(bh, b, bh[b].(lock := true));
      hide Rows, Placed, Ordered, Owned, Unique, KeysOf;
      ghost var keys := Waiting();
      bh := bh[b := bh[b].(lock := true)];
      owner := owner[b := Waiter(p)];
      proc := proc[p := ForSlot(b, cmd, proc[p].major)];
      if (cmd.Write? && !bh[b].dirt) || (cmd.Read? && bh[b].uptodate) {
        UnlockBuffer(p);
        assert bh == old(bh) && proc == old(proc) - {p};
        return Quiet;
      }
      note := TakeSlot(p, ahead);
    }

    /** unlock_buffer by the process that locked it. */
    method UnlockBuffer(p: int)
      requires Valid() && p in proc && proc[p].ForSlot?
      modifies `bh, `owner, `proc
      ensures Valid() && Waiting() == old(Waiting()) && proc == old(proc) - {p}
      ensures var b := old(proc)[p].b; 0 <= b < |old(bh)| && bh == old(bh)[b := old(bh)[b].(lock := false)]
    {
      UnlockKeeps(bh, request, owner, proc, drivers, p);
      FlagsKeepKeys(bh, proc[p].b, bh[proc[p].b].(lock := false));
      hide Rows, Placed, Ordered, Owned, Unique, KeysOf;
      var b := proc[p].b;
      bh := bh[b := bh[b].(lock := false)];
      owner := owner - {b};
      proc := proc - {p};
    }

    /** make_request from `repeat:` on: fill a free slot and queue it; without one
        a read-ahead gives up and the others sleep. */
    method TakeSlot(p: int, ahead: bool) returns (ghost note: Note)
      requires Valid() && p in proc && proc[p].ForSlot?
      modifies this
      ensures Valid() && Noted(old(Waiting()), old(done), note, Waiting(), done)
      ensures Slotted(old(Sn()), p, old(proc)[p].b, old(proc)[p].cmd, old(proc)[p].major, ahead, note, Sn())
    {
      WaitsFor(bh, request, owner, proc, drivers, p);
      RowsSized(request, current, queue);
      hide Rows, Placed, Ordered, Owned, Unique, KeysOf, Noted;
      QuietNote(Waiting(), done);
      var r := FindSlot(proc[p].cmd);
      if r < 0 {
        if ahead { UnlockBuffer(p); }
        return Quiet;
      }
      note := Submit(p, r);
    }

    /** The end of make_request: fill the free slot r and queue it. */
    method Submit(p: int, r: int) returns (ghost note: Note)
      requires Valid() && p in proc && proc[p].ForSlot? && 0 <= r < NR_REQUEST == |request| && request[r].dev < 0
      requires proc[p].cmd.Write? ==> r < NR_REQUEST * 2 / 3
      modifies this
      ensures |done| == NR_BLK_DEV && Whole(bh, request, current, owner, proc, drivers, queue)
      ensures Noted(KeysOf(old(request), old(queue)), old(done), note, KeysOf(request, queue), done)
      ensures proc == old(proc) - {p} && p in old(proc) && 0 <= old(proc)[p].b < |old(bh)|
      ensures var b := old(proc)[p].b;
        && bh == old(bh)[b := old(bh)[b].(dirt := false)]
        && note == On(old(proc)[p].major, E.Add(E.Key(CmdCode(old(proc)[p].cmd), old(bh)[b].dev, old(bh)[b].block)))
    {
      WaitsFor(bh, request, owner, proc, drivers, p);
      var b, major := proc[p].b, proc[p].major;
      var x := Request(bh[b].dev, CmdCode(proc[p].cmd), 2 * bh[b].block, 2, b, NULL);
      FillJoinable(bh, request, owner, proc, drivers, current, queue, p, r, x);
      hide Whole, Rows, KeysOf, Joinable, SameButNext, Joined, Major, InRange, Keys, Noted, Waits, KeyOf, CmdCode;
      Fill(major, r, x);
      SubmitKeeps(old(bh), old(request), old(owner), old(proc), drivers, old(current), old(queue), p, r, x, request,
                  current, major, done);
      proc := proc - {p};
      owner := owner[b := Slot(r)];
      note := On(major, E.Add(KeyOf(x)));
    }

    /** The stores into the request, then add_request. */
    method Fill(major: int, r: int, x: Request)
      requires |request| == NR_REQUEST && 0 <= r < NR_REQUEST && 0 <= x.bh < |bh|
      requires Rows(request[r := x], current, queue) && Joinable(request[r := x], queue, major, r)
               && |queue| == NR_BLK_DEV && 0 <= major < NR_BLK_DEV
      requires InRange(queue[major], NR_REQUEST)
      requires Joined(request[r := x], queue[major], r, KeyOf(request[r := x][r]))
               == Joined(request, queue[major], r, KeyOf(x))
      modifies `bh, `request, `current, `queue
      ensures SameButNext(old(request)[r := x], request) && Rows(request, current, queue)
      ensures bh == old(bh)[x.bh := old(bh)[x.bh].(dirt := false)]
      ensures queue == old(queue)[major := Joined(old(request), old(queue)[major], r, KeyOf(x))]
    {
      hide Rows, Joinable, SameButNext, Joined, InRange, KeyOf;
      request := request[r := x];
      AddRequest(major, r);
    }

    /** end_request: the head of queue m is done; its buffer is unlocked. */
    method EndRequest(m: int, ok: bool) returns (ghost note: Note)
      requires Valid() && 0 <= m < NR_BLK_DEV && |current| == NR_BLK_DEV && current[m] != NULL
      modifies this
      ensures Valid() && Noted(old(Waiting()), old(done), note, Waiting(), done)
      ensures m < |old(Waiting())| && old(Waiting())[m] != [] && Completed(old(Sn()), m, ok, note, Sn())
    {
      HeadIs(request, current, queue, m);
      HeadBuffer(bh, request, owner, proc, drivers, current[m]);
      EndRows(request, current, queue, m);
      EndOwned(bh, request, owner, proc, drivers, current[m], ok);
      FlagsKeepKeys(bh, request[current[m]].bh, bh[request[current[m]].bh].(uptodate := ok, lock := false));
      hide Rows, Placed, Ordered, Owned, Unique, KeysOf;
      var r := current[m];
      var b := request[r].bh;
      bh := bh[b := bh[b].(uptodate := ok, lock := false)];
      request := request[r := request[r].(dev := -1)];
      current := current[m := request[r].next];
      queue := queue[m := queue[m][1..]];
      owner := owner - {b};
      done := done[m := done[m] + [KeyOf(old(request)[r])]];
      note := On(m, E.Done);
      EndKeys(old(request), old(queue), m, request);
      assert Keyed(old(bh)[b], old(Waiting())[m][0].dev, old(Waiting())[m][0].block);
    }

    /** The disk driver moves the head request on to the second sector of its block
        (kernel/blk_drv/hd.c). */
    method Advance(m: int)
      requires Valid() && 0 <= m < NR_BLK_DEV && |current| == NR_BLK_DEV && current[m] != NULL
      modifies `request
      ensures Valid() && Waiting() == old(Waiting())
    {
      HeadIs(request, current, queue, m);
      var r := current[m];
      if request[r].left == 2 {
        AdvanceOwned(bh, request, owner, proc, drivers, r);
        SameShape(request, current, queue, r, request[r].(sector := request[r].sector + 1, left := 1));
        hide Rows, Placed, Ordered, Owned, Unique, KeysOf;
        request := request[r := request[r].(sector := request[r].sector + 1, left := 1)];
        SameKeys(old(request), request, queue);
      }
    }

    /** The buffer cache at work: flags at any time, the key only of a buffer that
        is unlocked and that nobody is about to lock. */
    method Change(b: int, x: Buf)
      requires Valid() && 0 <= b < |bh| && x.lock == bh[b].lock
      requires Keyed(x, bh[b].dev, bh[b].block) || (!x.lock && x.dev != 0 && Absent(bh, x.dev, x.block)
                                                    && forall p :: p in proc ==> proc[p].b != b)
      modifies `bh
      ensures Valid() && Waiting() == old(Waiting()) && bh == old(bh)[b := x]
    {
      BufferKeeps(bh, request, owner, proc, drivers, b, x);
      assert Unique(bh[b := x]);
      hide Rows, Placed, Ordered, Owned, Unique, KeysOf;
      bh := bh[b := x];
    }

    /** A process sleeping in make_request runs again. */
    method Resume(p: int) returns (ghost note: Note)
      requires Valid() && p in proc
      modifies this
      ensures Valid() && Stepped(drivers, Op.Wake(p), old(Sn()), note, Sn())
    {
      hide Rows, Placed, Ordered, Owned, Unique, KeysOf, Locking, Slotted, Noted;
      if proc[p].ForLock? {
        note := LockBuffer(p, false);
      } else {
        note := TakeSlot(p, false);
      }
    }

    /** One event; nothing happens where it could not occur. */
    method Step(op: Op) returns (ghost note: Note)
      requires Valid()
      modifies this
      ensures Valid() && Stepped(drivers, op, old(Sn()), note, Sn())
    {
      hide Rows, Placed, Ordered, Owned, Unique, KeysOf, Locking, Slotted, Completed, NoSlot;
      RowsSized(request, current, queue);
      note := Quiet;
      match op
      case Begin(p, cmd, ahead, b) =>
        if 0 <= b < |bh| && p !in proc { note := LlRwBlock(p, cmd, ahead, b); }
      case Wake(p) =>
        if p in proc { note := Resume(p); }
      case End(m, ok) =>
        if 0 <= m < NR_BLK_DEV {
          HeadWaits(request, current, queue, m);
          if current[m] != NULL { note := EndRequest(m, ok); }
        }
      case Advanced(m) =>
        if 0 <= m < NR_BLK_DEV && current[m] != NULL { Advance(m); }
      case Changed(b, x) =>
        if 0 <= b < |bh| && x.lock == bh[b].lock {
          var free := !x.lock && x.dev != 0 && forall p :: p in proc ==> proc[p].b != b;
          if Keyed(x, bh[b].dev, bh[b].block) || (free && forall c :: 0 <= c < |bh| ==> !Keyed(bh[c], x.dev, x.block)) {
            Change(b, x);
          }
        }
    }

    /** Any run: at every device the queue stays two ascending sweeps at most, and
        every request waiting at the start is served, if it was served at all,
        after two ascending sweeps at most, whatever was queued meanwhile. */
    method Run(ops: seq<Op>) returns (ghost snaps: seq<Snap>, ghost notes: seq<Note>)
      requires Valid()
      modifies this
      ensures Valid() && |old(done)| == NR_BLK_DEV
      ensures |notes| == |ops| && |snaps| == |ops| + 1 && snaps[0] == old(Sn()) && snaps[|ops|] == Sn()
      ensures forall k :: 0 <= k < |ops| ==> Stepped(drivers, ops[k], snaps[k], notes[k], snaps[k + 1])
      ensures forall m :: 0 <= m < NR_BLK_DEV ==> E.Sweeps(Waiting()[m]) && old(done)[m] <= done[m]
      ensures forall m :: 0 <= m < NR_BLK_DEV ==> InTurn(old(Waiting())[m], done[m][|old(done)[m]|..] + Waiting()[m])
    {
      hide Rows, Placed, Owned, Unique, KeysOf, Noted, Stepped, Tracked, InTurn, E.Sweeps;
      snaps, notes := [Sn()], [];
      ghost var start, done0 := Waiting(), done;
      ghost var es: seq<seq<E.Event>> := seq(NR_BLK_DEV, _ => []);
      forall m | 0 <= m < NR_BLK_DEV
        ensures Tracked(start[m], done0[m], es[m], start[m], done0[m])
      {
        TrackedNone(start[m], done0[m]);
      }
      for i := 0 to |ops|
        invariant Valid() && |es| == |start| == |done0| == NR_BLK_DEV
        invariant |notes| == i && |snaps| == i + 1 && snaps[0] == old(Sn()) && snaps[i] == Sn()
        invariant forall k :: 0 <= k < i ==> Stepped(drivers, ops[k], snaps[k], notes[k], snaps[k + 1])
        invariant forall m :: 0 <= m < NR_BLK_DEV ==> Tracked(start[m], done0[m], es[m], Waiting()[m], done[m])
      {
        ghost var before, done1 := Waiting(), done;
        ghost var note := Step(ops[i]);
        SteppedNoted(drivers, ops[i], snaps[i], note, Sn());
        snaps, notes := snaps + [Sn()], notes + [note];
        es := Noting(start, done0, es, before, done1, note, Waiting(), done);
      }
      forall m | 0 <= m < NR_BLK_DEV
        ensures E.Sweeps(Waiting()[m]) && done0[m] <= done[m] && InTurn(start[m], done[m][|done0[m]|..] + Waiting()[m])
      {
        SweepsAt(old(request), old(queue), m);
        SweepsAt(request, queue, m);
        TrackedInTurn(start[m], done0[m], es[m], Waiting()[m], done[m]);
      }
    }
  }

  lemma SteppedNoted(drivers: set<int>, op: Op, a: Snap, note: Note, c: Snap)
    requires Stepped(drivers, op, a, note, c)
    ensures Noted(a.waiting, a.done, note, c.waiting, c.done)
  { }

  /** The buffer of a request is locked and has the key of the request. */
  lemma HeadBuffer(bh: seq<Buf>, request: seq<Request>, owner: map<int, Owner>, proc: map<int, Pc>, drivers: set<int>,
                   r: int)
    requires Owned(bh, request, owner, proc, drivers) && 0 <= r < |request| && request[r].dev >= 0
    ensures 0 <= request[r].bh < |bh| && bh[request[r].bh].lock
    ensures Keyed(bh[request[r].bh], KeyOf(request[r]).dev, KeyOf(request[r]).block)
  {
    assert Filled(bh, owner, drivers, r, request[r]);
  }

  lemma HeadWaits(request: seq<Request>, current: seq<int>, queue: seq<seq<int>>, m: int)
    requires Rows(request, current, queue) && 0 <= m < NR_BLK_DEV && |current| == NR_BLK_DEV
    requires Ordered(request, queue)
    ensures |queue| == NR_BLK_DEV && forall g :: 0 <= g < NR_BLK_DEV ==> InRange(queue[g], |request|)
    ensures current[m] == NULL <==> KeysOf(request, queue)[m] == []
  {
    assert Row(request, current[m], queue[m]);
  }

  /** Slot r is filled and in no queue; the queues share no slot, and no request
      of queue m has its key. */
  ghost predicate Joinable(request: seq<Request>, queue: seq<seq<int>>, m: int, r: int) {
    && |request| == NR_REQUEST && |queue| == NR_BLK_DEV && 0 <= m < NR_BLK_DEV && 0 <= r < NR_REQUEST
       && request[r].dev >= 0
    && (forall g :: 0 <= g < NR_BLK_DEV ==> r !in queue[g] && (g != m ==> forall s :: s in queue[m] ==> s !in queue[g]))
    && InRange(queue[m], NR_REQUEST) && E.Distinct(Keys(request, queue[m]))
    && forall s :: s in queue[m] ==>
         0 <= s < NR_REQUEST && request[s].dev >= 0 && KeyOf(request[s]) != KeyOf(request[r])
  }

  lemma AddedRows(request: seq<Request>, current: seq<int>, queue: seq<seq<int>>, m: int, r: int)
    requires Rows(request, current, queue) && Joinable(request, queue, m, r)
    ensures |request| == NR_REQUEST && |current| == |queue| == NR_BLK_DEV && 0 <= m < NR_BLK_DEV && 0 <= r < NR_REQUEST
    ensures InRange(queue[m], |request|) && (current[m] == NULL <==> queue[m] == [])
    ensures var request' := if queue[m] == [] then request[r := request[r].(next := NULL)]
                            else LinkedIn(request, queue[m], E.Place(Keys(request, queue[m]), KeyOf(request[r])), r,
                                          request[r]);
      var q' := Joined(request, queue[m], r, KeyOf(request[r]));
      SameButNext(request, request')
      && Rows(request', if queue[m] == [] then current[m := r] else current, queue[m := q'])
  {
    var q := queue[m];
    assert Row(request, current[m], q);
    if q == [] {
      FreeRows(request, current, queue, r, request[r].(next := NULL));
      FirstRow(request[r := request[r].(next := NULL)], current, queue, m, r);
    } else {
      var p := E.Place(Keys(request, q), KeyOf(request[r]));
      assert q[p - 1] in q;
      JoinRows(request, current, queue, m, p, r);
      LinkedNext(request, q, p, r, request[r]);
    }
  }

  /** The two stores that link r in behind tmp. */
  function Relinked(request: seq<Request>, tmp: int, r: int): seq<Request>
    requires 0 <= tmp < |request| && 0 <= r < |request|
  {
    var request1 := request[r := request[r].(next := request[tmp].next)];
    request1[tmp := request1[tmp].(next := r)]
  }

  /** Slot r can be linked into the queue from head. */
  ghost predicate Linkable(request: seq<Request>, head: int, q: seq<int>, r: int) {
    && Row(request, head, q) && 0 <= r < |request| && request[r].dev >= 0 && q != [] && E.Distinct(Keys(request, q))
    && forall s :: s in q ==> 0 <= s < |request| && request[s].dev >= 0 && KeyOf(request[s]) != KeyOf(request[r])
  }

  /** Both ways through add_request, from the slot's first store on. */
  lemma AddPath(request: seq<Request>, current: seq<int>, queue: seq<seq<int>>, m: int, r: int)
    requires Rows(request, current, queue) && Joinable(request, queue, m, r)
    ensures |request| == NR_REQUEST && |current| == |queue| == NR_BLK_DEV && 0 <= m < NR_BLK_DEV && 0 <= r < NR_REQUEST
    ensures InRange(queue[m], |request|)
    ensures var request' := request[r := request[r].(next := NULL)]; var q := queue[m];
        var q' := Joined(request, q, r, KeyOf(request[r]));
      if current[m] == NULL then q' == [r] && SameButNext(request, request')
         && Rows(request', current[m := r], queue[m := q'])
      else
        && Linkable(request', current[m], q, r)
        && var linked := Relinked(request', q[E.Place(Keys(request', q), KeyOf(request'[r])) - 1], r);
           SameButNext(request, linked) && Rows(linked, current, queue[m := q'])
  {
    hide Rows, SameButNext, Joinable, Linkable, Relinked, LinkedIn, Joined, E.Distinct, E.Place, Keys, InRange;
    AddedRows(request, current, queue, m, r);
    JoinedIs(request, queue[m], r);
    if queue[m] != [] { FreeSlotRows(request, current, queue, m, r); }
  }

  lemma FreeSlotRows(request: seq<Request>, current: seq<int>, queue: seq<seq<int>>, m: int, r: int)
    requires Rows(request, current, queue) && Joinable(request, queue, m, r) && queue[m] != []
    ensures var request' := request[r := request[r].(next := NULL)]; var q := queue[m];
      && Linkable(request', current[m], q, r)
      && E.Place(Keys(request', q), KeyOf(request'[r])) == E.Place(Keys(request, q), KeyOf(request[r]))
      && Relinked(request', q[E.Place(Keys(request', q), KeyOf(request'[r])) - 1], r)
         == LinkedIn(request, q, E.Place(Keys(request, q), KeyOf(request[r])), r, request[r])
  {
    var q := queue[m];
    var request' := request[r := request[r].(next := NULL)];
    FreeRows(request, current, queue, r, request[r].(next := NULL));
    FreeSlotKeys(request, q, r, request[r].(next := NULL));
    assert Row(request', current[m], q);
    hide Rows, Relinked, LinkedIn, E.Place, E.Distinct, Keys;
    var p := E.Place(Keys(request, q), KeyOf(request[r]));
    assert q[p - 1] in q;
    RelinkedIs(request, q, p, r);
  }

  lemma RelinkedIs(request: seq<Request>, q: seq<int>, p: int, r: int)
    requires InRange(q, |request|) && 0 <= r < |request| && 1 <= p <= |q| && q[p - 1] != r
    ensures Relinked(request[r := request[r].(next := NULL)], q[p - 1], r) == LinkedIn(request, q, p, r, request[r])
  { }

  lemma JoinedIs(request: seq<Request>, q: seq<int>, r: int)
    requires InRange(q, |request|) && 0 <= r < |request|
    ensures Joined(request, q, r, KeyOf(request[r])) == if q == [] then [r] else
      var p := E.Place(Keys(request, q), KeyOf(request[r])); q[..p] + [r] + q[p..]
  { }

  lemma FreeSlotKeys(request: seq<Request>, q: seq<int>, r: int, x: Request)
    requires InRange(q, |request|) && 0 <= r < |request| && r !in q
    ensures Keys(request[r := x], q) == Keys(request, q) && forall s :: s in q ==> request[r := x][s] == request[s]
  {
    forall i | 0 <= i < |q| ensures q[i] != r { assert q[i] in q; }
  }

  lemma FirstRow(request: seq<Request>, current: seq<int>, queue: seq<seq<int>>, m: int, r: int)
    requires Rows(request, current, queue) && 0 <= m < NR_BLK_DEV && 0 <= r < NR_REQUEST && current[m] == NULL
             && request[r].next == NULL
    ensures queue[m] == [] && Rows(request, current[m := r], queue[m := [r]])
  {
    assert Row(request, current[m], queue[m]);
  }

  lemma KeysApartAt(request: seq<Request>, q: seq<int>, i: nat)
    requires InRange(q, |request|) && E.Distinct(Keys(request, q)) && i + 1 < |q|
    ensures KeyOf(request[q[i]]) != KeyOf(request[q[i + 1]])
  {
    assert Keys(request, q)[i] != Keys(request, q)[i + 1];
  }

  lemma FreeRows(request: seq<Request>, current: seq<int>, queue: seq<seq<int>>, r: int, x: Request)
    requires Rows(request, current, queue) && 0 <= r < NR_REQUEST && forall g :: 0 <= g < NR_BLK_DEV ==> r !in queue[g]
    ensures Rows(request[r := x], current, queue)
  {
    forall g | 0 <= g < NR_BLK_DEV ensures Row(request[r := x], current[g], queue[g]) {
      assert Row(request, current[g], queue[g]);
      forall i | 0 <= i < |queue[g]| ensures queue[g][i] != r { assert queue[g][i] in queue[g]; }
      RowFrame(request, request[r := x], current[g], queue[g]);
    }
  }

  lemma JoinRows(request: seq<Request>, current: seq<int>, queue: seq<seq<int>>, m: int, p: int, r: int)
    requires Rows(request, current, queue) && 0 <= m < NR_BLK_DEV && 0 <= r < NR_REQUEST && 1 <= p <= |queue[m]|
    requires forall g :: 0 <= g < NR_BLK_DEV ==> r !in queue[g]
    requires forall g :: 0 <= g < NR_BLK_DEV && g != m ==> queue[m][p - 1] !in queue[g]
    ensures InRange(queue[m], |request|)
            && Rows(LinkedIn(request, queue[m], p, r, request[r]), current,
                    queue[m := queue[m][..p] + [r] + queue[m][p..]])
  {
    var q := queue[m];
    var request' := LinkedIn(request, q, p, r, request[r]);
    assert Row(request, current[m], q);
    RowInsert(request, current[m], q, p, r, request[r]);
    LinkedNext(request, q, p, r, request[r]);
    forall g | 0 <= g < NR_BLK_DEV && g != m ensures Row(request', current[g], queue[g]) {
      assert Row(request, current[g], queue[g]);
      forall i | 0 <= i < |queue[g]|
        ensures queue[g][i] != r && queue[g][i] != q[p - 1]
      {
        assert queue[g][i] in queue[g];
      }
      RowFrame(request, request', current[g], queue[g]);
    }
  }

  lemma WaitsFor(bh: seq<Buf>, request: seq<Request>, owner: map<int, Owner>, proc: map<int, Pc>, drivers: set<int>,
                 p: int)
    requires Owned(bh, request, owner, proc, drivers) && p in proc
    ensures Waits(bh, owner, drivers, p, proc[p])
  { }

  lemma RowsSized(request: seq<Request>, current: seq<int>, queue: seq<seq<int>>)
    requires Rows(request, current, queue)
    ensures |request| == NR_REQUEST && |current| == |queue| == NR_BLK_DEV
  { }

  lemma FlagsKeepKeys(bh: seq<Buf>, b: int, x: Buf)
    requires Unique(bh) && 0 <= b < |bh| && Keyed(x, bh[b].dev, bh[b].block)
    ensures Unique(bh[b := x])
  { }

  lemma BeginOwned(bh: seq<Buf>, request: seq<Request>, owner: map<int, Owner>, proc: map<int, Pc>, drivers: set<int>,
                   p: int, pc: Pc)
    requires Owned(bh, request, owner, proc, drivers) && p !in proc && pc.ForLock? && Waits(bh, owner, drivers, p, pc)
    ensures Owned(bh, request, owner, proc[p := pc], drivers)
  { }

  /** Filling a free slot keeps the queues and makes it ready to join its own. */
  lemma FillJoinable(bh: seq<Buf>, request: seq<Request>, owner: map<int, Owner>, proc: map<int, Pc>, drivers: set<int>,
                     current: seq<int>, queue: seq<seq<int>>, p: int, r: int, x: Request)
    requires Whole(bh, request, current, owner, proc, drivers, queue) && p in proc && proc[p].ForSlot?
    requires var b := proc[p].b;
        0 <= b < |bh| && x == Request(bh[b].dev, CmdCode(proc[p].cmd), 2 * bh[b].block, 2, b, NULL)
    requires 0 <= r < NR_REQUEST && request[r].dev < 0 && (x.cmd == 1 ==> r < NR_REQUEST * 2 / 3)
    ensures 0 <= proc[p].major < NR_BLK_DEV && Major(x.dev) == proc[p].major && x.dev >= 0
    ensures Rows(request[r := x], current, queue) && Joinable(request[r := x], queue, proc[p].major, r)
    ensures KeyOf(request[r := x][r]) == KeyOf(x) == E.Key(CmdCode(proc[p].cmd), bh[proc[p].b].dev, bh[proc[p].b].block)
    ensures InRange(queue[proc[p].major], |request|)
    ensures Joined(request[r := x], queue[proc[p].major], r, KeyOf(x))
            == Joined(request, queue[proc[p].major], r, KeyOf(x))
  {
    assert Waits(bh, owner, drivers, p, proc[p]);
    var m := proc[p].major;
    var request' := request[r := x];
    assert Row(request, current[m], queue[m]);
    forall g | 0 <= g < NR_BLK_DEV ensures r !in queue[g] { }
    FreeRows(request, current, queue, r, x);
    FreeSlotKeys(request, queue[m], r, x);
    SubmitOwned(bh, request, owner, proc, drivers, p, r, x, request');
    OwnedApart(bh[x.bh := bh[x.bh].(dirt := false)], request', owner[x.bh := Slot(r)], proc - {p}, drivers);
    forall s | s in queue[m]
      ensures 0 <= s < NR_REQUEST && request'[s].dev >= 0 && KeyOf(request'[s]) != KeyOf(request'[r])
    {
      var i :| 0 <= i < |queue[m]| && queue[m][i] == s;
      OwnedDev(bh, request, owner, proc, drivers, s);
    }
    assert forall g, s :: 0 <= g < NR_BLK_DEV && g != m && s in queue[m] ==> s !in queue[g];
  }

  /** make_request's last step, put together. */
  lemma SubmitKeeps(bh: seq<Buf>, request: seq<Request>, owner: map<int, Owner>, proc: map<int, Pc>, drivers: set<int>,
                    current: seq<int>, queue: seq<seq<int>>, p: int, r: int, x: Request, request': seq<Request>,
                    current': seq<int>, m: int, done: seq<seq<E.Key>>)
    requires Whole(bh, request, current, owner, proc, drivers, queue)
    requires p in proc && proc[p].ForSlot? && m == proc[p].major && |request| == NR_REQUEST
    requires var b := proc[p].b;
        0 <= b < |bh| && x == Request(bh[b].dev, CmdCode(proc[p].cmd), 2 * bh[b].block, 2, b, NULL)
    requires 0 <= r < NR_REQUEST && request[r].dev < 0 && (x.cmd == 1 ==> r < NR_REQUEST * 2 / 3)
    requires |done| == NR_BLK_DEV && SameButNext(request[r := x], request') && |queue| == NR_BLK_DEV
             && 0 <= m < NR_BLK_DEV && InRange(queue[m], |request|)
    requires Rows(request', current', queue[m := Joined(request, queue[m], r, KeyOf(x))])
    ensures var queue' := queue[m := Joined(request, queue[m], r, KeyOf(x))];
        var bh' := bh[x.bh := bh[x.bh].(dirt := false)];
      && Whole(bh', request', current', owner[x.bh := Slot(r)], proc - {p}, drivers, queue')
      && Noted(KeysOf(request, queue), done, On(m, E.Add(KeyOf(x))), KeysOf(request', queue'), done)
  {
    WaitsFor(bh, request, owner, proc, drivers, p);
    SubmitOwned(bh, request, owner, proc, drivers, p, r, x, request');
    FlagsKeepKeys(bh, x.bh, bh[x.bh].(dirt := false));
    SubmitOrdered(bh[x.bh := bh[x.bh].(dirt := false)], request, owner[x.bh := Slot(r)], proc - {p}, drivers, queue, r,
                  x, request', m);
    hide Owned, Unique, Waits;
    JoinedKeys(request, queue[m], r, x, request');
    SubmitPlaced(request, queue, r, x, request', m, Joined(request, queue[m], r, KeyOf(x)));
  }

  lemma HeadIs(request: seq<Request>, current: seq<int>, queue: seq<seq<int>>, m: int)
    requires Rows(request, current, queue) && Placed(request, queue) && 0 <= m < NR_BLK_DEV && |current| == NR_BLK_DEV
             && current[m] != NULL
    ensures |request| == NR_REQUEST && |queue| == NR_BLK_DEV && queue[m] != [] && 0 <= current[m] < |request|
            && request[current[m]].dev >= 0
    ensures InRange(queue[m], |request|) && Keys(request, queue[m])[0] == KeyOf(request[current[m]])
  {
    assert Row(request, current[m], queue[m]);
    assert queue[m][0] in queue[m];
  }

  lemma EndKeys(request: seq<Request>, queue: seq<seq<int>>, m: int, request': seq<Request>)
    requires |queue| == NR_BLK_DEV && 0 <= m < NR_BLK_DEV && queue[m] != []
    requires forall g :: 0 <= g < NR_BLK_DEV ==> InRange(queue[g], |request|) && InRange(queue[g], |request'|)
    requires InRange(queue[m][1..], |request'|) && Keys(request', queue[m][1..]) == Keys(request, queue[m])[1..]
    requires forall g :: 0 <= g < NR_BLK_DEV && g != m ==> Keys(request', queue[g]) == Keys(request, queue[g])
    ensures var queue' := queue[m := queue[m][1..]]; forall g :: 0 <= g < NR_BLK_DEV ==> InRange(queue'[g], |request'|)
    ensures KeysOf(request', queue[m := queue[m][1..]]) == KeysOf(request, queue)[m := Keys(request, queue[m])[1..]]
  { }

  lemma SameKeys(request: seq<Request>, request': seq<Request>, queue: seq<seq<int>>)
    requires |queue| == NR_BLK_DEV
    requires forall g :: 0 <= g < NR_BLK_DEV ==> InRange(queue[g], |request|) && InRange(queue[g], |request'|)
    requires forall g :: 0 <= g < NR_BLK_DEV ==> Keys(request', queue[g]) == Keys(request, queue[g])
    ensures KeysOf(request', queue) == KeysOf(request, queue)
  { }

  /** The events es lead from queue q to queue q', completing what is new in done. */
  ghost predicate Tracked(q: seq<E.Key>, done: seq<E.Key>, es: seq<E.Event>, q': seq<E.Key>, done': seq<E.Key>) {
    E.Possible(q, es) && E.Final(q, es) == q' && done' == done + E.Served(q, es)
  }

  lemma TrackedMore(q: seq<E.Key>, done: seq<E.Key>, es: seq<E.Event>, q': seq<E.Key>, done': seq<E.Key>, e: E.Event)
    requires Tracked(q, done, es, q', done') && E.Fits(q', e)
    ensures Tracked(q, done, es + [e], E.After(q', e), if e.Done? then done' + [q'[0]] else done')
  {
    E.OneMore(q, es, e);
  }

  ghost function Noting(start: seq<seq<E.Key>>, done0: seq<seq<E.Key>>, es: seq<seq<E.Event>>, keys: seq<seq<E.Key>>,
                        done: seq<seq<E.Key>>, note: Note, keys': seq<seq<E.Key>>,
                        done': seq<seq<E.Key>>): (es': seq<seq<E.Event>>)
    requires |start| == |done0| == |es| == |keys| == |done| == NR_BLK_DEV && Noted(keys, done, note, keys', done')
    requires forall m :: 0 <= m < NR_BLK_DEV ==> Tracked(start[m], done0[m], es[m], keys[m], done[m])
    ensures |es'| == |keys'| == |done'| == NR_BLK_DEV
    ensures forall m :: 0 <= m < NR_BLK_DEV ==> Tracked(start[m], done0[m], es'[m], keys'[m], done'[m])
  {
    match note
    case Quiet => es
    case On(m, e) =>
      TrackedMore(start[m], done0[m], es[m], keys[m], done[m], e);
      es[m := es[m] + [e]]
  }

  lemma SweepsAt(request: seq<Request>, queue: seq<seq<int>>, m: int)
    requires Ordered(request, queue) && 0 <= m < NR_BLK_DEV
    ensures E.Sweeps(KeysOf(request, queue)[m])
  { }

  lemma TrackedNone(q: seq<E.Key>, done: seq<E.Key>)
    ensures Tracked(q, done, [], q, done)
  { }

  lemma TrackedInTurn(q: seq<E.Key>, done: seq<E.Key>, es: seq<E.Event>, q': seq<E.Key>, done': seq<E.Key>)
    requires Tracked(q, done, es, q', done') && E.Sweeps(q)
    ensures done <= done' && InTurn(q, done'[|done|..] + q')
  {
    TakenInTurn(q, es);
    assert done'[|done|..] == E.Served(q, es);
  }

  lemma TakenInTurn(q: seq<E.Key>, es: seq<E.Event>)
    requires E.Possible(q, es) && E.Sweeps(q)
    ensures InTurn(q, E.Served(q, es) + E.Final(q, es))
  {
    E.LineIs(q, es);
    forall x | x in q
      ensures x in E.Line(q, es) && E.Descents(E.Until(E.Line(q, es), x)) <= 1
    {
      E.ServedWithinTwoSweeps(q, es, x);
    }
  }
}
