/** fs/buffer.c: getblk, get_hash_table and brelse, cut at their sleep points.
    Between two sleeps a process runs alone; while it sleeps the others may do
    anything they are able to do. */
module BufferCache {
  import opened BufferLists
  import opened Sequences

  const NR_HASH: int := 307

  /** b_dev = 0 marks a buffer that was never used. */
  datatype Buf = Buf(dev: nat, block: nat, uptodate: bool, dirt: bool, count: nat, lock: bool)

  /** Where a process sleeps: in get_hash_table (called by getblk or not), on
      buffer_wait, in getblk for the buffer it picked, or in brelse. */
  datatype Pc =
    | InHash(dev: nat, block: nat, b: int, getblk: bool)
    | OnList(dev: nat, block: nat)
    | OnVictim(dev: nat, block: nat, b: int)
    | InRelease(b: int)

  /** Bitwise exclusive or. */
  function Xor(a: nat, b: nat): nat {
    if a == 0 && b == 0 then 0 else (a % 2 + b % 2) % 2 + 2 * Xor(a / 2, b / 2)
  }

  function Hash(dev: nat, block: nat): (h: int)
    ensures 0 <= h < NR_HASH
  {
    Xor(dev, block) % NR_HASH
  }

  predicate Keyed(x: Buf, dev: nat, block: nat) { x.dev == dev && x.block == block }

  ghost predicate OfHash(bh: seq<Buf>, c: seq<int>, h: int) {
    forall b :: b in c ==> 0 <= b < |bh| && bh[b].dev != 0 && Hash(bh[b].dev, bh[b].block) == h
  }

  /** Every used buffer is in the chain of its key, and no other buffer is. */
  ghost predicate Members(bh: seq<Buf>, chains: seq<seq<int>>) {
    && |chains| == NR_HASH
    && (forall h :: 0 <= h < NR_HASH ==> OfHash(bh, chains[h], h))
    && (forall b :: 0 <= b < |bh| && bh[b].dev != 0 ==> b in chains[Hash(bh[b].dev, bh[b].block)])
  }

  ghost predicate Linked(n: int, next: seq<int>, prev: seq<int>, table: seq<int>, chains: seq<seq<int>>) {
    && |next| == |prev| == n && |table| == |chains| == NR_HASH
    && (forall h :: 0 <= h < NR_HASH ==> Chain(next, prev, table[h], chains[h]))
  }

  ghost predicate Hashed(bh: seq<Buf>, next: seq<int>, prev: seq<int>, table: seq<int>, chains: seq<seq<int>>) {
    Members(bh, chains) && Linked(|bh|, next, prev, table, chains)
  }

  /** Buffers never used have no neighbours in a chain. */
  ghost predicate Blank(bh: seq<Buf>, next: seq<int>, prev: seq<int>) {
    |next| == |prev| == |bh| && forall b :: 0 <= b < |bh| && bh[b].dev == 0 ==> next[b] == prev[b] == NULL
  }

  /** The free list holds every buffer exactly once. */
  ghost predicate Listed(n: int, nextFree: seq<int>, prevFree: seq<int>, head: int, ring: seq<int>) {
    && |ring| == |nextFree| == n && Ring(nextFree, prevFree, head, ring) && forall b :: 0 <= b < n ==> b in ring
  }

  /** At most one buffer per (dev, block). */
  ghost predicate Unique(bh: seq<Buf>) {
    forall b, c :: 0 <= b < |bh| && 0 <= c < |bh| && bh[b].dev != 0 && Keyed(bh[c], bh[b].dev, bh[b].block) ==> b == c
  }

  /** What process p relies on while it sleeps. */
  ghost predicate Sleeps(bh: seq<Buf>, holders: seq<multiset<int>>, p: int, pc: Pc)
    requires |holders| == |bh|
  {
    match pc
    case InHash(dev, block, b, _) => dev != 0 && 0 <= b < |bh| && p in holders[b] && Keyed(bh[b], dev, block)
    case OnList(dev, _) => dev != 0
    case OnVictim(dev, _, b) => dev != 0 && 0 <= b < |bh|
    case InRelease(b) => 0 <= b < |bh| && p in holders[b]
  }

  /** b_count counts the processes that hold the buffer. */
  ghost predicate Counted(bh: seq<Buf>, holders: seq<multiset<int>>, proc: map<int, Pc>) {
    && |holders| == |bh| && (forall b :: 0 <= b < |bh| ==> bh[b].count == |holders[b]|)
    && (forall p :: p in proc ==> Sleeps(bh, holders, p, proc[p]))
  }

  /** Only buffers that were unused, unlocked and clean changed their key. */
  ghost predicate Rekeyed(bh: seq<Buf>, bh': seq<Buf>) {
    && |bh| == |bh'|
    && forall b :: 0 <= b < |bh| && !Keyed(bh'[b], bh[b].dev, bh[b].block) ==>
         bh[b].count == 0 && !bh[b].lock && !bh[b].dirt
  }

  /** The buffers, who holds each (with multiplicity), who sleeps where, and the free
      list from its head on. */
  datatype State = State(bh: seq<Buf>, holders: seq<multiset<int>>, proc: map<int, Pc>, ring: seq<int>) {
    ghost predicate Shaped() { |holders| == |bh| }
  }

  ghost predicate Absent(bh: seq<Buf>, dev: nat, block: nat) { forall c :: 0 <= c < |bh| ==> !Keyed(bh[c], dev, block) }

  ghost predicate AllUsed(bh: seq<Buf>) { forall c :: 0 <= c < |bh| ==> bh[c].count != 0 }

  /** An unused buffer of least badness, the first such on the list. */
  ghost predicate Best(bh: seq<Buf>, ring: seq<int>, v: int) {
    && 0 <= v < |bh| && bh[v].count == 0
    && (forall c :: 0 <= c < |bh| && bh[c].count == 0 ==> Badness(bh[v]) <= Badness(bh[c]))
    && exists k :: 0 <= k < |ring| && ring[k] == v && WorseBefore(bh, ring, k, v)
  }

  /** The unused buffers among the first k of the list are all worse than v. */
  ghost predicate WorseBefore(bh: seq<Buf>, ring: seq<int>, k: int, v: int)
    requires 0 <= k <= |ring| && 0 <= v < |bh|
  {
    forall j :: 0 <= j < k && 0 <= ring[j] < |bh| && bh[ring[j]].count == 0 ==> Badness(bh[v]) < Badness(bh[ring[j]])
  }

  /** Buffer v has moved to the end of the list. */
  ghost predicate Recycled(ring: seq<int>, v: int, ring': seq<int>) {
    exists k :: 0 <= k < |ring| && ring[k] == v && ring' == Drop(ring, k) + [v]
  }

  /** The lookup hit buffer c: p holds it, and waits for it if it is locked. */
  ghost predicate Found(s: State, p: int, dev: nat, block: nat, getblk: bool, c: int, s': State)
    requires s.Shaped() && 0 <= c < |s.bh|
  {
    && s'.bh == s.bh[c := s.bh[c].(count := s.bh[c].count + 1)]
    && s'.holders == s.holders[c := s.holders[c] + multiset{p}] && s'.ring == s.ring
    && s'.proc == if s.bh[c].lock then s.proc[p := InHash(dev, block, c, getblk)] else s.proc
  }

  /** Victim v is taken for the key, or p waits until it is unlocked and clean. */
  ghost predicate Claimed(s: State, p: int, dev: nat, block: nat, v: int, b: int, s': State)
    requires s.Shaped() && 0 <= v < |s.bh|
  {
    if s.bh[v].lock || s.bh[v].dirt then b == NULL && s' == s.(proc := s.proc[p := OnVictim(dev, block, v)])
    else
      && b == v && s'.bh == s.bh[v := Buf(dev, block, false, false, 1, false)]
      && s'.holders == s.holders[v := multiset{p}] && s'.proc == s.proc && Recycled(s.ring, v, s'.ring)
  }

  /** getblk from its start to its next sleep or its end. */
  ghost predicate Got(s: State, p: int, dev: nat, block: nat, b: int, s': State)
    requires s.Shaped()
  {
    && (forall c :: 0 <= c < |s.bh| && Keyed(s.bh[c], dev, block) ==>
         Found(s, p, dev, block, true, c, s') && b == if s.bh[c].lock then NULL else c)
    && (Absent(s.bh, dev, block) ==>
         if AllUsed(s.bh) then b == NULL && s' == s.(proc := s.proc[p := OnList(dev, block)])
         else exists v :: Best(s.bh, s.ring, v) && Claimed(s, p, dev, block, v, b, s'))
  }

  function Without(s: State, p: int, c: int): State
    requires 0 <= c < |s.bh| == |s.holders| && s.bh[c].count > 0
  {
    s.(bh := s.bh[c := s.bh[c].(count := s.bh[c].count - 1)], holders := s.holders[c := s.holders[c] - multiset{p}])
  }

  /** What a sleeping process does when it runs again, up to its next sleep. */
  ghost predicate Resumed(s: State, p: int, b: int, s': State)
    requires s.Shaped() && p in s.proc && Sleeps(s.bh, s.holders, p, s.proc[p])
  {
    var awake := s.(proc := s.proc - {p});
    match s.proc[p]
    case InHash(_, _, c, _) => if s.bh[c].lock then b == NULL && s' == s else b == c && s' == awake
    case OnList(dev, block) => Got(awake, p, dev, block, b, s')
    case OnVictim(dev, block, c) =>
      if s.bh[c].lock then b == NULL && s' == s
      else if s.bh[c].count != 0 then Got(awake, p, dev, block, b, s')
      else if s.bh[c].dirt then b == NULL && s' == s
      else if !Absent(s.bh, dev, block) then Got(awake, p, dev, block, b, s')
      else Claimed(awake, p, dev, block, c, b, s')
    case InRelease(c) =>
      if s.bh[c].lock then b == NULL && s' == s
      else b == NULL && s.bh[c].count > 0 && s' == Without(awake, p, c)
  }

  /** Re-keying buffer b: out of its old chain, to the end of the free list and
      into the front of its new chain. */
  lemma HashedRemove(bh: seq<Buf>, next: seq<int>, prev: seq<int>, table: seq<int>, chains: seq<seq<int>>, b: int,
                     h: int, k: int)
    requires Hashed(bh, next, prev, table, chains) && 0 <= b < |bh| && bh[b].dev != 0
    requires h == Hash(bh[b].dev, bh[b].block) && 0 <= k < |chains[h]| && chains[h][k] == b
    ensures (next[b] != NULL ==> 0 <= next[b] < |bh|) && (prev[b] != NULL ==> 0 <= prev[b] < |bh|)
    ensures Hashed(bh[b := bh[b].(dev := 0)],
                   if prev[b] != NULL then next[prev[b] := next[b]] else next,
                   if next[b] != NULL then prev[next[b] := prev[b]] else prev,
                   if table[h] == b then table[h := next[b]] else table, chains[h := Drop(chains[h], k)])
  {
    hide Drop, Members;
    ChainRemove(next, prev, table[h], chains[h], k);
    NeighboursInChain(next, prev, table[h], chains[h], k);
    ChainMembers(next, prev, table[h], chains[h]);
    var next1 := if prev[b] != NULL then next[prev[b] := next[b]] else next;
    var prev1 := if next[b] != NULL then prev[next[b] := prev[b]] else prev;
    var table1 := if table[h] == b then table[h := next[b]] else table;
    forall g | 0 <= g < NR_HASH && g != h ensures Chain(next1, prev1, table1[g], chains[g]) {
      ChainsApart(bh, chains, g, h);
      ChainFrame2(next, prev, next1, prev1, table[g], chains[g], chains[h]);
    }
    MembersRemove(bh, chains, b, h, k);
  }

  lemma MembersRemove(bh: seq<Buf>, chains: seq<seq<int>>, b: int, h: int, k: int)
    requires Members(bh, chains) && 0 <= b < |bh| && bh[b].dev != 0
    requires h == Hash(bh[b].dev, bh[b].block) && 0 <= k < |chains[h]| && chains[h][k] == b && Distinct(chains[h])
    ensures Members(bh[b := bh[b].(dev := 0)], chains[h := Drop(chains[h], k)])
  {
    assert InRange(chains[h], |bh|) by {
      forall i | 0 <= i < |chains[h]| ensures 0 <= chains[h][i] < |bh| { assert chains[h][i] in chains[h]; }
    }
    hide Drop, Distinct, InRange;
    forall c ensures c in Drop(chains[h], k) <==> c in chains[h] && c != b { DropMembers(chains[h], k, |bh|, c); }
  }

  lemma ChainsApart(bh: seq<Buf>, chains: seq<seq<int>>, g: int, h: int)
    requires Members(bh, chains) && 0 <= g < NR_HASH && 0 <= h < NR_HASH && g != h
    ensures forall b :: b in chains[g] ==> b !in chains[h] && 0 <= b < |bh| && bh[b].dev != 0
  {
    assert OfHash(bh, chains[g], g) && OfHash(bh, chains[h], h);
  }

  lemma ChainMembers(next: seq<int>, prev: seq<int>, head: int, c: seq<int>)
    requires Chain(next, prev, head, c)
    ensures InRange(c, |next|) && Distinct(c) && (head != NULL ==> head in c)
  { }

  /** Links changed only inside chain d leave chain c alone. */
  lemma ChainFrame2(next: seq<int>, prev: seq<int>, next1: seq<int>, prev1: seq<int>, head: int, c: seq<int>,
                    d: seq<int>)
    requires Chain(next, prev, head, c) && |next1| == |next| && |prev1| == |prev|
    requires forall b :: 0 <= b < |next| && b !in d ==> next1[b] == next[b] && prev1[b] == prev[b]
    requires forall b :: b in c ==> b !in d
    ensures Chain(next1, prev1, head, c)
  {
    forall i | 0 <= i < |c| ensures next1[c[i]] == next[c[i]] && prev1[c[i]] == prev[c[i]] { assert c[i] in c; }
    ChainFrame(next, prev, next1, prev1, head, c);
  }

  lemma NeighboursInChain(next: seq<int>, prev: seq<int>, head: int, c: seq<int>, k: int)
    requires Chain(next, prev, head, c) && 0 <= k < |c|
    ensures next[c[k]] == NULL || next[c[k]] in c
    ensures prev[c[k]] == NULL || prev[c[k]] in c
  { }

  lemma DropMembers(s: seq<int>, k: int, n: int, c: int)
    requires 0 <= k < |s| && InRange(s, n) && Distinct(s)
    ensures c in Drop(s, k) <==> c in s && c != s[k]
  {
    DropFacts(s, k, n);
    if c in s && c != s[k] {
      var j :| 0 <= j < |s| && s[j] == c;
      assert Drop(s, k)[if j < k then j else j - 1] == c;
    }
  }

  lemma HashedPush(bh: seq<Buf>, next: seq<int>, prev: seq<int>, table: seq<int>, chains: seq<seq<int>>, b: int, x: Buf)
    requires Hashed(bh, next, prev, table, chains) && 0 <= b < |bh| && bh[b].dev == 0 && x.dev != 0
    ensures var h := Hash(x.dev, x.block);
      && (table[h] != NULL ==> 0 <= table[h] < |bh|)
      && Hashed(bh[b := x], next[b := table[h]],
                if table[h] != NULL then prev[b := NULL][table[h] := b] else prev[b := NULL],
                table[h := b], chains[h := [b] + chains[h]])
  {
    var h := Hash(x.dev, x.block);
    assert b !in chains[h];
    ChainMembers(next, prev, table[h], chains[h]);
    ChainPush(next, prev, table[h], chains[h], b);
    var next1 := next[b := table[h]];
    var prev1 := if table[h] != NULL then prev[b := NULL][table[h] := b] else prev[b := NULL];
    forall g | 0 <= g < NR_HASH && g != h ensures Chain(next1, prev1, table[g], chains[g]) {
      ChainsApart(bh, chains, g, h);
      ChainFrame2(next, prev, next1, prev1, table[g], chains[g], [b] + chains[h]);
    }
  }

  /** A buffer that has no device is in no chain, so its links are free. */
  lemma HashedFrame(bh: seq<Buf>, next: seq<int>, prev: seq<int>, table: seq<int>, chains: seq<seq<int>>, bh': seq<Buf>)
    requires Hashed(bh, next, prev, table, chains) && |bh'| == |bh|
    requires forall b :: 0 <= b < |bh| ==> Keyed(bh'[b], bh[b].dev, bh[b].block)
    ensures Hashed(bh', next, prev, table, chains)
  { }

  lemma ListedMove(n: int, next: seq<int>, prev: seq<int>, head: int, ring: seq<int>, k: int)
    requires Listed(n, next, prev, head, ring) && n >= 2 && 0 <= k < n
    ensures var b := ring[k];
      && 0 <= next[b] < n && 0 <= prev[b] < n
      && var next1 := next[prev[b] := next[b]]; var prev1 := prev[next[b] := prev[b]];
           var head1 := if head == b then next[b] else head;
      && 0 <= head1 < n && 0 <= prev1[head1] < n
      && Listed(n, next1[b := head1][prev1[head1] := b], prev1[b := prev1[head1]][head1 := b], head1,
                Drop(ring, k) + [b])
  {
    var b := ring[k];
    RingRemove(next, prev, head, ring, k);
    forall c ensures c in Drop(ring, k) <==> c in ring && c != b { DropMembers(ring, k, n, c); }
    var next1 := next[prev[b] := next[b]];
    var prev1 := prev[next[b] := prev[b]];
    RingAppend(next1, prev1, if head == b then next[b] else head, Drop(ring, k), b);
  }

  /** 2*dirty + locked: how unwelcome a victim is. */
  function Badness(x: Buf): nat { (if x.dirt then 2 else 0) + (if x.lock then 1 else 0) }

  class Cache {
    const n: nat
    var bh: seq<Buf>
    var next: seq<int>
    var prev: seq<int>
    var nextFree: seq<int>
    var prevFree: seq<int>
    var table: seq<int>
    var freeList: int
    var proc: map<int, Pc>
    ghost var ring: seq<int>
    ghost var chains: seq<seq<int>>
    /** The buffers each process has a pointer to. */
    var holders: seq<multiset<int>>

    /** Holds whenever every process sleeps or runs outside these functions. */
    ghost predicate Valid() reads this {
      && |bh| == n >= 2
      && Hashed(bh, next, prev, table, chains) && Listed(n, nextFree, prevFree, freeList, ring)
      && Unique(bh) && Counted(bh, holders, proc) && Blank(bh, next, prev)
    }

    ghost function St(): State reads this { State(bh, holders, proc, ring) }

    /** buffer_init: all buffers on the free list, no chains. */
    constructor Init(buffers: nat)
      requires buffers >= 2
      ensures Valid() && n == buffers && proc == map[] && forall b :: 0 <= b < n ==>
          bh[b] == Buf(0, 0, false, false, 0, false)
    {
      n := buffers;
      bh := seq(buffers, _ => Buf(0, 0, false, false, 0, false));
      next := seq(buffers, _ => NULL);
      prev := seq(buffers, _ => NULL);
      nextFree := seq(buffers, i => if i + 1 < buffers then i + 1 else 0);
      prevFree := seq(buffers, i => if i > 0 then i - 1 else buffers - 1);
      table := seq(NR_HASH, _ => NULL);
      freeList := 0;
      proc := map[];
      ring := seq(buffers, i => i);
      chains := seq(NR_HASH, _ => []);
      holders := seq(buffers, _ => multiset{});
      new;
      forall b | 0 <= b < n ensures b in ring { assert ring[b] == b; }
    }

    /** find_buffer walks one chain; it agrees with a search of all buffers. */
    method FindBuffer(dev: nat, block: nat) returns (b: int)
      requires Valid() && dev != 0
      ensures b == NULL <==> Absent(bh, dev, block)
      ensures b != NULL ==> 0 <= b < n && Keyed(bh[b], dev, block)
    {
      ghost var h := Hash(dev, block);
      ghost var c := chains[h];
      assert Chain(next, prev, table[h], c);
      b := table[Hash(dev, block)];
      ghost var i := 0;
      while b != NULL && !Keyed(bh[b], dev, block)
        invariant 0 <= i <= |c| && b == At(c, i)
        invariant forall j :: 0 <= j < i ==> !Keyed(bh[c[j]], dev, block)
        decreases |c| - i
      {
        b := next[b];
        i := i + 1;
      }
      if b == NULL {
        forall x | x in c ensures !Keyed(bh[x], dev, block) { var j :| 0 <= j < |c| && c[j] == x; }
        assert forall x :: 0 <= x < n && Keyed(bh[x], dev, block) ==> x in c;
      }
    }

    /** The scan of the free list in getblk: among the unused buffers the first of
        least badness; NULL exactly when every buffer is in use. */
    method PickVictim() returns (b: int)
      requires Valid()
      ensures b == NULL <==> AllUsed(bh)
      ensures b != NULL ==> Best(bh, ring, b)
    {
      b := NULL;
      var tmp := freeList;
      ghost var i, k := 0, 0;
      while true
        invariant 0 <= i < n && tmp == ring[i]
        invariant b == NULL ==> forall j :: 0 <= j < i ==> bh[ring[j]].count != 0
        invariant b != NULL ==> 0 <= b < n && bh[b].count == 0 && 0 < Badness(bh[b])
        invariant b != NULL ==> forall j :: 0 <= j < i && bh[ring[j]].count == 0 ==>
            Badness(bh[b]) <= Badness(bh[ring[j]])
        invariant b != NULL ==> 0 <= k < i && ring[k] == b && WorseBefore(bh, ring, k, b)
        decreases n - i
      {
        if bh[tmp].count == 0 {
          if b == NULL || Badness(bh[tmp]) < Badness(bh[b]) {
            b, k := tmp, i;
            if Badness(bh[tmp]) == 0 { return; }
          }
        }
        assert nextFree[ring[i]] == ring[Succ(i, n)];
        tmp := nextFree[tmp];
        if tmp == freeList {
          SamePlace(ring, Succ(i, n), 0);
          forall c | 0 <= c < n && bh[c].count == 0 ensures b != NULL && Badness(bh[b]) <= Badness(bh[c]) {
            assert c in ring;
            var j :| 0 <= j < n && ring[j] == c;
          }
          return;
        }
        i := i + 1;
      }
    }

    /** remove_from_queues, hash half. */
    method Unhash(b: int)
      requires 0 <= b < n == |bh| && Hashed(bh, next, prev, table, chains) && Blank(bh, next, prev)
      modifies `next, `prev, `table, `chains
      ensures Hashed(bh[b := bh[b].(dev := 0)], next, prev, table, chains)
      ensures forall c :: 0 <= c < n && c != b && bh[c].dev == 0 ==> next[c] == old(next[c]) && prev[c] == old(prev[c])
    {
      hide Hashed, Blank;
      ghost var h := Hash(bh[b].dev, bh[b].block);
      ghost var k := UnhashFacts(bh, next, prev, table, chains, b);
      if bh[b].dev != 0 {
        HashedRemove(bh, next, prev, table, chains, b, h, k);
        chains := chains[h := Drop(chains[h], k)];
      } else {
        HashedFrame(bh, next, prev, table, chains, bh[b := bh[b].(dev := 0)]);
      }
      if next[b] != NULL { prev := prev[next[b] := prev[b]]; }
      if prev[b] != NULL { next := next[prev[b] := next[b]]; }
      if table[Hash(bh[b].dev, bh[b].block)] == b { table := table[Hash(bh[b].dev, bh[b].block) := next[b]]; }
    }

    /** The free-list halves of remove_from_queues and insert_into_queues: the
        buffer ends up last, the others keep their order. */
    method Relist(b: int)
      requires 0 <= b < n && n >= 2 && Listed(n, nextFree, prevFree, freeList, ring)
      modifies `nextFree, `prevFree, `freeList, `ring
      ensures Listed(n, nextFree, prevFree, freeList, ring)
      ensures Recycled(old(ring), b, ring)
    {
      assert b in ring;
      ghost var k :| 0 <= k < |ring| && ring[k] == b;
      ListedMove(n, nextFree, prevFree, freeList, ring, k);
      ListedApart(n, nextFree, prevFree, freeList, ring, k);
      hide Listed;
      nextFree := nextFree[prevFree[b] := nextFree[b]];
      prevFree := prevFree[nextFree[b] := prevFree[b]];
      if freeList == b { freeList := nextFree[b]; }
      var last := prevFree[freeList];
      nextFree := nextFree[b := freeList];
      prevFree := prevFree[b := last];
      nextFree := nextFree[last := b];
      prevFree := prevFree[freeList := b];
      ring := Drop(ring, k) + [b];
    }

    /** getblk's last lines: the buffer is taken for (dev, block).  (The source
        stores through b_next even when it is NULL; that store is left out.) */
    method Rekey(p: int, b: int, dev: nat, block: nat)
      requires Valid() && 0 <= b < n && dev != 0
      requires bh[b].count == 0 && !bh[b].lock && !bh[b].dirt
      requires Absent(bh, dev, block)
      modifies this
      ensures Valid() && proc == old(proc) && Recycled(old(ring), b, ring)
      ensures bh == old(bh)[b := Buf(dev, block, false, false, 1, false)]
      ensures |old(holders)| == n && old(holders)[b] == multiset{} && holders == old(holders)[b := multiset{p}]
    {
      hide Hashed, Listed, Unique, Counted, Blank;
      var x := Buf(dev, block, false, false, 1, false);
      RekeyKeeps(bh, holders, proc, b, x, p);
      BlankIs(bh, next, prev);
      Unhash(b);
      ghost var bare := bh[b := bh[b].(dev := 0)];
      Relist(b);
      Rehash(b, x, bare);
      bh := bh[b := x];
      holders := holders[b := multiset{p}];
      assert bh == bare[b := x];
      BlankIs(bh, next, prev);
    }

    /** insert_into_queues, hash half. */
    method Rehash(b: int, x: Buf, ghost bare: seq<Buf>)
      requires 0 <= b < n == |bare| && bare[b].dev == 0 && x.dev != 0 && Hashed(bare, next, prev, table, chains)
      modifies `next, `prev, `table, `chains
      ensures Hashed(bare[b := x], next, prev, table, chains) && |next| == |prev| == n
      ensures forall c :: 0 <= c < n && c != b && bare[c].dev == 0 ==>
          next[c] == old(next[c]) && prev[c] == old(prev[c])
    {
      hide Hashed;
      RehashFacts(bare, next, prev, table, chains, x);
      HashedPush(bare, next, prev, table, chains, b, x);
      ghost var h := Hash(x.dev, x.block);
      prev := prev[b := NULL];
      next := next[b := table[Hash(x.dev, x.block)]];
      table := table[Hash(x.dev, x.block) := b];
      if next[b] != NULL { prev := prev[next[b] := b]; }
      chains := chains[h := [b] + chains[h]];
    }

    /** One more or one less user of a buffer. */
    method Adjust(p: int, b: int, up: bool)
      requires Valid() && 0 <= b < n && (up || p in holders[b]) && p !in proc
      modifies `bh, `holders
      ensures Valid() && proc == old(proc) && Rekeyed(old(bh), bh) && OthersKept(old(holders), holders, p)
      ensures |bh| == |old(bh)| == n && forall c :: 0 <= c < n && c != b ==> bh[c] == old(bh)[c]
      ensures bh[b] == old(bh)[b].(count := if up then old(bh)[b].count + 1 else old(bh)[b].count - 1)
      ensures |old(holders)| == n
              && holders == old(holders)[b := if up then old(holders)[b] + multiset{p}
                                              else old(holders)[b] - multiset{p}]
      ensures p in holders[b] || !up
    {
      hide Hashed, Listed, Unique, Counted, Blank, OthersKept, Rekeyed;
      CountedFacts(bh, holders, proc);
      AdjustKeeps(bh, next, prev, table, chains, holders, proc, b, p, up);
      AdjustFacts(bh, holders, proc, b, p, up);
      assert Keyed(bh[b].(count := if up then bh[b].count + 1 else bh[b].count - 1), bh[b].dev, bh[b].block);
      bh := bh[b := bh[b].(count := if up then bh[b].count + 1 else bh[b].count - 1)];
      holders := holders[b := if up then holders[b] + multiset{p} else holders[b] - multiset{p}];
    }

    method Sleep(p: int, pc: Pc)
      requires Valid() && Sleeps(bh, holders, p, pc)
      modifies `proc
      ensures Valid() && proc == old(proc)[p := pc]
    {
      proc := proc[p := pc];
    }

    /** get_hash_table up to its sleep: settled, or p sleeps holding the buffer. */
    method LookUp(p: int, dev: nat, block: nat, getblk: bool) returns (settled: bool, b: int)
      requires Valid() && dev != 0 && p !in proc
      modifies this
      ensures Valid() && old(St()).Shaped() && |old(bh)| == n
      ensures Absent(old(bh), dev, block) ==> settled && b == NULL && St() == old(St())
      ensures !Absent(old(bh), dev, block) ==>
        && 0 <= b < n && Keyed(old(bh)[b], dev, block) && settled == !old(bh)[b].lock
        && Found(old(St()), p, dev, block, getblk, b, St())
    {
      hide Hashed, Listed, Unique, Counted, Blank, Rekeyed, OthersKept;
      CountedFacts(bh, holders, proc);
      b := FindBuffer(dev, block);
      if b == NULL { return true, NULL; }
      Adjust(p, b, true);
      CountedFacts(bh, holders, proc);
      assert bh == old(bh)[b := bh[b]];
      if bh[b].lock {
        Sleep(p, InHash(dev, block, b, getblk));
        return false, b;
      }
      return true, b;
    }

    /** getblk from `repeat:` to its next sleep; NULL when p sleeps. */
    method GetBlk(p: int, dev: nat, block: nat) returns (b: int)
      requires Valid() && dev != 0 && p !in proc
      modifies this
      ensures Valid() && old(St()).Shaped() && Got(old(St()), p, dev, block, b, St())
    {
      ghost var was := St();
      CountedFacts(bh, holders, proc);
      hide Hashed, Listed, Unique, Counted, Blank, Found, Claimed, Got, Absent, AllUsed, Best;
      var settled;
      settled, b := LookUp(p, dev, block, true);
      if !Absent(was.bh, dev, block) { GotHit(was, p, dev, block, b, St()); }
      if !settled { return NULL; }
      if b != NULL { return; }
      b := PickVictim();
      if b == NULL {
        GotFull(was, p, dev, block);
        Sleep(p, OnList(dev, block));
        return;
      }
      ghost var v := b;
      BestFacts(bh, ring, v);
      b := Claim(p, dev, block, b);
      GotVictim(was, p, dev, block, v, b, St());
    }

    /** getblk after it picked an unused victim, up to its next sleep. */
    method Claim(p: int, dev: nat, block: nat, victim: int) returns (b: int)
      requires Valid() && dev != 0 && p !in proc && 0 <= victim < n && bh[victim].count == 0 && Absent(bh, dev, block)
      modifies this
      ensures Valid() && old(St()).Shaped() && |old(bh)| == n && Claimed(old(St()), p, dev, block, victim, b, St())
    {
      hide Hashed, Listed, Unique, Counted, Blank;
      CountedFacts(bh, holders, proc);
      if bh[victim].lock || bh[victim].dirt {
        Sleep(p, OnVictim(dev, block, victim));
        return NULL;
      }
      Rekey(p, victim, dev, block);
      return victim;
    }

    /** brelse up to its sleep.  The count of a held buffer is positive. */
    method Release(p: int, b: int)
      requires Valid() && 0 <= b < n && |holders| == n && p in holders[b] && p !in proc
      modifies this
      ensures Valid() && |old(bh)| == |old(holders)| == n && old(bh)[b].count > 0
      ensures St() == if old(bh)[b].lock then old(St()).(proc := old(proc)[p := InRelease(b)])
                      else Without(old(St()), p, b)
    {
      hide Hashed, Listed, Unique, Counted, Blank, Rekeyed, OthersKept;
      HeldFacts(bh, holders, proc, p, b);
      if bh[b].lock {
        Sleep(p, InRelease(b));
      } else {
        Adjust(p, b, false);
        assert bh == Without(old(St()), p, b).bh;
      }
    }

    /** A sleeping process runs again, up to its next sleep. */
    method Resume(p: int) returns (b: int)
      requires Valid() && p in proc
      modifies this
      ensures Valid() && old(St()).Shaped() && Sleeps(old(bh), old(holders), p, old(proc)[p])
              && Resumed(old(St()), p, b, St())
    {
      SleepFacts(bh, holders, proc, p);
      hide Hashed, Listed, Unique, Counted, Blank, Got, Claimed, Rekeyed, OthersKept;
      var pc := proc[p];
      b := NULL;
      match pc
      case InHash(dev, block, c, getblk) =>
        if bh[c].lock { return; }
        Awake(p);
        // The source checks the key again and starts over if it changed; a held
        // buffer keeps its key, so that branch is never taken.
        assert bh[c].dev == dev && bh[c].block == block;
        b := c;
      case OnList(dev, block) =>
        Awake(p);
        b := GetBlk(p, dev, block);
      case OnVictim(dev, block, c) =>
        if bh[c].lock { return; }
        Awake(p);
        if bh[c].count != 0 {
          b := GetBlk(p, dev, block);
        } else if bh[c].dirt {
          Sleep(p, pc);
          assert proc == old(proc);
        } else {
          var found := FindBuffer(dev, block);
          if found != NULL {
            b := GetBlk(p, dev, block);
          } else {
            b := Claim(p, dev, block, c);
          }
        }
      case InRelease(c) =>
        if bh[c].lock { return; }
        Awake(p);
        HeldFacts(bh, holders, proc, p, c);
        Adjust(p, c, false);
        assert bh == Without(old(St()), p, c).bh;
    }

    method Awake(p: int)
      requires Valid() && p in proc
      modifies `proc
      ensures Valid() && proc == old(proc) - {p}
    {
      hide Hashed, Listed, Unique, Blank;
      proc := proc - {p};
    }

    /** Disk traffic: any buffer may be locked, unlocked, filled, dirtied or cleaned. */
    method Traffic(b: int, lock: bool, dirt: bool, uptodate: bool)
      requires Valid() && 0 <= b < n
      modifies `bh
      ensures Valid() && Rekeyed(old(bh), bh)
              && bh == old(bh)[b := old(bh[b]).(lock := lock, dirt := dirt, uptodate := uptodate)]
    {
      TrafficKeeps(bh, next, prev, table, chains, holders, proc, b,
                   bh[b].(lock := lock, dirt := dirt, uptodate := uptodate));
      hide Hashed, Listed, Unique, Counted, Blank;
      bh := bh[b := bh[b].(lock := lock, dirt := dirt, uptodate := uptodate)];
    }

    /** One operation of one process, or disk traffic; nothing happens where the
        process could not issue it. */
    method Step(op: Op) returns (b: int)
      requires Valid()
      modifies this
      ensures Valid() && Moved(old(St()), op, St()) && Did(old(St()), op, b, St())
      ensures b != NULL && op.Get? ==> Served(bh, holders, op.p, op.dev, op.block, b)
    {
      ghost var was := St();
      MovedSelf(was, op);
      CountedFacts(bh, holders, proc);
      hide Hashed, Listed, Unique, Counted, Blank, Moved, Got, Found, Resumed, Sleeps, Served, Absent, Rekeyed,
           OthersKept;
      b := NULL;
      match op
      case Get(p, dev, block) =>
        if p !in proc && dev != 0 {
          b := GetBlk(p, dev, block);
          GotSafe(was, p, dev, block, b, St());
          MovedIs(was, op, St());
        }
      case Look(p, dev, block) =>
        if p !in proc && dev != 0 {
          var settled;
          settled, b := LookUp(p, dev, block, false);
          if !Absent(was.bh, dev, block) { FoundSafe(was, p, dev, block, false, b, St()); }
          MovedIs(was, op, St());
        }
      case Release(p, c) =>
        if p !in proc && 0 <= c < n && p in holders[c] {
          Release(p, c);
          ReleaseSafe(was, p, c, St());
          MovedIs(was, op, St());
        }
      case Wake(p) =>
        if p in proc {
          b := Resume(p);
          ResumedSafe(was, p, b, St());
          MovedIs(was, op, St());
        }
      case Traffic(c, lock, dirt, uptodate) =>
        if 0 <= c < n {
          Traffic(c, lock, dirt, uptodate);
          MovedIs(was, op, St());
        }
    }

    ghost function Lk(): Links reads this { Links(next, prev, table, chains, nextFree, prevFree, freeList) }

    /** Any interleaving of the processes, cut at their sleep points. */
    method Run(ops: seq<Op>) returns (bs: seq<int>, ghost trace: seq<State>, ghost links: seq<Links>)
      requires Valid()
      modifies this
      ensures Valid() && |trace| == |ops| + 1 && trace[0] == old(St()) && trace[|ops|] == St()
      ensures forall i :: 0 <= i < |trace| ==>
          Unique(trace[i].bh) && Counted(trace[i].bh, trace[i].holders, trace[i].proc)
      ensures |links| == |ops| + 1 && links[0] == old(Lk()) && links[|ops|] == Lk()
      ensures forall i :: 0 <= i < |trace| && i < |links| ==> WellLinked(n, trace[i], links[i])
      ensures |bs| == |ops| && forall i :: 0 <= i < |ops| ==>
          Moved(trace[i], ops[i], trace[i + 1]) && Did(trace[i], ops[i], bs[i], trace[i + 1])
    {
      hide Hashed, Listed, Unique, Counted, Blank, Moved, Did, Served;
      bs, trace, links := [], [St()], [Lk()];
      for i := 0 to |ops|
        invariant Valid() && |trace| == i + 1 && trace[0] == old(St()) && trace[i] == St()
        invariant forall j :: 0 <= j < |trace| ==>
            Unique(trace[j].bh) && Counted(trace[j].bh, trace[j].holders, trace[j].proc)
        invariant |links| == i + 1 && links[0] == old(Lk()) && links[i] == Lk()
        invariant forall j :: 0 <= j < |trace| && j < |links| ==> WellLinked(n, trace[j], links[j])
        invariant |bs| == i && forall j :: 0 <= j < i ==>
            Moved(trace[j], ops[j], trace[j + 1]) && Did(trace[j], ops[j], bs[j], trace[j + 1])
      {
        var b := Step(ops[i]);
        bs, trace, links := bs + [b], trace + [St()], links + [Lk()];
      }
    }
  }

  /** All the pointers. */
  datatype Links = Links(next: seq<int>, prev: seq<int>, table: seq<int>, chains: seq<seq<int>>, nextFree: seq<int>,
                         prevFree: seq<int>, freeList: int)

  /** Each buffer with a device is in the chain of its hash value, each buffer is on
      the free list, once. */
  ghost predicate WellLinked(n: int, s: State, l: Links) {
    Hashed(s.bh, l.next, l.prev, l.table, l.chains) && Listed(n, l.nextFree, l.prevFree, l.freeList, s.ring)
  }

  /** p holds the unlocked buffer b of (dev, block). */
  ghost predicate Served(bh: seq<Buf>, holders: seq<multiset<int>>, p: int, dev: nat, block: nat, b: int) {
    0 <= b < |bh| == |holders| && Keyed(bh[b], dev, block) && !bh[b].lock && p in holders[b]
  }

  /** Only process p gained or lost buffers. */
  ghost predicate OthersKept(holders: seq<multiset<int>>, holders': seq<multiset<int>>, p: int) {
    |holders| == |holders'| && forall b, q :: 0 <= b < |holders| && q != p ==> holders'[b][q] == holders[b][q]
  }

  /** getblk, brelse and the disk as seen between sleeps. */
  datatype Op =
    | Get(p: int, dev: nat, block: nat)
    | Look(p: int, dev: nat, block: nat)
    | Release(p: int, b: int)
    | Wake(p: int)
    | Traffic(b: int, lock: bool, dirt: bool, uptodate: bool)

  /** One step: keys change only on unused, unlocked, clean buffers, and only the
      acting process gains, loses or waits for anything. */
  ghost predicate Moved(s: State, op: Op, s': State) {
    && Rekeyed(s.bh, s'.bh)
    && if op.Traffic? then s'.holders == s.holders && s'.proc == s.proc
       else OthersKept(s.holders, s'.holders, op.p) && s'.proc - {op.p} == s.proc - {op.p}
  }

  /** What the step does, b being what getblk or the lookup returns. */
  ghost predicate Did(s: State, op: Op, b: int, s': State)
    requires Counted(s.bh, s.holders, s.proc)
  {
    match op
    case Get(p, dev, block) => if p !in s.proc && dev != 0 then Got(s, p, dev, block, b, s') else b == NULL && s' == s
    case Look(p, dev, block) =>
      if !(p !in s.proc && dev != 0) || Absent(s.bh, dev, block) then b == NULL && s' == s
      else 0 <= b < |s.bh| && Keyed(s.bh[b], dev, block) && Found(s, p, dev, block, false, b, s')
    case Release(p, c) =>
      if p !in s.proc && 0 <= c < |s.bh| && p in s.holders[c] then
        s.bh[c].count > 0 && s' == if s.bh[c].lock then s.(proc := s.proc[p := InRelease(c)]) else Without(s, p, c)
      else s' == s
    case Wake(p) => if p in s.proc then Resumed(s, p, b, s') else s' == s
    case Traffic(c, lock, dirt, uptodate) =>
      s' == if 0 <= c < |s.bh| then s.(bh := s.bh[c := s.bh[c].(lock := lock, dirt := dirt, uptodate := uptodate)])
            else s
  }

  lemma MovedSelf(s: State, op: Op)
    ensures Moved(s, op, s)
  { }

  lemma MovedIs(s: State, op: Op, s': State)
    ensures Moved(s, op, s') <==>
      && Rekeyed(s.bh, s'.bh)
      && if op.Traffic? then s'.holders == s.holders && s'.proc == s.proc
         else OthersKept(s.holders, s'.holders, op.p) && s'.proc - {op.p} == s.proc - {op.p}
  { }

  lemma FoundSafe(s: State, p: int, dev: nat, block: nat, getblk: bool, c: int, s': State)
    requires s.Shaped() && p !in s.proc && 0 <= c < |s.bh| && Keyed(s.bh[c], dev, block)
             && Found(s, p, dev, block, getblk, c, s')
    ensures Rekeyed(s.bh, s'.bh) && OthersKept(s.holders, s'.holders, p) && s'.proc - {p} == s.proc - {p}
    ensures !s.bh[c].lock ==> s'.proc == s.proc && Served(s'.bh, s'.holders, p, dev, block, c)
  { }

  lemma ClaimedSafe(s: State, p: int, dev: nat, block: nat, v: int, b: int, s': State)
    requires Counted(s.bh, s.holders, s.proc) && p !in s.proc && 0 <= v < |s.bh| && s.bh[v].count == 0
    requires Claimed(s, p, dev, block, v, b, s')
    ensures Rekeyed(s.bh, s'.bh) && OthersKept(s.holders, s'.holders, p) && s'.proc - {p} == s.proc - {p}
    ensures b != NULL ==> s'.proc == s.proc && Served(s'.bh, s'.holders, p, dev, block, b)
  {
    assert s.holders[v] == multiset{};
  }

  lemma GotSafe(s: State, p: int, dev: nat, block: nat, b: int, s': State)
    requires Counted(s.bh, s.holders, s.proc) && s.Shaped() && p !in s.proc && Got(s, p, dev, block, b, s')
    ensures Rekeyed(s.bh, s'.bh) && OthersKept(s.holders, s'.holders, p) && s'.proc - {p} == s.proc - {p}
    ensures b != NULL ==> s'.proc == s.proc && Served(s'.bh, s'.holders, p, dev, block, b)
  {
    hide Found, Claimed, Counted, Rekeyed, OthersKept, Served;
    if !Absent(s.bh, dev, block) {
      var c :| 0 <= c < |s.bh| && Keyed(s.bh[c], dev, block);
      FoundSafe(s, p, dev, block, true, c, s');
      assert b == if s.bh[c].lock then NULL else c;
    } else if AllUsed(s.bh) {
      SameKept(s, p);
    } else {
      var v :| Best(s.bh, s.ring, v) && Claimed(s, p, dev, block, v, b, s');
      ClaimedSafe(s, p, dev, block, v, b, s');
    }
  }

  lemma SameKept(s: State, p: int)
    ensures Rekeyed(s.bh, s.bh) && OthersKept(s.holders, s.holders, p)
  { }

  lemma ReleaseSafe(s: State, p: int, b: int, s': State)
    requires 0 <= b < |s.bh| == |s.holders| && s.bh[b].count > 0 && p !in s.proc
    requires s' == if s.bh[b].lock then s.(proc := s.proc[p := InRelease(b)]) else Without(s, p, b)
    ensures Rekeyed(s.bh, s'.bh) && OthersKept(s.holders, s'.holders, p) && s'.proc - {p} == s.proc - {p}
  { }

  lemma ResumedSafe(s: State, p: int, b: int, s': State)
    requires Counted(s.bh, s.holders, s.proc) && s.Shaped() && p in s.proc && Sleeps(s.bh, s.holders, p, s.proc[p])
    requires Resumed(s, p, b, s')
    ensures Rekeyed(s.bh, s'.bh) && OthersKept(s.holders, s'.holders, p) && s'.proc - {p} == s.proc - {p}
    ensures b != NULL ==>
        p !in s'.proc && !s.proc[p].InRelease? && Served(s'.bh, s'.holders, p, s.proc[p].dev, s.proc[p].block, b)
  {
    var awake := s.(proc := s.proc - {p});
    SameKept(s, p);
    CountedAwake(s, p);
    hide Found, Claimed, Counted, Rekeyed, OthersKept, Got;
    match s.proc[p]
    case InHash(_, _, c, _) =>
    case OnList(dev, block) =>
      GotSafe(awake, p, dev, block, b, s');
    case OnVictim(dev, block, c) =>
      if s.bh[c].lock || (s.bh[c].count == 0 && s.bh[c].dirt) {
      } else if s.bh[c].count != 0 || !Absent(s.bh, dev, block) {
        GotSafe(awake, p, dev, block, b, s');
      } else {
        ClaimedSafe(awake, p, dev, block, c, b, s');
      }
    case InRelease(c) =>
      if !s.bh[c].lock { ReleaseSafe(awake, p, c, s'); }
  }

  lemma CountedAwake(s: State, p: int)
    requires Counted(s.bh, s.holders, s.proc)
    ensures Counted(s.bh, s.holders, s.proc - {p})
  { }

  /** A buffer that someone holds at every moment from i on is still the same
      block at j: what a process finds in it is the block it asked for. */
  lemma {:induction false} HeldKeepsKey(trace: seq<State>, ops: seq<Op>, i: nat, j: nat, b: int)
    requires |trace| == |ops| + 1 && i <= j < |trace| && 0 <= b < |trace[i].bh|
    requires forall k :: 0 <= k < |trace| ==> Counted(trace[k].bh, trace[k].holders, trace[k].proc)
    requires forall k :: 0 <= k < |ops| ==> Moved(trace[k], ops[k], trace[k + 1])
    requires forall k :: i <= k < j ==> b < |trace[k].holders| && trace[k].holders[b] != multiset{}
    ensures |trace[j].bh| == |trace[i].bh| && Keyed(trace[j].bh[b], trace[i].bh[b].dev, trace[i].bh[b].block)
  {
    if i < j {
      HeldKeepsKey(trace, ops, i, j - 1, b);
      assert Moved(trace[j - 1], ops[j - 1], trace[j - 1 + 1]);
      assert Counted(trace[j - 1].bh, trace[j - 1].holders, trace[j - 1].proc);
      assert |trace[j - 1].holders[b]| > 0;
    }
  }

  lemma OneHit(bh: seq<Buf>, dev: nat, block: nat)
    requires Unique(bh) && dev != 0
    ensures forall c, d :: 0 <= c < |bh| && 0 <= d < |bh| && Keyed(bh[c], dev, block) && Keyed(bh[d], dev, block) ==>
        c == d
  { }

  lemma BestFacts(bh: seq<Buf>, ring: seq<int>, v: int)
    requires Best(bh, ring, v)
    ensures 0 <= v < |bh| && bh[v].count == 0
  { }

  lemma GotHit(s: State, p: int, dev: nat, block: nat, c: int, s': State)
    requires s.Shaped() && Unique(s.bh) && dev != 0 && 0 <= c < |s.bh| && Keyed(s.bh[c], dev, block)
    requires Found(s, p, dev, block, true, c, s')
    ensures Got(s, p, dev, block, if s.bh[c].lock then NULL else c, s')
  {
    OneHit(s.bh, dev, block);
    hide Found;
  }

  lemma GotFull(s: State, p: int, dev: nat, block: nat)
    requires s.Shaped() && Absent(s.bh, dev, block) && AllUsed(s.bh)
    ensures Got(s, p, dev, block, NULL, s.(proc := s.proc[p := OnList(dev, block)]))
  { }

  lemma GotVictim(s: State, p: int, dev: nat, block: nat, v: int, b: int, s': State)
    requires s.Shaped() && Absent(s.bh, dev, block) && Best(s.bh, s.ring, v) && Claimed(s, p, dev, block, v, b, s')
    ensures Got(s, p, dev, block, b, s')
  {
    hide Claimed;
    assert s.bh[v].count == 0;
  }

  lemma HeldFacts(bh: seq<Buf>, holders: seq<multiset<int>>, proc: map<int, Pc>, p: int, b: int)
    requires Counted(bh, holders, proc) && 0 <= b < |bh| && |holders| == |bh| && p in holders[b]
    ensures bh[b].count > 0
  {
    assert holders[b] == holders[b] - multiset{p} + multiset{p};
  }

  lemma CountedFacts(bh: seq<Buf>, holders: seq<multiset<int>>, proc: map<int, Pc>)
    requires Counted(bh, holders, proc)
    ensures |holders| == |bh|
  { }

  lemma SleepFacts(bh: seq<Buf>, holders: seq<multiset<int>>, proc: map<int, Pc>, p: int)
    requires Counted(bh, holders, proc) && p in proc
    ensures |holders| == |bh| && Sleeps(bh, holders, p, proc[p])
  { }

  lemma AdjustKeeps(bh: seq<Buf>, next: seq<int>, prev: seq<int>, table: seq<int>, chains: seq<seq<int>>,
                    holders: seq<multiset<int>>, proc: map<int, Pc>, b: int, p: int, up: bool)
    requires Hashed(bh, next, prev, table, chains) && Unique(bh) && Counted(bh, holders, proc) && Blank(bh, next, prev)
    requires 0 <= b < |bh| && (up || p in holders[b]) && p !in proc
    ensures up || bh[b].count > 0
    ensures var c: int := if up then bh[b].count + 1 else bh[b].count - 1;
      var bh' := bh[b := bh[b].(count := c)];
           var holders' := holders[b := if up then holders[b] + multiset{p} else holders[b] - multiset{p}];
      && Hashed(bh', next, prev, table, chains) && Unique(bh') && Counted(bh', holders', proc) && Blank(bh', next, prev)
  {
    if !up { assert holders[b] == holders[b] - multiset{p} + multiset{p}; }
    var c: int := if up then bh[b].count + 1 else bh[b].count - 1;
    var bh' := bh[b := bh[b].(count := c)];
    var holders' := holders[b := if up then holders[b] + multiset{p} else holders[b] - multiset{p}];
    HashedFrame(bh, next, prev, table, chains, bh');
    hide Hashed;
    forall q | q in proc ensures Sleeps(bh', holders', q, proc[q]) { assert Sleeps(bh, holders, q, proc[q]); }
  }

  lemma AdjustFacts(bh: seq<Buf>, holders: seq<multiset<int>>, proc: map<int, Pc>, b: int, p: int, up: bool)
    requires Counted(bh, holders, proc) && 0 <= b < |bh|
    ensures |holders| == |bh| && forall x: Buf :: Keyed(x, bh[b].dev, bh[b].block) ==> Rekeyed(bh, bh[b := x])
    ensures OthersKept(holders, holders[b := if up then holders[b] + multiset{p} else holders[b] - multiset{p}], p)
    ensures p in holders[b] + multiset{p}
  { }

  lemma TrafficKeeps(bh: seq<Buf>, next: seq<int>, prev: seq<int>, table: seq<int>, chains: seq<seq<int>>,
                     holders: seq<multiset<int>>, proc: map<int, Pc>, b: int, x: Buf)
    requires Hashed(bh, next, prev, table, chains) && Unique(bh) && Counted(bh, holders, proc) && Blank(bh, next, prev)
    requires 0 <= b < |bh| && Keyed(x, bh[b].dev, bh[b].block) && x.count == bh[b].count
    ensures var bh' := bh[b := x];
      && Hashed(bh', next, prev, table, chains) && Unique(bh') && Counted(bh', holders, proc) && Blank(bh', next, prev)
  {
    HashedFrame(bh, next, prev, table, chains, bh[b := x]);
    hide Hashed;
    CountedTraffic(bh, holders, proc, b, x);
    hide Counted;
  }

  lemma CountedTraffic(bh: seq<Buf>, holders: seq<multiset<int>>, proc: map<int, Pc>, b: int, x: Buf)
    requires Counted(bh, holders, proc) && 0 <= b < |bh| && Keyed(x, bh[b].dev, bh[b].block) && x.count == bh[b].count
    ensures Counted(bh[b := x], holders, proc)
  {
    forall q | q in proc ensures Sleeps(bh[b := x], holders, q, proc[q]) { assert Sleeps(bh, holders, q, proc[q]); }
  }

  lemma RehashFacts(bh: seq<Buf>, next: seq<int>, prev: seq<int>, table: seq<int>, chains: seq<seq<int>>, x: Buf)
    requires Hashed(bh, next, prev, table, chains)
    ensures |next| == |prev| == |bh| && |table| == |chains| == NR_HASH
    ensures var h := Hash(x.dev, x.block); table[h] != NULL ==> 0 <= table[h] < |bh| && bh[table[h]].dev != 0
  {
    var h := Hash(x.dev, x.block);
    assert OfHash(bh, chains[h], h);
    ChainMembers(next, prev, table[h], chains[h]);
  }

  lemma BlankIs(bh: seq<Buf>, next: seq<int>, prev: seq<int>)
    ensures Blank(bh, next, prev) <==>
      |next| == |prev| == |bh| && forall b :: 0 <= b < |bh| && bh[b].dev == 0 ==> next[b] == prev[b] == NULL
  { }

  lemma ListedApart(n: int, next: seq<int>, prev: seq<int>, head: int, ring: seq<int>, k: int)
    requires Listed(n, next, prev, head, ring) && n >= 2 && 0 <= k < n
    ensures |next| == |prev| == n && next[ring[k]] != ring[k] && prev[ring[k]] != ring[k]
  {
    RingPrev(next, prev, head, ring, k);
    assert next[ring[k]] == ring[Succ(k, n)];
    if next[ring[k]] == ring[k] { SamePlace(ring, Succ(k, n), k); }
    if prev[ring[k]] == ring[k] { SamePlace(ring, if k == 0 then n - 1 else k - 1, k); }
  }

  lemma RekeyKeeps(bh: seq<Buf>, holders: seq<multiset<int>>, proc: map<int, Pc>, b: int, x: Buf, p: int)
    requires Unique(bh) && Counted(bh, holders, proc) && 0 <= b < |bh| && bh[b].count == 0 && x.dev != 0 && x.count == 1
    requires Absent(bh, x.dev, x.block)
    ensures |holders| == |bh| && holders[b] == multiset{}
    ensures Unique(bh[b := x]) && Counted(bh[b := x], holders[b := multiset{p}], proc)
  {
    assert holders[b] == multiset{};
    forall q | q in proc ensures Sleeps(bh[b := x], holders[b := multiset{p}], q, proc[q]) { }
  }

  lemma UnhashFacts(bh: seq<Buf>, next: seq<int>, prev: seq<int>, table: seq<int>, chains: seq<seq<int>>,
                    b: int) returns (k: int)
    requires 0 <= b < |bh| && Hashed(bh, next, prev, table, chains) && Blank(bh, next, prev)
    ensures |next| == |prev| == |bh| && |table| == |chains| == NR_HASH
    ensures var h := Hash(bh[b].dev, bh[b].block);
      if bh[b].dev == 0 then next[b] == prev[b] == NULL && table[h] != b
      else
        && 0 <= k < |chains[h]| && chains[h][k] == b && next[b] != b && prev[b] != b
        && (next[b] != NULL ==> 0 <= next[b] < |bh| && bh[next[b]].dev != 0)
        && (prev[b] != NULL ==> 0 <= prev[b] < |bh| && bh[prev[b]].dev != 0)
  {
    var h := Hash(bh[b].dev, bh[b].block);
    assert OfHash(bh, chains[h], h) && Chain(next, prev, table[h], chains[h]);
    ChainMembers(next, prev, table[h], chains[h]);
    k := 0;
    if bh[b].dev != 0 {
      k :| 0 <= k < |chains[h]| && chains[h][k] == b;
      NeighboursInChain(next, prev, table[h], chains[h], k);
      NotOwnNeighbour(next, prev, table[h], chains[h], k);
    }
  }

  lemma NotOwnNeighbour(next: seq<int>, prev: seq<int>, head: int, c: seq<int>, k: int)
    requires Chain(next, prev, head, c) && 0 <= k < |c|
    ensures next[c[k]] != c[k] && prev[c[k]] != c[k]
  {
    assert next[c[k]] == At(c, k + 1) && prev[c[k]] == At(c, k - 1);
  }
}
