/** lib/malloc.c: the kernel's bucket allocator.  Addresses are integers, 0 is the
    null address; descriptors are numbered, NULL is none. */
module Malloc {
  import opened Sequences

  const PAGE_SIZE: int := 4096
  /** Descriptors in one page. */
  const DESCS: int := PAGE_SIZE / 16
  const BUCKETS: int := 9

  /** bucket_dir[b].size */
  function SizeOf(b: int): int
    requires 0 <= b < BUCKETS
  {
    if b == 0 then 16 else if b == 1 then 32 else if b == 2 then 64 else if b == 3 then 128 else if b == 4 then 256
    else if b == 5 then 512 else if b == 6 then 1024 else if b == 7 then 2048 else 4096
  }

  datatype Desc = Desc(page: int, next: int, freeptr: int, refcnt: nat, size: int)

  /** The descriptors of list are linked from head to NULL. */
  ghost predicate Row(desc: seq<Desc>, head: int, list: seq<int>) {
    && Distinct(list) && head == At(list, 0, NULL)
    && forall i :: 0 <= i < |list| ==> 0 <= list[i] < |desc| && desc[list[i]].next == At(list, i + 1, NULL)
  }

  /** Lists 0 to 8 are the buckets, list 9 the unused descriptors; every
      descriptor is in exactly one. */
  ghost predicate Lists(desc: seq<Desc>, heads: seq<int>, lists: seq<seq<int>>, place: seq<int>) {
    && |heads| == |lists| == BUCKETS + 1 && |place| == |desc|
    && (forall k :: 0 <= k <= BUCKETS ==> Row(desc, heads[k], lists[k]))
    && (forall k :: 0 <= k <= BUCKETS ==> AllIn(lists[k], place, k))
    && (forall d :: 0 <= d < |desc| ==> InList(lists, place, d))
  }

  ghost predicate AllIn(list: seq<int>, place: seq<int>, k: int) {
    forall d :: d in list ==> 0 <= d < |place| && place[d] == k
  }

  ghost predicate InList(lists: seq<seq<int>>, place: seq<int>, d: int)
    requires 0 <= d < |place|
  { 0 <= place[d] < |lists| && d in lists[place[d]] }

  function Word(mem: map<int, int>, a: int): int { if a in mem then mem[a] else 0 }

  /** The free objects of a page: each holds the address of the next. */
  ghost predicate FreeChain(mem: map<int, int>, head: int, free: seq<int>) {
    && Distinct(free) && head == At(free, 0, 0)
    && forall i :: 0 <= i < |free| ==> free[i] > 0 && Word(mem, free[i]) == At(free, i + 1, 0)
  }

  /** a is the address of an object of the descriptor's page. */
  predicate Slot(d: Desc, a: int) { d.size > 0 && a / PAGE_SIZE == d.page && a % PAGE_SIZE % d.size == 0 }

  ghost predicate Bucket(mem: map<int, int>, d: Desc, b: int, free: seq<int>) {
    && 0 <= b < BUCKETS && d.size == SizeOf(b) && d.page > 0 && FreeChain(mem, d.freeptr, free)
    && (forall i :: 0 <= i < |free| ==> Slot(d, free[i]))
    && d.refcnt + |free| == PAGE_SIZE / d.size
  }

  ghost predicate Buckets(mem: map<int, int>, desc: seq<Desc>, place: seq<int>, free: seq<seq<int>>) {
    && |place| == |desc| == |free|
    && (forall d :: 0 <= d < |desc| && place[d] < BUCKETS ==> Bucket(mem, desc[d], place[d], free[d]))
    && (forall d, e ::
          (0 <= d < |desc| && 0 <= e < |desc| && place[d] < BUCKETS && place[e] < BUCKETS
           && desc[d].page == desc[e].page) ==> d == e)
  }

  /** The frames nobody has: not among the bucket pages. */
  ghost predicate Pool(pool: seq<int>, desc: seq<Desc>, place: seq<int>) {
    && Distinct(pool) && (forall i :: 0 <= i < |pool| ==> pool[i] > 0) && |place| == |desc|
    && forall i, d :: 0 <= i < |pool| && 0 <= d < |desc| && place[d] < BUCKETS ==> desc[d].page != pool[i]
  }

  /** Descriptor d goes to the front of list k. */
  lemma PushRow(desc: seq<Desc>, head: int, list: seq<int>, d: int, x: Desc)
    requires Row(desc, head, list) && 0 <= d < |desc| && d !in list && x.next == head
    ensures Row(desc[d := x], d, [d] + list)
  {
    var list' := [d] + list;
    forall i | 0 <= i < |list'|
      ensures 0 <= list'[i] < |desc| && desc[d := x][list'[i]].next == At(list', i + 1, NULL)
    {
      if i > 0 {
        assert list'[i] == list[i - 1] && list[i - 1] in list;
        assert At(list', i + 1, NULL) == At(list, i, NULL);
      }
    }
  }

  /** Taking element k out of a row: the one before it is linked to the one behind. */
  lemma DropRow(desc: seq<Desc>, head: int, list: seq<int>, k: int)
    requires Row(desc, head, list) && 0 <= k < |list|
    ensures k == 0 ==> Row(desc, desc[list[k]].next, Drop(list, k))
    ensures k > 0 ==> Row(desc[list[k - 1] := desc[list[k - 1]].(next := desc[list[k]].next)], head, Drop(list, k))
  {
    var list' := Drop(list, k);
    DropAt(list, k);
    assert desc[list[k]].next == At(list, k + 1, NULL);
    hide Drop;
    if k == 0 {
      forall i | 0 <= i < |list'|
        ensures desc[list'[i]].next == At(list', i + 1, NULL)
      {
        assert list'[i] == list[i + 1];
      }
    } else {
      var p := list[k - 1];
      var desc' := desc[p := desc[p].(next := desc[list[k]].next)];
      forall i | 0 <= i < |list'| ensures 0 <= list'[i] < |desc| && desc'[list'[i]].next == At(list', i + 1, NULL) {
        if i < k - 1 {
          assert list'[i] == list[i] != p;
        } else if i >= k {
          assert list'[i] == list[i + 1] != p;
        }
      }
    }
  }

  lemma DropAt(s: seq<int>, k: int)
    requires 0 <= k < |s|
    ensures var t := Drop(s, k);
      && |t| == |s| - 1 && (Distinct(s) ==> Distinct(t))
      && (forall i :: 0 <= i < k ==> t[i] == s[i]) && forall i :: k <= i < |t| ==> t[i] == s[i + 1]
  {
    var t := Drop(s, k);
    assert forall i :: 0 <= i < k ==> t[i] == s[i];
    assert forall i :: k <= i < |t| ==> t[i] == s[i + 1];
  }

  lemma DropMembers(s: seq<int>, k: int, c: int)
    requires 0 <= k < |s| && Distinct(s)
    ensures c in Drop(s, k) <==> c in s && c != s[k]
  {
    if c in s && c != s[k] {
      var j :| 0 <= j < |s| && s[j] == c;
      assert Drop(s, k)[if j < k then j else j - 1] == c;
    }
  }

  lemma RowFrame(desc: seq<Desc>, desc': seq<Desc>, head: int, list: seq<int>)
    requires Row(desc, head, list) && |desc'| >= |desc| && forall d :: d in list && 0 <= d < |desc| ==>
        desc'[d].next == desc[d].next
    ensures Row(desc', head, list)
  {
    forall i | 0 <= i < |list| ensures desc'[list[i]].next == desc[list[i]].next { assert list[i] in list; }
  }

  /** Stores elsewhere leave a free chain alone. */
  lemma FreeChainFrame(mem: map<int, int>, mem': map<int, int>, head: int, free: seq<int>)
    requires FreeChain(mem, head, free) && forall i :: 0 <= i < |free| ==> Word(mem', free[i]) == Word(mem, free[i])
    ensures FreeChain(mem', head, free)
  { }

  /** The objects of a fresh page, as malloc chains them. */
  function Slots(page: int, size: int, n: nat): (r: seq<int>)
    ensures |r| == n && forall i :: 0 <= i < n ==> r[i] == page * PAGE_SIZE + i * size
  {
    seq(n, i => page * PAGE_SIZE + i * size)
  }

  lemma SlotsGood(page: int, b: int)
    requires 0 <= b < BUCKETS && page > 0
    ensures var size := SizeOf(b); var s := Slots(page, size, PAGE_SIZE / size); var d := Desc(page, 0, 0, 0, size);
      && (forall i :: 0 <= i < |s| ==> s[i] > 0 && Slot(d, s[i])) && Distinct(s) && |s| >= 1
  {
    var size := SizeOf(b);
    var n := PAGE_SIZE / size;
    forall i, j | 0 <= i < j < n
      ensures page * PAGE_SIZE + i * size < page * PAGE_SIZE + j * size
    {
      assert (j - i) * size > 0;
    }
    forall i | 0 <= i < n
      ensures (page * PAGE_SIZE + i * size) / PAGE_SIZE == page && (page * PAGE_SIZE + i * size) % PAGE_SIZE % size == 0
    {
      SlotAt(page, b, i);
    }
  }

  lemma SlotAt(page: int, b: int, i: int)
    requires 0 <= b < BUCKETS && 0 <= i < PAGE_SIZE / SizeOf(b)
    ensures var a := page * PAGE_SIZE + i * SizeOf(b);
      a / PAGE_SIZE == page && a % PAGE_SIZE == i * SizeOf(b) && i * SizeOf(b) % SizeOf(b) == 0
      && i * SizeOf(b) + SizeOf(b) <= PAGE_SIZE
  {
    var size := SizeOf(b);
    var n := PAGE_SIZE / size;
    assert size > 0 && n * size <= PAGE_SIZE;
    hide SizeOf;
    Rows(i, n, size);
    Multiple(i, size);
    var off := i * size;
    assert 0 <= off < PAGE_SIZE;
    assert (page * PAGE_SIZE + off) / PAGE_SIZE == page && (page * PAGE_SIZE + off) % PAGE_SIZE == off;
  }

  lemma Rows(i: int, n: int, size: nat)
    requires 0 <= i < n
    ensures 0 <= i * size && i * size + size <= n * size
  {
    assert (i + 1) * size <= n * size by { assert (n - i - 1) * size >= 0; }
  }

  lemma Multiple(i: nat, size: nat)
    requires size > 0
    ensures i * size % size == 0
  {
    var q, r := i * size / size, i * size % size;
    var gap := i - q;
    assert gap * size == r;
    assert gap > 0 ==> (gap - 1) * size >= 0;
    assert gap < 0 ==> (-gap - 1) * size >= 0;
  }

  /** An object lies within its page. */
  lemma SlotFits(d: Desc, b: int, a: int)
    requires 0 <= b < BUCKETS && d.size == SizeOf(b) && Slot(d, a)
    ensures a % PAGE_SIZE + d.size <= PAGE_SIZE
    ensures 0 <= a % PAGE_SIZE / d.size < PAGE_SIZE / d.size
            && a == d.page * PAGE_SIZE + a % PAGE_SIZE / d.size * d.size
  { }

  /** Two objects of a page do not overlap. */
  lemma SlotsApart(d: Desc, b: int, a: int, c: int)
    requires 0 <= b < BUCKETS && d.size == SizeOf(b) && Slot(d, a) && Slot(d, c) && a < c
    ensures a + d.size <= c
  { }

  /** As Lists, but descriptor d is in no list. */
  ghost predicate ListsBut(desc: seq<Desc>, heads: seq<int>, lists: seq<seq<int>>, place: seq<int>, d: int) {
    && |heads| == |lists| == BUCKETS + 1 && |place| == |desc| && 0 <= d < |desc|
    && (forall k :: 0 <= k <= BUCKETS ==> Row(desc, heads[k], lists[k]))
    && (forall k :: 0 <= k <= BUCKETS ==> AllIn(lists[k], place, k) && d !in lists[k])
    && (forall e :: 0 <= e < |desc| && e != d ==> InList(lists, place, e))
  }

  /** Taking descriptor d, element k of list i, out of its list. */
  lemma {:induction false} Unlink(desc: seq<Desc>, heads: seq<int>, lists: seq<seq<int>>, place: seq<int>, i: int,
                                  k: int)
    requires Lists(desc, heads, lists, place) && 0 <= i <= BUCKETS && 0 <= k < |lists[i]|
    ensures 0 <= lists[i][k] < |desc| && (k > 0 ==> 0 <= lists[i][k - 1] < |desc| && lists[i][k - 1] != lists[i][k])
    ensures var d := lists[i][k];
      ListsBut(if k > 0 then desc[lists[i][k - 1] := desc[lists[i][k - 1]].(next := desc[d].next)] else desc,
               if k > 0 then heads else heads[i := desc[d].next], lists[i := Drop(lists[i], k)], place, d)
  {
    var d := lists[i][k];
    var desc' := if k > 0 then desc[lists[i][k - 1] := desc[lists[i][k - 1]].(next := desc[d].next)] else desc;
    var heads' := if k > 0 then heads else heads[i := desc[d].next];
    var lists' := lists[i := Drop(lists[i], k)];
    UnlinkFacts(desc, heads, lists, place, i, k);
    FewerIn(lists[i], Drop(lists[i], k), place, i);
    StillIn(lists, Drop(lists[i], k), place, i, d);
    hide Drop, Row, AllIn, InList;
    forall g | 0 <= g <= BUCKETS && g != i
      ensures Row(desc', heads[g], lists[g]) && AllIn(lists[g], place, g) && d !in lists[g]
    {
      OtherList(lists, place, i, g);
      RowFrame(desc, desc', heads[g], lists[g]);
    }
    forall g | 0 <= g <= BUCKETS
      ensures Row(desc', heads'[g], lists'[g]) && AllIn(lists'[g], place, g) && d !in lists'[g]
    {
      if g == i { assert lists'[g] == Drop(lists[i], k); }
    }
  }

  lemma StillIn(lists: seq<seq<int>>, fewer: seq<int>, place: seq<int>, i: int, d: int)
    requires 0 <= i < |lists| && forall e :: 0 <= e < |place| ==> InList(lists, place, e)
    requires forall c :: c in lists[i] && c != d ==> c in fewer
    ensures var lists' := lists[i := fewer]; forall e :: 0 <= e < |place| && e != d ==> InList(lists', place, e)
  {
    var lists' := lists[i := fewer];
    forall e | 0 <= e < |place| && e != d ensures InList(lists', place, e) { assert InList(lists, place, e); }
  }

  lemma FewerIn(list: seq<int>, fewer: seq<int>, place: seq<int>, k: int)
    requires AllIn(list, place, k) && forall d :: d in fewer ==> d in list
    ensures AllIn(fewer, place, k)
  { }

  lemma OtherList(lists: seq<seq<int>>, place: seq<int>, i: int, g: int)
    requires 0 <= i < |lists| && 0 <= g < |lists| && i != g && AllIn(lists[i], place, i) && AllIn(lists[g], place, g)
    ensures forall d :: d in lists[i] ==> d !in lists[g]
  { }

  lemma UnlinkFacts(desc: seq<Desc>, heads: seq<int>, lists: seq<seq<int>>, place: seq<int>, i: int, k: int)
    requires Lists(desc, heads, lists, place) && 0 <= i <= BUCKETS && 0 <= k < |lists[i]|
    ensures var d := lists[i][k];
      && 0 <= d < |desc| && d in lists[i]
         && (k > 0 ==> 0 <= lists[i][k - 1] < |desc| && lists[i][k - 1] != d && lists[i][k - 1] in lists[i])
      && Row(if k > 0 then desc[lists[i][k - 1] := desc[lists[i][k - 1]].(next := desc[d].next)] else desc,
             if k > 0 then heads[i] else desc[d].next, Drop(lists[i], k))
      && forall c :: c in Drop(lists[i], k) <==> c in lists[i] && c != d
  {
    assert Row(desc, heads[i], lists[i]);
    DropRow(desc, heads[i], lists[i], k);
    forall c ensures c in Drop(lists[i], k) <==> c in lists[i] && c != lists[i][k] { DropMembers(lists[i], k, c); }
    assert k > 0 ==> lists[i][k - 1] in lists[i];
  }

  /** Putting descriptor d, now x, in front of list j. */
  lemma Link(desc: seq<Desc>, heads: seq<int>, lists: seq<seq<int>>, place: seq<int>, d: int, j: int, x: Desc)
    requires ListsBut(desc, heads, lists, place, d) && 0 <= j <= BUCKETS && x.next == heads[j]
    ensures Lists(desc[d := x], heads[j := d], lists[j := [d] + lists[j]], place[d := j])
  {
    PushRow(desc, heads[j], lists[j], d, x);
    hide Row, AllIn;
    forall g | 0 <= g <= BUCKETS && g != j
      ensures Row(desc[d := x], heads[g], lists[g]) && AllIn(lists[g], place[d := j], g)
    {
      RowFrame(desc, desc[d := x], heads[g], lists[g]);
      MovedIn(lists[g], place, g, d, j);
    }
    MoreIn(lists[j], place, d, j);
    var lists', place' := lists[j := [d] + lists[j]], place[d := j];
    forall e | 0 <= e < |desc| ensures InList(lists', place', e) {
      if e != d { assert InList(lists, place, e); }
    }
  }

  lemma MovedIn(list: seq<int>, place: seq<int>, k: int, d: int, j: int)
    requires AllIn(list, place, k) && d !in list && 0 <= d < |place|
    ensures AllIn(list, place[d := j], k)
  { }

  lemma MoreIn(list: seq<int>, place: seq<int>, d: int, j: int)
    requires AllIn(list, place, j) && 0 <= d < |place|
    ensures AllIn([d] + list, place[d := j], j)
  { }

  /** Changing a descriptor but not its link. */
  lemma Relabel(desc: seq<Desc>, heads: seq<int>, lists: seq<seq<int>>, place: seq<int>, d: int, x: Desc)
    requires Lists(desc, heads, lists, place) && 0 <= d < |desc| && x.next == desc[d].next
    ensures Lists(desc[d := x], heads, lists, place)
  {
    hide Row;
    forall g | 0 <= g <= BUCKETS
      ensures Row(desc[d := x], heads[g], lists[g])
    {
      RowFrame(desc, desc[d := x], heads[g], lists[g]);
    }
  }

  /** A live object: handed out and not yet given back. */
  ghost predicate Live(desc: seq<Desc>, place: seq<int>, free: seq<seq<int>>, d: int, a: int) {
    0 <= d < |desc| == |place| == |free| && place[d] < BUCKETS && Slot(desc[d], a) && a !in free[d]
  }

  /** Taking the first free object of bucket d. */
  lemma TakeObject(mem: map<int, int>, desc: seq<Desc>, place: seq<int>, free: seq<seq<int>>, d: int)
    requires Buckets(mem, desc, place, free) && 0 <= d < |desc| && place[d] < BUCKETS && desc[d].freeptr != 0
    ensures var r := desc[d].freeptr;
        var desc' := desc[d := desc[d].(freeptr := Word(mem, r), refcnt := desc[d].refcnt + 1)];
      && free[d] != [] && r == free[d][0]
      && Buckets(mem, desc', place, free[d := free[d][1..]])
      && Slot(desc[d], r) && r !in free[d][1..]
  {
    assert Bucket(mem, desc[d], place[d], free[d]);
    var r := desc[d].freeptr;
    var x := desc[d].(freeptr := Word(mem, r), refcnt := desc[d].refcnt + 1);
    var t := free[d][1..];
    assert Word(mem, free[d][0]) == At(free[d], 1, 0) == At(t, 0, 0);
    forall i | 0 <= i < |t|
      ensures t[i] > 0 && Word(mem, t[i]) == At(t, i + 1, 0) && Slot(x, t[i])
    {
      assert t[i] == free[d][i + 1];
    }
    assert Bucket(mem, x, place[d], t);
    hide Bucket;
  }

  /** Giving object a of bucket d back. */
  lemma GiveObject(mem: map<int, int>, desc: seq<Desc>, place: seq<int>, free: seq<seq<int>>, d: int, a: int)
    requires Buckets(mem, desc, place, free) && Live(desc, place, free, d, a) && a > 0 && desc[d].refcnt > 0
    ensures Buckets(mem[a := desc[d].freeptr], desc[d := desc[d].(freeptr := a, refcnt := desc[d].refcnt - 1)], place,
                    free[d := [a] + free[d]])
  {
    GiveOwn(mem, desc[d], place[d], free[d], a);
    forall e | 0 <= e < |desc| && place[e] < BUCKETS && e != d
      ensures Bucket(mem[a := desc[d].freeptr], desc[e], place[e], free[e])
    {
      assert desc[e].page != desc[d].page;
      GiveOther(mem, desc[e], place[e], free[e], a, desc[d].freeptr);
    }
    hide Bucket, Slot;
  }

  lemma GiveOwn(mem: map<int, int>, x: Desc, b: int, free: seq<int>, a: int)
    requires Bucket(mem, x, b, free) && Slot(x, a) && a !in free && a > 0 && x.refcnt > 0
    ensures Bucket(mem[a := x.freeptr], x.(freeptr := a, refcnt := x.refcnt - 1), b, [a] + free)
  {
    hide Slot;
    var mem', f := mem[a := x.freeptr], [a] + free;
    forall i | 0 <= i < |f| ensures f[i] > 0 && Word(mem', f[i]) == At(f, i + 1, 0) && Slot(x, f[i]) {
      if i > 0 { assert f[i] == free[i - 1] && free[i - 1] in free; }
    }
    assert Distinct(f);
    SlotSizes(x, x.(freeptr := a, refcnt := x.refcnt - 1));
  }

  lemma SlotSizes(x: Desc, y: Desc)
    requires x.page == y.page && x.size == y.size
    ensures forall a :: Slot(x, a) <==> Slot(y, a)
  { }

  lemma GiveOther(mem: map<int, int>, x: Desc, b: int, free: seq<int>, a: int, v: int)
    requires Bucket(mem, x, b, free) && a / PAGE_SIZE != x.page
    ensures Bucket(mem[a := v], x, b, free)
  {
    forall i | 0 <= i < |free| ensures free[i] != a { assert Slot(x, free[i]); }
    FreeChainFrame(mem, mem[a := v], x.freeptr, free);
  }

  /** A page in which every object is free: refcnt 0. */
  lemma AllFree(mem: map<int, int>, x: Desc, b: int, free: seq<int>, a: int)
    requires Bucket(mem, x, b, free) && x.refcnt == 0 && Slot(x, a)
    ensures a in free
  {
    var n := PAGE_SIZE / x.size;
    var s := Slots(x.page, x.size, n);
    SlotsGood(x.page, b);
    SlotFits(x, b, a);
    assert s[a % PAGE_SIZE / x.size] == a;
    forall i | 0 <= i < |free| ensures free[i] in s {
      SlotFits(x, b, free[i]);
      assert s[free[i] % PAGE_SIZE / x.size] == free[i];
    }
    SameSize(free, s, a);
  }

  lemma SameSize(a: seq<int>, b: seq<int>, c: int)
    requires Distinct(a) && |a| == |b| && (forall i :: 0 <= i < |a| ==> a[i] in b) && c in b
    ensures c in a
  {
    var sa, sb := set x | x in a, set x | x in b;
    SetSize(a);
    SeqBound(b);
    assert sa <= sb;
    if c !in a {
      assert sa <= sb - {c};
      SubsetSize(sa, sb - {c});
    }
  }

  lemma {:induction false} SetSize(a: seq<int>)
    requires Distinct(a)
    ensures |set x | x in a| == |a|
  {
    if a != [] {
      SetSize(a[1..]);
      assert (set x | x in a) == (set x | x in a[1..]) + {a[0]};
    }
  }

  lemma {:induction false} SeqBound(a: seq<int>)
    ensures |set x | x in a| <= |a|
  {
    if a != [] {
      SeqBound(a[1..]);
      assert (set x | x in a) == (set x | x in a[1..]) + {a[0]};
    } else {
      assert (set x | x in a) == {};
    }
  }

  /** Giving a descriptor to no bucket, or to one, with its own chain. */
  lemma Assign(mem: map<int, int>, mem': map<int, int>, desc: seq<Desc>, place: seq<int>, free: seq<seq<int>>, d: int,
               x: Desc, j: int, f: seq<int>)
    requires Buckets(mem, desc, place, free) && 0 <= d < |desc|
    requires j < BUCKETS ==> Bucket(mem', x, j, f)
    requires j < BUCKETS ==> forall e :: 0 <= e < |desc| && e != d && place[e] < BUCKETS ==> desc[e].page != x.page
    requires SameElsewhere(mem, mem', x.page)
    requires j < BUCKETS || mem' == mem
    ensures Buckets(mem', desc[d := x], place[d := j], free[d := f])
  {
    forall e | 0 <= e < |desc| && place[e] < BUCKETS && e != d ensures Bucket(mem', desc[e], place[e], free[e]) {
      assert Bucket(mem, desc[e], place[e], free[e]);
      forall i | 0 <= i < |free[e]|
        ensures Word(mem', free[e][i]) == Word(mem, free[e][i])
      {
        assert Slot(desc[e], free[e][i]);
      }
      FreeChainFrame(mem, mem', desc[e].freeptr, free[e]);
    }
    hide Bucket;
  }

  /** Descriptor d is new in bucket b, with all its objects free; the others are as
      they were. */
  ghost predicate Fresh(desc: seq<Desc>, place: seq<int>, free: seq<seq<int>>, desc': seq<Desc>, place': seq<int>,
                        free': seq<seq<int>>, d: int, b: int) {
    && |desc'| == |place'| == |free'| >= |desc| == |place| == |free| && 0 <= d < |desc'|
    && place'[d] == b && desc'[d].refcnt == 0 && desc'[d].freeptr != 0 && 0 <= b < BUCKETS && desc'[d].size == SizeOf(b)
    && (d < |desc| ==> place[d] == BUCKETS)
    && (forall a :: Slot(desc'[d], a) ==> a in free'[d])
    && (forall e :: 0 <= e < |desc| && e != d ==> desc'[e] == desc[e] && place'[e] == place[e] && free'[e] == free[e])
    && (forall e :: |desc| <= e < |desc'| && e != d ==> place'[e] == BUCKETS)
  }

  lemma UnusedHead(desc: seq<Desc>, chain: seq<int>, freeDesc: int, lists: seq<seq<int>>, place: seq<int>, b: int)
    requires |chain| == BUCKETS && Lists(desc, chain + [freeDesc], lists, place) && freeDesc != NULL && 0 <= b < BUCKETS
    ensures |lists| == BUCKETS + 1 && |place| == |desc| && 0 <= freeDesc < |desc| && place[freeDesc] == BUCKETS
    ensures lists[BUCKETS] != [] && lists[BUCKETS][0] == freeDesc
    ensures ListsBut(desc, (chain + [freeDesc])[BUCKETS := desc[freeDesc].next],
                     lists[BUCKETS := Drop(lists[BUCKETS], 0)], place, freeDesc)
  {
    var heads := chain + [freeDesc];
    assert Row(desc, heads[BUCKETS], lists[BUCKETS]) && AllIn(lists[BUCKETS], place, BUCKETS);
    assert freeDesc in lists[BUCKETS];
    Unlink(desc, heads, lists, place, BUCKETS, 0);
  }

  lemma PoolHead(pool: seq<int>, desc: seq<Desc>, place: seq<int>)
    requires Pool(pool, desc, place) && pool != []
    ensures pool[0] > 0 && |place| == |desc| && forall e :: 0 <= e < |desc| && place[e] < BUCKETS ==>
        desc[e].page != pool[0]
  { }

  lemma BucketSizes(mem: map<int, int>, desc: seq<Desc>, place: seq<int>, free: seq<seq<int>>)
    requires Buckets(mem, desc, place, free)
    ensures |place| == |desc| == |free|
  { }

  lemma FreshBucket(mem: map<int, int>, x: Desc, b: int)
    requires 0 <= b < BUCKETS && x.page > 0 && x.size == SizeOf(b) && x.refcnt == 0 && x.freeptr == x.page * PAGE_SIZE
    requires FreeChain(mem, x.freeptr, Slots(x.page, x.size, PAGE_SIZE / x.size))
    ensures Bucket(mem, x, b, Slots(x.page, x.size, PAGE_SIZE / x.size))
  {
    SlotsGood(x.page, b);
  }

  lemma PoolAssign(pool: seq<int>, pool': seq<int>, desc: seq<Desc>, place: seq<int>, d: int, x: Desc, b: int)
    requires Pool(pool, desc, place) && pool != [] && pool' == pool[1..] && x.page == pool[0] && 0 <= d < |desc|
    ensures Pool(pool', desc[d := x], place[d := b])
  { }

  lemma AllSlots(x: Desc, b: int)
    requires 0 <= b < BUCKETS && x.size == SizeOf(b)
    ensures forall a :: Slot(x, a) ==> a in Slots(x.page, x.size, PAGE_SIZE / x.size)
  {
    forall a | Slot(x, a) ensures a in Slots(x.page, x.size, PAGE_SIZE / x.size) {
      SlotFits(x, b, a);
      assert Slots(x.page, x.size, PAGE_SIZE / x.size)[a % PAGE_SIZE / x.size] == a;
    }
  }

  lemma SlotsStep(page: int, size: int, n: nat)
    ensures forall i :: 0 <= i < n - 1 ==> Slots(page, size, n)[i + 1] == Slots(page, size, n)[i] + size
    ensures n > 0 ==> Slots(page, size, n)[0] == page * PAGE_SIZE
  { }

  lemma Poke(mem: map<int, int>, a: int, v: int)
    ensures Word(mem[a := v], a) == v && forall c :: c != a ==> Word(mem[a := v], c) == Word(mem, c)
  { }

  /** a is a live object of n bytes. */
  ghost predicate LiveAt(desc: seq<Desc>, place: seq<int>, free: seq<seq<int>>, a: int, n: int) {
    exists d :: 0 <= d < |desc| && Live(desc, place, free, d, a) && desc[d].size == n
  }

  lemma ChainOf(desc: seq<Desc>, chain: seq<int>, freeDesc: int, lists: seq<seq<int>>, place: seq<int>, b: int)
    requires |chain| == BUCKETS && Lists(desc, chain + [freeDesc], lists, place) && 0 <= b < BUCKETS
    ensures |lists| == BUCKETS + 1 && |place| == |desc| && Row(desc, chain[b], lists[b])
    ensures forall d :: d in lists[b] ==> 0 <= d < |desc| && place[d] == b
    ensures forall d :: 0 <= d < |desc| && place[d] == b ==> d in lists[b]
  {
    assert (chain + [freeDesc])[b] == chain[b] && AllIn(lists[b], place, b);
    forall d | 0 <= d < |desc| && place[d] == b ensures d in lists[b] { assert InList(lists, place, d); }
  }

  lemma SameLive(desc: seq<Desc>, place: seq<int>, free: seq<seq<int>>, desc': seq<Desc>, place': seq<int>,
                 free': seq<seq<int>>)
    requires |desc| == |place| == |free| <= |desc'| == |place'| == |free'|
    requires forall d :: 0 <= d < |desc| ==> desc'[d] == desc[d] && place'[d] == place[d] && free'[d] == free[d]
    requires forall d :: |desc| <= d < |desc'| ==> place'[d] == BUCKETS
    ensures forall a, n :: LiveAt(desc', place', free', a, n) <==> LiveAt(desc, place, free, a, n)
  {
    hide Slot;
    forall a, n ensures LiveAt(desc', place', free', a, n) <==> LiveAt(desc, place, free, a, n) {
      forall d | 0 <= d < |desc| ensures Live(desc', place', free', d, a) <==> Live(desc, place, free, d, a) { }
    }
  }

  lemma FreshLive(desc: seq<Desc>, place: seq<int>, free: seq<seq<int>>, desc': seq<Desc>, place': seq<int>,
                  free': seq<seq<int>>, d: int, b: int)
    requires Fresh(desc, place, free, desc', place', free', d, b)
    ensures forall a, n :: LiveAt(desc', place', free', a, n) <==> LiveAt(desc, place, free, a, n)
    ensures |desc'| == |place'| == |free'| && place'[d] == b && desc'[d].freeptr != 0
    ensures forall e :: 0 <= e < |desc'| && e != d && place'[e] < BUCKETS ==>
        e < |desc| && place[e] < BUCKETS && desc'[e] == desc[e]
  {
    hide Slot;
    forall a, n ensures LiveAt(desc', place', free', a, n) <==> LiveAt(desc, place, free, a, n) {
      forall e | 0 <= e < |desc'|
        ensures Live(desc', place', free', e, a) <==> e < |desc| && Live(desc, place, free, e, a)
      { }
    }
  }

  lemma BucketIs(mem: map<int, int>, desc: seq<Desc>, place: seq<int>, free: seq<seq<int>>, d: int)
    requires Buckets(mem, desc, place, free) && 0 <= d < |desc| == |place| && place[d] < BUCKETS
    ensures |free| == |desc| && 0 <= place[d] && Bucket(mem, desc[d], place[d], free[d])
            && desc[d].size == SizeOf(place[d]) && desc[d].page > 0
  {
    assert Bucket(mem, desc[d], place[d], free[d]);
  }

  lemma PoolSame(pool: seq<int>, desc: seq<Desc>, place: seq<int>, d: int, x: Desc)
    requires Pool(pool, desc, place) && 0 <= d < |desc| && x.page == desc[d].page
    ensures Pool(pool, desc[d := x], place)
  { }

  /** Only r changed between free and live. */
  lemma TakenLive(mem: map<int, int>, desc: seq<Desc>, place: seq<int>, free: seq<seq<int>>, d: int, x: Desc, r: int)
    requires Buckets(mem, desc, place, free) && 0 <= d < |desc| && place[d] < BUCKETS && |desc| == |place| == |free|
    requires free[d] != [] && r == free[d][0] && r !in free[d][1..] && Slot(desc[d], r) && x.page == desc[d].page
             && x.size == desc[d].size
    ensures var desc', free' := desc[d := x], free[d := free[d][1..]];
      && Live(desc', place, free', d, r) && (forall n :: !LiveAt(desc, place, free, r, n))
      && (forall n :: LiveAt(desc', place, free', r, n) <==> n == desc[d].size)
      && forall a, n :: a != r ==> (LiveAt(desc', place, free', a, n) <==> LiveAt(desc, place, free, a, n))
  {
    var desc', free' := desc[d := x], free[d := free[d][1..]];
    forall e | 0 <= e < |desc| ensures !Live(desc, place, free, e, r) {
      if e == d { assert r in free[d]; }
    }
    assert Live(desc', place, free', d, r);
    hide Buckets;
    assert forall a :: a != r ==> (a in free[d][1..] <==> a in free[d]) by {
      forall a | a != r && a in free[d]
        ensures a in free[d][1..]
      {
        var i :| 0 <= i < |free[d]| && free[d][i] == a; assert free[d][1..][i - 1] == a;
      }
    }
    assert LiveAt(desc', place, free', r, desc[d].size);
    forall a, n | a != r ensures LiveAt(desc', place, free', a, n) <==> LiveAt(desc, place, free, a, n) {
      forall e | 0 <= e < |desc| ensures Live(desc', place, free', e, a) <==> Live(desc, place, free, e, a) { }
    }
  }

  /** The page of a live object belongs to one bucket only. */
  lemma OnePage(mem: map<int, int>, desc: seq<Desc>, place: seq<int>, free: seq<seq<int>>, page: int, d: int)
    requires Buckets(mem, desc, place, free) && 0 <= d < |desc| && place[d] < BUCKETS && desc[d].page == page
    ensures forall e :: 0 <= e < |desc| && e < |place| && place[e] < BUCKETS && desc[e].page == page ==> e == d
  { }

  lemma SlotPage(x: Desc, a: int)
    requires Slot(x, a) && x.page > 0
    ensures a / PAGE_SIZE == x.page && a > 0
  { }

  lemma GivenLive(mem: map<int, int>, desc: seq<Desc>, place: seq<int>, free: seq<seq<int>>, d: int, x: Desc, a: int)
    requires Buckets(mem, desc, place, free) && |desc| == |place| == |free| && Live(desc, place, free, d, a)
             && x.page == desc[d].page && x.size == desc[d].size
    ensures forall c, n :: LiveAt(desc[d := x], place, free[d := [a] + free[d]], c, n) <==>
        c != a && LiveAt(desc, place, free, c, n)
  {
    var desc', free' := desc[d := x], free[d := [a] + free[d]];
    forall e | 0 <= e < |desc| && e != d ensures !Live(desc, place, free, e, a) { }
    hide Buckets, Slot;
    forall c, n ensures LiveAt(desc', place, free', c, n) <==> c != a && LiveAt(desc, place, free, c, n) {
      forall e | 0 <= e < |desc|
        ensures Live(desc', place, free', e, c) <==> c != a && Live(desc, place, free, e, c)
      { }
    }
  }

  lemma HeadsAt(desc: seq<Desc>, chain: seq<int>, freeDesc: int, lists: seq<seq<int>>, place: seq<int>, b: int, d: int,
                k: int)
    requires |chain| == BUCKETS && Lists(desc, chain + [freeDesc], lists, place) && 0 <= b < BUCKETS
             && 0 <= k < |lists[b]| && lists[b][k] == d
    ensures 0 <= d < |desc| && (k == 0 ==> chain[b] == d)
            && (k > 0 ==> 0 <= lists[b][k - 1] < |desc| && desc[lists[b][k - 1]].next == d)
  {
    assert Row(desc, (chain + [freeDesc])[b], lists[b]);
    assert k > 0 ==> desc[lists[b][k - 1]].next == At(lists[b], k - 1 + 1, NULL);
  }

  /** No live object lies in the page. */
  ghost predicate PageEmpty(desc: seq<Desc>, place: seq<int>, free: seq<seq<int>>, page: int) {
    forall a, n :: LiveAt(desc, place, free, a, n) ==> a / PAGE_SIZE != page
  }

  lemma LiveIs(mem: map<int, int>, desc: seq<Desc>, place: seq<int>, free: seq<seq<int>>, d: int, a: int)
    requires Buckets(mem, desc, place, free) && Live(desc, place, free, d, a)
    ensures 0 <= d < |desc| == |place| == |free| && 0 <= place[d] < BUCKETS && desc[d].page == a / PAGE_SIZE
            && desc[d].size == SizeOf(place[d]) && a > 0
  {
    assert Bucket(mem, desc[d], place[d], free[d]);
    SlotPage(desc[d], a);
  }

  /** A page with a positive count has a live object. */
  lemma HasLive(mem: map<int, int>, desc: seq<Desc>, place: seq<int>, free: seq<seq<int>>, d: int)
    requires Buckets(mem, desc, place, free) && 0 <= d < |desc| == |place| && place[d] < BUCKETS && desc[d].refcnt > 0
    ensures !PageEmpty(desc, place, free, desc[d].page)
  {
    assert Bucket(mem, desc[d], place[d], free[d]);
    var x := desc[d];
    var s := Slots(x.page, x.size, PAGE_SIZE / x.size);
    SlotsGood(x.page, place[d]);
    if forall i :: 0 <= i < |s| ==> s[i] in free[d] {
      SetSize(s);
      SeqBound(free[d]);
      SubsetSize(set a | a in s, set a | a in free[d]);
    }
    var i :| 0 <= i < |s| && s[i] !in free[d];
    assert Slot(x, s[i]);
    assert Live(desc, place, free, d, s[i]) && LiveAt(desc, place, free, s[i], desc[d].size);
    SlotPage(x, s[i]);
  }

  /** The link before d changed: nothing else. */
  lemma Relinked(mem: map<int, int>, pool: seq<int>, desc: seq<Desc>, desc': seq<Desc>, place: seq<int>,
                 free: seq<seq<int>>, d: int)
    requires Buckets(mem, desc, place, free) && Pool(pool, desc, place) && |desc'| == |desc|
    requires forall e :: 0 <= e < |desc| ==> desc'[e] == desc[e].(next := desc'[e].next)
    ensures Buckets(mem, desc', place, free) && Pool(pool, desc', place)
  {
    forall e | 0 <= e < |desc| && place[e] < BUCKETS ensures Bucket(mem, desc'[e], place[e], free[e]) {
      assert Bucket(mem, desc[e], place[e], free[e]);
    }
    hide Bucket;
  }

  lemma ReleasedLive(mem: map<int, int>, desc: seq<Desc>, desc1: seq<Desc>, place: seq<int>, free: seq<seq<int>>,
                     d: int, x: Desc)
    requires Buckets(mem, desc, place, free) && 0 <= d < |desc| == |place| == |free| == |desc1|
             && 0 <= place[d] < BUCKETS && desc[d].refcnt == 0
    requires forall e :: 0 <= e < |desc| ==> desc1[e] == desc[e].(next := desc1[e].next)
    ensures forall a, n :: LiveAt(desc1[d := x], place[d := BUCKETS], free[d := []], a, n) <==>
        LiveAt(desc, place, free, a, n)
    ensures PageEmpty(desc1[d := x], place[d := BUCKETS], free[d := []], desc[d].page)
  {
    var desc', place', free' := desc1[d := x], place[d := BUCKETS], free[d := []];
    NoneLive(mem, desc, place, free, d);
    OtherPages(mem, desc, place, free, d);
    hide Buckets, Slot;
    forall a, n ensures LiveAt(desc', place', free', a, n) <==> LiveAt(desc, place, free, a, n) {
      forall e | 0 <= e < |desc| ensures Live(desc', place', free', e, a) <==> Live(desc, place, free, e, a) {
        SlotSame(desc, desc1, e, a);
      }
    }
  }

  lemma SlotSame(desc: seq<Desc>, desc1: seq<Desc>, e: int, a: int)
    requires 0 <= e < |desc| == |desc1| && desc1[e] == desc[e].(next := desc1[e].next)
    ensures Slot(desc1[e], a) <==> Slot(desc[e], a)
  { }

  lemma NoneLive(mem: map<int, int>, desc: seq<Desc>, place: seq<int>, free: seq<seq<int>>, d: int)
    requires Buckets(mem, desc, place, free) && 0 <= d < |desc| == |place| == |free| && 0 <= place[d] < BUCKETS
             && desc[d].refcnt == 0
    ensures forall a :: !Live(desc, place, free, d, a)
  {
    assert Bucket(mem, desc[d], place[d], free[d]);
    forall a ensures !Live(desc, place, free, d, a) {
      if Slot(desc[d], a) { AllFree(mem, desc[d], place[d], free[d], a); }
    }
  }

  /** Live objects of other buckets lie in other pages. */
  lemma OtherPages(mem: map<int, int>, desc: seq<Desc>, place: seq<int>, free: seq<seq<int>>, d: int)
    requires Buckets(mem, desc, place, free) && 0 <= d < |desc| == |place| && 0 <= place[d] < BUCKETS
             && forall a :: !Live(desc, place, free, d, a)
    ensures PageEmpty(desc, place, free, desc[d].page)
  {
    forall a, n | LiveAt(desc, place, free, a, n) ensures a / PAGE_SIZE != desc[d].page {
      var e :| 0 <= e < |desc| && Live(desc, place, free, e, a);
      assert e != d;
    }
  }

  lemma PoolGiven(pool: seq<int>, desc: seq<Desc>, place: seq<int>, d: int, x: Desc, page: int, mem: map<int, int>,
                  free: seq<seq<int>>)
    requires Pool(pool, desc, place) && Buckets(mem, desc, place, free) && 0 <= d < |desc| && place[d] < BUCKETS
             && page == desc[d].page
    ensures Pool(pool + [page], desc[d := x], place[d := BUCKETS])
  {
    assert Bucket(mem, desc[d], place[d], free[d]);
  }

  /** The size that malloc takes for len bytes. */
  predicate Smallest(b: int, len: nat) {
    0 <= b < BUCKETS && SizeOf(b) >= len && forall c :: 0 <= c < b ==> SizeOf(c) < len
  }

  /** Its bucket and its bytes. */
  function BucketFor(len: nat): (b: int)
    requires len <= PAGE_SIZE
    ensures Smallest(b, len)
  {
    if len <= 16 then 0 else if len <= 32 then 1 else if len <= 64 then 2 else if len <= 128 then 3
    else if len <= 256 then 4 else if len <= 512 then 5 else if len <= 1024 then 6 else if len <= 2048 then 7 else 8
  }

  function SizeFor(len: nat): (n: int)
    requires len <= PAGE_SIZE
    ensures len <= n <= PAGE_SIZE
  {
    SizeOf(BucketFor(len))
  }

  /** Some page of the bucket has a free object. */
  ghost predicate RoomIn(desc: seq<Desc>, place: seq<int>, b: int) {
    exists e :: 0 <= e < |desc| && e < |place| && place[e] == b && desc[e].freeptr != 0
  }

  /** Some page of the bucket is this one. */
  ghost predicate PageIn(desc: seq<Desc>, place: seq<int>, b: int, page: int) {
    exists e :: 0 <= e < |desc| && e < |place| && place[e] == b && desc[e].page == page
  }

  lemma OneSmallest(b: int, len: nat)
    requires Smallest(b, len)
    ensures forall c :: Smallest(c, len) <==> c == b
  { }

  lemma EmptySame(desc: seq<Desc>, place: seq<int>, free: seq<seq<int>>, desc1: seq<Desc>, place1: seq<int>,
                  free1: seq<seq<int>>, page: int)
    requires forall a, n :: LiveAt(desc1, place1, free1, a, n) <==> LiveAt(desc, place, free, a, n)
    requires PageEmpty(desc1, place1, free1, page)
    ensures PageEmpty(desc, place, free, page)
  {
    hide LiveAt;
  }

  /** No object lies in a page of the pool. */
  lemma NewPageEmpty(mem: map<int, int>, pool: seq<int>, desc: seq<Desc>, place: seq<int>, free: seq<seq<int>>)
    requires Pool(pool, desc, place) && pool != [] && Buckets(mem, desc, place, free)
    ensures PageEmpty(desc, place, free, pool[0])
  {
    forall a, n | LiveAt(desc, place, free, a, n) ensures a / PAGE_SIZE != pool[0] {
      var d :| 0 <= d < |desc| && Live(desc, place, free, d, a) && desc[d].size == n;
      PoolHead(pool, desc, place);
    }
  }

  lemma InOnePage(mem: map<int, int>, desc: seq<Desc>, place: seq<int>, free: seq<seq<int>>, d: int, a: int)
    requires Buckets(mem, desc, place, free) && Live(desc, place, free, d, a)
    ensures a % PAGE_SIZE + desc[d].size <= PAGE_SIZE
  {
    assert Bucket(mem, desc[d], place[d], free[d]);
    SlotFits(desc[d], place[d], a);
  }

  lemma SamePage(a: int, i: nat)
    requires a % PAGE_SIZE + i < PAGE_SIZE
    ensures (a + i) / PAGE_SIZE == a / PAGE_SIZE
  { }

  lemma LiveOwner(mem: map<int, int>, desc: seq<Desc>, place: seq<int>, free: seq<seq<int>>, a: int,
                  n: int) returns (d: int)
    requires Buckets(mem, desc, place, free) && LiveAt(desc, place, free, a, n)
    ensures 0 <= d < |desc| && Live(desc, place, free, d, a) && desc[d].size == n >= 16
  {
    d :| 0 <= d < |desc| && Live(desc, place, free, d, a) && desc[d].size == n;
    assert Bucket(mem, desc[d], place[d], free[d]);
  }

  /** Live objects lie each in one page and do not overlap. */
  lemma LiveApart(mem: map<int, int>, desc: seq<Desc>, place: seq<int>, free: seq<seq<int>>, d: int, a: int, e: int,
                  c: int)
    requires Buckets(mem, desc, place, free) && Live(desc, place, free, d, a) && Live(desc, place, free, e, c) && a < c
    ensures a + desc[d].size <= c && a % PAGE_SIZE + desc[d].size <= PAGE_SIZE
  {
    assert Bucket(mem, desc[d], place[d], free[d]) && Bucket(mem, desc[e], place[e], free[e]);
    SlotFits(desc[d], place[d], a);
    if d == e {
      SlotsApart(desc[d], place[d], a, c);
    } else {
      PagesApart(desc[d].page, desc[e].page, a, c, desc[d].size);
    }
  }

  lemma PagesApart(p: int, q: int, a: int, c: int, size: int)
    requires a / PAGE_SIZE == p && c / PAGE_SIZE == q && p != q && a < c && a % PAGE_SIZE + size <= PAGE_SIZE
    ensures a + size <= c
  { }

  /** No free object starts inside a live one. */
  lemma StoreKeeps(mem: map<int, int>, desc: seq<Desc>, place: seq<int>, free: seq<seq<int>>, d: int, obj: int, a: int,
                   v: int)
    requires Buckets(mem, desc, place, free) && Live(desc, place, free, d, obj) && obj <= a < obj + desc[d].size
    ensures Buckets(mem[a := v], desc, place, free)
  {
    assert Bucket(mem, desc[d], place[d], free[d]);
    SlotFits(desc[d], place[d], obj);
    forall e | 0 <= e < |desc| && place[e] < BUCKETS ensures Bucket(mem[a := v], desc[e], place[e], free[e]) {
      assert Bucket(mem, desc[e], place[e], free[e]);
      forall i | 0 <= i < |free[e]| ensures free[e][i] != a {
        assert Slot(desc[e], free[e][i]) && free[e][i] in free[e];
        NotInside(desc, d, e, place[d], obj, free[e][i], a);
      }
      FreeChainFrame(mem, mem[a := v], desc[e].freeptr, free[e]);
    }
    hide Bucket;
  }

  lemma NotInside(desc: seq<Desc>, d: int, e: int, b: int, obj: int, f: int, a: int)
    requires 0 <= d < |desc| && 0 <= e < |desc| && 0 <= b < BUCKETS && desc[d].size == SizeOf(b) && Slot(desc[d], obj)
             && Slot(desc[e], f)
    requires (d == e && f != obj) || desc[d].page != desc[e].page
    requires obj <= a < obj + desc[d].size
    ensures f != a
  {
    SlotFits(desc[d], b, obj);
    if d == e {
      if f > obj { SlotsApart(desc[d], b, obj, f); }
    } else {
      if f > obj { PagesApart(desc[d].page, desc[e].page, obj, f, desc[d].size); }
    }
  }

  class Heap {
    var desc: seq<Desc>
    var chain: seq<int>
    var freeDesc: int
    /** The words of memory that are written. */
    var mem: map<int, int>
    /** The free frames of the machine. */
    var pool: seq<int>
    ghost var lists: seq<seq<int>>
    ghost var place: seq<int>
    ghost var free: seq<seq<int>>

    ghost predicate Shape() reads `desc, `chain, `freeDesc, `mem, `pool, `lists, `place, `free {
      && |chain| == BUCKETS && Lists(desc, chain + [freeDesc], lists, place) && Buckets(mem, desc, place, free)
         && Pool(pool, desc, place)
    }

    /** Every page that a bucket has holds a live object. */
    ghost predicate Valid() reads `desc, `chain, `freeDesc, `mem, `pool, `lists, `place, `free {
      Shape() && forall d :: 0 <= d < |desc| && place[d] < BUCKETS ==> desc[d].refcnt > 0
    }

    constructor (frames: seq<int>)
      requires Distinct(frames) && forall i :: 0 <= i < |frames| ==> frames[i] > 0
      ensures Valid() && desc == [] && pool == frames
    {
      desc, chain, freeDesc, mem, pool := [], seq(BUCKETS, _ => NULL), NULL, map[], frames;
      lists, place, free := seq(BUCKETS + 1, _ => []), [], [];
    }

    /** init_bucket_desc: a page of unused descriptors. */
    method InitBucketDesc()
      requires Shape() && pool != []
      modifies `desc, `freeDesc, `pool, `lists, `place, `free
      ensures Shape() && |desc| == |old(desc)| + DESCS && pool == old(pool)[1..] && freeDesc == |old(desc)|
      ensures forall d :: 0 <= d < |old(desc)| ==>
          desc[d] == old(desc)[d] && place[d] == old(place)[d] && free[d] == old(free)[d]
      ensures forall d :: |old(desc)| <= d < |desc| ==> place[d] == BUCKETS
    {
      ghost var n := |desc|;
      ghost var was := desc;
      var first := |desc|;
      var i := DESCS;
      while i > 1
        invariant 1 <= i <= DESCS && |desc| == n + DESCS - i && was <= desc
        invariant forall d :: n <= d < |desc| ==> desc[d] == Desc(0, d + 1, 0, 0, 0)
        modifies `desc
      {
        desc := desc + [Desc(0, |desc| + 1, 0, 0, 0)];
        i := i - 1;
      }
      desc := desc + [Desc(0, freeDesc, 0, 0, 0)];
      FreshDescs(was, desc, chain + [freeDesc], lists, place, n);
      FreshBuckets(mem, was, desc, pool, place, free);
      place := place + seq(DESCS, _ => BUCKETS);
      free := free + seq(DESCS, _ => []);
      lists := lists[BUCKETS := seq(DESCS, k => n + k) + lists[BUCKETS]];
      freeDesc := first;
      pool := pool[1..];
      assert chain + [freeDesc] == (chain + [old(freeDesc)])[BUCKETS := n];
    }

    /** A descriptor and the next free frame for bucket b. */
    method TakeDesc(b: int) returns (d: int)
      requires Shape() && 0 <= b < BUCKETS && pool != [] && freeDesc != NULL
      modifies this
      ensures Shape() && 0 <= d < |desc| && Fresh(old(desc), old(place), old(free), desc, place, free, d, b)
      ensures pool == old(pool)[1..] && |desc| == |old(desc)|
      ensures desc[d].page == old(pool)[0] && desc[d].freeptr == old(pool)[0] * PAGE_SIZE
      ensures SameElsewhere(old(mem), mem, desc[d].page) && PageEmpty(old(desc), old(place), old(free), desc[d].page)
    {
      hide Lists, Buckets, Pool;
      d := freeDesc;
      UnusedHead(desc, chain, freeDesc, lists, place, b);
      PoolHead(pool, desc, place);
      BucketSizes(mem, desc, place, free);
      var page := pool[0];
      ghost var was, heads := desc, chain + [freeDesc];
      pool := pool[1..];
      ObjectChain(page, b);
      ghost var x := Desc(page, chain[b], page * PAGE_SIZE, 0, SizeOf(b));
      ghost var slots := Slots(page, SizeOf(b), PAGE_SIZE / SizeOf(b));
      FreshBucket(mem, x, b);
      Link(desc, heads[BUCKETS := desc[d].next], lists[BUCKETS := Drop(lists[BUCKETS], 0)], place, d, b, x);
      Assign(old(mem), mem, desc, place, free, d, x, b, slots);
      PoolAssign(old(pool), pool, desc, place, d, x, b);
      freeDesc := desc[d].next;
      desc := desc[d := Desc(page, chain[b], page * PAGE_SIZE, 0, SizeOf(b))];
      chain := chain[b := d];
      lists := lists[BUCKETS := Drop(lists[BUCKETS], 0)];
      lists := lists[b := [d] + lists[b]];
      place := place[d := b];
      free := free[d := slots];
      assert chain + [freeDesc] == heads[BUCKETS := was[d].next][b := d];
      AllSlots(x, b);
      NewPageEmpty(old(mem), old(pool), old(desc), old(place), old(free));
    }

    /** The chain of free objects in a new page. */
    method ObjectChain(page: int, b: int)
      requires 0 <= b < BUCKETS && page > 0
      modifies `mem
      ensures FreeChain(mem, page * PAGE_SIZE, Slots(page, SizeOf(b), PAGE_SIZE / SizeOf(b)))
      ensures SameElsewhere(old(mem), mem, page)
    {
      hide Slots, SizeOf, Word, Distinct;
      var size := SizeOf(b);
      SlotsIn(page, b);
      ghost var s, n := Slots(page, SizeOf(b), PAGE_SIZE / SizeOf(b)), PAGE_SIZE / SizeOf(b);
      SlotsStep(page, SizeOf(b), n);
      var cp := page * PAGE_SIZE;
      var i := PAGE_SIZE / size;
      while i > 1
        invariant 1 <= i <= n == |s| && cp == s[n - i]
        invariant Chained(mem, s, n - i)
        invariant SameElsewhere(old(mem), mem, page)
      {
        ChainStep(old(mem), mem, s, n - i, page, cp + size);
        mem := mem[cp := cp + size];
        cp := cp + size;
        i := i - 1;
      }
      ChainEnd(old(mem), mem, s, page);
      mem := mem[cp := 0];
    }

    /** The first size that is large enough. */
    method FindSize(len: nat) returns (b: int)
      requires len <= PAGE_SIZE
      ensures Smallest(b, len)
    {
      b := 0;
      while SizeOf(b) < len
        invariant 0 <= b < BUCKETS && forall c :: 0 <= c < b ==> SizeOf(c) < len
        decreases BUCKETS - b
      {
        b := b + 1;
      }
    }

    /** The first bucket of the chain with a free object. */
    method FindRoom(b: int) returns (d: int)
      requires Shape() && 0 <= b < BUCKETS
      ensures d != NULL ==> 0 <= d < |desc| == |place| && place[d] == b && desc[d].freeptr != 0
      ensures d == NULL ==> forall e :: 0 <= e < |desc| && e < |place| && place[e] == b ==> desc[e].freeptr == 0
    {
      ChainOf(desc, chain, freeDesc, lists, place, b);
      hide Lists, Buckets, Pool;
      ghost var list, i := lists[b], 0;
      d := chain[b];
      while d != NULL && desc[d].freeptr == 0
        invariant 0 <= i <= |list| && d == At(list, i, NULL)
        invariant forall j :: 0 <= j < i ==> desc[list[j]].freeptr == 0
        decreases |list| - i
      {
        d := desc[d].next;
        i := i + 1;
      }
      if d == NULL {
        forall e | e in list ensures desc[e].freeptr == 0 { var j :| 0 <= j < |list| && list[j] == e; }
      }
    }

    /** The frames that malloc needs for a new page of objects. */
    ghost function Need(): nat reads `freeDesc { if freeDesc == NULL then 2 else 1 }

    /** malloc panics: the argument is too large, or neither a free object nor the
        pages for one are there. */
    ghost predicate Short(len: nat) reads `desc, `freeDesc, `pool, `place {
      len > PAGE_SIZE || (!RoomIn(desc, place, BucketFor(len)) && |pool| < Need())
    }

    /** malloc: an object that nobody has, large enough and inside one page; 0 where
        the source panics.  It comes from a page of its bucket if one has room, else
        from the next free frame, after one for descriptors if there are none.  The
        contents of live objects stay. */
    method Malloc(len: nat) returns (r: int)
      requires Valid()
      modifies this
      ensures Valid() && (r == 0 <==> old(Short(len)))
      ensures r == 0 ==> mem == old(mem)
      ensures r == 0 ==> forall a, k ::
          LiveAt(desc, place, free, a, k) <==> LiveAt(old(desc), old(place), old(free), a, k)
      ensures r == 0 ==>
          if len <= PAGE_SIZE && !old(RoomIn(desc, place, BucketFor(len))) && |old(pool)| == 1
          then pool == [] && |desc| == |old(desc)| + DESCS
          else pool == old(pool) && |desc| == |old(desc)|
      ensures r != 0 ==> len <= PAGE_SIZE && forall k :: LiveAt(desc, place, free, r, k) <==> k == SizeFor(len)
      ensures r != 0 ==> forall k :: !LiveAt(old(desc), old(place), old(free), r, k)
      ensures r != 0 ==> forall a, k :: a != r ==>
          (LiveAt(desc, place, free, a, k) <==> LiveAt(old(desc), old(place), old(free), a, k))
      ensures r != 0 && old(RoomIn(desc, place, BucketFor(len))) ==>
          && mem == old(mem) && pool == old(pool) && |desc| == |old(desc)|
          && PageIn(old(desc), old(place), BucketFor(len), r / PAGE_SIZE)
      ensures r != 0 && !old(RoomIn(desc, place, BucketFor(len))) ==>
          && |old(pool)| >= old(Need()) && r == old(pool)[old(Need()) - 1] * PAGE_SIZE
          && pool == old(pool)[old(Need())..] && |desc| == |old(desc)| + if old(freeDesc) == NULL then DESCS else 0
      ensures mem == old(mem) || (SameElsewhere(old(mem), mem, r / PAGE_SIZE)
                                  && PageEmpty(old(desc), old(place), old(free), r / PAGE_SIZE))
    {
      hide Lists, Buckets, Pool, Fresh, Slot, PageEmpty, LiveAt, SizeOf, SameElsewhere;
      if len > PAGE_SIZE { return 0; }
      BucketSizes(mem, desc, place, free);
      var b := FindSize(len);
      OneSmallest(b, len);
      var e := FindRoom(b);
      if e == NULL {
        if freeDesc == NULL {
          if pool == [] { return 0; }
          InitBucketDesc();
          BucketSizes(mem, desc, place, free);
          SameLive(old(desc), old(place), old(free), desc, place, free);
        }
        if pool == [] { return 0; }
        ghost var desc1, place1, free1 := desc, place, free;
        e := TakeDesc(b);
        FreshLive(desc1, place1, free1, desc, place, free, e, b);
        EmptySame(old(desc), old(place), old(free), desc1, place1, free1, desc[e].page);
      }
      r := TakeFirst(e, b);
    }

    /** The end of malloc. */
    method TakeFirst(d: int, b: int) returns (r: int)
      requires Shape() && 0 <= d < |desc| == |place| == |free| && place[d] == b < BUCKETS && desc[d].freeptr != 0
      requires forall e :: 0 <= e < |desc| && place[e] < BUCKETS && e != d ==> desc[e].refcnt > 0
      modifies `desc, `free
      ensures Valid() && |desc| == |place| == |free| && place[d] < BUCKETS && Live(desc, place, free, d, r)
              && desc[d].size == SizeOf(b)
      ensures forall n :: !LiveAt(old(desc), place, old(free), r, n)
      ensures forall n :: LiveAt(desc, place, free, r, n) <==> n == SizeOf(b)
      ensures forall a, n :: a != r ==> (LiveAt(desc, place, free, a, n) <==> LiveAt(old(desc), place, old(free), a, n))
      ensures r > 0 && r / PAGE_SIZE == desc[d].page == old(desc)[d].page && r == old(desc)[d].freeptr
      ensures |desc| == |old(desc)|
    {
      hide Lists, Buckets, Pool, Slot;
      TakeObject(mem, desc, place, free, d);
      BucketIs(mem, desc, place, free, d);
      SlotPage(desc[d], desc[d].freeptr);
      r := desc[d].freeptr;
      ghost var x := desc[d].(freeptr := Word(mem, r), refcnt := desc[d].refcnt + 1);
      Relabel(desc, chain + [freeDesc], lists, place, d, x);
      PoolSame(pool, desc, place, d, x);
      TakenLive(mem, desc, place, free, d, x, r);
      desc := desc[d := desc[d].(freeptr := Word(mem, r))];
      desc := desc[d := desc[d].(refcnt := desc[d].refcnt + 1)];
      free := free[d := free[d][1..]];
      assert desc == old(desc)[d := x];
    }

    /** The inner loop of free_s: the descriptor of a page in one chain, and the one
        before it. */
    method WalkChain(b: int, page: int) returns (e: int, prev: int, ghost k: int)
      requires Shape() && 0 <= b < BUCKETS
      ensures |lists| == BUCKETS + 1 && |place| == |desc| && 0 <= k <= |lists[b]| && e == At(lists[b], k, NULL)
              && prev == At(lists[b], k - 1, NULL)
      ensures e != NULL ==> 0 <= e < |desc| && k < |lists[b]| && place[e] == b && desc[e].page == page
      ensures e == NULL ==> forall d :: 0 <= d < |desc| && place[d] == b ==> desc[d].page != page
    {
      hide Lists, Buckets, Pool;
      ChainOf(desc, chain, freeDesc, lists, place, b);
      ghost var list := lists[b];
      prev, e, k := NULL, chain[b], 0;
      while e != NULL && desc[e].page != page
        invariant 0 <= k <= |list| && e == At(list, k, NULL) && prev == At(list, k - 1, NULL)
        invariant forall j :: 0 <= j < k ==> desc[list[j]].page != page
        decreases |list| - k
      {
        prev := e;
        e := desc[e].next;
        k := k + 1;
      }
      if e == NULL {
        NoneInList(desc, list, page);
      } else {
        assert list[k] in list;
      }
    }

    /** The search of free_s through the chains of large enough objects. */
    method FindPage(page: int, size: int, ghost d: int) returns (b: int, e: int, prev: int, ghost k: int)
      requires Shape() && 0 <= d < |desc| == |place| && 0 <= place[d] < BUCKETS && desc[d].page == page
               && size <= SizeOf(place[d])
      ensures 0 <= b < BUCKETS && e == d && b == place[d] && |lists| == BUCKETS + 1 && 0 <= k < |lists[b]|
              && lists[b][k] == d
      ensures prev == if k > 0 then lists[b][k - 1] else NULL
    {
      hide Lists, Buckets, Pool, SizeOf;
      OnePage(mem, desc, place, free, page, d);
      b := 0;
      while true
        invariant 0 <= b <= place[d]
        decreases BUCKETS - b
      {
        if SizeOf(b) >= size {
          e, prev, k := WalkChain(b, page);
          if e != NULL { return; }
        }
        b := b + 1;
      }
    }

    /** free_s: the object is free again; its page goes back to the system exactly
        when no live object is left in it. */
    method FreeS(obj: int, size: int, ghost d: int)
      requires Valid() && Live(desc, place, free, d, obj) && size <= desc[d].size
      modifies this
      ensures Valid() && |desc| == |old(desc)|
      ensures forall a, n :: LiveAt(desc, place, free, a, n) <==>
          a != obj && LiveAt(old(desc), old(place), old(free), a, n)
      ensures forall c :: c != obj ==> Word(mem, c) == Word(old(mem), c)
      ensures if PageEmpty(desc, place, free, obj / PAGE_SIZE) then pool == old(pool) + [obj / PAGE_SIZE]
              else pool == old(pool)
    {
      hide Lists, Buckets, Pool, Slot, SizeOf, Bucket, LiveAt;
      LiveIs(mem, desc, place, free, d, obj);
      var b, e, prev;
      ghost var k;
      b, e, prev, k := FindPage(obj / PAGE_SIZE, size, d);
      PutBack(obj, e);
      if desc[e].refcnt == 0 {
        // The source looks for prev again if it changed; here it cannot have.
        Release(b, e, prev, k);
      } else {
        HasLive(mem, desc, place, free, e);
      }
    }

    /** The object goes in front of its page's free objects. */
    method PutBack(obj: int, d: int)
      requires Valid() && Live(desc, place, free, d, obj) && obj > 0
      modifies `desc, `mem, `free
      ensures Shape() && |desc| == |old(desc)| && desc[d].page == old(desc)[d].page && |free| == |desc| == |place|
      ensures forall e :: 0 <= e < |desc| && place[e] < BUCKETS && e != d ==> desc[e].refcnt > 0
      ensures forall a, n :: LiveAt(desc, place, free, a, n) <==> a != obj && LiveAt(old(desc), place, old(free), a, n)
      ensures forall c :: c != obj ==> Word(mem, c) == Word(old(mem), c)
    {
      BucketSizes(mem, desc, place, free);
      GiveObject(mem, desc, place, free, d, obj);
      ghost var x := desc[d].(freeptr := obj, refcnt := desc[d].refcnt - 1);
      hide Lists, Buckets, Pool, Slot;
      Relabel(desc, chain + [freeDesc], lists, place, d, x);
      PoolSame(pool, desc, place, d, x);
      GivenLive(mem, desc, place, free, d, x, obj);
      mem := mem[obj := desc[d].freeptr];
      desc := desc[d := desc[d].(freeptr := obj)];
      desc := desc[d := desc[d].(refcnt := desc[d].refcnt - 1)];
      free := free[d := [obj] + free[d]];
      assert desc == old(desc)[d := x];
    }

    /** The last object is gone: the page and the descriptor are given back. */
    method Release(b: int, d: int, prev: int, ghost k: int)
      requires Shape() && 0 <= d < |desc| == |place| == |free| && 0 <= b < BUCKETS && place[d] == b
               && desc[d].refcnt == 0
      requires |lists| == BUCKETS + 1 && 0 <= k < |lists[b]| && lists[b][k] == d
               && prev == if k > 0 then lists[b][k - 1] else NULL
      requires forall e :: 0 <= e < |desc| && place[e] < BUCKETS && e != d ==> desc[e].refcnt > 0
      modifies this
      ensures Valid() && |desc| == |old(desc)| && pool == old(pool) + [old(desc)[d].page]
      ensures forall a, n :: LiveAt(desc, place, free, a, n) <==> LiveAt(old(desc), old(place), old(free), a, n)
      ensures mem == old(mem)
      ensures PageEmpty(desc, place, free, old(desc)[d].page)
    {
      hide Lists, Buckets, Pool, Slot, LiveAt, Drop, ListsBut, PageEmpty;
      HeadsAt(desc, chain, freeDesc, lists, place, b, d, k);
      Unlink(desc, chain + [freeDesc], lists, place, b, k);
      ghost var heads1 := if k > 0 then chain + [freeDesc] else (chain + [freeDesc])[b := desc[d].next];
      ghost var desc0, lists1 := desc, lists[b := Drop(lists[b], k)];
      if prev != NULL {
        desc := desc[prev := desc[prev].(next := desc[d].next)];
      } else {
        chain := chain[b := desc[d].next];
      }
      assert heads1 == chain + [freeDesc];
      ghost var desc1, x := desc, desc[d].(next := freeDesc);
      Relinked(mem, pool, desc0, desc1, place, free, d);
      Link(desc1, heads1, lists1, place, d, BUCKETS, x);
      Assign(mem, mem, desc1, place, free, d, x, BUCKETS, []);
      ReleasedLive(mem, desc0, desc1, place, free, d, x);
      PoolGiven(pool, desc1, place, d, x, desc[d].page, mem, free);
      pool := pool + [desc[d].page];
      desc := desc[d := desc[d].(next := freeDesc)];
      freeDesc := d;
      lists := lists1[BUCKETS := [d] + lists1[BUCKETS]];
      place := place[d := BUCKETS];
      free := free[d := []];
      assert chain + [freeDesc] == heads1[BUCKETS := d];
    }

    /** The owner of an object stores into it. */
    method Store(obj: int, a: int, v: int, ghost d: int)
      requires Valid() && Live(desc, place, free, d, obj) && obj <= a < obj + desc[d].size
      modifies `mem
      ensures Valid() && Word(mem, a) == v && forall c :: c != a ==> Word(mem, c) == Word(old(mem), c)
    {
      StoreKeeps(mem, desc, place, free, d, obj, a, v);
      Poke(mem, a, v);
      hide Lists, Buckets, Pool, Word;
      mem := mem[a := v];
    }
  }

  lemma NoneInList(desc: seq<Desc>, list: seq<int>, page: int)
    requires forall j :: 0 <= j < |list| ==> 0 <= list[j] < |desc| && desc[list[j]].page != page
    ensures forall d :: d in list ==> 0 <= d < |desc| && desc[d].page != page
  { }

  /** The first k objects of s lead each to the next. */
  ghost predicate Chained(mem: map<int, int>, s: seq<int>, k: int) {
    k < |s| && forall j :: 0 <= j < k ==> Word(mem, s[j]) == s[j + 1]
  }

  ghost predicate SameElsewhere(mem: map<int, int>, mem': map<int, int>, page: int) {
    forall a :: a / PAGE_SIZE != page ==> Word(mem', a) == Word(mem, a)
  }

  lemma SlotsIn(page: int, b: int)
    requires 0 <= b < BUCKETS && page > 0
    ensures var s := Slots(page, SizeOf(b), PAGE_SIZE / SizeOf(b));
      && SizeOf(b) > 0 && |s| == PAGE_SIZE / SizeOf(b) >= 1 && Distinct(s) && forall i :: 0 <= i < |s| ==>
           s[i] / PAGE_SIZE == page && s[i] > 0
  {
    SlotsGood(page, b);
  }

  lemma ChainStep(mem0: map<int, int>, mem: map<int, int>, s: seq<int>, k: int, page: int, v: int)
    requires Chained(mem, s, k) && SameElsewhere(mem0, mem, page) && 0 <= k < |s| - 1 && Distinct(s) && v == s[k + 1]
    requires forall i :: 0 <= i < |s| ==> s[i] / PAGE_SIZE == page && s[i] > 0
    ensures Chained(mem[s[k] := v], s, k + 1) && SameElsewhere(mem0, mem[s[k] := v], page)
  {
    Poke(mem, s[k], v);
    hide Word;
  }

  lemma ChainEnd(mem0: map<int, int>, mem: map<int, int>, s: seq<int>, page: int)
    requires Chained(mem, s, |s| - 1) && SameElsewhere(mem0, mem, page) && s != [] && Distinct(s)
    requires forall i :: 0 <= i < |s| ==> s[i] / PAGE_SIZE == page && s[i] > 0
    ensures FreeChain(mem[s[|s| - 1] := 0], s[0], s) && SameElsewhere(mem0, mem[s[|s| - 1] := 0], page)
  {
    Poke(mem, s[|s| - 1], 0);
    hide Word;
  }

  /** The n-th and later descriptors are linked in front of the unused ones. */
  lemma FreshDescs(was: seq<Desc>, desc: seq<Desc>, heads: seq<int>, lists: seq<seq<int>>, place: seq<int>, n: int)
    requires Lists(was, heads, lists, place) && n == |was| && was <= desc && |desc| == n + DESCS
    requires forall d :: n <= d < |desc| - 1 ==> desc[d].next == d + 1
    requires desc[|desc| - 1].next == heads[BUCKETS]
    ensures Lists(desc, heads[BUCKETS := n], lists[BUCKETS := seq(DESCS, k => n + k) + lists[BUCKETS]],
                  place + seq(DESCS, _ => BUCKETS))
  {
    hide Row, AllIn;
    var fresh_ := seq(DESCS, k => n + k);
    var place' := place + seq(DESCS, _ => BUCKETS);
    FreshRow(was, desc, heads[BUCKETS], lists[BUCKETS], place, n);
    FreshIn(fresh_, lists[BUCKETS], place, place', n);
    forall g | 0 <= g <= BUCKETS && g != BUCKETS ensures Row(desc, heads[g], lists[g]) && AllIn(lists[g], place', g) {
      RowFrame(was, desc, heads[g], lists[g]);
      LongerIn(lists[g], place, place', g);
    }
    FreshPlaced(lists, place, n);
  }

  lemma FreshPlaced(lists: seq<seq<int>>, place: seq<int>, n: int)
    requires |lists| == BUCKETS + 1 && n == |place| && forall d :: 0 <= d < n ==> InList(lists, place, d)
    ensures var lists' := lists[BUCKETS := seq(DESCS, k => n + k) + lists[BUCKETS]];
        var place' := place + seq(DESCS, _ => BUCKETS);
      forall d :: 0 <= d < n + DESCS ==> InList(lists', place', d)
  {
    var fresh_ := seq(DESCS, k => n + k);
    var lists' := lists[BUCKETS := fresh_ + lists[BUCKETS]];
    var place' := place + seq(DESCS, _ => BUCKETS);
    forall d | 0 <= d < n + DESCS ensures InList(lists', place', d) {
      if d < n {
        assert InList(lists, place, d);
      } else {
        assert fresh_[d - n] == d;
        assert lists'[BUCKETS][d - n] == d;
      }
    }
  }

  lemma FreshRow(was: seq<Desc>, desc: seq<Desc>, head: int, list: seq<int>, place: seq<int>, n: int)
    requires Row(was, head, list) && AllIn(list, place, BUCKETS) && n == |was| == |place| && was <= desc
             && |desc| == n + DESCS
    requires (forall d :: n <= d < |desc| - 1 ==> desc[d].next == d + 1) && desc[|desc| - 1].next == head
    ensures Row(desc, n, seq(DESCS, k => n + k) + list)
  {
    var list' := seq(DESCS, k => n + k) + list;
    FreshDistinct(was, head, list, n);
    assert At(list', 0, NULL) == n by { ListIndex(list, n); }
    hide Distinct, AllIn;
    forall i | 0 <= i < |list'| ensures 0 <= list'[i] < |desc| && desc[list'[i]].next == At(list', i + 1, NULL) {
      if i >= DESCS {
        FreshTail(was, desc, head, list, n, i - DESCS);
      } else {
        FreshHead(desc, list, n, i);
      }
    }
  }

  lemma FreshHead(desc: seq<Desc>, list: seq<int>, n: int, i: int)
    requires |desc| == n + DESCS && n >= 0 && 0 <= i < DESCS
    requires (forall d :: n <= d < |desc| - 1 ==> desc[d].next == d + 1) && desc[|desc| - 1].next == At(list, 0, NULL)
    ensures var l := seq(DESCS, k => n + k) + list; l[i] == n + i && desc[n + i].next == At(l, i + 1, NULL)
  {
    ListIndex(list, n);
  }

  lemma ListIndex(list: seq<int>, n: int)
    ensures var l := seq(DESCS, k => n + k) + list;
      && |l| == DESCS + |list| && (forall i :: 0 <= i < DESCS ==> l[i] == n + i) && forall i :: DESCS <= i < |l| ==>
           l[i] == list[i - DESCS]
  { }

  lemma FreshDistinct(was: seq<Desc>, head: int, list: seq<int>, n: int)
    requires Row(was, head, list) && n == |was|
    ensures Distinct(seq(DESCS, k => n + k) + list)
  {
    ListIndex(list, n);
    var l := seq(DESCS, k => n + k) + list;
    forall i, j | 0 <= i < j < |l| ensures l[i] != l[j] { }
  }

  lemma FreshTail(was: seq<Desc>, desc: seq<Desc>, head: int, list: seq<int>, n: int, i: int)
    requires Row(was, head, list) && n == |was| && was <= desc && 0 <= i < |list|
    ensures var l := seq(DESCS, k => n + k) + list;
        l[DESCS + i] == list[i] && 0 <= list[i] < n && desc[list[i]].next == At(l, DESCS + i + 1, NULL)
  {
    ListIndex(list, n);
  }

  lemma LongerIn(list: seq<int>, place: seq<int>, place': seq<int>, k: int)
    requires AllIn(list, place, k) && place <= place'
    ensures AllIn(list, place', k)
  { }

  lemma FreshIn(fresh_: seq<int>, list: seq<int>, place: seq<int>, place': seq<int>, n: int)
    requires AllIn(list, place, BUCKETS) && n == |place| && place' == place + seq(DESCS, _ => BUCKETS)
             && fresh_ == seq(DESCS, k => n + k)
    ensures AllIn(fresh_ + list, place', BUCKETS)
  { }

  lemma FreshBuckets(mem: map<int, int>, was: seq<Desc>, desc: seq<Desc>, pool: seq<int>, place: seq<int>,
                     free: seq<seq<int>>)
    requires Buckets(mem, was, place, free) && Pool(pool, was, place) && was <= desc && |desc| == |was| + DESCS
             && pool != []
    ensures Buckets(mem, desc, place + seq(DESCS, _ => BUCKETS), free + seq(DESCS, _ => []))
    ensures Pool(pool[1..], desc, place + seq(DESCS, _ => BUCKETS))
  {
    hide Bucket;
  }
}
