/** lib/malloc.c over whole runs, as the owners of the objects see it: which objects
    are out, what is in them, and where the pages and the descriptors are. */
module HeapRuns {
  import opened Sequences
  import opened Malloc

  /** Free and Write name an object by its number in the order of allocation; size is
      what free_s is told, 0 for not known. */
  datatype Op = Alloc(len: nat) | Free(k: int, size: int) | Write(k: int, i: int, v: int)

  /** The objects that are out, how many bytes each has, all bytes, the free frames,
      and how many descriptors have been made. */
  datatype Snap = Snap(objs: seq<int>, sizes: seq<int>, mem: map<int, int>, pool: seq<int>, descs: nat)

  /** The pages that hold objects; each has a descriptor. */
  function Pages(objs: seq<int>): set<int> { set k | 0 <= k < |objs| :: objs[k] / PAGE_SIZE }

  /** A page with objects of n bytes has another one that is not out. */
  ghost predicate Room(s: Snap, n: int)
    requires |s.sizes| == |s.objs|
  {
    n > 0 && exists k, i :: 0 <= k < |s.objs| && s.sizes[k] == n && 0 <= i < PAGE_SIZE / n && Vacant(s, k, i)
  }

  /** The i-th object of the page that object k is in is not out. */
  predicate Vacant(s: Snap, k: int, i: int)
    requires 0 <= k < |s.objs| == |s.sizes|
  {
    s.objs[k] / PAGE_SIZE * PAGE_SIZE + i * s.sizes[k] !in s.objs
  }

  /** The frames that a new page of objects takes: another one when every descriptor
      has a page. */
  function Takes(s: Snap): nat { if |Pages(s.objs)| == s.descs then 2 else 1 }

  /** malloc panics. */
  ghost predicate Refused(s: Snap, len: nat)
    requires |s.sizes| == |s.objs|
  {
    len > PAGE_SIZE || (!Room(s, SizeFor(len)) && |s.pool| < Takes(s))
  }

  /** The last frame may have gone into descriptors by then. */
  ghost function Panicked(s: Snap, len: nat): Snap
    requires |s.sizes| == |s.objs|
  {
    if len <= PAGE_SIZE && !Room(s, SizeFor(len)) && |s.pool| == 1 then s.(pool := [], descs := s.descs + DESCS) else s
  }

  /** Byte i of the object at a. */
  function Byte(mem: map<int, int>, a: int, i: int): int { Word(mem, a + i) }

  /** Object k of s has the same bytes in mem. */
  ghost predicate Stays(s: Snap, k: int, mem: map<int, int>)
    requires 0 <= k < |s.objs| == |s.sizes|
  {
    forall i :: 0 <= i < s.sizes[k] ==> Byte(mem, s.objs[k], i) == Byte(s.mem, s.objs[k], i)
  }

  /** The new object r: in a page that has room, and then nothing else changes; else
      the first of a new page. */
  ghost predicate Handed(s: Snap, len: nat, r: int, t: Snap)
    requires |s.sizes| == |s.objs| && len <= PAGE_SIZE
  {
    var n := SizeFor(len);
    && t.objs == s.objs + [r] && t.sizes == s.sizes + [n]
    && (forall k :: 0 <= k < |s.objs| ==> Stays(s, k, t.mem))
    && if Room(s, n) then
         && t.mem == s.mem && t.pool == s.pool && t.descs == s.descs
         && exists k :: 0 <= k < |s.objs| && s.sizes[k] == n && s.objs[k] / PAGE_SIZE == r / PAGE_SIZE
       else
         && |s.pool| >= Takes(s) && r == s.pool[Takes(s) - 1] * PAGE_SIZE && t.pool == s.pool[Takes(s)..]
         && t.descs == s.descs + if Takes(s) == 2 then DESCS else 0
  }

  /** Object k and the page that it may leave empty. */
  ghost predicate Given(s: Snap, k: int, t: Snap)
    requires 0 <= k < |s.objs| == |s.sizes|
  {
    && t.objs == Drop(s.objs, k) && t.sizes == Drop(s.sizes, k) && t.descs == s.descs
    && (forall j :: 0 <= j < |s.objs| && j != k ==> Stays(s, j, t.mem))
    && var page := s.objs[k] / PAGE_SIZE;
       t.pool == if page in Pages(t.objs) then s.pool else s.pool + [page]
  }

  ghost predicate Stepped(op: Op, s: Snap, t: Snap) {
    && |s.sizes| == |s.objs|
    && match op
       case Alloc(len) =>
         if Refused(s, len) then t == Panicked(s, len) else t.objs != [] && Handed(s, len, t.objs[|t.objs| - 1], t)
       case Free(k, size) => if 0 <= k < |s.objs| && size <= s.sizes[k] then Given(s, k, t) else t == s
       case Write(k, i, v) =>
         if !(0 <= k < |s.objs| && 0 <= i < s.sizes[k]) then t == s
         else
           && t == s.(mem := t.mem) && Byte(t.mem, s.objs[k], i) == v
           && forall c :: c != s.objs[k] + i ==> Word(t.mem, c) == Word(s.mem, c)
  }

  /** Objects lie each in one page and do not overlap, free frames hold none, and
      there are descriptors enough. */
  ghost predicate Apart(s: Snap) {
    && |s.sizes| == |s.objs| && Distinct(s.objs)
    && (forall k :: 0 <= k < |s.objs| ==> s.sizes[k] >= 16 && s.objs[k] % PAGE_SIZE + s.sizes[k] <= PAGE_SIZE)
    && (forall j, k :: 0 <= j < |s.objs| && 0 <= k < |s.objs| && s.objs[j] < s.objs[k] ==>
           s.objs[j] + s.sizes[j] <= s.objs[k])
    && Distinct(s.pool) && (forall i :: 0 <= i < |s.pool| ==> s.pool[i] !in Pages(s.objs))
    && |Pages(s.objs)| <= s.descs
  }

  /* ---- frames are conserved ---- */

  /** All frames: free, holding objects, or holding descriptors. */
  function Frames(s: Snap): nat { |s.pool| + |Pages(s.objs)| + s.descs / DESCS }

  lemma PagesMore(objs: seq<int>, r: int)
    ensures Pages(objs + [r]) == Pages(objs) + {r / PAGE_SIZE}
  {
    var all := objs + [r];
    assert all[|objs|] == r;
    forall k | 0 <= k < |objs| ensures objs[k] / PAGE_SIZE in Pages(all) { assert all[k] == objs[k]; }
  }

  lemma PagesLess(objs: seq<int>, k: int)
    requires 0 <= k < |objs|
    ensures Pages(objs) == Pages(Drop(objs, k)) + {objs[k] / PAGE_SIZE}
  {
    var rest := Drop(objs, k);
    DropAt(objs, k);
    hide Drop;
    forall j | 0 <= j < |objs| && j != k ensures objs[j] / PAGE_SIZE in Pages(rest) {
      assert rest[if j < k then j else j - 1] == objs[j];
    }
    forall j | 0 <= j < |rest| ensures rest[j] / PAGE_SIZE in Pages(objs) {
      assert rest[j] == objs[if j < k then j else j + 1];
    }
  }

  lemma OneMore(a: set<int>, x: int)
    ensures |a + {x}| == |a| + if x in a then 0 else 1
  {
    assert x in a ==> a + {x} == a;
  }

  lemma OnePageMore(descs: nat)
    ensures (descs + DESCS) / DESCS == descs / DESCS + 1
  { }

  lemma PageOf(s: Snap, r: int)
    requires exists k :: 0 <= k < |s.objs| && s.objs[k] / PAGE_SIZE == r / PAGE_SIZE
    ensures r / PAGE_SIZE in Pages(s.objs)
  { }

  lemma HandedFrames(s: Snap, len: nat, r: int, t: Snap)
    requires Apart(s) && len <= PAGE_SIZE && Handed(s, len, r, t)
    ensures Frames(t) == Frames(s)
  {
    hide Room, Stays, SizeFor, Distinct, Pages;
    PagesMore(s.objs, r);
    OneMore(Pages(s.objs), r / PAGE_SIZE);
    OnePageMore(s.descs);
    if Room(s, SizeFor(len)) {
      PageOf(s, r);
    } else {
      assert s.pool[Takes(s) - 1] !in Pages(s.objs);
    }
  }

  lemma GivenFrames(s: Snap, k: int, t: Snap)
    requires Apart(s) && 0 <= k < |s.objs| && Given(s, k, t)
    ensures Frames(t) == Frames(s)
  {
    hide Stays, Distinct, Pages;
    PagesLess(s.objs, k);
    OneMore(Pages(t.objs), s.objs[k] / PAGE_SIZE);
  }

  /** No frame is ever lost or made: a page is free, or it holds objects, or
      descriptors. */
  lemma Conserved(op: Op, s: Snap, t: Snap)
    requires Apart(s) && Stepped(op, s, t)
    ensures Frames(t) == Frames(s)
  {
    hide Room, Handed, Given, Pages, SizeFor, Apart, Takes, Stays, Byte, Word;
    match op
    case Alloc(len) =>
      OnePageMore(s.descs);
      if !Refused(s, len) { HandedFrames(s, len, t.objs[|t.objs| - 1], t); }
    case Free(k, size) => if 0 <= k < |s.objs| && size <= s.sizes[k] { GivenFrames(s, k, t); }
    case Write(_, _, _) =>
  }

  lemma {:induction false} FramesConserved(ops: seq<Op>, snaps: seq<Snap>, n: nat)
    requires n <= |ops| && |snaps| == |ops| + 1 && forall k :: 0 <= k <= |ops| ==> Apart(snaps[k])
    requires forall k :: 0 <= k < |ops| ==> Stepped(ops[k], snaps[k], snaps[k + 1])
    ensures Frames(snaps[n]) == Frames(snaps[0])
  {
    hide Apart, Stepped, Frames;
    if n > 0 {
      FramesConserved(ops, snaps, n - 1);
      Conserved(ops[n - 1], snaps[n - 1], snaps[n]);
    }
  }

  /* ---- the heap behind a snapshot ---- */

  /** The live objects are those that are out. */
  ghost predicate Out(desc: seq<Desc>, place: seq<int>, free: seq<seq<int>>, s: Snap) {
    && |s.sizes| == |s.objs| && Distinct(s.objs)
    && (forall a, n :: LiveAt(desc, place, free, a, n) ==> Among(s, a, n))
    && (forall k :: 0 <= k < |s.objs| ==> LiveAt(desc, place, free, s.objs[k], s.sizes[k]))
  }

  predicate Among(s: Snap, a: int, n: int)
    requires |s.sizes| == |s.objs|
  {
    exists k :: 0 <= k < |s.objs| && s.objs[k] == a && s.sizes[k] == n
  }

  /** Every page of a bucket holds a live object. */
  ghost predicate Busy(desc: seq<Desc>, place: seq<int>) {
    |place| == |desc| && forall d :: 0 <= d < |desc| && place[d] < BUCKETS ==> desc[d].refcnt > 0
  }

  lemma OutSizes(desc: seq<Desc>, place: seq<int>, free: seq<seq<int>>, s: Snap)
    requires Out(desc, place, free, s)
    ensures |s.sizes| == |s.objs| && Distinct(s.objs)
  { }

  lemma OutSame(desc: seq<Desc>, place: seq<int>, free: seq<seq<int>>, desc': seq<Desc>, place': seq<int>,
                free': seq<seq<int>>, s: Snap, t: Snap)
    requires Out(desc, place, free, s) && t.objs == s.objs && t.sizes == s.sizes
    requires forall a, n :: LiveAt(desc', place', free', a, n) <==> LiveAt(desc, place, free, a, n)
    ensures Out(desc', place', free', t)
  {
    hide LiveAt;
    forall a, n | LiveAt(desc', place', free', a, n) ensures Among(t, a, n) { assert Among(s, a, n); }
  }

  lemma OutMore(desc: seq<Desc>, place: seq<int>, free: seq<seq<int>>, desc': seq<Desc>, place': seq<int>,
                free': seq<seq<int>>, s: Snap, r: int, n: int, t: Snap)
    requires Out(desc, place, free, s) && (forall k :: !LiveAt(desc, place, free, r, k))
             && (forall k :: LiveAt(desc', place', free', r, k) <==> k == n)
    requires forall a, k :: a != r ==> (LiveAt(desc', place', free', a, k) <==> LiveAt(desc, place, free, a, k))
    requires t.objs == s.objs + [r] && t.sizes == s.sizes + [n]
    ensures Out(desc', place', free', t)
  {
    hide LiveAt;
    forall a, k | LiveAt(desc', place', free', a, k) ensures Among(t, a, k) {
      if a == r {
        assert t.objs[|s.objs|] == a && t.sizes[|s.objs|] == k;
      } else {
        assert Among(s, a, k);
        var j :| 0 <= j < |s.objs| && s.objs[j] == a && s.sizes[j] == k;
        assert t.objs[j] == a && t.sizes[j] == k;
      }
    }
    forall k | 0 <= k < |t.objs| ensures LiveAt(desc', place', free', t.objs[k], t.sizes[k]) {
      if k < |s.objs| { assert LiveAt(desc, place, free, s.objs[k], s.sizes[k]); }
    }
  }

  lemma OutLess(desc: seq<Desc>, place: seq<int>, free: seq<seq<int>>, desc': seq<Desc>, place': seq<int>,
                free': seq<seq<int>>, s: Snap, k: int, t: Snap)
    requires Out(desc, place, free, s) && 0 <= k < |s.objs|
    requires forall a, n :: LiveAt(desc', place', free', a, n) <==> a != s.objs[k] && LiveAt(desc, place, free, a, n)
    requires t.objs == Drop(s.objs, k) && t.sizes == Drop(s.sizes, k)
    ensures Out(desc', place', free', t)
  {
    DropAt(s.objs, k);
    DropAt(s.sizes, k);
    LessOut(desc, place, free, desc', place', free', s, k, t);
  }

  lemma LessOut(desc: seq<Desc>, place: seq<int>, free: seq<seq<int>>, desc': seq<Desc>, place': seq<int>,
                free': seq<seq<int>>, s: Snap, k: int, t: Snap)
    requires Out(desc, place, free, s) && 0 <= k < |s.objs|
    requires forall a, n :: LiveAt(desc', place', free', a, n) <==> a != s.objs[k] && LiveAt(desc, place, free, a, n)
    requires |t.objs| == |t.sizes| == |s.objs| - 1 && Distinct(t.objs)
    requires forall i :: 0 <= i < |t.objs| ==>
        var j := if i < k then i else i + 1; t.objs[i] == s.objs[j] && t.sizes[i] == s.sizes[j]
    ensures Out(desc', place', free', t)
  {
    hide LiveAt;
    forall a, n | LiveAt(desc', place', free', a, n) ensures Among(t, a, n) {
      assert Among(s, a, n);
      var j :| 0 <= j < |s.objs| && s.objs[j] == a && s.sizes[j] == n;
      var i := if j < k then j else j - 1;
      assert t.objs[i] == a && t.sizes[i] == n;
    }
    forall i | 0 <= i < |t.objs| ensures LiveAt(desc', place', free', t.objs[i], t.sizes[i]) {
      var j := if i < k then i else i + 1;
      assert LiveAt(desc, place, free, s.objs[j], s.sizes[j]);
    }
  }

  lemma OutOwner(mem: map<int, int>, desc: seq<Desc>, place: seq<int>, free: seq<seq<int>>, s: Snap, k: int)
    returns (d: int)
    requires Buckets(mem, desc, place, free) && Out(desc, place, free, s) && 0 <= k < |s.objs|
    ensures 0 <= d < |desc| && Live(desc, place, free, d, s.objs[k]) && desc[d].size == s.sizes[k] >= 16
  {
    d := LiveOwner(mem, desc, place, free, s.objs[k], s.sizes[k]);
  }

  /** Live objects are apart. */
  lemma ObjectsApart(mem: map<int, int>, desc: seq<Desc>, place: seq<int>, free: seq<seq<int>>, s: Snap)
    requires Buckets(mem, desc, place, free) && Out(desc, place, free, s)
    ensures |s.sizes| == |s.objs|
    ensures forall k :: 0 <= k < |s.objs| ==> s.sizes[k] >= 16 && s.objs[k] % PAGE_SIZE + s.sizes[k] <= PAGE_SIZE
    ensures forall j, k :: 0 <= j < |s.objs| && 0 <= k < |s.objs| && s.objs[j] < s.objs[k] ==>
        s.objs[j] + s.sizes[j] <= s.objs[k]
  {
    hide Buckets, Out, Live;
    OutSizes(desc, place, free, s);
    forall k | 0 <= k < |s.objs| ensures s.sizes[k] >= 16 && s.objs[k] % PAGE_SIZE + s.sizes[k] <= PAGE_SIZE {
      var d := OutOwner(mem, desc, place, free, s, k);
      InOnePage(mem, desc, place, free, d, s.objs[k]);
    }
    forall j, k | 0 <= j < |s.objs| && 0 <= k < |s.objs| && s.objs[j] < s.objs[k]
      ensures s.objs[j] + s.sizes[j] <= s.objs[k]
    {
      var d := OutOwner(mem, desc, place, free, s, j);
      var e := OutOwner(mem, desc, place, free, s, k);
      LiveApart(mem, desc, place, free, d, s.objs[j], e, s.objs[k]);
    }
  }

  /** The descriptors that have a page. */
  function Used(place: seq<int>): set<int> { set d | 0 <= d < |place| && place[d] < BUCKETS }

  /** The pages of the first n descriptors. */
  function PagesOf(desc: seq<Desc>, place: seq<int>, n: nat): set<int>
    requires n <= |desc| == |place|
  {
    set d | 0 <= d < n && place[d] < BUCKETS :: desc[d].page
  }

  /** As many pages as descriptors that have one. */
  lemma {:induction false} PagesCount(desc: seq<Desc>, place: seq<int>, n: nat)
    requires n <= |desc| == |place|
    requires forall d, e :: 0 <= d < e < |desc| && place[d] < BUCKETS && place[e] < BUCKETS ==>
        desc[d].page != desc[e].page
    ensures |PagesOf(desc, place, n)| == |Used(place[..n])|
  {
    if n > 0 {
      var d := n - 1;
      PagesCount(desc, place, d);
      UsedNext(place, d);
      if place[d] < BUCKETS {
        assert PagesOf(desc, place, n) == PagesOf(desc, place, d) + {desc[d].page};
      } else {
        assert PagesOf(desc, place, n) == PagesOf(desc, place, d);
      }
    }
  }

  lemma UsedNext(place: seq<int>, d: nat)
    requires d < |place|
    ensures |Used(place[..d + 1])| == |Used(place[..d])| + if place[d] < BUCKETS then 1 else 0
  {
    if place[d] < BUCKETS {
      assert Used(place[..d + 1]) == Used(place[..d]) + {d};
    } else {
      assert Used(place[..d + 1]) == Used(place[..d]);
    }
  }

  /** The pages with objects out are the pages of the buckets. */
  lemma PagesAre(mem: map<int, int>, desc: seq<Desc>, place: seq<int>, free: seq<seq<int>>, s: Snap)
    requires Buckets(mem, desc, place, free) && Busy(desc, place) && Out(desc, place, free, s)
    ensures Pages(s.objs) == PagesOf(desc, place, |desc|)
  {
    hide Buckets;
    forall k | 0 <= k < |s.objs| ensures s.objs[k] / PAGE_SIZE in PagesOf(desc, place, |desc|) {
      var d := OutOwner(mem, desc, place, free, s, k);
      LiveIs(mem, desc, place, free, d, s.objs[k]);
    }
    forall d | 0 <= d < |desc| && place[d] < BUCKETS ensures desc[d].page in Pages(s.objs) {
      HasLive(mem, desc, place, free, d);
      var a, n :| LiveAt(desc, place, free, a, n) && a / PAGE_SIZE == desc[d].page;
      assert Among(s, a, n);
    }
  }

  /** A page is short of descriptors exactly when each has one. */
  lemma TakesIs(mem: map<int, int>, desc: seq<Desc>, chain: seq<int>, freeDesc: int, lists: seq<seq<int>>,
                place: seq<int>, free: seq<seq<int>>, s: Snap)
    requires |chain| == BUCKETS && Lists(desc, chain + [freeDesc], lists, place)
    requires Buckets(mem, desc, place, free) && Busy(desc, place) && Out(desc, place, free, s) && s.descs == |desc|
    ensures |Pages(s.objs)| <= s.descs && Takes(s) == if freeDesc == NULL then 2 else 1
  {
    PagesAre(mem, desc, place, free, s);
    PagesCount(desc, place, |desc|);
    assert place[..|desc|] == place;
    NoneUnused(desc, chain, freeDesc, lists, place);
    hide Lists, Buckets, Out, Pages, PagesOf;
    AllUsed(place);
  }

  lemma {:induction false} AllUsed(place: seq<int>)
    ensures |Used(place)| <= |place|
    ensures |Used(place)| == |place| <==> forall d :: 0 <= d < |place| ==> place[d] < BUCKETS
  {
    if place != [] {
      var d := |place| - 1;
      var rest := place[..d];
      AllUsed(rest);
      assert Used(place) == Used(rest) + if place[d] < BUCKETS then {d} else {};
      assert forall e :: 0 <= e < d ==> place[e] == rest[e];
    }
  }

  lemma NoneUnused(desc: seq<Desc>, chain: seq<int>, freeDesc: int, lists: seq<seq<int>>, place: seq<int>)
    requires |chain| == BUCKETS && Lists(desc, chain + [freeDesc], lists, place)
    ensures |place| == |desc|
    ensures freeDesc == NULL <==> forall d :: 0 <= d < |place| ==> place[d] < BUCKETS
  {
    var heads := chain + [freeDesc];
    assert Row(desc, heads[BUCKETS], lists[BUCKETS]) && AllIn(lists[BUCKETS], place, BUCKETS);
    forall d | 0 <= d < |place| ensures 0 <= place[d] <= BUCKETS && (place[d] == BUCKETS ==> d in lists[BUCKETS]) {
      assert InList(lists, place, d);
    }
    hide Lists, Row;
    assert freeDesc != NULL ==> lists[BUCKETS][0] in lists[BUCKETS];
  }

  /** Whether a page of the bucket has a free object can be told from what is out. */
  lemma RoomIs(mem: map<int, int>, desc: seq<Desc>, place: seq<int>, free: seq<seq<int>>, s: Snap, b: int)
    requires Buckets(mem, desc, place, free) && Busy(desc, place) && Out(desc, place, free, s) && 0 <= b < BUCKETS
    ensures RoomIn(desc, place, b) <==> Room(s, SizeOf(b))
  {
    if RoomIn(desc, place, b) {
      var d :| 0 <= d < |desc| && place[d] == b && desc[d].freeptr != 0;
      RoomShown(mem, desc, place, free, s, d);
    }
    if Room(s, SizeOf(b)) {
      var k, i :| 0 <= k < |s.objs| && s.sizes[k] == SizeOf(b) && 0 <= i < PAGE_SIZE / SizeOf(b) && Vacant(s, k, i);
      RoomThere(mem, desc, place, free, s, b, k, i);
    }
  }

  lemma RoomShown(mem: map<int, int>, desc: seq<Desc>, place: seq<int>, free: seq<seq<int>>, s: Snap, d: int)
    requires Buckets(mem, desc, place, free) && Busy(desc, place) && Out(desc, place, free, s)
    requires 0 <= d < |desc| && place[d] < BUCKETS && desc[d].freeptr != 0
    ensures 0 <= place[d] && Room(s, SizeOf(place[d]))
  {
    BucketIs(mem, desc, place, free, d);
    HasLive(mem, desc, place, free, d);
    var a, n :| LiveAt(desc, place, free, a, n) && a / PAGE_SIZE == desc[d].page;
    assert Among(s, a, n);
    var k :| 0 <= k < |s.objs| && s.objs[k] == a && s.sizes[k] == n;
    var e := OutOwner(mem, desc, place, free, s, k);
    LiveIs(mem, desc, place, free, e, a);
    OnePage(mem, desc, place, free, desc[d].page, d);
    var f := desc[d].freeptr;
    assert f == free[d][0] && Slot(desc[d], f);
    SlotFits(desc[d], place[d], f);
    NotOut(mem, desc, place, free, s, d, f);
    assert Vacant(s, k, f % PAGE_SIZE / desc[d].size);
  }

  /** A free object is not out. */
  lemma NotOut(mem: map<int, int>, desc: seq<Desc>, place: seq<int>, free: seq<seq<int>>, s: Snap, d: int, f: int)
    requires Buckets(mem, desc, place, free) && Out(desc, place, free, s) && 0 <= d < |desc| && place[d] < BUCKETS
    requires f in free[d] && Slot(desc[d], f)
    ensures f !in s.objs
  {
    OnePage(mem, desc, place, free, desc[d].page, d);
    forall k | 0 <= k < |s.objs| ensures s.objs[k] != f {
      var e := OutOwner(mem, desc, place, free, s, k);
      LiveIs(mem, desc, place, free, e, s.objs[k]);
    }
  }

  lemma RoomThere(mem: map<int, int>, desc: seq<Desc>, place: seq<int>, free: seq<seq<int>>, s: Snap, b: int, k: int,
                  i: int)
    requires Buckets(mem, desc, place, free) && Out(desc, place, free, s) && 0 <= b < BUCKETS
    requires 0 <= k < |s.objs| && s.sizes[k] == SizeOf(b) && 0 <= i < PAGE_SIZE / SizeOf(b) && Vacant(s, k, i)
    ensures RoomIn(desc, place, b)
  {
    var d := OutOwner(mem, desc, place, free, s, k);
    LiveIs(mem, desc, place, free, d, s.objs[k]);
    BucketIs(mem, desc, place, free, d);
    SameSizeOf(place[d], b);
    var a := s.objs[k] / PAGE_SIZE * PAGE_SIZE + i * s.sizes[k];
    SlotAt(s.objs[k] / PAGE_SIZE, b, i);
    assert Slot(desc[d], a);
    FreeOrOut(desc, place, free, s, d, a);
    assert free[d] != [];
  }

  lemma FreeOrOut(desc: seq<Desc>, place: seq<int>, free: seq<seq<int>>, s: Snap, d: int, a: int)
    requires Out(desc, place, free, s) && 0 <= d < |desc| == |place| == |free| && place[d] < BUCKETS && Slot(desc[d], a)
    ensures a in free[d] || a in s.objs
  {
    if a !in free[d] {
      assert Live(desc, place, free, d, a) && LiveAt(desc, place, free, a, desc[d].size);
      assert Among(s, a, desc[d].size);
    }
  }

  lemma SameSizeOf(b: int, c: int)
    requires 0 <= b < BUCKETS && 0 <= c < BUCKETS && SizeOf(b) == SizeOf(c)
    ensures b == c
  { }

  lemma PoolApart(mem: map<int, int>, pool: seq<int>, desc: seq<Desc>, place: seq<int>, free: seq<seq<int>>, s: Snap)
    requires Buckets(mem, desc, place, free) && Pool(pool, desc, place) && Busy(desc, place)
             && Out(desc, place, free, s)
    ensures Distinct(pool) && forall i :: 0 <= i < |pool| ==> pool[i] !in Pages(s.objs)
  {
    PagesAre(mem, desc, place, free, s);
    hide Pages, Buckets, Out;
  }

  /** malloc stores only into a page without objects. */
  lemma ContentsKept(desc: seq<Desc>, place: seq<int>, free: seq<seq<int>>, s: Snap, mem: map<int, int>, r: int)
    requires Out(desc, place, free, s) && Apart(s)
    requires mem == s.mem || (SameElsewhere(s.mem, mem, r / PAGE_SIZE)
                              && PageEmpty(desc, place, free, r / PAGE_SIZE))
    ensures forall k :: 0 <= k < |s.objs| ==> Stays(s, k, mem)
  {
    hide LiveAt, Word, Pages;
    forall k | 0 <= k < |s.objs| ensures Stays(s, k, mem) {
      forall i | 0 <= i < s.sizes[k] ensures Byte(mem, s.objs[k], i) == Byte(s.mem, s.objs[k], i) {
        assert LiveAt(desc, place, free, s.objs[k], s.sizes[k]);
        SamePage(s.objs[k], i);
      }
    }
  }

  /** free_s stores only into the object itself. */
  lemma OthersKept(s: Snap, mem: map<int, int>, k: int)
    requires Apart(s) && 0 <= k < |s.objs| && forall c :: c != s.objs[k] ==> Word(mem, c) == Word(s.mem, c)
    ensures forall j :: 0 <= j < |s.objs| && j != k ==> Stays(s, j, mem)
  {
    hide Word, Pages;
    forall j | 0 <= j < |s.objs| && j != k ensures Stays(s, j, mem) { assert s.objs[j] != s.objs[k]; }
  }

  /** The heap is as the snapshot says. */
  ghost predicate Shows(h: Heap, s: Snap)
    reads h
  {
    h.Valid() && Out(h.desc, h.place, h.free, s) && s.mem == h.mem && s.pool == h.pool && s.descs == |h.desc|
  }

  lemma ShownBusy(h: Heap, s: Snap)
    requires Shows(h, s)
    ensures Busy(h.desc, h.place) && |h.place| == |h.desc| == |h.free|
  {
    hide Lists, Pool, Out;
    BucketSizes(h.mem, h.desc, h.place, h.free);
  }

  lemma ShownApart(h: Heap, s: Snap)
    requires Shows(h, s)
    ensures Apart(s)
  {
    hide Lists, Buckets, Pool, Out, Pages, Slot;
    ShownBusy(h, s);
    OutSizes(h.desc, h.place, h.free, s);
    ObjectsApart(h.mem, h.desc, h.place, h.free, s);
    PoolApart(h.mem, h.pool, h.desc, h.place, h.free, s);
    TakesIs(h.mem, h.desc, h.chain, h.freeDesc, h.lists, h.place, h.free, s);
  }

  /** What malloc goes by, as it shows. */
  lemma ShownRoom(h: Heap, s: Snap, len: nat)
    requires Shows(h, s) && len <= PAGE_SIZE
    ensures |s.sizes| == |s.objs| && (RoomIn(h.desc, h.place, BucketFor(len)) <==> Room(s, SizeFor(len)))
    ensures Takes(s) == h.Need() && (h.Short(len) <==> Refused(s, len))
  {
    hide Lists, Buckets, Pool, Out, Pages, Slot, RoomIn, Room;
    ShownBusy(h, s);
    OutSizes(h.desc, h.place, h.free, s);
    RoomIs(h.mem, h.desc, h.place, h.free, s, BucketFor(len));
    TakesIs(h.mem, h.desc, h.chain, h.freeDesc, h.lists, h.place, h.free, s);
  }

  /** A page of the bucket is a page of an object of that size. */
  lemma PageShown(mem: map<int, int>, desc: seq<Desc>, place: seq<int>, free: seq<seq<int>>, s: Snap, b: int, page: int)
    requires Buckets(mem, desc, place, free) && Busy(desc, place) && Out(desc, place, free, s) && 0 <= b < BUCKETS
    requires PageIn(desc, place, b, page)
    ensures exists k :: 0 <= k < |s.objs| && s.sizes[k] == SizeOf(b) && s.objs[k] / PAGE_SIZE == page
  {
    var d :| 0 <= d < |desc| && d < |place| && place[d] == b && desc[d].page == page;
    BucketIs(mem, desc, place, free, d);
    HasLive(mem, desc, place, free, d);
    var a, n :| LiveAt(desc, place, free, a, n) && a / PAGE_SIZE == page;
    assert Among(s, a, n);
    var k :| 0 <= k < |s.objs| && s.objs[k] == a && s.sizes[k] == n;
    var e := OutOwner(mem, desc, place, free, s, k);
    LiveIs(mem, desc, place, free, e, a);
    OnePage(mem, desc, place, free, page, d);
  }

  /** The page of a freed object holds another one exactly when one is still out there. */
  lemma ShownEmpty(desc: seq<Desc>, place: seq<int>, free: seq<seq<int>>, t: Snap, page: int)
    requires Out(desc, place, free, t)
    ensures PageEmpty(desc, place, free, page) <==> page !in Pages(t.objs)
  {
    hide LiveAt;
    if page !in Pages(t.objs) {
      forall a, n | LiveAt(desc, place, free, a, n) ensures a / PAGE_SIZE != page { assert Among(t, a, n); }
    }
    forall k | 0 <= k < |t.objs| ensures LiveAt(desc, place, free, t.objs[k], t.sizes[k]) { }
  }

  /* ---- runs ---- */

  /** malloc as it shows. */
  method Allocate(h: Heap, len: nat, ghost s: Snap) returns (r: int, ghost t: Snap)
    requires Shows(h, s)
    modifies h
    ensures Shows(h, t) && Stepped(Alloc(len), s, t) && (r == 0 <==> t.objs == s.objs)
    ensures r == 0 ==> t.sizes == s.sizes
    ensures r != 0 ==> len <= PAGE_SIZE && t.objs == s.objs + [r] && t.sizes == s.sizes + [SizeFor(len)]
  {
    hide Lists, Buckets, Pool, Slot, LiveAt, Out, PageEmpty, SameElsewhere, PageIn, RoomIn, Room, Stays, Pages, Apart,
         BucketFor;
    ShownApart(h, s);
    ShownBusy(h, s);
    OutSizes(h.desc, h.place, h.free, s);
    if len <= PAGE_SIZE { ShownRoom(h, s, len); }
    ghost var desc0, place0, free0, mem0 := h.desc, h.place, h.free, h.mem;
    r := h.Malloc(len);
    if r == 0 {
      t := Panicked(s, len);
      OutSame(desc0, place0, free0, h.desc, h.place, h.free, s, t);
    } else {
      t := Snap(s.objs + [r], s.sizes + [SizeFor(len)], h.mem, h.pool, |h.desc|);
      OutMore(desc0, place0, free0, h.desc, h.place, h.free, s, r, SizeFor(len), t);
      ContentsKept(desc0, place0, free0, s, h.mem, r);
      if PageIn(desc0, place0, BucketFor(len), r / PAGE_SIZE) {
        PageShown(mem0, desc0, place0, free0, s, BucketFor(len), r / PAGE_SIZE);
      }
    }
  }

  /** free_s of an object that is out. */
  method Deallocate(h: Heap, obj: int, size: int, k: int, ghost s: Snap) returns (ghost t: Snap)
    requires Shows(h, s) && |s.sizes| == |s.objs| && 0 <= k < |s.objs| && obj == s.objs[k] && size <= s.sizes[k]
    modifies h
    ensures Shows(h, t) && Given(s, k, t)
  {
    hide Lists, Buckets, Pool, Slot, Live, LiveAt, Out, PageEmpty, Apart, Pages, Stays;
    ShownApart(h, s);
    ghost var d := OutOwner(h.mem, h.desc, h.place, h.free, s, k);
    ghost var desc0, place0, free0 := h.desc, h.place, h.free;
    h.FreeS(obj, size, d);
    t := Snap(Drop(s.objs, k), Drop(s.sizes, k), h.mem, h.pool, |h.desc|);
    OutLess(desc0, place0, free0, h.desc, h.place, h.free, s, k, t);
    ShownEmpty(h.desc, h.place, h.free, t, obj / PAGE_SIZE);
    OthersKept(s, h.mem, k);
  }

  /** One step; what is not the owner's right does nothing. */
  method Step(h: Heap, op: Op, objs: seq<int>, sizes: seq<int>, ghost s: Snap)
    returns (objs': seq<int>, sizes': seq<int>, ghost t: Snap)
    requires Shows(h, s) && s.objs == objs && s.sizes == sizes && |sizes| == |objs|
    modifies h
    ensures Shows(h, t) && t.objs == objs' && t.sizes == sizes' && Stepped(op, s, t)
  {
    hide Lists, Buckets, Pool, Slot, Live, LiveAt, Out, PageEmpty, Apart, Pages, Stays, Handed, Refused, Panicked;
    objs', sizes', t := objs, sizes, s;
    match op
    case Alloc(len) =>
      var r;
      r, t := Allocate(h, len, s);
      if r != 0 { objs', sizes' := objs + [r], sizes + [SizeFor(len)]; }
    case Free(k, size) =>
      if 0 <= k < |objs| && size <= sizes[k] {
        t := Deallocate(h, objs[k], size, k, s);
        objs', sizes' := Drop(objs, k), Drop(sizes, k);
      }
    case Write(k, i, v) =>
      if 0 <= k < |objs| && 0 <= i < sizes[k] {
        ghost var d := OutOwner(h.mem, h.desc, h.place, h.free, s, k);
        h.Store(objs[k], objs[k] + i, v, d);
        t := s.(mem := h.mem);
        OutSame(h.desc, h.place, h.free, h.desc, h.place, h.free, s, t);
      }
  }

  /** Any run of malloc, valid frees and stores by the owners: objects never overlap,
      what was stored in one stays there until it is stored over or the object is
      freed, malloc panics only when it must, and the pages go and come back as they
      should. */
  method Run(h: Heap, ops: seq<Op>) returns (objs: seq<int>, sizes: seq<int>, ghost snaps: seq<Snap>)
    requires h.Valid() && forall a, n :: !LiveAt(h.desc, h.place, h.free, a, n)
    modifies h
    ensures |snaps| == |ops| + 1 && snaps[0] == old(Snap([], [], h.mem, h.pool, |h.desc|))
    ensures Shows(h, snaps[|ops|]) && snaps[|ops|].objs == objs && snaps[|ops|].sizes == sizes
    ensures forall k :: 0 <= k <= |ops| ==> Apart(snaps[k])
    ensures forall k :: 0 <= k < |ops| ==> Stepped(ops[k], snaps[k], snaps[k + 1])
  {
    hide Lists, Buckets, Pool, Slot, Live, Stepped, Apart;
    objs, sizes := [], [];
    ghost var s := Snap([], [], h.mem, h.pool, |h.desc|);
    snaps := [s];
    ShownApart(h, s);
    for n := 0 to |ops|
      invariant |snaps| == n + 1 && snaps[0] == old(Snap([], [], h.mem, h.pool, |h.desc|)) && s == snaps[n]
      invariant Shows(h, s) && s.objs == objs && s.sizes == sizes && |sizes| == |objs|
      invariant forall k :: 0 <= k <= n ==> Apart(snaps[k])
      invariant forall k :: 0 <= k < n ==> Stepped(ops[k], snaps[k], snaps[k + 1])
    {
      ghost var t;
      objs, sizes, t := Step(h, ops[n], objs, sizes, s);
      ShownApart(h, t);
      OutSizes(h.desc, h.place, h.free, t);
      s, snaps := t, snaps + [t];
    }
  }
}
