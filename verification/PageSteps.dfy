/** The elementary steps of mm/memory.c: each keeps the frame accounting and does
    to the address spaces exactly what its eager counterpart would. */
module PageSteps {
  import opened PageTables
  import opened Sequences

  function SetCount(p: Phys, f: int, c: int): Phys
    requires |p.count| == PAGING_PAGES && LOW <= f < LOW + PAGING_PAGES
  {
    p.(count := p.count[f - LOW := c])
  }

  function AddCount(p: Phys, f: int, c: int): Phys
    requires |p.count| == PAGING_PAGES
  {
    if LOW <= f < LOW + PAGING_PAGES then SetCount(p, f, p.count[f - LOW] + c) else p
  }

  /** A free frame is taken and zeroed (get_free_page). */
  function Grab(p: Phys, f: int): Phys
    requires |p.count| == PAGING_PAGES && LOW <= f < |p.mem|
  {
    Phys(p.count[f - LOW := 1], SetFrame(p.mem, f, Zeros()), p.main)
  }

  /** A kernel-owned frame is given back (free_page). */
  function Release(p: Phys, f: int): Phys
    requires |p.count| == PAGING_PAGES && LOW <= f < |p.mem|
  {
    SetCount(p, f, 0)
  }

  /** An empty kernel-owned frame becomes the page table of directory entry d. */
  function Hang(p: Phys, d: int, f: nat): Phys
    requires 0 <= d < TABLE_SIZE
  {
    p.(mem := SetDir(p.mem, d, Link(f)))
  }

  /** An emptied page table goes back to the allocator. */
  function Unhang(p: Phys, d: int): Phys
    requires 0 <= d < TABLE_SIZE && |p.count| == PAGING_PAGES && LOW <= Dir(p.mem, d).frame < |p.mem|
  {
    Phys(p.count[Dir(p.mem, d).frame - LOW := 0], SetDir(p.mem, d, ZERO), p.main)
  }

  predicate HasTable(m: Memory, d: int) {
    DIRS_PER_TASK <= d < TABLE_SIZE && Dir(m, d).present && Dir(m, d).frame < |m|
  }

  /** A kernel-owned frame is mapped, writable. */
  function MapPage(p: Phys, d: int, i: int, f: nat): Phys
    requires InPages(d, i) && HasTable(p.mem, d)
  {
    p.(mem := SetEnt(p.mem, d, i, Link(f)))
  }

  /** An entry is cleared and its frame loses one user. */
  function ClearEnt(p: Phys, d: int, i: int): Phys
    requires InPages(d, i) && HasTable(p.mem, d) && |p.count| == PAGING_PAGES
  {
    var w := Ent(p.mem, d, i);
    (if w.present then AddCount(p, w.frame, -1) else p).(mem := SetEnt(p.mem, d, i, ZERO))
  }

  /** Entry w is given, write-protected, to (e,i); a counted frame gains a user
      and its old entry (d,i) is write-protected too. */
  function ShareEnt(p: Phys, d: int, e: int, i: int): Phys
    requires Tree(p.mem, p.main) && 0 <= d < TABLE_SIZE && InPages(e, i) && HasTable(p.mem, e)
             && |p.count| == PAGING_PAGES
    requires Ent(p.mem, d, i).frame >= LOW ==> HasTable(p.mem, d)
  {
    var w := Ent(p.mem, d, i).(rw := false);
    var m := SetEnt(p.mem, e, i, w);
    AddCount(p, w.frame, 1).(mem := if w.frame >= LOW then SetEnt(m, d, i, w) else m)
  }

  /** The only user of a frame may write it again. */
  function Unprotect(p: Phys, d: int, i: int): Phys
    requires InPages(d, i) && HasTable(p.mem, d)
  {
    p.(mem := SetEnt(p.mem, d, i, Ent(p.mem, d, i).(rw := true)))
  }

  /** A protected page is replaced by a private copy in frame f. */
  function BreakShare(p: Phys, d: int, i: int, f: nat): Phys
    requires InPages(d, i) && HasTable(p.mem, d) && |p.count| == PAGING_PAGES
    requires f < |p.mem| && Ent(p.mem, d, i).frame < |p.mem|
  {
    var w := Ent(p.mem, d, i);
    AddCount(p, w.frame, -1).(mem := SetFrame(SetEnt(p.mem, d, i, Link(f)), f, p.mem[w.frame]))
  }

  /** The hardware stores a word through a writable entry and sets its dirty bit. */
  function Poke(p: Phys, d: int, i: int, k: int, w: Word): Phys
    requires InPages(d, i) && HasTable(p.mem, d) && 0 <= k < TABLE_SIZE
    requires Ent(p.mem, d, i).frame < |p.mem|
  {
    var f := Ent(p.mem, d, i).frame;
    p.(mem := SetFrame(SetEnt(p.mem, d, i, Ent(p.mem, d, i).(dirty := true)), f, p.mem[f][k := w]))
  }

  /* ---- tools ---- */

  lemma CountsShift(p: Phys, q: Phys, kernel: set<int>, kernel': set<int>, d: int, i: int, w: Word)
    requires LOW < p.main == q.main && InPages(d, i) && Counts(p, kernel)
    requires |q.count| == PAGING_PAGES && |q.mem| == |p.mem| && Tables(q.mem) == Tables(p.mem)
    requires forall e, j :: DIRS_PER_TASK <= e < TABLE_SIZE && 0 <= j < TABLE_SIZE ==>
               Ent(q.mem, e, j) == if e == d && j == i then w else Ent(p.mem, e, j)
    requires forall f :: p.main <= f < |p.mem| ==>
               q.count[f - LOW] == p.count[f - LOW]
               - (if Ent(p.mem, d, i).present && Ent(p.mem, d, i).frame == f then 1 else 0)
               + (if w.present && w.frame == f then 1 else 0)
               + (if f in kernel' then 1 else 0) - (if f in kernel then 1 else 0)
    requires forall k :: 0 <= k < PAGING_PAGES && !(p.main <= k + LOW < |p.mem|) ==> q.count[k] == p.count[k]
    ensures Counts(q, kernel')
  {
    forall f | q.main <= f < |q.mem| ensures q.count[f - LOW] == Owners(q.mem, kernel', f)
    {
      assert p.count[f - LOW] == Owners(p.mem, kernel, f);
      RefsAfterSetEnt(p.mem, q.mem, d, i, w, f);
    }
  }

  lemma SharingSame(m: Memory, n: Memory)
    requires Sharing(m)
    requires forall e, j :: DIRS_PER_TASK <= e < TABLE_SIZE && 0 <= j < TABLE_SIZE ==> Ent(n, e, j) == Ent(m, e, j)
    ensures Sharing(n)
  { }

  /** Sharing survives a new entry whose frame agrees with all others that use it. */
  lemma SharingAfter(m: Memory, n: Memory, d: int, i: int, w: Word)
    requires Sharing(m) && InPages(d, i)
    requires forall e, j :: DIRS_PER_TASK <= e < TABLE_SIZE && 0 <= j < TABLE_SIZE ==>
               Ent(n, e, j) == if e == d && j == i then w else Ent(m, e, j)
    requires w.present && w.frame >= LOW ==>
               forall e, j :: DIRS_PER_TASK <= e < TABLE_SIZE && 0 <= j < TABLE_SIZE && (e != d || j != i) ==>
                 Ent(m, e, j).present && Ent(m, e, j).frame == w.frame ==>
                   e % DIRS_PER_TASK == d % DIRS_PER_TASK && j == i && !w.rw && !Ent(m, e, j).rw
    ensures Sharing(n)
  { }

  /** Entries unchanged and only unmapped frames written: every task sees the same. */
  lemma SameView(m: Memory, n: Memory, written: set<int>)
    requires |m| == |n|
    requires forall e, j :: DIRS_PER_TASK <= e < TABLE_SIZE && 0 <= j < TABLE_SIZE ==>
               Ent(n, e, j) == Ent(m, e, j) && (Ent(m, e, j).present ==> Ent(m, e, j).frame !in written)
    requires forall f :: 0 <= f < |m| && f !in written ==> n[f] == m[f] || f < LOW
    ensures View(n) == View(m)
  { }

  /** One entry changed and only frames no other entry maps were written. */
  lemma ViewAfter(m: Memory, n: Memory, d: int, i: int, w: Word, written: set<int>)
    requires |m| == |n| && InPages(d, i)
    requires forall e, j :: DIRS_PER_TASK <= e < TABLE_SIZE && 0 <= j < TABLE_SIZE ==>
               && Ent(n, e, j) == (if e == d && j == i then w else Ent(m, e, j))
               && ((e != d || j != i) && Ent(m, e, j).present ==> Ent(m, e, j).frame !in written)
    requires forall f :: 0 <= f < |m| && f !in written ==> n[f] == m[f] || f < LOW
    ensures View(n) == if w.present then View(m)[(d, i) := See(n, w)] else View(m) - {(d, i)}
  {
    var s := if w.present then View(m)[(d, i) := See(n, w)] else View(m) - {(d, i)};
    forall k ensures k in View(n) <==> k in s {
      if k in Grid() && k != (d, i) { assert Ent(n, k.0, k.1) == Ent(m, k.0, k.1); }
    }
    forall k | k in s ensures View(n)[k] == s[k] {
      if k != (d, i) { assert k.0 != d || k.1 != i; assert Ent(n, k.0, k.1) == Ent(m, k.0, k.1); }
    }
  }

  lemma ViewUnchanged(m: Memory, n: Memory, d: int, i: int, w: Word, written: set<int>)
    requires |m| == |n| && InPages(d, i)
    requires forall e, j :: DIRS_PER_TASK <= e < TABLE_SIZE && 0 <= j < TABLE_SIZE ==>
               && Ent(n, e, j) == (if e == d && j == i then w else Ent(m, e, j))
               && ((e != d || j != i) && Ent(m, e, j).present ==> Ent(m, e, j).frame !in written)
    requires forall f :: 0 <= f < |m| && f !in written ==> n[f] == m[f] || f < LOW
    requires w.present && Ent(m, d, i).present && See(n, w) == See(m, Ent(m, d, i))
    ensures View(n) == View(m)
  {
    ViewAfter(m, n, d, i, w, written);
    assert (d, i) in Grid();
    assert View(m)[(d, i) := See(n, w)] == View(m);
  }

  lemma NoOtherUser(m: Memory, d: int, i: int)
    requires InPages(d, i) && Ent(m, d, i).present && |Refs(m, Ent(m, d, i).frame)| == 1
    ensures forall e, j ::
              DIRS_PER_TASK <= e < TABLE_SIZE && 0 <= j < TABLE_SIZE && (e != d || j != i) && Ent(m, e, j).present ==>
                Ent(m, e, j).frame != Ent(m, d, i).frame
  {
    var s := Refs(m, Ent(m, d, i).frame);
    assert (d, i) in s;
    forall e, j | DIRS_PER_TASK <= e < TABLE_SIZE && 0 <= j < TABLE_SIZE && (e != d || j != i) && Ent(m, e, j).present
      ensures Ent(m, e, j).frame != Ent(m, d, i).frame
    {
      if Ent(m, e, j).frame == Ent(m, d, i).frame {
        assert {(d, i), (e, j)} <= s;
        SubsetSize({(d, i), (e, j)}, s);
      }
    }
  }

  /* ---- the steps ---- */

  lemma Facts(p: Phys, kernel: set<int>)
    requires Inv(p, kernel)
    ensures |p.count| == PAGING_PAGES && LOW < p.main && Tree(p.mem, p.main)
    ensures forall d :: DIRS_PER_TASK <= d < TABLE_SIZE && Dir(p.mem, d).present ==>
        p.main <= Dir(p.mem, d).frame < |p.mem|
    ensures forall d, i :: DIRS_PER_TASK <= d < TABLE_SIZE && 0 <= i < TABLE_SIZE && Ent(p.mem, d, i).present ==>
              Ent(p.mem, d, i).frame < LOW || (p.main <= Ent(p.mem, d, i).frame < |p.mem|
                                               && Ent(p.mem, d, i).frame !in kernel)
    ensures forall f :: f in kernel ==> p.main <= f < |p.mem|
  { }

  lemma DirFacts(p: Phys, kernel: set<int>)
    requires Inv(p, kernel)
    ensures |p.count| == PAGING_PAGES && LOW < p.main && Tree(p.mem, p.main)
    ensures forall d :: DIRS_PER_TASK <= d < TABLE_SIZE && Dir(p.mem, d).present ==>
        p.main <= Dir(p.mem, d).frame < |p.mem|
    ensures forall f :: f in kernel ==> p.main <= f < |p.mem|
  { }

  lemma CountBoundMapped(p: Phys, kernel: set<int>, d: int, i: int)
    requires Inv(p, kernel) && InPages(d, i) && Ent(p.mem, d, i).present && Ent(p.mem, d, i).frame >= LOW
    ensures Ent(p.mem, d, i).frame < |p.mem| && 1 <= p.count[Ent(p.mem, d, i).frame - LOW] <= 64
  {
    var f := Ent(p.mem, d, i).frame;
    CountBound(p, kernel, f);
    assert p.count[f - LOW] == Owners(p.mem, kernel, f);
    assert (d, i) in Refs(p.mem, f);
  }

  lemma GrabKeeps(p: Phys, kernel: set<int>, f: int)
    requires Inv(p, kernel) && p.main <= f < |p.mem| && p.count[f - LOW] == 0
    ensures f !in kernel && f !in Tables(p.mem)
    ensures Inv(Grab(p, f), kernel + {f}) && View(Grab(p, f).mem) == View(p.mem)
    ensures forall d, i :: DIRS_PER_TASK <= d < TABLE_SIZE && 0 <= i < TABLE_SIZE ==>
        Ent(Grab(p, f).mem, d, i) == Ent(p.mem, d, i)
    ensures forall d :: 0 <= d < TABLE_SIZE ==> Dir(Grab(p, f).mem, d) == Dir(p.mem, d)
  {
    var m := p.mem;
    assert p.count[f - LOW] == Owners(m, kernel, f);
    assert Refs(m, f) == {};
    EntAfterSetFrame(m, p.main, f, Zeros());
    var q := Grab(p, f);
    forall d, i | DIRS_PER_TASK <= d < TABLE_SIZE && 0 <= i < TABLE_SIZE && Ent(m, d, i).present
      ensures Ent(m, d, i).frame != f
    {
      assert (d, i) !in Refs(m, f);
    }
    SharingSame(m, q.mem);
    forall g | p.main <= g < |m| ensures q.count[g - LOW] == Owners(q.mem, kernel + {f}, g) {
      assert p.count[g - LOW] == Owners(m, kernel, g);
    }
    SameView(m, q.mem, {f});
  }

  /** The kernel may write the frames it owns. */
  lemma KernelWriteKeeps(p: Phys, kernel: set<int>, f: int, w: Frame)
    requires Inv(p, kernel) && f in kernel
    ensures var q := p.(mem := SetFrame(p.mem, f, w)); Inv(q, kernel) && View(q.mem) == View(p.mem)
    ensures forall d, i :: DIRS_PER_TASK <= d < TABLE_SIZE && 0 <= i < TABLE_SIZE ==>
        Ent(SetFrame(p.mem, f, w), d, i) == Ent(p.mem, d, i)
    ensures forall d :: 0 <= d < TABLE_SIZE ==> Dir(SetFrame(p.mem, f, w), d) == Dir(p.mem, d)
  {
    var m := p.mem;
    var n := SetFrame(m, f, w);
    EntAfterSetFrame(m, p.main, f, w);
    SharingSame(m, n);
    forall g | p.main <= g < |m| ensures p.count[g - LOW] == Owners(n, kernel, g) {
      assert p.count[g - LOW] == Owners(m, kernel, g);
    }
    SameView(m, n, {f});
  }

  lemma ReleaseKeeps(p: Phys, kernel: set<int>, f: int)
    requires Inv(p, kernel) && f in kernel
    ensures p.count[f - LOW] == 1 && Inv(Release(p, f), kernel - {f})
  {
    CountBound(p, kernel, f);
    var q := Release(p, f);
    forall g | p.main <= g < |p.mem| ensures q.count[g - LOW] == Owners(q.mem, kernel - {f}, g) {
      assert p.count[g - LOW] == Owners(p.mem, kernel, g);
    }
  }

  lemma MapPageKeeps(p: Phys, kernel: set<int>, d: int, i: int, f: int)
    requires Inv(p, kernel) && InPages(d, i) && HasTable(p.mem, d) && !Ent(p.mem, d, i).present && f in kernel
    ensures var q := MapPage(p, d, i, f);
      && Inv(q, kernel - {f})
      && View(q.mem) == View(p.mem)[(d, i) := Private(p.mem[f])]
      && (forall e :: 0 <= e < TABLE_SIZE ==> Dir(q.mem, e) == Dir(p.mem, e))
      && Ent(q.mem, d, i) == Link(f)
  {
    var q := MapPage(p, d, i, f);
    var w := Link(f);
    EntAfterSetEnt(p.mem, p.main, d, i, w);
    SharingAfter(p.mem, q.mem, d, i, w);
    CountsShift(p, q, kernel, kernel - {f}, d, i, w);
    ViewAfter(p.mem, q.mem, d, i, w, Tables(p.mem));
  }

  lemma ClearEntKeeps(p: Phys, kernel: set<int>, d: int, i: int)
    requires Inv(p, kernel) && InPages(d, i) && HasTable(p.mem, d)
    ensures var q := ClearEnt(p, d, i);
      && Inv(q, kernel)
      && View(q.mem) == View(p.mem) - {(d, i)}
      && (forall e :: 0 <= e < TABLE_SIZE ==> Dir(q.mem, e) == Dir(p.mem, e))
      && (forall e, j :: DIRS_PER_TASK <= e < TABLE_SIZE && 0 <= j < TABLE_SIZE ==>
            Ent(q.mem, e, j) == if e == d && j == i then ZERO else Ent(p.mem, e, j))
    ensures var w := Ent(p.mem, d, i); w.present && w.frame >= LOW ==>
        p.main <= w.frame < |p.mem| && p.count[w.frame - LOW] >= 1
  {
    var q := ClearEnt(p, d, i);
    var w := Ent(p.mem, d, i);
    EntAfterSetEnt(p.mem, p.main, d, i, ZERO);
    if w.present && w.frame >= LOW {
      assert p.count[w.frame - LOW] == Owners(p.mem, kernel, w.frame);
      assert (d, i) in Refs(p.mem, w.frame);
    }
    SharingAfter(p.mem, q.mem, d, i, ZERO);
    CountsShift(p, q, kernel, kernel, d, i, ZERO);
    ViewAfter(p.mem, q.mem, d, i, ZERO, Tables(p.mem));
  }

  lemma UnprotectKeeps(p: Phys, kernel: set<int>, d: int, i: int)
    requires Inv(p, kernel) && InPages(d, i) && HasTable(p.mem, d) && Ent(p.mem, d, i).present
    requires Ent(p.mem, d, i).frame >= LOW && p.count[Ent(p.mem, d, i).frame - LOW] == 1
    ensures var q := Unprotect(p, d, i);
      && Inv(q, kernel) && View(q.mem) == View(p.mem)
      && (forall e :: 0 <= e < TABLE_SIZE ==> Dir(q.mem, e) == Dir(p.mem, e))
      && Ent(q.mem, d, i) == Ent(p.mem, d, i).(rw := true)
  {
    var q := Unprotect(p, d, i);
    var v := Ent(p.mem, d, i);
    var w := v.(rw := true);
    EntAfterSetEnt(p.mem, p.main, d, i, w);
    assert p.count[v.frame - LOW] == Owners(p.mem, kernel, v.frame);
    assert (d, i) in Refs(p.mem, v.frame);
    NoOtherUser(p.mem, d, i);
    SharingAfter(p.mem, q.mem, d, i, w);
    CountsShift(p, q, kernel, kernel, d, i, w);
    ViewUnchanged(p.mem, q.mem, d, i, w, Tables(p.mem));
  }

  lemma PokeKeeps(p: Phys, kernel: set<int>, d: int, i: int, k: int, w: Word)
    requires Inv(p, kernel) && InPages(d, i) && HasTable(p.mem, d) && 0 <= k < TABLE_SIZE
    requires Ent(p.mem, d, i).present && Ent(p.mem, d, i).rw
    ensures LOW <= Ent(p.mem, d, i).frame < |p.mem|
    ensures var q := Poke(p, d, i, k, w);
      && Inv(q, kernel)
      && View(q.mem) == View(p.mem)[(d, i) := Private(p.mem[Ent(p.mem, d, i).frame][k := w])]
  {
    var v := Ent(p.mem, d, i);
    var x := v.(dirty := true);
    var f := v.frame;
    var q := Poke(p, d, i, k, w);
    var m := SetEnt(p.mem, d, i, x);
    EntAfterSetEnt(p.mem, p.main, d, i, x);
    EntAfterSetFrame(m, p.main, f, p.mem[f][k := w]);
    forall e, j | DIRS_PER_TASK <= e < TABLE_SIZE && 0 <= j < TABLE_SIZE && (e != d || j != i)
      ensures Ent(p.mem, e, j).present ==> Ent(p.mem, e, j).frame != f
    { }
    SharingAfter(p.mem, q.mem, d, i, x);
    CountsShift(p, q, kernel, kernel, d, i, x);
    ViewAfter(p.mem, q.mem, d, i, x, Tables(p.mem) + {f});
  }

  lemma BreakShareKeeps(p: Phys, kernel: set<int>, d: int, i: int, f: int)
    requires Inv(p, kernel) && InPages(d, i) && HasTable(p.mem, d) && f in kernel
    requires Ent(p.mem, d, i).present
    ensures Ent(p.mem, d, i).frame < |p.mem|
    ensures var q := BreakShare(p, d, i, f);
      && Inv(q, kernel - {f})
      && View(q.mem) == View(p.mem)[(d, i) := Private(p.mem[Ent(p.mem, d, i).frame])]
      && (forall e :: 0 <= e < TABLE_SIZE ==> Dir(q.mem, e) == Dir(p.mem, e))
      && Ent(q.mem, d, i) == Link(f)
  {
    hide View, Refs;
    var v := Ent(p.mem, d, i);
    var w := Link(f);
    var q := BreakShare(p, d, i, f);
    var m := SetEnt(p.mem, d, i, w);
    EntAfterSetEnt(p.mem, p.main, d, i, w);
    EntAfterSetFrame(m, p.main, f, p.mem[v.frame]);
    SharingAfter(p.mem, q.mem, d, i, w);
    CountsShift(p, q, kernel, kernel - {f}, d, i, w);
    ViewAfter(p.mem, q.mem, d, i, w, Tables(p.mem) + {f});
  }

  lemma HangKeeps(p: Phys, kernel: set<int>, d: int, f: int)
    requires Inv(p, kernel) && DIRS_PER_TASK <= d < TABLE_SIZE && !Dir(p.mem, d).present
    requires f in kernel && p.mem[f] == Zeros()
    ensures var q := Hang(p, d, f);
      && Inv(q, kernel - {f})
      && View(q.mem) == View(p.mem)
      && (forall e :: 0 <= e < TABLE_SIZE ==> Dir(q.mem, e) == if e == d then Link(f) else Dir(p.mem, e))
      && (forall e, j :: DIRS_PER_TASK <= e < TABLE_SIZE && 0 <= j < TABLE_SIZE ==>
             Ent(q.mem, e, j) == Ent(p.mem, e, j))
  {
    var m := p.mem;
    var q := Hang(p, d, f);
    var n := q.mem;
    forall e | 0 <= e < TABLE_SIZE ensures Dir(n, e) == if e == d then Link(f) else Dir(m, e) { }
    forall e, j | DIRS_PER_TASK <= e < TABLE_SIZE && 0 <= j < TABLE_SIZE ensures Ent(n, e, j) == Ent(m, e, j) {
      assert Dir(m, e).present ==> Dir(m, e).frame as int in Tables(m);
    }
    forall j | 0 <= j < LOW_COPY ensures Ent(n, 0, j) == Ent(m, 0, j) { }
    forall e | DIRS_PER_TASK <= e < TABLE_SIZE && Dir(m, e).present ensures Dir(m, e).frame != f {
      assert Dir(m, e).frame as int in Tables(m);
    }
    assert Tables(n) == Tables(m) + {f} by {
      forall x | x in Tables(m) + {f} ensures x in Tables(n) {
        if x == f { assert Dir(n, d).frame == f; } else {
          var e :| DIRS_PER_TASK <= e < TABLE_SIZE && Dir(m, e).present && Dir(m, e).frame as int == x;
          assert Dir(n, e) == Dir(m, e);
        }
      }
    }
    SharingSame(m, n);
    forall g | p.main <= g < |m| ensures q.count[g - LOW] == Owners(n, kernel - {f}, g) {
      assert p.count[g - LOW] == Owners(m, kernel, g);
      assert Refs(n, g) == Refs(m, g);
    }
    SameView(m, n, {});
  }

  lemma UnhangKeeps(p: Phys, kernel: set<int>, d: int)
    requires Inv(p, kernel) && HasTable(p.mem, d)
    requires forall j :: 0 <= j < TABLE_SIZE ==> Ent(p.mem, d, j) == ZERO
    ensures p.main <= Dir(p.mem, d).frame < |p.mem| && p.count[Dir(p.mem, d).frame - LOW] == 1
    ensures var q := Unhang(p, d);
      && Inv(q, kernel)
      && View(q.mem) == View(p.mem)
      && (forall e :: 0 <= e < TABLE_SIZE ==> Dir(q.mem, e) == if e == d then ZERO else Dir(p.mem, e))
      && (forall e, j :: DIRS_PER_TASK <= e < TABLE_SIZE && 0 <= j < TABLE_SIZE ==>
             Ent(q.mem, e, j) == Ent(p.mem, e, j))
  {
    var m := p.mem;
    var f := Dir(m, d).frame;
    assert f as int in Tables(m);
    CountBound(p, kernel, f);
    var q := Unhang(p, d);
    var n := q.mem;
    forall e | 0 <= e < TABLE_SIZE ensures Dir(n, e) == if e == d then ZERO else Dir(m, e) { }
    forall e, j | DIRS_PER_TASK <= e < TABLE_SIZE && 0 <= j < TABLE_SIZE ensures Ent(n, e, j) == Ent(m, e, j) { }
    forall j | 0 <= j < LOW_COPY ensures Ent(n, 0, j) == Ent(m, 0, j) { }
    assert Tables(n) == Tables(m) - {f} by {
      forall x | x in Tables(m) - {f} ensures x in Tables(n) {
        var e :| DIRS_PER_TASK <= e < TABLE_SIZE && Dir(m, e).present && Dir(m, e).frame as int == x;
        assert Dir(n, e) == Dir(m, e);
      }
    }
    SharingSame(m, n);
    forall g | p.main <= g < |m| ensures q.count[g - LOW] == Owners(n, kernel, g) {
      assert p.count[g - LOW] == Owners(m, kernel, g);
      assert Refs(n, g) == Refs(m, g);
    }
    SameView(m, n, {});
  }

  lemma ShareEntKeeps(p: Phys, kernel: set<int>, d: int, e: int, i: int)
    requires Inv(p, kernel) && InPages(e, i) && HasTable(p.mem, e) && !Ent(p.mem, e, i).present
    requires 0 <= d < TABLE_SIZE && d != e && Ent(p.mem, d, i).present
    requires (HasTable(p.mem, d) && d % DIRS_PER_TASK == e % DIRS_PER_TASK) || Ent(p.mem, d, i).frame < LOW
    ensures var q := ShareEnt(p, d, e, i);
      && Inv(q, kernel)
      && View(q.mem) == View(p.mem)[(e, i) := See(p.mem, Ent(p.mem, d, i))]
      && (forall a :: 0 <= a < TABLE_SIZE ==> Dir(q.mem, a) == Dir(p.mem, a))
      && (forall a, j :: DIRS_PER_TASK <= a < TABLE_SIZE && 0 <= j < TABLE_SIZE ==>
            Ent(q.mem, a, j) ==
              if j == i && (a == e || (a == d && Ent(p.mem, d, i).frame >= LOW)) then Ent(p.mem, d, i).(rw := false)
              else Ent(p.mem, a, j))
      && (forall j :: 0 <= j < LOW_COPY ==> Ent(q.mem, 0, j) == Ent(p.mem, 0, j))
  {
    var v := Ent(p.mem, d, i);
    var w := v.(rw := false);
    if w.frame >= LOW {
      // first write-protect the old entry, then hand out the new one
      ProtectKeeps(p, kernel, d, i);
      var m := SetEnt(p.mem, d, i, w);
      var p1 := p.(mem := m);
      ShareProtected(p1, kernel, d, e, i);
      SetEntCommutes(p.mem, p.main, d, e, i, w);
      assert ShareEnt(p, d, e, i) == AddCount(p1, w.frame, 1).(mem := SetEnt(m, e, i, w));
    } else {
      ShareProtected(p, kernel, d, e, i);
    }
  }

  lemma SetEntCommutes(m: Memory, main: int, d: int, e: int, i: int, w: Word)
    requires Tree(m, main) && InPages(d, i) && InPages(e, i) && d != e && HasTable(m, d) && HasTable(m, e)
    ensures Dir(SetEnt(m, e, i, w), d) == Dir(m, d) && Dir(SetEnt(m, d, i, w), e) == Dir(m, e)
    ensures SetEnt(SetEnt(m, e, i, w), d, i, w) == SetEnt(SetEnt(m, d, i, w), e, i, w)
  { }

  lemma ProtectKeeps(p: Phys, kernel: set<int>, d: int, i: int)
    requires Inv(p, kernel) && InPages(d, i) && HasTable(p.mem, d) && Ent(p.mem, d, i).present
    ensures var w := Ent(p.mem, d, i).(rw := false); var n := SetEnt(p.mem, d, i, w);
      && Inv(p.(mem := n), kernel) && View(n) == View(p.mem)
      && (forall a :: 0 <= a < TABLE_SIZE ==> Dir(n, a) == Dir(p.mem, a))
      && (forall a, j :: DIRS_PER_TASK <= a < TABLE_SIZE && 0 <= j < TABLE_SIZE ==>
            Ent(n, a, j) == if a == d && j == i then w else Ent(p.mem, a, j))
      && (forall j :: 0 <= j < LOW_COPY ==> Ent(n, 0, j) == Ent(p.mem, 0, j))
      && (forall f :: 0 <= f < |p.mem| && f !in Tables(p.mem) ==> n[f] == p.mem[f])
  {
    var w := Ent(p.mem, d, i).(rw := false);
    var n := SetEnt(p.mem, d, i, w);
    EntAfterSetEnt(p.mem, p.main, d, i, w);
    SharingAfter(p.mem, n, d, i, w);
    CountsShift(p, p.(mem := n), kernel, kernel, d, i, w);
    ViewUnchanged(p.mem, n, d, i, w, Tables(p.mem));
  }

  lemma ShareProtected(p: Phys, kernel: set<int>, d: int, e: int, i: int)
    requires Inv(p, kernel) && InPages(e, i) && HasTable(p.mem, e) && !Ent(p.mem, e, i).present
    requires 0 <= d < TABLE_SIZE && d != e && Ent(p.mem, d, i).present
    requires (HasTable(p.mem, d) && d % DIRS_PER_TASK == e % DIRS_PER_TASK
              && !Ent(p.mem, d, i).rw) || Ent(p.mem, d, i).frame < LOW
    ensures var w := Ent(p.mem, d, i).(rw := false);
      var q := AddCount(p, w.frame, 1).(mem := SetEnt(p.mem, e, i, w));
      && Inv(q, kernel)
      && View(q.mem) == View(p.mem)[(e, i) := See(p.mem, w)]
      && (forall a :: 0 <= a < TABLE_SIZE ==> Dir(q.mem, a) == Dir(p.mem, a))
      && (forall a, j :: DIRS_PER_TASK <= a < TABLE_SIZE && 0 <= j < TABLE_SIZE ==>
            Ent(q.mem, a, j) == if a == e && j == i then w else Ent(p.mem, a, j))
      && (forall j :: 0 <= j < LOW_COPY ==> Ent(q.mem, 0, j) == Ent(p.mem, 0, j))
  {
    hide View, Refs, Leaves, Sharing, Owners, Tables;
    var w := Ent(p.mem, d, i).(rw := false);
    var q := AddCount(p, w.frame, 1).(mem := SetEnt(p.mem, e, i, w));
    EntAfterSetEnt(p.mem, p.main, e, i, w);
    SharedWord(p, kernel, d, e, i);
    LeavesAfter(p.mem, q.mem, p.main, kernel, e, i, w);
    SharingAfter(p.mem, q.mem, e, i, w);
    CountsShift(p, q, kernel, kernel, e, i, w);
    ViewAfter(p.mem, q.mem, e, i, w, Tables(p.mem));
  }

  /** What may be shared: a window, or a frame that is protected wherever it is mapped. */
  lemma SharedWord(p: Phys, kernel: set<int>, d: int, e: int, i: int)
    requires Inv(p, kernel) && InPages(e, i) && HasTable(p.mem, e) && 0 <= d < TABLE_SIZE && d != e
             && Ent(p.mem, d, i).present
    requires (HasTable(p.mem, d) && d % DIRS_PER_TASK == e % DIRS_PER_TASK
              && !Ent(p.mem, d, i).rw) || Ent(p.mem, d, i).frame < LOW
    ensures var f := Ent(p.mem, d, i).frame; f >= LOW ==>
      && p.main <= f < |p.mem| && f !in Tables(p.mem) && f !in kernel
      && forall a, j ::
           DIRS_PER_TASK <= a < TABLE_SIZE && 0 <= j < TABLE_SIZE && Ent(p.mem, a, j).present
           && Ent(p.mem, a, j).frame == f ==>
           a % DIRS_PER_TASK == e % DIRS_PER_TASK && j == i && !Ent(p.mem, a, j).rw
    ensures forall a, j :: DIRS_PER_TASK <= a < TABLE_SIZE && 0 <= j < TABLE_SIZE && Ent(p.mem, a, j).present ==>
              Ent(p.mem, a, j).frame !in Tables(p.mem)
  {
    hide Refs, Owners;
    forall a, j | DIRS_PER_TASK <= a < TABLE_SIZE && 0 <= j < TABLE_SIZE && Ent(p.mem, a, j).present
      ensures Ent(p.mem, a, j).frame !in Tables(p.mem)
    { }
  }

  lemma LeavesAfter(m: Memory, n: Memory, main: int, kernel: set<int>, d: int, i: int, w: Word)
    requires Leaves(m, main, kernel) && |n| == |m| && Tables(n) == Tables(m)
    requires forall e, j :: DIRS_PER_TASK <= e < TABLE_SIZE && 0 <= j < TABLE_SIZE ==>
               Ent(n, e, j) == if e == d && j == i then w else Ent(m, e, j)
    requires w.present ==>
        if w.frame < LOW then !w.rw else main <= w.frame < |m| && w.frame !in Tables(m) && w.frame !in kernel
    ensures Leaves(n, main, kernel)
  {
    hide Ent, Tables;
  }

  /* ---- kernel-mode stores, which the 386 does not write-protect ---- */

  lemma PokeFrame(p: Phys, kernel: set<int>, d: int, i: int)
    requires Inv(p, kernel) && InPages(d, i) && Ent(p.mem, d, i).present && LOW <= Ent(p.mem, d, i).frame < |p.mem|
    ensures p.main <= Ent(p.mem, d, i).frame && Ent(p.mem, d, i).frame !in Tables(p.mem)
    ensures forall e, j :: DIRS_PER_TASK <= e < TABLE_SIZE && 0 <= j < TABLE_SIZE && Ent(p.mem, e, j).present ==>
              Ent(p.mem, e, j).frame !in Tables(p.mem)
  {
    hide Refs, Owners;
    forall e, j | DIRS_PER_TASK <= e < TABLE_SIZE && 0 <= j < TABLE_SIZE && Ent(p.mem, e, j).present
      ensures Ent(p.mem, e, j).frame !in Tables(p.mem)
    { }
  }

  /** Everyone who maps the frame sees the store. */
  lemma PokeReachesAll(p: Phys, kernel: set<int>, d: int, i: int, x: int, w: Word)
    requires Inv(p, kernel) && InPages(d, i) && HasTable(p.mem, d) && 0 <= x < TABLE_SIZE
    requires Ent(p.mem, d, i).present && LOW <= Ent(p.mem, d, i).frame < |p.mem|
    ensures var f := Ent(p.mem, d, i).frame; var n := Poke(p, d, i, x, w).mem;
      forall k :: k in Grid() && Ent(p.mem, k.0, k.1).present ==>
        && k in View(n) && k in View(p.mem)
        && View(n)[k] == if Ent(p.mem, k.0, k.1).frame == f then Private(p.mem[f][x := w]) else View(p.mem)[k]
    ensures View(Poke(p, d, i, x, w).mem).Keys == View(p.mem).Keys
  {
    hide Refs, Owners, Sharing, Counts, Tables;
    var v := Ent(p.mem, d, i);
    var f := v.frame;
    PokeFrame(p, kernel, d, i);
    var m := SetEnt(p.mem, d, i, v.(dirty := true));
    var n := Poke(p, d, i, x, w).mem;
    EntAfterSetEnt(p.mem, p.main, d, i, v.(dirty := true));
    EntAfterSetFrame(m, p.main, f, p.mem[f][x := w]);
    forall k | k in Grid() && Ent(p.mem, k.0, k.1).present
      ensures Ent(n, k.0, k.1).present && Ent(n, k.0, k.1).frame == Ent(p.mem, k.0, k.1).frame
    { }
    forall k ensures k in View(n) <==> k in View(p.mem) {
      if k in Grid() { assert Ent(n, k.0, k.1).present == Ent(p.mem, k.0, k.1).present; }
    }
    assert View(n).Keys == View(p.mem).Keys;
  }

  /** A kernel store through a present page stays private exactly when the frame
      has one user (the branch un_wp_page tests) or the word does not change. */
  lemma KernelStoreIsolated(p: Phys, kernel: set<int>, d: int, i: int, x: int, w: Word)
    requires Inv(p, kernel) && InPages(d, i) && HasTable(p.mem, d) && 0 <= x < TABLE_SIZE
    requires Ent(p.mem, d, i).present && LOW <= Ent(p.mem, d, i).frame < |p.mem|
    ensures var f := Ent(p.mem, d, i).frame;
      View(Poke(p, d, i, x, w).mem) == View(p.mem)[(d, i) := Private(p.mem[f][x := w])]
      <==> p.count[f - LOW] == 1 || p.mem[f][x] == w
  {
    hide Inv, View, Ent, See, Poke, Dir;
    var f := Ent(p.mem, d, i).frame;
    var n := Poke(p, d, i, x, w).mem;
    var s := View(p.mem)[(d, i) := Private(p.mem[f][x := w])];
    PokeReachesAll(p, kernel, d, i, x, w);
    SharedView(p, kernel, d, i);
    assert forall k :: k in View(p.mem) <==> k in Grid() && Ent(p.mem, k.0, k.1).present by { ViewKeys(p.mem); }
    if p.count[f - LOW] == 1 {
      NoOtherUser(p.mem, d, i);
      forall k | k in s ensures View(n)[k] == s[k] { assert k != (d, i) ==> k.0 != d || k.1 != i; }
      assert View(n) == s;
    } else if p.mem[f][x] == w {
      assert p.mem[f][x := w] == p.mem[f];
      assert View(n) == s;
    } else {
      var k := AnotherUser(Refs(p.mem, f), (d, i));
      assert View(p.mem)[k] == Private(p.mem[f]);
      assert p.mem[f][x := w][x] != p.mem[f][x];
      assert View(n)[k] != s[k];
    }
  }

  lemma ViewKeys(m: Memory)
    ensures forall k :: k in View(m) <==> k in Grid() && Ent(m, k.0, k.1).present
  { }

  /** All users of a mapped frame see the same page, and mem_map counts them. */
  lemma SharedView(p: Phys, kernel: set<int>, d: int, i: int)
    requires Inv(p, kernel) && InPages(d, i) && Ent(p.mem, d, i).present && LOW <= Ent(p.mem, d, i).frame < |p.mem|
    ensures var f := Ent(p.mem, d, i).frame;
      && |p.count| == PAGING_PAGES && p.count[f - LOW] == |Refs(p.mem, f)| && (d, i) in Refs(p.mem, f)
      && forall k :: k in Refs(p.mem, f) ==> k in View(p.mem) && View(p.mem)[k] == Private(p.mem[f])
  {
    var f := Ent(p.mem, d, i).frame;
    assert p.count[f - LOW] == Owners(p.mem, kernel, f);
    assert (d, i) in Grid();
  }

  lemma AnotherUser<T>(s: set<T>, x: T) returns (y: T)
    requires x in s && |s| != 1
    ensures y in s && y != x
  {
    assert |s - {x}| == |s| - 1;
    y :| y in s - {x};
  }

  /** verify_area on an absent page promises nothing: if the fault is then served
      by try_to_share, the kernel's store shows up in the lending task. */
  lemma VerifiedAbsentPageLeaks(p: Phys, kernel: set<int>, d: int, e: int, i: int, x: int, w: Word)
    requires Inv(p, kernel) && InPages(e, i) && HasTable(p.mem, e) && !Ent(p.mem, e, i).present
    requires InPages(d, i) && HasTable(p.mem, d) && d != e && d % DIRS_PER_TASK == e % DIRS_PER_TASK
             && 0 <= x < TABLE_SIZE
    requires Ent(p.mem, d, i).present && LOW <= Ent(p.mem, d, i).frame < |p.mem|
             && p.mem[Ent(p.mem, d, i).frame][x] != w
    ensures var q := ShareEnt(p, d, e, i);
      && HasTable(q.mem, e) && Ent(q.mem, e, i).present && Ent(q.mem, e, i).frame < |q.mem|
      && (d, i) in View(p.mem) && (d, i) in View(Poke(q, e, i, x, w).mem)
      && View(Poke(q, e, i, x, w).mem)[(d, i)] != View(p.mem)[(d, i)]
  {
    ShareEntKeeps(p, kernel, d, e, i);
    var q := ShareEnt(p, d, e, i);
    var f := Ent(p.mem, d, i).frame;
    assert (d, i) in Grid() && (e, i) in Grid();
    assert View(q.mem)[(e, i)] == Private(p.mem[f]) && View(q.mem)[(d, i)] == Private(p.mem[f]);
    PokeReachesAll(q, kernel, e, i, x, w);
    assert p.mem[f][x := w][x] != p.mem[f][x];
  }

  /* ---- how many frames are free ---- */

  ghost function Free(count: seq<int>, main: int, size: int): set<int> {
    set k | 0 <= k < |count| && main - LOW <= k < size - LOW && count[k] == 0
  }

  ghost function Spare(p: Phys): nat { |Free(p.count, p.main, |p.mem|)| }

  lemma NoneSpare(p: Phys)
    requires forall k :: 0 <= k < |p.count| && p.main - LOW <= k < |p.mem| - LOW ==> p.count[k] != 0
    ensures Spare(p) == 0
  {
    assert Free(p.count, p.main, |p.mem|) == {};
  }

  lemma GrabSpare(p: Phys, f: int)
    requires |p.count| == PAGING_PAGES && LOW < p.main <= f < |p.mem| && p.count[f - LOW] == 0
    ensures Spare(Grab(p, f)) == Spare(p) - 1
  {
    var q := Grab(p, f);
    assert f - LOW in Free(p.count, p.main, |p.mem|);
    assert Free(q.count, q.main, |q.mem|) == Free(p.count, p.main, |p.mem|) - {f - LOW};
  }

  /** One more user of a frame in use takes no free frame. */
  lemma UserSpare(p: Phys, q: Phys, k: int)
    requires 0 <= k < |p.count| && p.count[k] > 0
    requires q.main == p.main && |q.mem| == |p.mem| && q.count == p.count[k := p.count[k] + 1]
    ensures Spare(q) == Spare(p)
  {
    assert Free(q.count, q.main, |q.mem|) == Free(p.count, p.main, |p.mem|);
  }

  /** The page tables among n directory entries: the frames a copy of them takes. */
  ghost function TablesIn(m: Memory, from: int, n: int): nat
    requires 0 <= from && from + n <= TABLE_SIZE
    decreases if n > 0 then n else 0
  {
    if n <= 0 then 0 else TablesIn(m, from, n - 1) + if Dir(m, from + n - 1).present then 1 else 0
  }

  lemma {:induction false} TablesGrow(m: Memory, from: int, a: int, n: int)
    requires 0 <= from && 0 <= a <= n && from + n <= TABLE_SIZE
    ensures TablesIn(m, from, a) <= TablesIn(m, from, n)
    decreases n - a
  {
    if a < n { TablesGrow(m, from, a, n - 1); }
  }

  lemma {:induction false} TablesSame(m: Memory, m': Memory, from: int, n: int)
    requires 0 <= from && from + n <= TABLE_SIZE && forall d :: from <= d < from + n ==> Dir(m', d) == Dir(m, d)
    ensures TablesIn(m', from, n) == TablesIn(m, from, n)
    decreases if n > 0 then n else 0
  {
    if n > 0 {
      TablesSame(m, m', from, n - 1);
      assert Dir(m', from + n - 1) == Dir(m, from + n - 1);
    }
  }
}
