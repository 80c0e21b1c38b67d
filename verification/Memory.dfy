/** mm/memory.c and the memory half of kernel/fork.c and kernel/exit.c: the
    methods update mem_map, the directory and the tables in place, word by word,
    and are proved against the address spaces that eager copying would give. */
module MemoryManager {
  import opened PageTables
  import opened PageSteps
  import opened AddressSpaces
  import opened Events

  const NR_TASKS: int := 64
  const EAGAIN: int := 11

  /** `page` holds the task structure; `limit` is the data limit in bytes and
      `codeLimit` the code limit; `exe` names the executable (0: none), whose
      text and data end at `endData`. */
  datatype Task = Empty | Task(page: nat, limit: nat, codeLimit: nat, exe: nat, endData: nat, zombie: bool)

  /** Directory entries that `size` bytes span: (size+0x3fffff) >> 22. */
  function Slots(size: nat): nat { (size + 0x3fffff) / 0x400000 }

  /** A page being read from disk for a task that sleeps meanwhile. */
  datatype Load = Load(k: nat, i: nat, frame: nat)

  predicate Live(t: Task) { t.Task? && !t.zombie }

  /** Directory entry d lies inside the address space of a live task. */
  predicate InSpace(task: seq<Task>, d: int)
    requires |task| == NR_TASKS && DIRS_PER_TASK <= d < TABLE_SIZE
  {
    Live(task[d / DIRS_PER_TASK]) && d % DIRS_PER_TASK < Slots(task[d / DIRS_PER_TASK].limit)
  }

  /** How a page fault ends: the page is there, a disk read was started, or
      memory ran out. */
  datatype Fault = Done | Reading | Oom

  /** How an access ends: performed, not possible now (no such page yet), or the
      task was killed for lack of memory. */
  datatype Access = Performed | Blocked | Killed

  /** Every task structure and every page being read is a frame of its own, and
      only live tasks have page tables, within their limits. */
  ghost predicate Kept(task: seq<Task>, loading: map<nat, Load>, m: Memory, kernel: set<int>) {
    && |task| == NR_TASKS && task[0].Task? && Slots(task[0].limit) == 1 && task[0].codeLimit <= task[0].limit
    && (forall t :: 1 <= t < NR_TASKS && task[t].Task? ==>
          && task[t].page in kernel && task[t].codeLimit <= task[t].limit && 1 <= Slots(task[t].limit) <= DIRS_PER_TASK
          && (task[t].zombie ==> task[t].exe == 0))
    && (forall t, u :: 1 <= t < u < NR_TASKS && task[t].Task? && task[u].Task? ==> task[t].page != task[u].page)
    && (forall d :: DIRS_PER_TASK <= d < TABLE_SIZE && Dir(m, d).present ==> InSpace(task, d))
    && (forall t :: t in loading ==>
          && 1 <= t < NR_TASKS && Live(task[t]) && loading[t].frame in kernel
          && loading[t].k < Slots(task[t].limit) && loading[t].i < TABLE_SIZE
          && (DIRS_PER_TASK * t + loading[t].k, loading[t].i) !in View(m))
    && (forall t, u :: t in loading && 1 <= u < NR_TASKS && task[u].Task? ==> loading[t].frame != task[u].page)
    && (forall t, u :: t in loading && u in loading && t != u ==> loading[t].frame != loading[u].frame)
  }

  /** The machine between kernel entries; the kernel holds the frames `kernel`. */
  datatype State = State(task: seq<Task>, loading: map<nat, Load>, kernel: set<int>, p: Phys)

  ghost predicate Consistent(a: State) { Inv(a.p, a.kernel) && Kept(a.task, a.loading, a.p.mem, a.kernel) }

  /** Task t ends: its whole address space goes. */
  function Ending(t: int): Event { Gone(DIRS_PER_TASK * t, DIRS_PER_TASK * t + DIRS_PER_TASK) }

  function Dead(t: Task): Task
    requires t.Task?
  {
    t.(exe := 0, zombie := true)
  }

  /** The frames that mapping a page of directory entry d takes beside its own. */
  function Need(m: Memory, d: int): nat
    requires 0 <= d < TABLE_SIZE
  {
    if Dir(m, d).present then 0 else 1
  }

  /** Task p runs the executable of task t. */
  ghost predicate Lends(task: seq<Task>, p: int, t: int)
    requires |task| == NR_TASKS && 0 <= t < NR_TASKS
  {
    1 <= p < NR_TASKS && p != t && task[p].Task? && task[t].Task? && task[p].exe == task[t].exe != 0
  }

  /** The task has the page at k,i, not written to, in a frame of its own. */
  predicate HasClean(m: Memory, t: int, k: int, i: int) {
    && 1 <= t < NR_TASKS && 0 <= k < DIRS_PER_TASK && 0 <= i < TABLE_SIZE
    && var w := Ent(m, DIRS_PER_TASK * t + k, i); w.present && !w.dirty && w.frame >= LOW
  }

  /** No other task that runs the same executable has the page clean. */
  ghost predicate NoLender(task: seq<Task>, m: Memory, t: int, k: int, i: int)
    requires |task| == NR_TASKS && 0 <= t < NR_TASKS
  {
    forall q :: Lends(task, q, t) ==> !HasClean(m, q, k, i)
  }

  /** Page k,i of the task is one that its executable fills. */
  predicate InImage(task: Task, k: int, i: int) {
    task.Task? && task.exe != 0 && (k * TABLE_SIZE + i) * 4096 < task.endData
  }

  /** A fault at page k,i of task t was served: by a lender if the page belongs to
      the executable, with zeros if it does not. */
  ghost predicate Supplies(task: seq<Task>, s: Spaces, t: int, k: int, i: int, evs: seq<Event>)
    requires |task| == NR_TASKS && 0 <= t < NR_TASKS
  {
    && |evs| == 1
    && var e := evs[0];
       if !InImage(task[t], k, i) then e == Fill(DIRS_PER_TASK * t + k, i, Zeros())
       else
         && e.Share? && e.to == DIRS_PER_TASK * t + k && e.i == i
         && (e.from, i) in s && s[(e.from, i)].Private? && e.from % DIRS_PER_TASK == k
         && Lends(task, e.from / DIRS_PER_TASK, t)
  }

  /** The page was there, or the fault was served. */
  ghost predicate Supplied(a: State, t: int, k: int, i: int, evs: seq<Event>)
    requires |a.task| == NR_TASKS && 0 <= t < NR_TASKS
  {
    if (DIRS_PER_TASK * t + k, i) in View(a.p.mem) then evs == [] else Supplies(a.task, View(a.p.mem), t, k, i, evs)
  }

  /** A store took place: the page was supplied if need be, became the task's own
      without changing a word, and then the one word changed. */
  ghost predicate Performs(a: State, t: int, k: int, i: int, x: int, w: Word, evs: seq<Event>)
    requires |a.task| == NR_TASKS && 0 <= t < NR_TASKS
  {
    && |evs| >= 2
    && var before := evs[..|evs| - 2];
       var d := DIRS_PER_TASK * t + k;
       var s := ApplyAll(View(a.p.mem), before);
       && Supplied(a, t, k, i, before) && (d, i) in s
       && evs[|evs| - 2] == Own(d, i, Words(a.p.mem, s[(d, i)])) && evs[|evs| - 1] == Store(d, i, x, w)
  }

  /** The task must wait for the disk: its page lies within its executable. */
  ghost predicate Waits(a: State, b: State, t: int, k: int, i: int, evs: seq<Event>)
    requires |a.task| == NR_TASKS && 0 <= t < NR_TASKS && k >= 0 && i >= 0
  {
    && evs == [] && b.task == a.task && (DIRS_PER_TASK * t + k, i) !in View(a.p.mem)
    && InImage(a.task[t], k, i)
    && t in b.loading && b.loading == a.loading[t := Load(k, i, b.loading[t].frame)]
  }

  /** The task was killed for lack of memory, before or after its page was
      supplied; that happens only when too few frames are free. */
  ghost predicate Dies(a: State, b: State, t: int, k: int, i: int, evs: seq<Event>)
    requires |a.task| == NR_TASKS && 0 <= t < NR_TASKS && 0 <= DIRS_PER_TASK * t + k < TABLE_SIZE
  {
    && |evs| > 0 && evs[|evs| - 1] == Ending(t)
    && (|evs| == 1 || Supplied(a, t, k, i, evs[..|evs| - 1]))
    && a.task[t].Task? && b.task == a.task[t := Dead(a.task[t])] && b.loading == a.loading
    && Spare(a.p) <= Need(a.p.mem, DIRS_PER_TASK * t + k)
  }

  /** How an access to page k,i ends; `done` says what performing it does. */
  ghost predicate Ended(r: Access, a: State, b: State, t: int, k: int, i: int, evs: seq<Event>, done: bool)
    requires |a.task| == NR_TASKS && 0 <= t < NR_TASKS && k >= 0 && i >= 0 && DIRS_PER_TASK * t + k < TABLE_SIZE
  {
    match r
    case Performed => done && b.task == a.task && b.loading == a.loading
    case Blocked => Waits(a, b, t, k, i, evs)
    case Killed => Dies(a, b, t, k, i, evs)
  }

  /** A disk read of task t ends: its page holds the image, or it was killed
      because its page table found no free frame. */
  ghost predicate Arrived(r: Access, a: State, b: State, t: int, image: Frame, evs: seq<Event>) {
    && t in a.loading && |a.task| == NR_TASKS && 1 <= t < NR_TASKS && a.task[t].Task? && b.loading == a.loading - {t}
    && var Load(k, i, _) := a.loading[t];
       var d := DIRS_PER_TASK * t + k;
       && 0 <= d < TABLE_SIZE
       && match r
          case Performed => evs == [Fill(d, i, image)] && b.task == a.task
          case Blocked => false
          case Killed =>
            evs == [Ending(t)] && b.task == a.task[t := Dead(a.task[t])] && Spare(a.p) == 0 && !Dir(a.p.mem, d).present
  }

  /** A step that only worked on page (d,i) of a live task keeps the rest. */
  lemma KeptAfter(task: seq<Task>, loading: map<nat, Load>, m: Memory, m': Memory, kernel: set<int>, d: int, i: int)
    requires Kept(task, loading, m, kernel) && OnlyAt(m, m', d, i)
    requires DIRS_PER_TASK <= d < TABLE_SIZE && InSpace(task, d) && d / DIRS_PER_TASK !in loading
    ensures Kept(task, loading, m', kernel)
  {
    hide View;
    forall t | t in loading ensures (DIRS_PER_TASK * t + loading[t].k, loading[t].i) !in View(m') {
      assert loading[t].k < DIRS_PER_TASK;
      assert (DIRS_PER_TASK * t + loading[t].k) / DIRS_PER_TASK == t;
    }
    forall e | DIRS_PER_TASK <= e < TABLE_SIZE && Dir(m', e).present ensures InSpace(task, e) {
      if e != d { assert Dir(m', e) == Dir(m, e); }
    }
  }

  /** A disk read was started: the kernel holds frame f for it. */
  lemma KeptReading(task: seq<Task>, loading: map<nat, Load>, m: Memory, m': Memory, kernel: set<int>, t: int, k: nat,
                    i: nat, f: nat)
    requires Kept(task, loading, m, kernel) && View(m') == View(m) && SameTables(m, m') && f !in kernel
    requires 1 <= t < NR_TASKS && Live(task[t]) && t !in loading && k < Slots(task[t].limit) && i < TABLE_SIZE
    requires (DIRS_PER_TASK * t + k, i) !in View(m)
    ensures Kept(task, loading[t := Load(k, i, f)], m', kernel + {f})
  {
    hide View;
    forall e | DIRS_PER_TASK <= e < TABLE_SIZE && Dir(m', e).present
      ensures InSpace(task, e)
    {
      assert Dir(m', e) == Dir(m, e);
    }
  }

  /** A page above the shared low memory shows its frame's words. */
  lemma OwnWords(m: Memory, d: int, i: int)
    requires InPages(d, i) && HasTable(m, d) && Ent(m, d, i).present && Ent(m, d, i).frame < |m|
    ensures Ent(m, d, i).frame >= LOW ==> View(m)[(d, i) := Private(m[Ent(m, d, i).frame])] == View(m)
  {
    assert (d, i) in Grid();
  }

  class Mm {
    var count: seq<int>
    var mem: Memory
    const main: int
    var task: seq<Task>
    var loading: map<nat, Load>
    ghost var kernel: set<int>

    ghost function P(): Phys reads this { Phys(count, mem, main) }

    ghost function St(): State reads this { State(task, loading, kernel, P()) }

    /** Frame accounting alone; it holds inside fork and exit too. */
    ghost predicate Sound() reads this { Inv(P(), kernel) }

    /** The invariant between kernel entries. */
    ghost predicate Valid() reads this {
      Sound() && Kept(task, loading, mem, kernel)
    }

    ghost predicate NoneFree() reads this { Spare(P()) == 0 }

    /** mem_init: everything is reserved, then main memory is released.  The
        directory is the one head.s leaves, with no user entries. */
    constructor Init(m: Memory, start: int, swapper: Task)
      requires LOW < start <= |m|
      requires swapper.Task? && Slots(swapper.limit) == 1 && swapper.codeLimit <= swapper.limit
      requires Dir(m, 0).present && Dir(m, 0).frame == 1
      requires forall i :: 0 <= i < LOW_COPY ==> Ent(m, 0, i).frame < LOW
      requires forall d :: DIRS_PER_TASK <= d < TABLE_SIZE ==> !Dir(m, d).present
      ensures Valid() && View(mem) == map[] && kernel == {} && mem == m && main == start
      ensures task == [swapper] + seq(NR_TASKS - 1, _ => Empty) && loading == map[]
      ensures forall k :: start - LOW <= k < |m| - LOW ==> count[k] == 0
    {
      mem, main, loading, kernel := m, start, map[], {};
      task := [swapper] + seq(NR_TASKS - 1, _ => Empty);
      count := seq(PAGING_PAGES, _ => 0);
      new;
      var i := 0;
      while i < PAGING_PAGES
        modifies `count
        invariant 0 <= i <= PAGING_PAGES == |count|
        invariant forall k :: 0 <= k < i ==> count[k] == USED
      {
        count := count[i := USED];
        i := i + 1;
      }
      i := start - LOW;
      var left := |m| - start;
      while left > 0
        modifies `count
        invariant i == |m| - left - LOW && 0 <= left && start - LOW <= i <= |m| - LOW && |count| == PAGING_PAGES
        invariant forall k :: 0 <= k < PAGING_PAGES ==> count[k] == if start - LOW <= k < i then 0 else USED
      {
        count := count[i := 0];
        i := i + 1;
        left := left - 1;
      }
      forall f | start <= f < |m| ensures count[f - LOW] == Owners(m, {}, f) {
        assert Refs(m, f) == {};
      }
    }

    /** The first free frame from the top is taken and zeroed; 0 when none is free. */
    method GetFreePage() returns (f: nat)
      requires Sound()
      modifies this`count, this`mem, this`kernel
      ensures f == 0 ==> P() == old(P()) && kernel == old(kernel) && NoneFree()
      ensures f != 0 ==>
          main <= f < |mem| && old(count)[f - LOW] == 0
          && (forall k :: f - LOW < k < |mem| - LOW ==> old(count)[k] != 0)
      ensures f != 0 ==>
          P() == Grab(old(P()), f) && kernel == old(kernel) + {f} && f !in old(kernel) && mem[f] == Zeros()
      ensures f != 0 ==> Spare(P()) == old(Spare(P())) - 1
      ensures Sound() && View(mem) == old(View(mem)) && |mem| == old(|mem|)
      ensures SameTables(old(mem), mem)
    {
      hide Free;
      var c := PAGING_PAGES;
      while c > 0 && count[c - 1] != 0
        invariant 0 <= c <= PAGING_PAGES
        invariant forall k :: c <= k < PAGING_PAGES ==> count[k] != 0
      {
        c := c - 1;
      }
      if c == 0 {
        NoneSpare(P());
        return 0;
      }
      f := c - 1 + LOW;
      assert count[c - 1] != USED;
      GrabKeeps(P(), kernel, f);
      GrabSpare(P(), f);
      count := count[f - LOW := 1];
      mem := mem[f := Zeros()];
      kernel := kernel + {f};
    }

    /** Drops one user of frame f; false where the source panics. */
    method FreePage(f: nat) returns (ok: bool)
      requires |count| == PAGING_PAGES
      modifies this`count
      ensures ok <==> f < LOW || (f < |mem| && old(count)[f - LOW] != 0)
      ensures count == if ok then AddCount(old(P()), f, -1).count else old(count)
    {
      if f < LOW { return true; }
      if f >= |mem| { return false; }
      if count[f - LOW] != 0 {
        count := count[f - LOW := count[f - LOW] - 1];
        return true;
      }
      count := count[f - LOW := 0];
      return false;
    }

    /** Tears down the `size` bytes of address space at directory entry `from`;
        no frame is freed that is not in use. */
    method FreePageTables(from: int, size: nat)
      requires Sound() && DIRS_PER_TASK <= from && from + Slots(size) <= TABLE_SIZE
      modifies `count, `mem
      ensures Sound() && View(mem) == Without(old(View(mem)), from, from + Slots(size))
      ensures SameOutside(old(mem), mem, from, from + Slots(size))
      ensures forall d :: from <= d < from + Slots(size) ==> !Dir(mem, d).present
    {
      hide Inv, Tree, View, Without;
      var dir := from;
      var left := Slots(size);
      WithoutNext(View(mem), from, from);
      while left > 0
        modifies `count, `mem
        invariant 0 <= left && dir == from + Slots(size) - left
        invariant Sound() && View(mem) == Without(old(View(mem)), from, dir)
        invariant SameOutside(old(mem), mem, from, dir)
        invariant forall d :: from <= d < dir ==> !Dir(mem, d).present
      {
        DirFacts(P(), kernel);
        WithoutNext(old(View(mem)), from, dir);
        if Dir(mem, dir).present {
          FreeTable(dir);
        } else {
          NoTableNoPages(mem, dir);
        }
        left := left - 1;
        dir := dir + 1;
      }
    }

    /** One present directory entry: its pages, then the table itself. */
    method FreeTable(dir: int)
      requires Sound() && HasTable(mem, dir)
      modifies `count, `mem
      ensures Sound() && View(mem) == Without(old(View(mem)), dir, dir + 1)
      ensures SameOutside(old(mem), mem, dir, dir + 1) && !Dir(mem, dir).present
    {
      hide Inv, Tree, View, CutRow, Without;
      var nr := 0;
      ghost var v := View(mem);
      CutAll(mem, dir);
      while nr < TABLE_SIZE
        modifies `count, `mem
        invariant 0 <= nr <= TABLE_SIZE
        invariant Sound() && HasTable(mem, dir) && View(mem) == CutRow(v, dir, nr)
        invariant SameOutside(old(mem), mem, dir, dir + 1)
        invariant forall j :: 0 <= j < nr ==> Ent(mem, dir, j) == ZERO
      {
        Facts(P(), kernel);
        ClearEntKeeps(P(), kernel, dir, nr);
        ghost var q := ClearEnt(P(), dir, nr);
        var w := Ent(mem, dir, nr);
        if w.present {
          var ok := FreePage(w.frame);
          assert ok;
        }
        mem := SetEnt(mem, dir, nr, ZERO);
        assert P() == q;
        CutNext(v, dir, nr);
        nr := nr + 1;
      }
      Facts(P(), kernel);
      UnhangKeeps(P(), kernel, dir);
      ghost var q := Unhang(P(), dir);
      var ok := FreePage(Dir(mem, dir).frame);
      assert ok;
      mem := SetDir(mem, dir, ZERO);
      assert P() == q;
    }

    /** Shares one page: both entries lose write permission, the frame a free user. */
    method CopyEntry(d: int, e: int, i: int)
      requires Sound() && InPages(e, i) && HasTable(mem, e) && !Ent(mem, e, i).present && 0 <= d < TABLE_SIZE && d != e
      requires (HasTable(mem, d)
                && d % DIRS_PER_TASK == e % DIRS_PER_TASK) || (Ent(mem, d, i).present ==> Ent(mem, d, i).frame < LOW)
      modifies `count, `mem
      ensures Sound() && |mem| == old(|mem|) && Spare(P()) == old(Spare(P()))
      ensures View(mem) == if !old(Ent(mem, d, i)).present then old(View(mem))
                           else old(View(mem))[(e, i) := See(old(mem), old(Ent(mem, d, i)))]
      ensures forall a :: 0 <= a < TABLE_SIZE ==> Dir(mem, a) == old(Dir(mem, a))
      ensures forall j :: 0 <= j < TABLE_SIZE && j != i ==> Ent(mem, e, j) == old(Ent(mem, e, j))
      ensures forall a, j :: DIRS_PER_TASK <= a < TABLE_SIZE && 0 <= j < TABLE_SIZE && a != e ==>
                Ent(mem, a, j).present == old(Ent(mem, a, j)).present
                && Ent(mem, a, j).frame == old(Ent(mem, a, j)).frame
      ensures forall j :: 0 <= j < LOW_COPY ==> Ent(mem, 0, j) == old(Ent(mem, 0, j))
    {
      var this_page := Ent(mem, d, i);
      if !this_page.present { return; }
      ShareEntKeeps(P(), kernel, d, e, i);
      ShareSpare(P(), kernel, d, e, i);
      hide Inv, Tree, View, Spare;
      Facts(P(), kernel);
      ghost var q := ShareEnt(P(), d, e, i);
      this_page := this_page.(rw := false);
      if this_page.frame >= LOW { CountBound(P(), kernel, this_page.frame); }
      mem := SetEnt(mem, e, i, this_page);
      if this_page.frame >= LOW {
        mem := SetEnt(mem, d, i, this_page);
        count := count[this_page.frame - LOW := (count[this_page.frame - LOW] + 1) % 256];
      }
      assert P() == q;
    }

    /** One page table copied for fork: all 1024 entries, or 160 from task 0. */
    method CopyTable(d: int, e: int)
      requires Sound() && DIRS_PER_TASK <= e < TABLE_SIZE && HasTable(mem, e)
      requires d == 0 || (HasTable(mem, d) && d != e && d % DIRS_PER_TASK == e % DIRS_PER_TASK)
      requires forall j :: 0 <= j < TABLE_SIZE ==> Ent(mem, e, j) == ZERO
      modifies `count, `mem
      ensures Sound() && View(mem) == old(View(mem)) + Copied(old(mem), d, e, 0, TABLE_SIZE)
      ensures forall a :: 0 <= a < TABLE_SIZE ==> Dir(mem, a) == old(Dir(mem, a))
      ensures SameFrames(old(mem), mem, e, 1) && Spare(P()) == old(Spare(P()))
    {
      hide Inv, View, Copied, Spare;
      ghost var m := mem;
      Facts(P(), kernel);
      var nr := if d == 0 then LOW_COPY else TABLE_SIZE;
      var i := 0;
      CopiedStart(m, d, e, View(m));
      while nr > 0
        modifies `count, `mem
        invariant 0 <= nr && i == (if d == 0 then LOW_COPY else TABLE_SIZE) - nr
        invariant Sound() && HasTable(mem, e) && (d == 0 || HasTable(mem, d))
        invariant View(mem) == View(m) + Copied(m, d, e, 0, i) && Spare(P()) == old(Spare(P()))
        invariant forall a :: 0 <= a < TABLE_SIZE ==> Dir(mem, a) == Dir(m, a)
        invariant SameFrames(m, mem, e, 1)
        invariant forall j :: i <= j < TABLE_SIZE ==> Ent(mem, e, j) == ZERO
      {
        Facts(P(), kernel);
        hide Tree;
        ghost var before := mem;
        RowSeenInside(m, mem, d, e, i);
        CopiedNext(m, d, e, 0, i);
        PlusOne(View(m), Copied(m, d, e, 0, i), (e, i), See(m, Ent(m, d, i)));
        CopyEntry(d, e, i);
        nr := nr - 1;
        i := i + 1;
      }
      if d == 0 { CopiedLow(m, e); }
    }

    /** One present directory entry copied into a fresh table; false when no
        frame is left for it. */
    method CopyDir(d: int, e: int) returns (ok: bool)
      requires Sound() && DIRS_PER_TASK <= e < TABLE_SIZE && !Dir(mem, e).present
      requires d == 0 || (HasTable(mem, d) && d != e && d % DIRS_PER_TASK == e % DIRS_PER_TASK)
      modifies `count, `mem, `kernel
      ensures Sound() && kernel == old(kernel) && SameFrames(old(mem), mem, e, 1)
      ensures ok ==>
          View(mem) == old(View(mem)) + Copied(old(mem), d, e, 0, TABLE_SIZE) && Spare(P()) == old(Spare(P())) - 1
      ensures !ok ==> P() == old(P()) && NoneFree()
    {
      hide Inv, View, Copied, Free;
      DirFacts(P(), kernel);
      var to_page_table := GetFreePage();
      if to_page_table == 0 { return false; }
      DirFacts(P(), kernel);
      HangKeeps(P(), kernel, e, to_page_table);
      mem := SetDir(mem, e, Link(to_page_table));
      kernel := kernel - {to_page_table};
      CopiedSame(old(mem), mem, d, e);
      CopyTable(d, e);
      return true;
    }

    /** copy_page_tables: on success the destination shows what the source shows;
        when memory runs out, some prefix of it (the caller tears it down). */
    method CopyPageTables(from: int, to: int, size: nat) returns (ok: bool)
      requires Sound() && 0 <= from && DIRS_PER_TASK <= to && from % DIRS_PER_TASK == to % DIRS_PER_TASK == 0
               && from != to
      requires from + Slots(size) <= TABLE_SIZE && to + Slots(size) <= TABLE_SIZE && Slots(size) <= DIRS_PER_TASK
      requires from == 0 ==> Slots(size) <= 1
      requires forall d :: to <= d < to + Slots(size) ==> !Dir(mem, d).present
      modifies `count, `mem, `kernel
      ensures Sound() && kernel == old(kernel) && SameFrames(old(mem), mem, to, Slots(size))
      ensures ok <==> old(Spare(P())) >= TablesIn(old(mem), from, Slots(size))
      ensures ok ==> View(mem) == old(View(mem)) + Copied(old(mem), from, to, Slots(size), 0)
      ensures !ok ==> Without(View(mem), to, to + Slots(size)) == old(View(mem))
    {
      hide Inv, View, Copied, Without, Ent, Slots, SameFrames, HasTable, Spare;
      ghost var m := mem;
      ghost var n := Slots(size);
      FramesStart(m, to, n);
      var left := Slots(size);
      var from_dir, to_dir := from, to;
      ghost var a := 0;
      CopiedStart(m, from, to, View(m));
      while left > 0
        modifies `count, `mem, `kernel
        invariant 0 <= left && a == n - left && from_dir == from + a && to_dir == to + a
        invariant Sound() && kernel == old(kernel) && View(mem) == View(m) + Copied(m, from, to, a, 0)
        invariant SameFrames(m, mem, to, n) && Spare(P()) == old(Spare(P())) - TablesIn(m, from, a)
        invariant forall d :: to + a <= d < to + n ==> !Dir(mem, d).present
      {
        CopySource(m, P(), kernel, from, to, a, n);
        ghost var m1 := mem;
        if !Dir(mem, from_dir).present {
          CopiedNothing(m, from, to, a);
        } else {
          CopiedRow(m, mem, from, to, a, n);
          var copied := CopyDir(from_dir, to_dir);
          if !copied {
            PrefixDropped(m, mem, from, to, a, n);
            TablesGrow(m, from, a + 1, n);
            return false;
          }
          FramesStep(m, m1, mem, to, a, n);
        }
        a := a + 1;
        from_dir, to_dir, left := from_dir + 1, to_dir + 1, left - 1;
      }
      return true;
    }

    /** put_page: maps a kernel-owned frame, making the page table if need be. */
    method PutPage(page: nat, d: int, i: int) returns (r: nat)
      requires Sound() && page in kernel && InPages(d, i) && !Ent(mem, d, i).present
      modifies `count, `mem, `kernel
      ensures Sound() && OnlyAt(old(mem), mem, d, i)
      ensures r == 0 ==> P() == old(P()) && kernel == old(kernel) && NoneFree() && !Dir(mem, d).present
      ensures r != 0 ==> Spare(P()) == old(Spare(P())) - old(Need(mem, d))
      ensures r != 0 ==> r == page && kernel == old(kernel) - {page} && HasTable(mem, d) && Ent(mem, d, i) == Link(page)
      ensures r != 0 ==> View(mem) == old(View(mem))[(d, i) := Private(old(mem)[page])]
    {
      hide Inv, View, Tree, Free;
      Facts(P(), kernel);
      if !Dir(mem, d).present {
        var tmp := GetFreePage();
        if tmp == 0 { return 0; }
        HangKeeps(P(), kernel, d, tmp);
        mem := SetDir(mem, d, Link(tmp));
        kernel := kernel - {tmp};
      }
      MapPageKeeps(P(), kernel, d, i, page);
      Facts(P(), kernel);
      assert mem[page] == old(mem)[page];
      mem := SetEnt(mem, d, i, Link(page));
      kernel := kernel - {page};
      return page;
    }

    /** un_wp_page: afterwards the page is writable and still shows the same words. */
    method UnWpPage(d: int, i: int) returns (oom: bool)
      requires Sound() && InPages(d, i) && HasTable(mem, d) && Ent(mem, d, i).present
      modifies `count, `mem, `kernel
      ensures Sound() && OnlyAt(old(mem), mem, d, i) && kernel == old(kernel)
      ensures oom ==> P() == old(P()) && NoneFree()
      ensures !oom ==> HasTable(mem, d) && Ent(mem, d, i).present && Ent(mem, d, i).rw
      ensures old(Ent(mem, d, i)).frame < old(|mem|)
      ensures !oom ==> View(mem) == old(View(mem))[(d, i) := Private(old(mem)[old(Ent(mem, d, i)).frame])]
      ensures !oom && old(Ent(mem, d, i)).frame >= LOW ==> View(mem) == old(View(mem))
    {
      hide Inv, Tree, Spare, View;
      Facts(P(), kernel);
      OwnWords(mem, d, i);
      var old_page := Ent(mem, d, i).frame;
      if old_page >= LOW && count[old_page - LOW] == 1 {
        UnprotectKeeps(P(), kernel, d, i);
        mem := SetEnt(mem, d, i, Ent(mem, d, i).(rw := true));
        return false;
      }
      var new_page := GetFreePage();
      if new_page == 0 { return true; }
      Facts(P(), kernel);
      BreakShareKeeps(P(), kernel, d, i, new_page);
      ghost var q := BreakShare(P(), d, i, new_page);
      assert mem[old_page] == old(mem)[old_page];
      if old_page >= LOW {
        CountBoundMapped(P(), kernel, d, i);
        count := count[old_page - LOW := count[old_page - LOW] - 1];
      }
      var copy := mem[old_page];
      mem := SetEnt(mem, d, i, Link(new_page));
      mem := mem[new_page := copy];
      kernel := kernel - {new_page};
      assert P() == q;
      return false;
    }

    /** write_verify: a present page becomes writable; an absent one stays absent. */
    method WriteVerify(d: int, i: int) returns (oom: bool)
      requires Sound() && InPages(d, i)
      modifies `count, `mem, `kernel
      ensures Sound() && OnlyAt(old(mem), mem, d, i) && kernel == old(kernel)
      ensures oom ==> P() == old(P()) && NoneFree()
      ensures !old(Ent(mem, d, i)).present ==> !oom && P() == old(P())
      ensures !oom && old(Ent(mem, d, i)).present ==> HasTable(mem, d) && Ent(mem, d, i).present && Ent(mem, d, i).rw
      ensures !oom ==>
          View(mem) == if old(Ent(mem, d, i)).present then Owned(old(mem), old(Ent(mem, d, i)), old(View(mem)), d, i)
                       else old(View(mem))
    {
      hide Inv, View, Tree;
      Facts(P(), kernel);
      if !Dir(mem, d).present { return false; }
      if Ent(mem, d, i).present && !Ent(mem, d, i).rw {
        oom := UnWpPage(d, i);
      } else {
        WritableIsPrivate(P(), kernel, d, i);
        oom := false;
      }
    }

    /** get_empty_page: a zeroed page, or nothing at all. */
    method GetEmptyPage(d: int, i: int) returns (oom: bool)
      requires Sound() && InPages(d, i) && !Ent(mem, d, i).present
      modifies `count, `mem, `kernel
      ensures Sound() && OnlyAt(old(mem), mem, d, i) && kernel == old(kernel)
      ensures oom <==> old(Spare(P())) <= old(Need(mem, d))
      ensures oom ==> View(mem) == old(View(mem)) && count == old(count)
      ensures !oom ==> View(mem) == old(View(mem))[(d, i) := Private(Zeros())]
      ensures !oom ==> HasTable(mem, d) && Ent(mem, d, i).present && Ent(mem, d, i).rw
    {
      hide Inv, View, Tree, Free;
      DirFacts(P(), kernel);
      var tmp := GetFreePage();
      if tmp == 0 { return true; }
      var r := PutPage(tmp, d, i);
      if r == 0 {
        assert old(count)[tmp - LOW] == 0;
        GiveBack(tmp);
        assert |old(count)| == PAGING_PAGES && count == old(count)[tmp - LOW := 1][tmp - LOW := 0];
        return true;
      }
      return false;
    }

    /** try_to_share: 1 when task p's clean page at the same place was shared, 0
        when p has none, -1 when no page table could be had. */
    method TryToShare(k: int, i: int, p: int, t: int) returns (r: int)
      requires Sound() && 1 <= p < NR_TASKS && 1 <= t < NR_TASKS && p != t && 0 <= k < DIRS_PER_TASK
               && 0 <= i < TABLE_SIZE
      requires !Ent(mem, DIRS_PER_TASK * t + k, i).present
      modifies `count, `mem, `kernel
      ensures Sound() && OnlyAt(old(mem), mem, DIRS_PER_TASK * t + k, i) && kernel == old(kernel)
      ensures r == 1 || r == 0 || r == -1
      ensures r != 1 ==> P() == old(P())
      ensures r == -1 ==> NoneFree()
      ensures r == 1 ==> Spare(P()) == old(Spare(P())) - old(Need(mem, DIRS_PER_TASK * t + k))
      ensures r == 0 <==> var w := old(Ent(mem, DIRS_PER_TASK * p + k, i)); !w.present || w.dirty || w.frame < LOW
      ensures r == 1 ==> View(mem) == Apply(old(View(mem)), Share(DIRS_PER_TASK * p + k, DIRS_PER_TASK * t + k, i))
      ensures r == 1 ==> (DIRS_PER_TASK * p + k, i) in old(View(mem)) && HasTable(mem, DIRS_PER_TASK * t + k)
      ensures r == 1 ==> old(View(mem))[(DIRS_PER_TASK * p + k, i)].Private?
      ensures r == 1 ==> (DIRS_PER_TASK * t + k, i) in View(mem)
    {
      hide Inv, View, Tree, Free;
      Facts(P(), kernel);
      var from_dir, to_dir := DIRS_PER_TASK * p + k, DIRS_PER_TASK * t + k;
      if !Dir(mem, from_dir).present { return 0; }
      var phys_addr := Ent(mem, from_dir, i);
      if !(phys_addr.present && !phys_addr.dirty) { return 0; }
      if phys_addr.frame >= |mem| || phys_addr.frame < LOW { return 0; }
      SeenBy(mem, from_dir, i);
      ghost var m := mem;
      if !Dir(mem, to_dir).present {
        var to := GetFreePage();
        if to == 0 { return -1; }
        HangKeeps(P(), kernel, to_dir, to);
        mem := SetDir(mem, to_dir, Link(to));
        kernel := kernel - {to};
      }
      SeenBy(mem, from_dir, i);
      CopyEntry(from_dir, to_dir, i);
      SeenBy(mem, to_dir, i);
      assert kernel == old(kernel);
      return 1;
    }

    /** share_page: looks for another task running the same executable; 0 exactly when
        the executable has no other user or none has the page clean. */
    method SharePage(t: int, k: int, i: int, users: nat) returns (r: int, ghost p: int)
      requires Sound() && |task| == NR_TASKS && 1 <= t < NR_TASKS && task[t].Task? && 0 <= k < DIRS_PER_TASK
               && 0 <= i < TABLE_SIZE
      requires !Ent(mem, DIRS_PER_TASK * t + k, i).present
      modifies `count, `mem, `kernel
      ensures Sound() && OnlyAt(old(mem), mem, DIRS_PER_TASK * t + k, i) && kernel == old(kernel)
      ensures r == 1 || r == 0 || r == -1
      ensures r != 1 ==> P() == old(P())
      ensures r == -1 ==> NoneFree()
      ensures r == 0 <==> task[t].exe == 0 || users < 2 || NoLender(task, old(mem), t, k, i)
      ensures r == 1 ==> Lends(task, p, t) && users >= 2
      ensures r == 1 ==> Spare(P()) == old(Spare(P())) - old(Need(mem, DIRS_PER_TASK * t + k))
      ensures r == 1 ==> View(mem) == Apply(old(View(mem)), Share(DIRS_PER_TASK * p + k, DIRS_PER_TASK * t + k, i))
      ensures r == 1 ==> (DIRS_PER_TASK * p + k, i) in old(View(mem)) && (DIRS_PER_TASK * t + k, i) in View(mem)
      ensures r == 1 ==> old(View(mem))[(DIRS_PER_TASK * p + k, i)].Private?
    {
      hide Inv, View, Apply, Spare;
      p := 0;
      if task[t].exe == 0 { return 0, 0; }
      if users < 2 { return 0, 0; }
      var q := NR_TASKS - 1;
      while q > 0
        modifies `count, `mem, `kernel
        invariant 0 <= q < NR_TASKS
        invariant P() == old(P()) && kernel == old(kernel)
        invariant forall u :: u > q && Lends(task, u, t) ==> !HasClean(mem, u, k, i)
      {
        if task[q].Task? && q != t && task[q].exe == task[t].exe {
          r := TryToShare(k, i, q, t);
          if r != 0 {
            assert Lends(task, q, t) && HasClean(old(mem), q, k, i);
            return r, q;
          }
        }
        q := q - 1;
      }
      return 0, 0;
    }

    /** do_no_page up to its disk read: an empty page, a shared page, or a frame
        for the block contents, held by the kernel while the task sleeps. */
    method NoPage(t: int, k: int, i: int, users: nat) returns (r: Fault, ghost evs: seq<Event>)
      requires Valid() && 1 <= t < NR_TASKS && Live(task[t]) && t !in loading
      requires 0 <= k < Slots(task[t].limit) && 0 <= i < TABLE_SIZE && (DIRS_PER_TASK * t + k, i) !in View(mem)
      modifies `count, `mem, `kernel, `loading
      ensures Valid() && task == old(task) && View(mem) == ApplyAll(old(View(mem)), evs)
      ensures r != Done ==> evs == []
      ensures r != Reading ==> loading == old(loading)
      ensures r == Done ==> (DIRS_PER_TASK * t + k, i) in View(mem) && Supplies(task, old(View(mem)), t, k, i, evs)
      ensures r == Done ==>
          Ent(mem, DIRS_PER_TASK * t + k, i).rw || Spare(P()) == old(Spare(P())) - old(Need(mem, DIRS_PER_TASK * t + k))
      ensures r == Oom ==> old(Spare(P())) <= old(Need(mem, DIRS_PER_TASK * t + k))
      ensures r == Reading ==> InImage(task[t], k, i)
      ensures r == Reading ==> t in loading && loading == old(loading)[t := Load(k, i, loading[t].frame)]
      ensures r == Reading ==> users < 2 || NoLender(task, old(mem), t, k, i)
    {
      hide Inv, View, Tree, ApplyAll, Kept, Spare, Slots, Ent, Dir, HasTable, OnlyAt, InSpace, NoLender;
      ghost var d := DIRS_PER_TASK * t + k;
      Place(task, loading, mem, kernel, t, k, i);
      SeenBy(mem, d, i);
      ApplyNone(View(mem));
      evs := [];
      var tmp := (k * TABLE_SIZE + i) * 4096;
      if task[t].exe == 0 || tmp >= task[t].endData {
        var oom := GetEmptyPage(DIRS_PER_TASK * t + k, i);
        KeptAfter(task, loading, old(mem), mem, kernel, d, i);
        r := if oom then Oom else Done;
        if !oom {
          evs := [Fill(d, i, Zeros())];
          ApplyOne(old(View(mem)), evs[0]);
        }
      } else {
        r, evs := PageFromImage(t, k, i, users);
      }
    }

    method PageFromImage(t: int, k: int, i: int, users: nat) returns (r: Fault, ghost evs: seq<Event>)
      requires Valid() && 1 <= t < NR_TASKS && Live(task[t]) && t !in loading && InImage(task[t], k, i)
      requires 0 <= k < Slots(task[t].limit) && 0 <= i < TABLE_SIZE && (DIRS_PER_TASK * t + k, i) !in View(mem)
      modifies `count, `mem, `kernel, `loading
      ensures Valid() && task == old(task) && View(mem) == ApplyAll(old(View(mem)), evs)
      ensures r != Done ==> evs == []
      ensures r != Reading ==> loading == old(loading)
      ensures r == Done ==> (DIRS_PER_TASK * t + k, i) in View(mem) && Supplies(task, old(View(mem)), t, k, i, evs)
      ensures r == Done ==> Spare(P()) == old(Spare(P())) - old(Need(mem, DIRS_PER_TASK * t + k))
      ensures r == Oom ==> old(Spare(P())) == 0
      ensures r == Reading ==> t in loading && loading == old(loading)[t := Load(k, i, loading[t].frame)]
      ensures r == Reading ==> users < 2 || NoLender(task, old(mem), t, k, i)
    {
      hide Inv, View, Kept, OnlyAt, InSpace, Apply, ApplyAll, Supplies, Lends, Ent, Dir, HasTable, InPages, Slots,
           Spare, Need, NoLender;
      ghost var d := DIRS_PER_TASK * t + k;
      Place(task, loading, mem, kernel, t, k, i);
      SeenBy(mem, d, i);
      ApplyNone(View(mem));
      var shared, p := SharePage(t, k, i, users);
      if shared == 1 {
        KeptAfter(task, loading, old(mem), mem, kernel, d, i);
        evs := [Share(DIRS_PER_TASK * p + k, d, i)];
        SuppliesShare(task, old(View(mem)), t, k, i, p);
        ApplyOne(old(View(mem)), evs[0]);
        r := Done;
      } else if shared == -1 {
        r, evs := Oom, [];
      } else {
        r := StartRead(t, k, i);
        evs := [];
      }
    }

    /** The kernel takes a frame and asks for the page's blocks. */
    method StartRead(t: int, k: int, i: int) returns (r: Fault)
      requires Valid() && 1 <= t < NR_TASKS && Live(task[t]) && t !in loading
      requires 0 <= k < Slots(task[t].limit) && 0 <= i < TABLE_SIZE && (DIRS_PER_TASK * t + k, i) !in View(mem)
      modifies `count, `mem, `kernel, `loading
      ensures Valid() && task == old(task) && View(mem) == old(View(mem)) && r != Done
      ensures r == Oom ==> loading == old(loading) && old(Spare(P())) == 0
      ensures r == Reading ==> t in loading && loading == old(loading)[t := Load(k, i, loading[t].frame)]
    {
      hide Inv, View, Grab, SameTables, Kept, Spare;
      var page := GetFreePage();
      if page == 0 { return Oom; }
      KeptReading(task, loading, old(mem), mem, old(kernel), t, k, i, page);
      loading := loading[t := Load(k, i, page)];
      return Reading;
    }

    /** The blocks have arrived: do_no_page maps the page, or kills the task when
        no frame is left for the page table. */
    method PageRead(t: int, image: Frame) returns (r: Access, ghost evs: seq<Event>)
      requires Valid() && t in loading
      modifies `count, `mem, `kernel, `loading, `task
      ensures Valid() && View(mem) == ApplyAll(old(View(mem)), evs)
      ensures Arrived(r, old(St()), St(), t, image, evs) && r != Blocked
    {
      hide Inv, View, Kept, Apply, ApplyAll, Slots, Free, Ent, Dir, Dead, Live;
      var Load(k, i, page) := loading[t];
      LoadFacts(St(), t);
      ApplyNone(View(mem));
      LoadedKeeps(St(), t, image);
      mem := mem[page := image];
      loading := loading - {t};
      r, evs := MapLoaded(t, k, i, page);
      if r == Killed {
        evs := Kill(t, [], View(mem));
      }
    }

    method MapLoaded(t: int, k: nat, i: nat, page: nat) returns (r: Access, ghost evs: seq<Event>)
      requires Sound() && page in kernel && Kept(task, loading, mem, kernel - {page}) && t !in loading
      requires 1 <= t < NR_TASKS && Live(task[t]) && k < Slots(task[t].limit) && i < TABLE_SIZE
      requires !Ent(mem, DIRS_PER_TASK * t + k, i).present
      modifies `count, `mem, `kernel
      ensures Valid() && r != Blocked
      ensures View(mem) == ApplyAll(old(View(mem)), evs)
      ensures evs == if r == Performed then [Fill(DIRS_PER_TASK * t + k, i, old(mem)[page])] else []
      ensures r == Killed ==> old(Spare(P())) == 0 && !old(Dir(mem, DIRS_PER_TASK * t + k)).present
    {
      hide Inv, View, Kept, InSpace, ApplyAll, Slots, Spare, OnlyAt, Ent, Dir, HasTable, InPages, Live, Need, Tree;
      DirFacts(P(), kernel);
      ghost var d, rest := DIRS_PER_TASK * t + k, kernel - {page};
      Place(task, loading, mem, rest, t, k, i);
      NeedIs(mem, d);
      ApplyNone(View(mem));
      var q := PutPage(page, DIRS_PER_TASK * t + k, i);
      KeptAfter(task, loading, old(mem), mem, rest, d, i);
      if q == 0 {
        GiveBack(page);
        r, evs := Killed, [];
      } else {
        ApplyOne(old(View(mem)), Fill(d, i, old(mem)[page]));
        r, evs := Performed, [Fill(d, i, old(mem)[page])];
      }
    }

    /** free_page of a frame that only the kernel holds. */
    method GiveBack(page: nat)
      requires Sound() && page in kernel
      modifies `count, `kernel
      ensures Sound() && P() == Release(old(P()), page) && kernel == old(kernel) - {page}
    {
      hide Inv, View;
      DirFacts(P(), kernel);
      ReleaseKeeps(P(), kernel, page);
      ghost var p := Release(P(), page);
      var ok := FreePage(page);
      assert ok;
      kernel := kernel - {page};
      assert P() == p;
    }

    /** A store through a writable entry. */
    method StoreWord(d: int, i: int, x: int, w: Word)
      requires Sound() && InPages(d, i) && HasTable(mem, d) && Ent(mem, d, i).present && Ent(mem, d, i).rw
               && 0 <= x < TABLE_SIZE
      modifies `mem
      ensures Sound() && OnlyAt(old(mem), mem, d, i)
      ensures (d, i) in old(View(mem)) && old(View(mem))[(d, i)].Private?
      ensures View(mem) == Apply(old(View(mem)), Store(d, i, x, w))
    {
      hide Inv, View, Tree;
      Facts(P(), kernel);
      SeenBy(mem, d, i);
      PokeKeeps(P(), kernel, d, i, x, w);
      ghost var q := Poke(P(), d, i, x, w);
      var f := Ent(mem, d, i).frame;
      var words := mem[f][x := w];
      mem := SetEnt(mem, d, i, Ent(mem, d, i).(dirty := true));
      mem := mem[f := words];
      assert P() == q;
    }

    /** do_exit: the address space goes, twice over (code and data limits). */
    method Exit(t: int)
      requires Valid() && 1 <= t < NR_TASKS && Live(task[t]) && t !in loading
      modifies `count, `mem, `task
      ensures Valid() && task == old(task)[t := Dead(old(task)[t])]
      ensures View(mem) == Apply(old(View(mem)), Ending(t))
    {
      hide Inv, View, Kept, Without, Slots, Live, Dir, Apply, SameOutside;
      ExitStart(task, loading, mem, kernel, t);
      FreeSpace(DIRS_PER_TASK * t, task[t].codeLimit, task[t].limit);
      KeptExit(task, loading, old(mem), mem, kernel, t);
      task := task[t := Dead(task[t])];
    }

    /** The code segment's tables, then the data segment's. */
    method FreeSpace(d: int, codeLimit: nat, limit: nat)
      requires Sound() && DIRS_PER_TASK <= d && d + Slots(limit) <= TABLE_SIZE && codeLimit <= limit
      modifies `count, `mem
      ensures Sound() && View(mem) == Without(old(View(mem)), d, d + Slots(limit))
      ensures SameOutside(old(mem), mem, d, d + Slots(limit))
      ensures forall e :: d <= e < d + Slots(limit) ==> !Dir(mem, e).present
    {
      hide Inv, View, Without, Slots, Ent, Dir, SameOutside;
      SlotsGrow(codeLimit, limit);
      WithoutTwice(View(mem), d, d + Slots(codeLimit), d + Slots(limit));
      ghost var m := mem;
      FreePageTables(d, codeLimit);
      ghost var m1 := mem;
      FreePageTables(d, limit);
      SameOutsideTwice(m, m1, mem, d, d + Slots(codeLimit), d + Slots(limit));
    }

    predicate Ready(t: int, k: int, i: int) reads this {
      1 <= t < NR_TASKS && t < |task| && Live(task[t]) && t !in loading && 0 <= k < Slots(task[t].limit)
      && 0 <= i < TABLE_SIZE
    }

    /** Kills the current task: oom() ends in do_exit. */
    method Kill(t: int, ghost evs: seq<Event>, ghost s: Spaces) returns (ghost all: seq<Event>)
      requires Valid() && 1 <= t < NR_TASKS && Live(task[t]) && t !in loading && View(mem) == ApplyAll(s, evs)
      modifies `count, `mem, `task
      ensures Valid() && View(mem) == ApplyAll(s, all)
      ensures task == old(task)[t := Dead(old(task)[t])] && all == evs + [Ending(t)]
    {
      hide Inv, View, Kept, Apply, ApplyAll;
      ApplyAppend(s, evs, [Ending(t)]);
      ApplyOne(View(mem), Ending(t));
      Exit(t);
      all := evs + [Ending(t)];
    }

    /** A fault-free page, if the access can proceed. */
    method BringIn(t: int, k: int, i: int, users: nat) returns (r: Access, ghost evs: seq<Event>)
      requires Valid() && Ready(t, k, i)
      modifies this
      ensures Valid() && View(mem) == ApplyAll(old(View(mem)), evs)
      ensures Ended(r, old(St()), St(), t, k, i, evs, Supplied(old(St()), t, k, i, evs))
      ensures (DIRS_PER_TASK * t + k, i) in old(View(mem)) ==> r == Performed && St() == old(St())
      ensures r == Performed ==> Ready(t, k, i) && (DIRS_PER_TASK * t + k, i) in View(mem)
      ensures r == Performed && (DIRS_PER_TASK * t + k, i) !in old(View(mem)) ==>
                Ent(mem, DIRS_PER_TASK * t + k, i).rw
                || Spare(P()) == old(Spare(P())) - old(Need(mem, DIRS_PER_TASK * t + k))
    {
      hide Inv, View, Kept, Apply, ApplyAll, Spare, Supplies, Dead;
      Place(task, loading, mem, kernel, t, k, i);
      SeenBy(mem, DIRS_PER_TASK * t + k, i);
      ApplyNone(View(mem));
      r, evs := Performed, [];
      if !Ent(mem, DIRS_PER_TASK * t + k, i).present {
        ghost var s := View(mem);
        var f;
        f, evs := NoPage(t, k, i, users);
        if f == Reading {
          r := Blocked;
        } else if f == Oom {
          r := Killed;
          evs := Kill(t, evs, s);
        }
      }
    }

    /** A user-mode store.  It changes this one word of this one page, and
        whatever the page showed before, shared or not, it shows still. */
    method UserWrite(t: int, k: int, i: int, x: int, w: Word, users: nat) returns (r: Access, ghost evs: seq<Event>)
      requires Valid() && Ready(t, k, i) && 0 <= x < TABLE_SIZE
      modifies this
      ensures Valid() && View(mem) == ApplyAll(old(View(mem)), evs)
      ensures Ended(r, old(St()), St(), t, k, i, evs, Performs(old(St()), t, k, i, x, w, evs))
      ensures r == Performed && (DIRS_PER_TASK * t + k, i) in old(View(mem)) ==>
                View(mem) == Stored(old(mem), old(View(mem)), DIRS_PER_TASK * t + k, i, x, w)
      ensures (DIRS_PER_TASK * t + k, i) in old(View(mem)) ==> r != Blocked
    {
      hide Inv, View, Kept, Apply, ApplyAll, Spare, Supplies, Stored, Words, Dead, Performs;
      ghost var a := St();
      ghost var s := View(mem);
      Place(task, loading, mem, kernel, t, k, i);
      SeenBy(mem, DIRS_PER_TASK * t + k, i);
      r, evs := BringIn(t, k, i, users);
      if r == Performed {
        ghost var m, before := mem, evs;
        r, evs := Commit(t, k, i, x, w, evs, s);
        NotEmpty(a, t, k, i, before);
        Committed(a, m, t, k, i, x, w, before);
        assert r == Killed ==> evs[..|evs| - 1] == before;
      }
    }

    /** The store itself, after un_wp_page when the entry is protected. */
    method Commit(t: int, k: int, i: int, x: int, w: Word, ghost before: seq<Event>, ghost s: Spaces)
      returns (r: Access, ghost evs: seq<Event>)
      requires Valid() && Ready(t, k, i) && 0 <= x < TABLE_SIZE && (DIRS_PER_TASK * t + k, i) in View(mem)
      requires View(mem) == ApplyAll(s, before)
      modifies this
      ensures Valid() && View(mem) == ApplyAll(s, evs) && r != Blocked && loading == old(loading)
      ensures r == Performed ==>
          task == old(task) && View(mem) == Stored(old(mem), old(View(mem)), DIRS_PER_TASK * t + k, i, x, w)
      ensures r == Performed ==> evs == before + StoreEvents(old(mem), DIRS_PER_TASK * t + k, i, x, w)
      ensures r == Killed ==> task == old(task)[t := Dead(old(task)[t])] && evs == before + [Ending(t)]
      ensures r == Killed ==> old(Spare(P())) == 0 && !old(Ent(mem, DIRS_PER_TASK * t + k, i)).rw
    {
      hide Inv, View, Kept, Apply, ApplyAll, Stored, OnlyAt, Spare, Dead, Words;
      ghost var d := DIRS_PER_TASK * t + k;
      ghost var m := mem;
      Place(task, loading, mem, kernel, t, k, i);
      DirFacts(P(), kernel);
      SeenBy(mem, d, i);
      var oom := Unshare(DIRS_PER_TASK * t + k, i);
      KeptAfter(task, loading, m, mem, kernel, d, i);
      if oom {
        evs := Kill(t, before, s);
        return Killed, evs;
      }
      ghost var m1 := mem;
      StoreWord(DIRS_PER_TASK * t + k, i, x, w);
      KeptAfter(task, loading, m1, mem, kernel, d, i);
      StoreApplied(m, View(m1), View(mem), s, before, d, i, x, w);
      return Performed, before + StoreEvents(m, d, i, x, w);
    }

    /** do_wp_page when the entry is protected; afterwards the page is the task's own. */
    method Unshare(d: int, i: int) returns (oom: bool)
      requires Sound() && InPages(d, i) && HasTable(mem, d) && Ent(mem, d, i).present && (d, i) in View(mem)
      modifies `count, `mem, `kernel
      ensures Sound() && OnlyAt(old(mem), mem, d, i) && kernel == old(kernel)
      ensures oom ==> P() == old(P()) && NoneFree() && !Ent(mem, d, i).rw
      ensures !oom ==> HasTable(mem, d) && Ent(mem, d, i).present && Ent(mem, d, i).rw
      ensures !oom ==> View(mem) == Apply(old(View(mem)), Own(d, i, Words(old(mem), old(View(mem))[(d, i)])))
    {
      hide Inv, View, Tree, Spare;
      Facts(P(), kernel);
      SeenBy(mem, d, i);
      WritableIsPrivate(P(), kernel, d, i);
      if Ent(mem, d, i).rw { return false; }
      oom := UnWpPage(d, i);
    }

    /** copy_mem: the whole address space, or nothing at all. */
    method CopyMem(from: int, to: int, limit: nat) returns (ok: bool)
      requires Sound() && 0 <= from && DIRS_PER_TASK <= to && from % DIRS_PER_TASK == to % DIRS_PER_TASK == 0
               && from != to
      requires from + Slots(limit) <= TABLE_SIZE && to + Slots(limit) <= TABLE_SIZE && Slots(limit) <= DIRS_PER_TASK
      requires from == 0 ==> Slots(limit) <= 1
      requires forall d :: to <= d < to + Slots(limit) ==> !Dir(mem, d).present
      modifies `count, `mem, `kernel
      ensures Sound() && kernel == old(kernel)
      ensures ok <==> old(Spare(P())) >= TablesIn(old(mem), from, Slots(limit))
      ensures ok ==>
          View(mem) == old(View(mem)) + Copied(old(mem), from, to, Slots(limit), 0)
          && SameFrames(old(mem), mem, to, Slots(limit))
      ensures !ok ==> View(mem) == old(View(mem)) && count == old(count) && SamePages(old(mem), mem)
    {
      hide Inv, View, Copied, Without, Slots, SameFrames, SameOutside, SamePages, Ent, Dir, Spare;
      ok := CopyPageTables(from, to, limit);
      if !ok {
        ghost var m1 := mem;
        FreePageTables(to, limit);
        UndoneCopy(old(mem), m1, mem, to, Slots(limit));
        SameCounts(old(P()), P(), kernel);
      }
    }

    /** copy_process, for a free slot c: the child's space is a copy of the
        parent's; a fork that fails halfway leaves every count as it was. */
    method Fork(par: int, c: int) returns (r: int, ghost evs: seq<Event>)
      requires Valid() && CanFork(task, loading, par, c)
      modifies `count, `mem, `task, `kernel
      ensures Valid() && (r == 0 || r == -EAGAIN)
      ensures r != 0 ==>
          count == old(count) && task == old(task) && kernel == old(kernel) && View(mem) == old(View(mem)) && evs == []
      ensures r == 0 <==> old(Spare(P())) > TablesIn(old(mem), DIRS_PER_TASK * par, Slots(old(task)[par].limit))
      ensures r == 0 ==> task[c].Task? && task == old(task)[c := old(task)[par].(page := task[c].page)]
      ensures View(mem) == ApplyAll(old(View(mem)), evs)
      ensures r == 0 ==> evs == [ForkEvent(old(mem), old(task), par, c)]
    {
      hide Inv, View, Kept, Slots, Copied, Apply, ApplyAll, Grab, SameFrames, SamePages, SameTables, Ent, Dir,
           ForkEvent, Tree, InSpace, Spare;
      ghost var m := mem;
      ForkRange(task, loading, mem, kernel, par, c);
      ghost var n := Slots(task[par].limit);
      DirFacts(P(), kernel);
      ApplyNone(View(mem));
      evs := [];
      var p := GetFreePage();
      if p == 0 { return -EAGAIN, []; }
      ghost var m1, p1 := mem, P();
      RangeStillFree(m, m1, c);
      SameTablesIn(m, m1, DIRS_PER_TASK * par, n);
      GrabLow(old(P()), p);
      task := task[c := task[par].(page := p)];
      var ok := CopyMem(DIRS_PER_TASK * par, DIRS_PER_TASK * c, task[par].limit);
      if !ok {
        task := task[c := Empty];
        GiveBack(p);
        NothingForked(old(P()), p1, P(), p);
        assert kernel == old(kernel);
        assert task == old(task);
        KeptSame(old(task), loading, m, m1, mem, kernel);
        return -EAGAIN, [];
      }
      KeptFork(old(task), loading, m, m1, mem, old(kernel), par, c, p);
      ForkEventIs(old(P()), m1, old(task), old(kernel), loading, par, c);
      evs := [ForkEvent(m, old(task), par, c)];
      ApplyOne(View(m), evs[0]);
      return 0, evs;
    }

    /** A kernel-mode store after verify_area.  write_verify covers pages that are
        present; an absent page has to be brought in first. */
    method VerifiedWrite(t: int, k: int, i: int, x: int, w: Word) returns (r: Access, ghost evs: seq<Event>)
      requires Valid() && Ready(t, k, i) && 0 <= x < TABLE_SIZE
      modifies this
      ensures Valid() && View(mem) == ApplyAll(old(View(mem)), evs)
      ensures r == Blocked <==> (DIRS_PER_TASK * t + k, i) !in old(View(mem))
      ensures r == Blocked ==> St() == old(St()) && evs == []
      ensures r != Blocked ==> Ended(r, old(St()), St(), t, k, i, evs, Performs(old(St()), t, k, i, x, w, evs))
      ensures r == Performed ==> View(mem) == Stored(old(mem), old(View(mem)), DIRS_PER_TASK * t + k, i, x, w)
    {
      hide Inv, View, Kept, Apply, ApplyAll, Stored, OnlyAt, Owned, Spare, Dead, Words, Supplies, Performs;
      ghost var d := DIRS_PER_TASK * t + k;
      ghost var a := St();
      Place(task, loading, mem, kernel, t, k, i);
      DirFacts(P(), kernel);
      SeenBy(mem, d, i);
      ApplyNone(View(mem));
      VerifyIs(P(), kernel, d, i);
      var oom := WriteVerify(DIRS_PER_TASK * t + k, i);
      KeptAfter(task, loading, a.p.mem, mem, kernel, d, i);
      if oom {
        evs := Kill(t, [], View(a.p.mem));
        return Killed, evs;
      }
      SeenBy(mem, d, i);
      if !Ent(mem, DIRS_PER_TASK * t + k, i).present { return Blocked, []; }
      ghost var m1 := mem;
      StoreWord(DIRS_PER_TASK * t + k, i, x, w);
      KeptAfter(task, loading, m1, mem, kernel, d, i);
      StoreApplied(a.p.mem, View(m1), View(mem), View(a.p.mem), [], d, i, x, w);
      Committed(a, a.p.mem, t, k, i, x, w, []);
      assert [] + StoreEvents(a.p.mem, d, i, x, w) == StoreEvents(a.p.mem, d, i, x, w);
      return Performed, StoreEvents(a.p.mem, d, i, x, w);
    }

    /** release(): the zombie's task structure goes back to the allocator. */
    method Reap(t: int)
      requires Valid() && 1 <= t < NR_TASKS && task[t].Task? && task[t].zombie
      modifies `count, `task, `kernel
      ensures Valid() && task == old(task)[t := Empty]
    {
      hide Inv, View, Slots;
      var p := task[t].page;
      task := task[t := Empty];
      GiveBack(p);
    }

    /** One step of the system on behalf of some task; steps that cannot be taken
        now do nothing. */
    method Step(op: Op) returns (ghost evs: seq<Event>)
      requires Valid()
      modifies this
      ensures Valid() && Next(op, old(St()), St(), evs)
    {
      hide Inv, View, Apply, ApplyAll, Slots, Kept, LowPages, Performs, Supplied, Spare, TablesIn, ForkEvent, Arrived,
           Dies, Waits, Dead;
      TaskTable(task, loading, mem, kernel);
      ApplyNone(View(mem));
      evs := [];
      match op
      case Forks(par, c) =>
        if CanFork(task, loading, par, c) {
          var r;
          r, evs := Fork(par, c);
        }
      case Writes(t, k, i, x, w, users) =>
        if Ready(t, k, i) && 0 <= x < TABLE_SIZE {
          var r;
          r, evs := UserWrite(t, k, i, x, w, users);
        }
      case KernelWrites(t, k, i, x, w) =>
        if Ready(t, k, i) && 0 <= x < TABLE_SIZE {
          var r;
          r, evs := VerifiedWrite(t, k, i, x, w);
        }
      case Reads(t, k, i, users) =>
        if Ready(t, k, i) {
          var r;
          r, evs := BringIn(t, k, i, users);
        }
      case DiskRead(t, image) =>
        if t in loading {
          var r;
          r, evs := PageRead(t, image);
        }
      case Exits(t) =>
        if 1 <= t < NR_TASKS && Live(task[t]) && t !in loading {
          ApplyOne(View(mem), Ending(t));
          Exit(t);
          evs := [Ending(t)];
        }
      case Reaped(t) =>
        if 1 <= t < NR_TASKS && task[t].Task? && task[t].zombie {
          Reap(t);
        }
    }

    /** Any run at all, from any valid state: every step is the step of the machine
        that copies eagerly, and every count is right in between. */
    method Run(ops: seq<Op>) returns (ghost states: seq<State>, ghost trace: seq<seq<Event>>)
      requires Valid()
      modifies this
      ensures Valid() && IsRun(ops, states, trace) && states[0] == old(St()) && states[|ops|] == St()
    {
      hide Inv, View, Apply, ApplyAll, Kept, Next;
      states, trace := [St()], [];
      for n := 0 to |ops|
        invariant Valid() && |trace| == n && |states| == n + 1 && states[0] == old(St()) && states[n] == St()
        invariant forall j :: 0 <= j <= n ==> Consistent(states[j])
        invariant forall j :: 0 <= j < n ==> Next(ops[j], states[j], states[j + 1], trace[j])
      {
        ghost var evs := Step(ops[n]);
        states, trace := states + [St()], trace + [evs];
      }
    }
  }

  datatype Op =
    | Forks(par: int, child: int)
    | Writes(t: int, k: int, i: int, x: int, w: Word, users: nat)
    | KernelWrites(t: int, k: int, i: int, x: int, w: Word)
    | Reads(t: int, k: int, i: int, users: nat)
    | DiskRead(t: int, image: Frame)
    | Exits(t: int)
    | Reaped(t: int)

  predicate CanFork(task: seq<Task>, loading: map<nat, Load>, par: int, c: int)
    requires |task| == NR_TASKS
  {
    0 <= par < NR_TASKS && Live(task[par]) && par !in loading && 1 <= c < NR_TASKS && task[c] == Empty
  }

  predicate CanAccess(a: State, t: int, k: int, i: int)
    requires |a.task| == NR_TASKS
  {
    1 <= t < NR_TASKS && Live(a.task[t]) && t !in a.loading && 0 <= k < Slots(a.task[t].limit) && 0 <= i < TABLE_SIZE
  }

  ghost predicate Accessed(a: State, b: State, t: int, k: int, i: int, evs: seq<Event>, done: bool)
    requires |a.task| == NR_TASKS && 0 <= t < NR_TASKS && k >= 0 && i >= 0 && DIRS_PER_TASK * t + k < TABLE_SIZE
  {
    Ended(Performed, a, b, t, k, i, evs, done) || Ended(Blocked, a, b, t, k, i, evs, done)
    || Ended(Killed, a, b, t, k, i, evs, done)
  }

  /** One step of the machine that copies eagerly: which events a step means,
      when a fork fails and when a task must wait or die. */
  ghost predicate Next(op: Op, a: State, b: State, evs: seq<Event>)
    requires Consistent(a)
  {
    && View(b.p.mem) == ApplyAll(View(a.p.mem), evs)
    && match op
       case Forks(par, c) =>
         if !CanFork(a.task, a.loading, par, c) then Idle(a, b, evs)
         else Forked(a, b, par, c, evs)
       case Writes(t, k, i, x, w, _) =>
         if !(CanAccess(a, t, k, i) && 0 <= x < TABLE_SIZE) then Idle(a, b, evs)
         else Accessed(a, b, t, k, i, evs, Performs(a, t, k, i, x, w, evs))
       case KernelWrites(t, k, i, x, w) =>
         if !(CanAccess(a, t, k, i) && 0 <= x < TABLE_SIZE
              && (DIRS_PER_TASK * t + k, i) in View(a.p.mem)) then Idle(a, b, evs)
         else Accessed(a, b, t, k, i, evs, Performs(a, t, k, i, x, w, evs))
       case Reads(t, k, i, _) =>
         if !CanAccess(a, t, k, i) then Idle(a, b, evs)
         else Accessed(a, b, t, k, i, evs, Supplied(a, t, k, i, evs))
       case DiskRead(t, image) =>
         if t !in a.loading then Idle(a, b, evs)
         else Arrived(Performed, a, b, t, image, evs) || Arrived(Killed, a, b, t, image, evs)
       case Exits(t) =>
         if !(1 <= t < NR_TASKS && Live(a.task[t]) && t !in a.loading) then Idle(a, b, evs)
         else evs == [Ending(t)] && b.task == a.task[t := Dead(a.task[t])] && b.loading == a.loading
       case Reaped(t) =>
         if !(1 <= t < NR_TASKS && a.task[t].Task? && a.task[t].zombie) then Idle(a, b, evs)
         else evs == [] && b.task == a.task[t := Empty] && b.loading == a.loading
  }

  predicate Idle(a: State, b: State, evs: seq<Event>) { b == a && evs == [] }

  /** The child's space is the parent's as of now, exactly when there are frames
      for its task structure and for a copy of every page table. */
  ghost predicate Forked(a: State, b: State, par: int, c: int, evs: seq<Event>)
    requires Consistent(a) && CanFork(a.task, a.loading, par, c)
  {
    && b.loading == a.loading && |b.task| == NR_TASKS
    && if Spare(a.p) > TablesIn(a.p.mem, DIRS_PER_TASK * par, Slots(a.task[par].limit))
       then evs == [ForkEvent(a.p.mem, a.task, par, c)] && b.task[c].Task?
       && b.task == a.task[c := a.task[par].(page := b.task[c].page)]
       else evs == [] && b.task == a.task
  }

  ghost predicate IsRun(ops: seq<Op>, states: seq<State>, trace: seq<seq<Event>>) {
    && |trace| == |ops| && |states| == |ops| + 1
    && (forall j :: 0 <= j <= |ops| ==> Consistent(states[j]))
    && (forall j :: 0 <= j < |ops| ==> Next(ops[j], states[j], states[j + 1], trace[j]))
  }

  /* ---- what runs mean to the tasks ---- */

  /** The task whose address space a step may change. */
  function Subject(op: Op): int {
    match op
    case Forks(_, child) => child
    case Writes(t, _, _, _, _, _) => t
    case KernelWrites(t, _, _, _, _) => t
    case Reads(t, _, _, _) => t
    case DiskRead(t, _) => t
    case Exits(t) => t
    case Reaped(t) => t
  }

  ghost predicate Untouched(evs: seq<Event>, d: int, i: int) { forall e :: e in evs ==> !Touches(e, (d, i)) }

  lemma SuppliedTouches(a: State, t: int, k: int, i: int, evs: seq<Event>, key: (int, int))
    requires |a.task| == NR_TASKS && 0 <= t < NR_TASKS && Supplied(a, t, k, i, evs) && key != (DIRS_PER_TASK * t + k, i)
    ensures Untouched(evs, key.0, key.1)
  {
    hide View, Lends;
  }

  lemma AccessTouches(a: State, b: State, t: int, k: int, i: int, evs: seq<Event>, done: bool, d: int, j: int)
    requires |a.task| == NR_TASKS && 0 <= t < NR_TASKS && 0 <= k < DIRS_PER_TASK && i >= 0 && InPages(d, j)
    requires Accessed(a, b, t, k, i, evs, done) && (d, j) != (DIRS_PER_TASK * t + k, i)
    requires done ==> Untouched(evs, d, j)
    requires d / DIRS_PER_TASK == t ==> Ending(t) !in evs
    ensures Untouched(evs, d, j)
  {
    hide View, Supplied, Spare;
    if Ended(Killed, a, b, t, k, i, evs, done) {
      var before := evs[..|evs| - 1];
      assert evs == before + [Ending(t)];
      if |evs| > 1 { SuppliedTouches(a, t, k, i, before, (d, j)); }
    }
  }

  lemma PerformsTouches(a: State, t: int, k: int, i: int, x: int, w: Word, evs: seq<Event>, d: int, j: int)
    requires |a.task| == NR_TASKS && 0 <= t < NR_TASKS && Performs(a, t, k, i, x, w, evs)
             && (d, j) != (DIRS_PER_TASK * t + k, i)
    ensures Untouched(evs, d, j)
  {
    hide View, Supplied, Words, ApplyAll;
    var before := evs[..|evs| - 2];
    assert evs == before + [evs[|evs| - 2], evs[|evs| - 1]];
    SuppliedTouches(a, t, k, i, before, (d, j));
  }

  /** A page changes only through a store to it, through a fault on it, or
      because its task appears or ends. */
  predicate Concerns(op: Op, d: int, i: int) {
    match op
    case Writes(t, k, j, _, _, _) => d == DIRS_PER_TASK * t + k && i == j
    case KernelWrites(t, k, j, _, _) => d == DIRS_PER_TASK * t + k && i == j
    case Reads(t, k, j, _) => d == DIRS_PER_TASK * t + k && i == j
    case Forks(_, c) => d / DIRS_PER_TASK == c
    case DiskRead(t, _) => d / DIRS_PER_TASK == t
    case _ => false
  }

  lemma NextTouches(op: Op, a: State, b: State, evs: seq<Event>, d: int, i: int)
    requires Consistent(a) && Next(op, a, b, evs) && InPages(d, i)
    requires Subject(op) != d / DIRS_PER_TASK || (!Concerns(op, d, i) && Ending(d / DIRS_PER_TASK) !in evs)
    ensures Untouched(evs, d, i)
  {
    hide Inv, View, Spare, Supplied, Performs, Waits, Dies, TablesIn, Ended, ApplyAll;
    TaskTable(a.task, a.loading, a.p.mem, a.kernel);
    hide Kept;
    match op
    case Writes(t, k, j, x, w, _) =>
      if evs != [] {
        if Performs(a, t, k, j, x, w, evs) { PerformsTouches(a, t, k, j, x, w, evs, d, i); }
        AccessTouches(a, b, t, k, j, evs, Performs(a, t, k, j, x, w, evs), d, i);
      }
    case KernelWrites(t, k, j, x, w) =>
      if evs != [] {
        if Performs(a, t, k, j, x, w, evs) { PerformsTouches(a, t, k, j, x, w, evs, d, i); }
        AccessTouches(a, b, t, k, j, evs, Performs(a, t, k, j, x, w, evs), d, i);
      }
    case Reads(t, k, j, _) =>
      if evs != [] {
        if Supplied(a, t, k, j, evs) { SuppliedTouches(a, t, k, j, evs, (d, i)); }
        AccessTouches(a, b, t, k, j, evs, Supplied(a, t, k, j, evs), d, i);
      }
    case _ =>
  }

  /** No task can change what another task reads: over any run whose steps are
      all on behalf of other tasks, every page stays what it was. */
  lemma {:induction false} Isolation(ops: seq<Op>, states: seq<State>, trace: seq<seq<Event>>, d: int, i: int)
    requires IsRun(ops, states, trace) && InPages(d, i)
    requires forall j :: 0 <= j < |ops| ==> Subject(ops[j]) != d / DIRS_PER_TASK
    ensures (d, i) in View(states[|ops|].p.mem) <==> (d, i) in View(states[0].p.mem)
    ensures (d, i) in View(states[0].p.mem) ==> View(states[|ops|].p.mem)[(d, i)] == View(states[0].p.mem)[(d, i)]
    decreases |ops|
  {
    hide View, Next, Consistent, ApplyAll;
    if ops != [] {
      var n := |ops| - 1;
      Isolation(ops[..n], states[..n + 1], trace[..n], d, i);
      StaysHome(ops[n], states[n], states[n + 1], trace[n], d, i);
    }
  }

  lemma StaysHome(op: Op, a: State, b: State, evs: seq<Event>, d: int, i: int)
    requires Consistent(a) && Next(op, a, b, evs) && InPages(d, i) && Subject(op) != d / DIRS_PER_TASK
    ensures (d, i) in View(b.p.mem) <==> (d, i) in View(a.p.mem)
    ensures (d, i) in View(a.p.mem) ==> View(b.p.mem)[(d, i)] == View(a.p.mem)[(d, i)]
  {
    NextTouches(op, a, b, evs, d, i);
    hide View, Next, Consistent, ApplyAll;
    assert View(b.p.mem) == ApplyAll(View(a.p.mem), evs) by { NextView(op, a, b, evs); }
    IsolatedRun(View(a.p.mem), evs, d, i);
  }

  lemma NextView(op: Op, a: State, b: State, evs: seq<Event>)
    requires Consistent(a) && Next(op, a, b, evs)
    ensures View(b.p.mem) == ApplyAll(View(a.p.mem), evs)
  { }

  /** The store to word x of page (d,i), by the task or by the kernel for it. */
  predicate StoresTo(op: Op, d: int, i: int, x: int) {
    match op
    case Writes(t, k, j, y, _, _) => d == DIRS_PER_TASK * t + k && i == j && x == y
    case KernelWrites(t, k, j, y, _) => d == DIRS_PER_TASK * t + k && i == j && x == y
    case _ => false
  }

  /** The step stored a word: it neither waited nor died. */
  ghost predicate Stores(op: Op, a: State, evs: seq<Event>) {
    && (op.Writes? || op.KernelWrites?) && |a.task| == NR_TASKS && 0 <= op.t < NR_TASKS && 0 <= op.x < TABLE_SIZE
    && Performs(a, op.t, op.k, op.i, op.x, op.w, evs)
  }

  lemma PerformedPage(a: State, t: int, k: int, i: int, x: int, w: Word, evs: seq<Event>)
    requires |a.task| == NR_TASKS && 0 <= t < NR_TASKS && 0 <= x < TABLE_SIZE && Performs(a, t, k, i, x, w, evs)
    ensures var d := DIRS_PER_TASK * t + k; var s := ApplyAll(View(a.p.mem), evs[..|evs| - 2]);
      (d, i) in s && ApplyAll(View(a.p.mem), evs) == s[(d, i) := Private(Words(a.p.mem, s[(d, i)])[x := w])]
    ensures (DIRS_PER_TASK * t + k, i) in View(a.p.mem) ==> ApplyAll(View(a.p.mem), evs[..|evs| - 2]) == View(a.p.mem)
  {
    hide View, Supplies, Words, ApplyAll;
    var before := evs[..|evs| - 2];
    var s := ApplyAll(View(a.p.mem), before);
    var own, store := evs[|evs| - 2], evs[|evs| - 1];
    assert evs == before + [own] + [store];
    ApplyAppend(View(a.p.mem), before, [own]);
    ApplyAppend(View(a.p.mem), before + [own], [store]);
    ApplyOne(s, own);
    ApplyOne(Apply(s, own), store);
    if (DIRS_PER_TASK * t + k, i) in View(a.p.mem) { ApplyNone(View(a.p.mem)); }
  }

  /** What a task reads after a step: the word just stored there, else what it
      read before.  Nothing else changes a word, as long as the task lives. */
  lemma NextWord(op: Op, a: State, b: State, evs: seq<Event>, d: int, i: int, x: int)
    requires Consistent(a) && Next(op, a, b, evs) && InPages(d, i) && 0 <= x < TABLE_SIZE
    requires Read(View(a.p.mem), d, i, x).Value? && Ending(d / DIRS_PER_TASK) !in evs
    ensures Read(View(b.p.mem), d, i, x) ==
            if StoresTo(op, d, i, x) && Stores(op, a, evs) then Value(op.w) else Read(View(a.p.mem), d, i, x)
  {
    hide Inv, View, Spare, ApplyAll, TablesIn;
    assert (d, i) in View(a.p.mem);
    if Concerns(op, d, i) {
      NextOnPage(op, a, b, evs, d, i);
      ApplyNone(View(a.p.mem));
    } else {
      NextTouches(op, a, b, evs, d, i);
    }
    NextView(op, a, b, evs);
    if Concerns(op, d, i) && Stores(op, a, evs) {
      PerformedPage(a, op.t, op.k, i, op.x, op.w, evs);
    } else {
      IsolatedRun(View(a.p.mem), evs, d, i);
    }
  }

  /** A step concerning a page that is there changes it only by a store. */
  lemma NextOnPage(op: Op, a: State, b: State, evs: seq<Event>, d: int, i: int)
    requires Consistent(a) && Next(op, a, b, evs) && InPages(d, i) && Concerns(op, d, i)
    requires (d, i) in View(a.p.mem) && Ending(d / DIRS_PER_TASK) !in evs
    ensures
      || Untouched(evs, d, i)
      || Stores(op, a, evs)
  {
    hide Inv, View, Spare, ApplyAll, TablesIn, Performs, Supplies;
    TaskTable(a.task, a.loading, a.p.mem, a.kernel);
    if op.Forks? && evs != [] { NoPages(a, op.child, d, i); }
  }

  lemma NoPages(a: State, c: int, d: int, i: int)
    requires Consistent(a) && 1 <= c < NR_TASKS && |a.task| == NR_TASKS && a.task[c] == Empty && InPages(d, i)
             && d / DIRS_PER_TASK == c
    ensures (d, i) !in View(a.p.mem)
  {
    SeenBy(a.p.mem, d, i);
    hide Inv, View;
    assert Ent(a.p.mem, d, i).present ==> InSpace(a.task, d);
  }

  /** From step j to step n the task of page (d,i) lives and stores nothing at word x. */
  ghost predicate Quiet(ops: seq<Op>, states: seq<State>, trace: seq<seq<Event>>, j: nat, n: nat, d: int, i: int,
                        x: int)
    requires |states| == |ops| + 1 && |trace| == |ops| && n <= |ops|
  {
    forall l :: j <= l < n ==>
      Ending(d / DIRS_PER_TASK) !in trace[l] && !(StoresTo(ops[l], d, i, x) && Stores(ops[l], states[l], trace[l]))
  }

  lemma {:induction false} WordLasts(ops: seq<Op>, states: seq<State>, trace: seq<seq<Event>>, j: nat, n: nat, d: int,
                                     i: int, x: int)
    requires IsRun(ops, states, trace) && j <= n <= |ops| && InPages(d, i) && 0 <= x < TABLE_SIZE
    requires Read(View(states[j].p.mem), d, i, x).Value? && Quiet(ops, states, trace, j, n, d, i, x)
    ensures Read(View(states[n].p.mem), d, i, x) == Read(View(states[j].p.mem), d, i, x)
    decreases n - j
  {
    hide Next, Consistent, Read, Stores, StoresTo;
    if j < n {
      WordLasts(ops, states, trace, j, n - 1, d, i, x);
      NextWord(ops[n - 1], states[n - 1], states[n], trace[n - 1], d, i, x);
    }
  }

  /** A task reads its own last write, whatever else happens in between: forks,
      shared pages, other tasks' writes and exits. */
  lemma WriteIsRead(ops: seq<Op>, states: seq<State>, trace: seq<seq<Event>>, j: nat, n: nat, d: int, i: int, x: int)
    requires IsRun(ops, states, trace) && j < n <= |ops| && InPages(d, i) && 0 <= x < TABLE_SIZE
    requires StoresTo(ops[j], d, i, x) && Stores(ops[j], states[j], trace[j])
    requires Quiet(ops, states, trace, j + 1, n, d, i, x)
    ensures Read(View(states[n].p.mem), d, i, x) == Value(ops[j].w)
  {
    hide Next, Consistent, View, Performs, ApplyAll, Words;
    var op := ops[j];
    NextView(op, states[j], states[j + 1], trace[j]);
    PerformedPage(states[j], op.t, op.k, i, x, op.w, trace[j]);
    WordLasts(ops, states, trace, j + 1, n, d, i, x);
  }

  /** Right after a fork the child sees what its parent saw. */
  lemma ForkCopies(a: State, b: State, par: int, c: int, evs: seq<Event>, k: int, i: int)
    requires Consistent(a) && Next(Forks(par, c), a, b, evs) && evs != [] && par != 0 && 0 <= k < DIRS_PER_TASK
             && 0 <= i < TABLE_SIZE
    ensures 1 <= par < NR_TASKS && 1 <= c < NR_TASKS
    ensures (DIRS_PER_TASK * c + k, i) in View(b.p.mem) <==> (DIRS_PER_TASK * par + k, i) in View(a.p.mem)
    ensures (DIRS_PER_TASK * c + k, i) in View(b.p.mem) ==>
              View(b.p.mem)[(DIRS_PER_TASK * c + k, i)] == View(a.p.mem)[(DIRS_PER_TASK * par + k, i)]
  {
    hide Inv, Kept, View, Spare, TablesIn, ApplyAll, Slots;
    TaskTable(a.task, a.loading, a.p.mem, a.kernel);
    assert evs == [Inherit(DIRS_PER_TASK * par, DIRS_PER_TASK * c, Slots(a.task[par].limit))];
    ApplyOne(View(a.p.mem), evs[0]);
    NoPages(a, c, DIRS_PER_TASK * c + k, i);
    if k >= Slots(a.task[par].limit) { BeyondLimit(a, par, k, i); }
  }

  lemma BeyondLimit(a: State, t: int, k: int, i: int)
    requires Consistent(a) && 1 <= t < NR_TASKS && |a.task| == NR_TASKS && a.task[t].Task?
             && Slots(a.task[t].limit) <= k < DIRS_PER_TASK
    requires 0 <= i < TABLE_SIZE
    ensures (DIRS_PER_TASK * t + k, i) !in View(a.p.mem)
  {
    SeenBy(a.p.mem, DIRS_PER_TASK * t + k, i);
    assert (DIRS_PER_TASK * t + k) / DIRS_PER_TASK == t && (DIRS_PER_TASK * t + k) % DIRS_PER_TASK == k;
    hide Inv, View, Slots;
    assert Ent(a.p.mem, DIRS_PER_TASK * t + k, i).present ==> InSpace(a.task, DIRS_PER_TASK * t + k);
  }

  /** Until it writes there itself, a child reads the words its parent had at the
      fork, whatever the parent writes since. */
  lemma ChildReads(ops: seq<Op>, states: seq<State>, trace: seq<seq<Event>>, j: nat, n: nat, k: int, i: int, x: int)
    requires IsRun(ops, states, trace) && j < n <= |ops| && 0 <= k < DIRS_PER_TASK && 0 <= i < TABLE_SIZE
             && 0 <= x < TABLE_SIZE
    requires ops[j].Forks? && ops[j].par != 0 && trace[j] != []
    requires Read(View(states[j].p.mem), DIRS_PER_TASK * ops[j].par + k, i, x).Value?
    requires Quiet(ops, states, trace, j + 1, n, DIRS_PER_TASK * ops[j].child + k, i, x)
    ensures Read(View(states[n].p.mem), DIRS_PER_TASK * ops[j].child + k, i, x)
            == Read(View(states[j].p.mem), DIRS_PER_TASK * ops[j].par + k, i, x)
  {
    hide Next, Consistent, View;
    ForkCopies(states[j], states[j + 1], ops[j].par, ops[j].child, trace[j], k, i);
    WordLasts(ops, states, trace, j + 1, n, DIRS_PER_TASK * ops[j].child + k, i, x);
  }

  lemma NeedIs(m: Memory, d: int)
    requires 0 <= d < TABLE_SIZE
    ensures Need(m, d) == if Dir(m, d).present then 0 else 1
  { }

  lemma TaskTable(task: seq<Task>, loading: map<nat, Load>, m: Memory, kernel: set<int>)
    requires Kept(task, loading, m, kernel)
    ensures |task| == NR_TASKS && task[0].Task?
    ensures forall t :: 0 <= t < NR_TASKS && task[t].Task? ==> Slots(task[t].limit) <= DIRS_PER_TASK
    ensures forall t :: t in loading ==>
        1 <= t < NR_TASKS && Live(task[t]) && loading[t].k < Slots(task[t].limit) && loading[t].i < TABLE_SIZE
  { }

  lemma VerifyIs(p: Phys, kernel: set<int>, d: int, i: int)
    requires Inv(p, kernel) && InPages(d, i)
    ensures var v := Ent(p.mem, d, i); v.present ==>
      && v.frame < |p.mem| && (d, i) in View(p.mem)
      && Owned(p.mem, v, View(p.mem), d, i) == Apply(View(p.mem), Own(d, i, Words(p.mem, View(p.mem)[(d, i)])))
  {
    SeenBy(p.mem, d, i);
    hide View;
  }

  lemma ShareSpare(p: Phys, kernel: set<int>, d: int, e: int, i: int)
    requires Inv(p, kernel) && InPages(e, i) && HasTable(p.mem, e) && 0 <= d < TABLE_SIZE && d != e
             && Ent(p.mem, d, i).present
    requires (HasTable(p.mem, d) && d % DIRS_PER_TASK == e % DIRS_PER_TASK) || Ent(p.mem, d, i).frame < LOW
    ensures Spare(ShareEnt(p, d, e, i)) == Spare(p)
  {
    var f := Ent(p.mem, d, i).frame;
    if f >= LOW {
      CountBoundMapped(p, kernel, d, i);
      UserSpare(p, ShareEnt(p, d, e, i), f - LOW);
    }
  }

  /** The source is what it was when copying began, and apart from the copy. */
  lemma CopySource(m: Memory, p: Phys, kernel: set<int>, from: int, to: int, a: int, n: int)
    requires Inv(p, kernel) && SameFrames(m, p.mem, to, n) && 0 <= from && DIRS_PER_TASK <= to
             && from % DIRS_PER_TASK == to % DIRS_PER_TASK == 0
    requires from != to && 0 <= a < n <= DIRS_PER_TASK && from + n <= TABLE_SIZE && to + n <= TABLE_SIZE
             && (from == 0 ==> n <= 1)
    ensures (DIRS_PER_TASK <= from && (from + n <= to || to + n <= from)) || (from == a == 0)
    ensures Dir(p.mem, from + a) == Dir(m, from + a)
    ensures Dir(m, from + a).present ==>
        from + a == 0 || (HasTable(p.mem, from + a) && (from + a) % DIRS_PER_TASK == (to + a) % DIRS_PER_TASK)
    ensures from == 0 ==> forall i :: 0 <= i < LOW_COPY && Ent(m, 0, i).present ==> Ent(m, 0, i).frame < LOW
  {
    DirFacts(p, kernel);
    hide Inv, Ent, Dir;
  }

  /** Page k,i of a live task lies in that task's part of the directory. */
  lemma Place(task: seq<Task>, loading: map<nat, Load>, m: Memory, kernel: set<int>, t: int, k: int, i: int)
    requires Kept(task, loading, m, kernel) && 1 <= t < NR_TASKS && Live(task[t]) && 0 <= k < Slots(task[t].limit)
             && 0 <= i < TABLE_SIZE
    ensures |task| == NR_TASKS && k < DIRS_PER_TASK && InPages(DIRS_PER_TASK * t + k, i)
    ensures DIRS_PER_TASK <= DIRS_PER_TASK * t + k < TABLE_SIZE
    ensures (DIRS_PER_TASK * t + k) / DIRS_PER_TASK == t && (DIRS_PER_TASK * t + k) % DIRS_PER_TASK == k
    ensures InSpace(task, DIRS_PER_TASK * t + k)
  { }

  lemma KeptLoaded(task: seq<Task>, loading: map<nat, Load>, m: Memory, m': Memory, kernel: set<int>, t: nat)
    requires Kept(task, loading, m, kernel) && t in loading
    requires View(m') == View(m) && forall d :: 0 <= d < TABLE_SIZE ==> Dir(m', d) == Dir(m, d)
    ensures Kept(task, loading - {t}, m', kernel - {loading[t].frame})
  {
    hide View;
    forall d | DIRS_PER_TASK <= d < TABLE_SIZE && Dir(m', d).present
      ensures InSpace(task, d)
    {
      assert Dir(m', d) == Dir(m, d);
    }
  }

  lemma LoadFacts(a: State, t: nat)
    requires Consistent(a) && t in a.loading
    ensures |a.task| == NR_TASKS && 1 <= t < NR_TASKS && Live(a.task[t]) && a.task[t].Task?
    ensures var Load(k, i, page) := a.loading[t];
      && k < Slots(a.task[t].limit) && i < TABLE_SIZE && k < DIRS_PER_TASK && 0 <= DIRS_PER_TASK * t + k < TABLE_SIZE
      && page in a.kernel && a.p.main <= page < |a.p.mem|
      && !Ent(a.p.mem, DIRS_PER_TASK * t + k, i).present
  {
    var Load(k, i, page) := a.loading[t];
    Place(a.task, a.loading, a.p.mem, a.kernel, t, k, i);
    SeenBy(a.p.mem, DIRS_PER_TASK * t + k, i);
  }

  /** The image is in the frame that the kernel held for it. */
  lemma LoadedKeeps(a: State, t: nat, image: Frame)
    requires Consistent(a) && t in a.loading
    ensures a.loading[t].frame < |a.p.mem|
    ensures var Load(k, i, page) := a.loading[t];
      var q := a.p.(mem := a.p.mem[page := image]); var d := DIRS_PER_TASK * t + k;
      && Inv(q, a.kernel) && View(q.mem) == View(a.p.mem) && Kept(a.task, a.loading - {t}, q.mem, a.kernel - {page})
      && 0 <= d < TABLE_SIZE && i < TABLE_SIZE && Ent(q.mem, d, i) == Ent(a.p.mem, d, i)
         && Dir(q.mem, d) == Dir(a.p.mem, d)
      && Spare(q) == Spare(a.p)
  {
    hide Inv, View, Kept, Slots, Free, Live;
    LoadFacts(a, t);
    KernelWriteKeeps(a.p, a.kernel, a.loading[t].frame, image);
    KeptLoaded(a.task, a.loading, a.p.mem, a.p.mem[a.loading[t].frame := image], a.kernel, t);
  }

  lemma SlotsGrow(a: nat, b: nat)
    requires a <= b
    ensures Slots(a) <= Slots(b)
  { }

  lemma WithoutTwice(s: Spaces, from: int, mid: int, to: int)
    requires from <= mid <= to
    ensures Without(Without(s, from, mid), from, to) == Without(s, from, to)
  { }

  /** A task's pages all lie within its limit. */
  lemma GoneAll(task: seq<Task>, loading: map<nat, Load>, m: Memory, kernel: set<int>, t: int)
    requires Kept(task, loading, m, kernel) && 1 <= t < NR_TASKS && Live(task[t])
    ensures DIRS_PER_TASK * t + Slots(task[t].limit) <= TABLE_SIZE
    ensures Without(View(m), DIRS_PER_TASK * t, DIRS_PER_TASK * t + Slots(task[t].limit))
            == Without(View(m), DIRS_PER_TASK * t, DIRS_PER_TASK * t + DIRS_PER_TASK)
  {
    hide Slots;
    forall k | k in View(m) && DIRS_PER_TASK * t <= k.0 < DIRS_PER_TASK * t + DIRS_PER_TASK
      ensures k.0 < DIRS_PER_TASK * t + Slots(task[t].limit)
    {
      assert Ent(m, k.0, k.1).present;
      assert InSpace(task, k.0);
    }
  }

  lemma ExitStart(task: seq<Task>, loading: map<nat, Load>, m: Memory, kernel: set<int>, t: int)
    requires Kept(task, loading, m, kernel) && 1 <= t < NR_TASKS && Live(task[t])
    ensures |task| == NR_TASKS && task[t].Task? && task[t].codeLimit <= task[t].limit
            && DIRS_PER_TASK * t + Slots(task[t].limit) <= TABLE_SIZE
    ensures Without(View(m), DIRS_PER_TASK * t, DIRS_PER_TASK * t + Slots(task[t].limit))
            == Apply(View(m), Gone(DIRS_PER_TASK * t, DIRS_PER_TASK * t + DIRS_PER_TASK))
  {
    GoneAll(task, loading, m, kernel, t);
    GoneIs(View(m), DIRS_PER_TASK * t, DIRS_PER_TASK * t + DIRS_PER_TASK);
  }

  lemma KeptExit(task: seq<Task>, loading: map<nat, Load>, m: Memory, m': Memory, kernel: set<int>, t: int)
    requires Kept(task, loading, m, kernel) && 1 <= t < NR_TASKS && Live(task[t]) && t !in loading
    requires View(m') == Apply(View(m), Gone(DIRS_PER_TASK * t, DIRS_PER_TASK * t + DIRS_PER_TASK))
    requires SameOutside(m, m', DIRS_PER_TASK * t, DIRS_PER_TASK * t + Slots(task[t].limit))
    requires forall d :: DIRS_PER_TASK * t <= d < DIRS_PER_TASK * t + Slots(task[t].limit) ==>
        0 <= d < TABLE_SIZE && !Dir(m', d).present
    ensures Kept(task[t := Dead(task[t])], loading, m', kernel)
  {
    hide Slots;
    var task' := task[t := Dead(task[t])];
    forall d | DIRS_PER_TASK <= d < TABLE_SIZE && Dir(m', d).present ensures InSpace(task', d) {
      assert !(DIRS_PER_TASK * t <= d < DIRS_PER_TASK * t + Slots(task[t].limit));
      assert Dir(m', d) == Dir(m, d);
      assert InSpace(task, d);
    }
  }

  /** The spaces with one word of one page changed. */
  ghost function Stored(m: Memory, s: Spaces, d: int, i: int, x: int, w: Word): Spaces
    requires (d, i) in s && 0 <= x < TABLE_SIZE
  {
    s[(d, i) := Private(Words(m, s[(d, i)])[x := w])]
  }

  ghost function StoreEvents(m: Memory, d: int, i: int, x: int, w: Word): seq<Event>
    requires (d, i) in View(m)
  {
    [Own(d, i, Words(m, View(m)[(d, i)])), Store(d, i, x, w)]
  }

  lemma StoreApplied(m: Memory, s1: Spaces, s2: Spaces, s: Spaces, before: seq<Event>, d: int, i: int, x: int, w: Word)
    requires (d, i) in View(m) && 0 <= x < TABLE_SIZE && View(m) == ApplyAll(s, before)
    requires s1 == Apply(View(m), Own(d, i, Words(m, View(m)[(d, i)]))) && s2 == Apply(s1, Store(d, i, x, w))
    ensures s2 == ApplyAll(s, before + StoreEvents(m, d, i, x, w)) == Stored(m, View(m), d, i, x, w)
  {
    hide ApplyAll, View, Words;
    var own := Own(d, i, Words(m, View(m)[(d, i)]));
    ApplyOne(View(m), own);
    ApplyOne(s1, Store(d, i, x, w));
    ApplyAppend(View(m), [own], [Store(d, i, x, w)]);
    assert [own] + [Store(d, i, x, w)] == StoreEvents(m, d, i, x, w);
    ApplyAppend(s, before, StoreEvents(m, d, i, x, w));
  }

  lemma NotEmpty(a: State, t: int, k: int, i: int, evs: seq<Event>)
    requires |a.task| == NR_TASKS && 0 <= t < NR_TASKS && Supplied(a, t, k, i, evs)
    ensures evs == [] ==> (DIRS_PER_TASK * t + k, i) in View(a.p.mem)
  { }

  /** What a page shows does not depend on where its supply left it. */
  lemma Committed(a: State, m: Memory, t: int, k: int, i: int, x: int, w: Word, before: seq<Event>)
    requires |a.task| == NR_TASKS && 0 <= t < NR_TASKS && Supplied(a, t, k, i, before)
    requires View(m) == ApplyAll(View(a.p.mem), before) && (DIRS_PER_TASK * t + k, i) in View(m)
    requires before == [] ==> m == a.p.mem
    ensures Performs(a, t, k, i, x, w, before + StoreEvents(m, DIRS_PER_TASK * t + k, i, x, w))
  {
    hide View, ApplyAll, Lends;
    var d := DIRS_PER_TASK * t + k;
    var evs := before + StoreEvents(m, d, i, x, w);
    assert evs[..|evs| - 2] == before;
    if before != [] {
      assert before == [before[0]];
      ApplyOne(View(a.p.mem), before[0]);
    }
  }

  /** Task 0 lends windows; any other parent's pages are copied. */
  ghost function ForkEvent(m: Memory, task: seq<Task>, par: int, c: int): Event
    requires 0 <= par < |task| && task[par].Task?
  {
    if par == 0 then Borrow(LowPages(m, DIRS_PER_TASK * c))
    else Inherit(DIRS_PER_TASK * par, DIRS_PER_TASK * c, Slots(task[par].limit))
  }

  lemma ForkEventIs(p: Phys, m1: Memory, task: seq<Task>, kernel: set<int>, loading: map<nat, Load>, par: int, c: int)
    requires Inv(p, kernel) && Kept(task, loading, p.mem, kernel) && 0 <= par < NR_TASKS && Live(task[par])
             && 1 <= c < NR_TASKS
    requires View(m1) == View(p.mem) && SameTables(p.mem, m1) && m1[1] == p.mem[1]
    ensures 1 <= Slots(task[par].limit) <= DIRS_PER_TASK
    ensures View(m1) + Copied(m1, DIRS_PER_TASK * par, DIRS_PER_TASK * c, Slots(task[par].limit), 0)
            == Apply(View(p.mem), ForkEvent(p.mem, task, par, c))
  {
    var n := Slots(task[par].limit);
    if par == 0 {
      forall i | 0 <= i < LOW_COPY ensures Ent(m1, 0, i) == Ent(p.mem, 0, i) { }
      CopiedFromLow(p.mem, m1, DIRS_PER_TASK * c);
    } else {
      CopiedIsMoved(m1, DIRS_PER_TASK * par, DIRS_PER_TASK * c, n);
    }
  }

  /** The child's directory range is free, the parent's is within bounds. */
  lemma ForkRange(task: seq<Task>, loading: map<nat, Load>, m: Memory, kernel: set<int>, par: int, c: int)
    requires Kept(task, loading, m, kernel) && 0 <= par < NR_TASKS && Live(task[par]) && 1 <= c < NR_TASKS
             && task[c] == Empty
    ensures |task| == NR_TASKS && par != c && 1 <= Slots(task[par].limit) <= DIRS_PER_TASK
            && (par == 0 ==> Slots(task[par].limit) == 1)
    ensures DIRS_PER_TASK <= DIRS_PER_TASK * c <= TABLE_SIZE - DIRS_PER_TASK
            && 0 <= DIRS_PER_TASK * par <= TABLE_SIZE - DIRS_PER_TASK
    ensures DIRS_PER_TASK * par != DIRS_PER_TASK * c && (par != 0 ==> DIRS_PER_TASK * par != 0)
    ensures (DIRS_PER_TASK * c) % DIRS_PER_TASK == (DIRS_PER_TASK * par) % DIRS_PER_TASK == 0
    ensures forall d :: DIRS_PER_TASK * c <= d < DIRS_PER_TASK * c + DIRS_PER_TASK ==> !Dir(m, d).present
  {
    forall d | DIRS_PER_TASK * c <= d < DIRS_PER_TASK * c + DIRS_PER_TASK ensures !Dir(m, d).present {
      NoTable(task, loading, m, kernel, d);
    }
  }

  lemma NoTable(task: seq<Task>, loading: map<nat, Load>, m: Memory, kernel: set<int>, d: int)
    requires Kept(task, loading, m, kernel) && DIRS_PER_TASK <= d < TABLE_SIZE && task[d / DIRS_PER_TASK] == Empty
    ensures !Dir(m, d).present
  {
    assert !InSpace(task, d);
  }

  lemma SameTablesIn(m: Memory, m1: Memory, from: int, n: int)
    requires SameTables(m, m1) && 0 <= from && from + n <= TABLE_SIZE
    ensures TablesIn(m1, from, n) == TablesIn(m, from, n)
  {
    TablesSame(m, m1, from, n);
  }

  lemma GrabLow(p: Phys, f: nat)
    requires |p.count| == PAGING_PAGES && LOW <= f < |p.mem|
    ensures Grab(p, f).mem[1] == p.mem[1]
  { }

  lemma RangeStillFree(m: Memory, m1: Memory, c: int)
    requires SameTables(m, m1) && 1 <= c < NR_TASKS
    requires forall d :: DIRS_PER_TASK * c <= d < DIRS_PER_TASK * c + DIRS_PER_TASK ==> !Dir(m, d).present
    ensures forall d :: DIRS_PER_TASK * c <= d < DIRS_PER_TASK * c + DIRS_PER_TASK ==> !Dir(m1, d).present
  { }

  lemma KeptFork(task: seq<Task>, loading: map<nat, Load>, m: Memory, m1: Memory, m2: Memory, kernel: set<int>,
                 par: int, c: int, f: nat)
    requires Kept(task, loading, m, kernel) && 0 <= par < NR_TASKS && Live(task[par]) && 1 <= c < NR_TASKS
             && task[c] == Empty
    requires f !in kernel
    requires SameTables(m, m1) && SameFrames(m1, m2, DIRS_PER_TASK * c, Slots(task[par].limit))
    requires View(m1) == View(m)
    requires View(m2) == View(m1) + Copied(m1, DIRS_PER_TASK * par, DIRS_PER_TASK * c, Slots(task[par].limit), 0)
    ensures Kept(task[c := task[par].(page := f)], loading, m2, kernel + {f})
  {
    hide View, Copied, Slots, Ent, Dir;
    var n := Slots(task[par].limit);
    var task' := task[c := task[par].(page := f)];
    forall d | DIRS_PER_TASK <= d < TABLE_SIZE && Dir(m2, d).present ensures InSpace(task', d) {
      if DIRS_PER_TASK * c <= d < DIRS_PER_TASK * c + n {
        assert d / DIRS_PER_TASK == c;
      } else {
        assert Dir(m2, d) == Dir(m1, d) == Dir(m, d);
        assert InSpace(task, d);
      }
    }
    forall t | t in loading ensures (DIRS_PER_TASK * t + loading[t].k, loading[t].i) !in View(m2) {
      NotCopied(m1, View(m), DIRS_PER_TASK * par, DIRS_PER_TASK * c, n, t, loading[t].k, loading[t].i, c);
    }
  }

  lemma NotCopied(m: Memory, s: Spaces, from: int, to: int, n: int, t: int, k: nat, i: nat, c: int)
    requires 0 <= from && to == DIRS_PER_TASK * c && 1 <= c && 0 <= n <= DIRS_PER_TASK && from + n <= TABLE_SIZE
             && to + n <= TABLE_SIZE
    requires (DIRS_PER_TASK * t + k, i) !in s && t != c && k < DIRS_PER_TASK
    ensures (DIRS_PER_TASK * t + k, i) !in s + Copied(m, from, to, n, 0)
  { }

  lemma KeptSame(task: seq<Task>, loading: map<nat, Load>, m: Memory, m1: Memory, m2: Memory, kernel: set<int>)
    requires Kept(task, loading, m, kernel) && SameTables(m, m1) && SamePages(m1, m2) && View(m2) == View(m)
    ensures Kept(task, loading, m2, kernel)
  {
    hide View;
    forall d | DIRS_PER_TASK <= d < TABLE_SIZE && Dir(m2, d).present ensures InSpace(task, d) {
      assert Dir(m2, d) == Dir(m1, d) == Dir(m, d);
    }
  }

  lemma SameCounts(p: Phys, q: Phys, kernel: set<int>)
    requires Inv(p, kernel) && Inv(q, kernel) && p.main == q.main && SamePages(p.mem, q.mem)
    ensures p.count == q.count
  {
    CountsDetermined(p, q, kernel);
  }

  /** The task structure's frame is the only count that had moved. */
  lemma NothingForked(p: Phys, p1: Phys, p2: Phys, f: nat)
    requires |p.count| == PAGING_PAGES && LOW <= f < |p.mem| && p.count[f - LOW] == 0
    requires p1 == Grab(p, f) && p2.count == p1.count[f - LOW := 0]
    ensures p2.count == p.count
  { }

  lemma SuppliesShare(task: seq<Task>, s: Spaces, t: int, k: int, i: int, p: int)
    requires |task| == NR_TASKS && 0 <= t < NR_TASKS && Lends(task, p, t) && 0 <= k < DIRS_PER_TASK
             && InImage(task[t], k, i)
    requires (DIRS_PER_TASK * p + k, i) in s && s[(DIRS_PER_TASK * p + k, i)].Private?
    ensures Supplies(task, s, t, k, i, [Share(DIRS_PER_TASK * p + k, DIRS_PER_TASK * t + k, i)])
  {
    assert (DIRS_PER_TASK * p + k) / DIRS_PER_TASK == p && (DIRS_PER_TASK * p + k) % DIRS_PER_TASK == k;
  }
}
