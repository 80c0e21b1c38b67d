/** Page directory, page tables and frame counts of mm/memory.c as values.

    Physical memory is a row of 4 KB frames of 1024 words.  A 32-bit word is kept
    as the record of its bit fields, so page-table entries and user data are the
    same kind of thing and a stray store really could damage a table.  Frame 0 is
    the page directory (`_pg_dir` = 0); a task with number t owns the directory
    entries 16*t .. 16*t+15 (64 MB of linear addresses).  A linear page is named
    by a directory index d and a table index i. */
module PageTables {
  const LOW: int := 256             // first frame at or above LOW_MEM
  const PAGING_PAGES: int := 3840
  const TABLE_SIZE: int := 1024
  const USED: int := 100
  const DIRS_PER_TASK: int := 16
  const LOW_COPY: int := 0xA0       // entries copied when the source is task 0

  /** A 32-bit word, by bit fields: 31-12, 0, 1, 2, 6 and the remaining bits. */
  datatype Word = Word(frame: nat, present: bool, rw: bool, user: bool, dirty: bool, rest: nat)

  const ZERO: Word := Word(0, false, false, false, false, 0)

  /** The word `frame | 7`. */
  function Link(f: nat): Word { Word(f, true, true, true, false, 0) }

  type Frame = p: seq<Word> | |p| == TABLE_SIZE witness seq(TABLE_SIZE, _ => ZERO)

  function Zeros(): (z: Frame)
    ensures forall k :: 0 <= k < TABLE_SIZE ==> z[k] == ZERO
  {
    seq(TABLE_SIZE, _ => ZERO)
  }

  /** All physical memory below HIGH_MEMORY. */
  type Memory = m: seq<Frame> | LOW < |m| <= LOW + PAGING_PAGES witness seq(LOW + 1, _ => Zeros())

  /** `count` is mem_map; `main` the first frame that mem_init hands out. */
  datatype Phys = Phys(count: seq<int>, mem: Memory, main: int)

  predicate InPages(d: int, i: int) { DIRS_PER_TASK <= d < TABLE_SIZE && 0 <= i < TABLE_SIZE }

  function Dir(m: Memory, d: int): Word
    requires 0 <= d < TABLE_SIZE
  { m[0][d] }

  /** The page-table entry that the hardware walk finds for linear page (d,i). */
  function Ent(m: Memory, d: int, i: int): Word
    requires 0 <= d < TABLE_SIZE && 0 <= i < TABLE_SIZE
  {
    if Dir(m, d).present && Dir(m, d).frame < |m| then m[Dir(m, d).frame][i] else ZERO
  }

  /** Frames used as page tables by tasks. */
  ghost function Tables(m: Memory): set<int> {
    set d | DIRS_PER_TASK <= d < TABLE_SIZE && Dir(m, d).present :: Dir(m, d).frame as int
  }

  /** All linear pages of the 63 user tasks. */
  ghost function Grid(): (g: set<(int, int)>)
    ensures forall k :: k in g <==> InPages(k.0, k.1)
  {
    set d, i | DIRS_PER_TASK <= d < TABLE_SIZE && 0 <= i < TABLE_SIZE :: (d, i)
  }

  /** All linear pages mapped to frame f. */
  ghost function Refs(m: Memory, f: int): set<(int, int)> {
    set k | k in Grid() && Ent(m, k.0, k.1).present && Ent(m, k.0, k.1).frame == f
  }

  /** The directory is sane: every task table lies in its own allocatable frame,
      and task 0 sees only low memory through its first 160 entries. */
  ghost predicate Tree(m: Memory, main: int) {
    && LOW < main
    && Dir(m, 0).present && Dir(m, 0).frame == 1
    && (forall i :: 0 <= i < LOW_COPY && Ent(m, 0, i).present ==> Ent(m, 0, i).frame < LOW)
    && (forall d :: DIRS_PER_TASK <= d < TABLE_SIZE && Dir(m, d).present ==> main <= Dir(m, d).frame < |m|)
    && (forall d, e :: DIRS_PER_TASK <= d < e < TABLE_SIZE && Dir(m, d).present && Dir(m, e).present
          ==> Dir(m, d).frame != Dir(m, e).frame)
  }

  /** A present entry is a read-only window on low memory or maps an allocatable
      frame that is neither a table nor kernel-owned. */
  ghost predicate Leaves(m: Memory, main: int, kernel: set<int>) {
    && (forall d, i :: DIRS_PER_TASK <= d < TABLE_SIZE && 0 <= i < TABLE_SIZE && Ent(m, d, i).present ==>
          if Ent(m, d, i).frame < LOW then !Ent(m, d, i).rw
          else main <= Ent(m, d, i).frame < |m| && Ent(m, d, i).frame !in Tables(m) && Ent(m, d, i).frame !in kernel)
    && kernel !! Tables(m)
    && (forall f :: f in kernel ==> main <= f < |m|)
  }

  /** A shared frame sits at the same place of every address space that maps it
      (so no address space maps it twice), and a writable one is not shared. */
  ghost predicate Sharing(m: Memory) {
    forall d, i, e, j {:trigger Ent(m, d, i), Ent(m, e, j)} ::
      DIRS_PER_TASK <= d < TABLE_SIZE && 0 <= i < TABLE_SIZE && DIRS_PER_TASK <= e < TABLE_SIZE && 0 <= j < TABLE_SIZE
      && Ent(m, d, i).present && Ent(m, e, j).present
      && Ent(m, d, i).frame == Ent(m, e, j).frame >= LOW ==>
        && d % DIRS_PER_TASK == e % DIRS_PER_TASK && i == j
        && (Ent(m, d, i).rw ==> d == e)
  }

  /** How many users frame f has: entries, directory entries, the kernel. */
  ghost function Owners(m: Memory, kernel: set<int>, f: int): nat {
    |Refs(m, f)| + (if f in Tables(m) then 1 else 0) + (if f in kernel then 1 else 0)
  }

  /** mem_map counts exactly the users of each allocatable frame. */
  ghost predicate Counts(p: Phys, kernel: set<int>) {
    && |p.count| == PAGING_PAGES
    && (forall f :: p.main <= f < |p.mem| && LOW < p.main ==> p.count[f - LOW] == Owners(p.mem, kernel, f))
    && (forall k :: 0 <= k < PAGING_PAGES && !(p.main <= k + LOW < |p.mem|) ==> p.count[k] == USED)
  }

  ghost predicate Inv(p: Phys, kernel: set<int>) {
    Tree(p.mem, p.main) && Leaves(p.mem, p.main, kernel) && Sharing(p.mem) && Counts(p, kernel)
  }

  /* ---- what the address spaces contain ---- */

  /** What a task sees at one of its pages: low kernel memory, or 1024 words of its own. */
  datatype Vpage = Window(frame: nat) | Private(words: Frame)

  type Spaces = map<(int, int), Vpage>

  function See(m: Memory, w: Word): Vpage {
    if w.frame < LOW || w.frame >= |m| then Window(w.frame) else Private(m[w.frame])
  }

  ghost function View(m: Memory): Spaces {
    map k | k in Grid() && Ent(m, k.0, k.1).present :: See(m, Ent(m, k.0, k.1))
  }

  /* ---- elementary updates ---- */

  function SetEnt(m: Memory, d: int, i: int, w: Word): Memory
    requires 0 <= d < TABLE_SIZE && 0 <= i < TABLE_SIZE && Dir(m, d).frame < |m|
  {
    var t := Dir(m, d).frame; m[t := m[t][i := w]]
  }

  function SetDir(m: Memory, d: int, w: Word): Memory
    requires 0 <= d < TABLE_SIZE
  {
    m[0 := m[0][d := w]]
  }

  function SetFrame(m: Memory, f: int, w: Frame): Memory
    requires 0 <= f < |m|
  {
    m[f := w]
  }

  /** Storing one entry changes that entry and no other. */
  lemma EntAfterSetEnt(m: Memory, main: int, d: int, i: int, w: Word)
    requires Tree(m, main) && InPages(d, i) && Dir(m, d).present
    ensures var n := SetEnt(m, d, i, w);
      && Tree(n, main) && Tables(n) == Tables(m)
      && (forall e :: 0 <= e < TABLE_SIZE ==> Dir(n, e) == Dir(m, e))
      && (forall e, j :: DIRS_PER_TASK <= e < TABLE_SIZE && 0 <= j < TABLE_SIZE ==>
            Ent(n, e, j) == if e == d && j == i then w else Ent(m, e, j))
      && (forall f :: 0 <= f < |m| && f !in Tables(m) ==> n[f] == m[f])
  {
    var n := SetEnt(m, d, i, w);
    assert Dir(m, d).frame as int in Tables(m);
    forall e | 0 <= e < TABLE_SIZE ensures Dir(n, e) == Dir(m, e) { }
    forall j | 0 <= j < LOW_COPY ensures Ent(n, 0, j) == Ent(m, 0, j) { }
    assert Tables(n) == Tables(m);
  }

  /** Writing a frame that is neither the directory nor a table changes no entry. */
  lemma EntAfterSetFrame(m: Memory, main: int, f: int, w: Frame)
    requires Tree(m, main) && main <= f < |m| && f !in Tables(m)
    ensures var n := SetFrame(m, f, w);
      && Tree(n, main) && Tables(n) == Tables(m)
      && (forall e :: 0 <= e < TABLE_SIZE ==> Dir(n, e) == Dir(m, e))
      && (forall e, j :: DIRS_PER_TASK <= e < TABLE_SIZE && 0 <= j < TABLE_SIZE ==> Ent(n, e, j) == Ent(m, e, j))
      && (forall g :: Refs(n, g) == Refs(m, g))
  {
    var n := SetFrame(m, f, w);
    forall e | 0 <= e < TABLE_SIZE ensures Dir(n, e) == Dir(m, e) { }
    forall j | 0 <= j < LOW_COPY ensures Ent(n, 0, j) == Ent(m, 0, j) { }
    forall e | DIRS_PER_TASK <= e < TABLE_SIZE && Dir(m, e).present ensures Dir(m, e).frame != f {
      assert Dir(m, e).frame as int in Tables(m);
    }
    assert Tables(n) == Tables(m);
    forall g ensures Refs(n, g) == Refs(m, g) { }
  }

  /** Two sets that differ at most in x. */
  lemma SwapOne<T>(s: set<T>, t: set<T>, x: T, b: set<T>)
    requires forall k :: k != x ==> (k in s <==> k in t)
    requires b == if x in t then {x} else {}
    ensures t == s - {x} + b
    ensures |t| == |s| - (if x in s then 1 else 0) + (if x in t then 1 else 0)
  {
    var a := s - {x};
    assert s == if x in s then a + {x} else a;
    assert t == a + b;
  }

  /** Counting the users of f after one entry changed. */
  lemma RefsAfterSetEnt(m: Memory, n: Memory, d: int, i: int, w: Word, f: int)
    requires InPages(d, i)
    requires forall e, j :: DIRS_PER_TASK <= e < TABLE_SIZE && 0 <= j < TABLE_SIZE ==>
               Ent(n, e, j) == if e == d && j == i then w else Ent(m, e, j)
    ensures |Refs(n, f)| == |Refs(m, f)|
                            - (if Ent(m, d, i).present && Ent(m, d, i).frame == f then 1 else 0)
                            + (if w.present && w.frame == f then 1 else 0)
  {
    var b := if w.present && w.frame == f then {(d, i)} else {};
    forall k | k in Grid() && k != (d, i)
      ensures k in Refs(n, f) <==> k in Refs(m, f)
    {
      assert k.0 != d || k.1 != i;
      assert Ent(n, k.0, k.1) == Ent(m, k.0, k.1);
    }
    assert Ent(n, d, i) == w;
    assert (d, i) in Refs(n, f) <==> w.present && w.frame == f;
    assert (d, i) in Refs(m, f) <==> Ent(m, d, i).present && Ent(m, d, i).frame == f;
    SwapOne(Refs(m, f), Refs(n, f), (d, i), b);
  }

  lemma InjectiveBound(s: set<(int, int)>, n: nat)
    requires forall x :: x in s ==> 0 <= x.0 / DIRS_PER_TASK < n
    requires forall x, y :: x in s && y in s && x.0 / DIRS_PER_TASK == y.0 / DIRS_PER_TASK ==> x == y
    ensures |s| <= n
    decreases n
  {
    if n == 0 {
      if x :| x in s { }
    } else {
      var top := set x | x in s && x.0 / DIRS_PER_TASK == n - 1;
      if top != {} {
        var t :| t in top;
        assert top == {t};
      }
      InjectiveBound(s - top, n - 1);
      assert s == (s - top) + top;
    }
  }

  /** Each address space maps a frame at most once, so its count never exceeds
      the number of tasks and a byte holds it. */
  lemma CountBound(p: Phys, kernel: set<int>, f: int)
    requires Inv(p, kernel) && p.main <= f < |p.mem|
    ensures 0 <= p.count[f - LOW] <= 64
    ensures f in Tables(p.mem) || f in kernel ==> p.count[f - LOW] == 1
  {
    var m := p.mem;
    var s := Refs(m, f);
    assert p.count[f - LOW] == Owners(m, kernel, f);
    assert f in Tables(m) || f in kernel ==> s == {};
    forall x, y | x in s && y in s && x.0 / DIRS_PER_TASK == y.0 / DIRS_PER_TASK
      ensures x == y
    {
      assert Ent(m, x.0, x.1).frame == Ent(m, y.0, y.1).frame;
    }
    InjectiveBound(s, 64);
  }
}
