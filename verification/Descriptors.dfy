/** The file table and the descriptor slots of every process: fs/open.c,
    fs/fcntl.c, sys_pipe, and the descriptor parts of fork and exit. */
module Descriptors {
  import opened Sequences

  const NR_OPEN: int := 20
  const NR_FILE: int := 64
  const EPERM: int := 1
  const EBADF: int := 9
  const EINVAL: int := 22
  const EMFILE: int := 24

  /** f_count and f_inode. */
  datatype File = File(count: nat, inode: int)

  /** Descriptor fd of process t. */
  datatype Place = Place(t: int, fd: int)

  type Tables = map<int, seq<int>>

  /** The slots that a process has taken while it sleeps: one inside sys_open, two
      inside sys_pipe. */
  type Pending = map<int, seq<int>>

  ghost predicate Sized(filp: Tables) { forall t :: t in filp ==> |filp[t]| == NR_OPEN }

  /** All the descriptors that refer to file f. */
  ghost function Slots(filp: Tables, f: int): set<Place>
    requires Sized(filp)
  {
    set t, fd | t in filp && 0 <= fd < NR_OPEN && filp[t][fd] == f :: Place(t, fd)
  }

  /** f_count is the number of descriptors that refer to the file. */
  ghost predicate Counted(filp: Tables, file: seq<File>) {
    && Sized(filp) && |file| == NR_FILE
    && (forall f :: 0 <= f < NR_FILE ==> file[f].count == |Slots(filp, f)|)
    && (forall t, fd :: t in filp && 0 <= fd < NR_OPEN ==> InTable(filp[t][fd]))
  }

  predicate InTable(f: int) { f == NULL || 0 <= f < NR_FILE }

  /** A process that sleeps inside sys_open or sys_pipe has the files to itself. */
  ghost predicate Opening(filp: Tables, opening: Pending) {
    && Sized(filp) && (forall t :: t in opening ==> t in filp && Taken(opening[t]))
    && forall t, fd :: t in opening && fd in opening[t] ==> OwnFile(filp, t, fd)
  }

  predicate Taken(fds: seq<int>) { |fds| == 1 || (|fds| == 2 && fds[0] < fds[1]) }

  ghost predicate OwnFile(filp: Tables, t: int, fd: int)
    requires Sized(filp)
  {
    t in filp && 0 <= fd < NR_OPEN && 0 <= filp[t][fd] < NR_FILE && Slots(filp, filp[t][fd]) == {Place(t, fd)}
  }

  /** One slot changes from file f to file g. */
  lemma SlotsUpdate(filp: Tables, t: int, fd: int, g: int, h: int)
    requires Sized(filp) && t in filp && 0 <= fd < NR_OPEN
    ensures Sized(filp[t := filp[t][fd := g]])
    ensures Slots(filp[t := filp[t][fd := g]], h) ==
      Slots(filp, h) - {Place(t, fd)} + if g == h then {Place(t, fd)} else {}
    ensures Place(t, fd) in Slots(filp, h) <==> filp[t][fd] == h
  { }

  lemma CountsUpdate(filp: Tables, t: int, fd: int, g: int)
    requires Sized(filp) && t in filp && 0 <= fd < NR_OPEN && g != filp[t][fd]
    ensures Sized(filp[t := filp[t][fd := g]])
    ensures var filp' := filp[t := filp[t][fd := g]];
      forall h :: |Slots(filp', h)| == |Slots(filp, h)| - (if h == filp[t][fd] then 1 else 0) + if h == g then 1 else 0
  {
    var filp' := filp[t := filp[t][fd := g]];
    forall h
      ensures |Slots(filp', h)| == |Slots(filp, h)| - (if h == filp[t][fd] then 1 else 0) + if h == g then 1 else 0
    {
      SlotsUpdate(filp, t, fd, g, h);
    }
  }

  /** Referring one more slot to file g. */
  lemma AddSlot(filp: Tables, file: seq<File>, t: int, fd: int, g: int, x: File)
    requires Counted(filp, file) && t in filp && 0 <= fd < NR_OPEN && filp[t][fd] == NULL && 0 <= g < NR_FILE
             && x.count == file[g].count + 1
    ensures Counted(filp[t := filp[t][fd := g]], file[g := x])
  {
    CountsUpdate(filp, t, fd, g);
  }

  /** Clearing a slot. */
  lemma ClearSlot(filp: Tables, file: seq<File>, t: int, fd: int)
    requires Counted(filp, file) && t in filp && 0 <= fd < NR_OPEN && filp[t][fd] != NULL
    ensures 0 <= filp[t][fd] < NR_FILE && file[filp[t][fd]].count > 0
    ensures forall x: File :: x.count == file[filp[t][fd]].count - 1 ==>
        Counted(filp[t := filp[t][fd := NULL]], file[filp[t][fd] := x])
  {
    assert InTable(filp[t][fd]);
    SlotsUpdate(filp, t, fd, NULL, filp[t][fd]);
    CountsUpdate(filp, t, fd, NULL);
  }

  /** No sleeping process has file g. */
  ghost predicate NotTaken(filp: Tables, opening: Pending, g: int) {
    forall u, fd :: u in opening && fd in opening[u] ==> u in filp && 0 <= fd < |filp[u]| && g != filp[u][fd]
  }

  /** A file that another process opens is not one of t's. */
  lemma NotMine(filp: Tables, opening: Pending, t: int, fd: int, u: int, fe: int)
    requires Opening(filp, opening) && t in filp && 0 <= fd < NR_OPEN && u in opening && fe in opening[u] && u != t
    ensures u in filp && 0 <= fe < NR_OPEN && filp[t][fd] != filp[u][fe]
  {
    assert OwnFile(filp, u, fe);
    SlotsUpdate(filp, t, fd, filp[t][fd], filp[t][fd]);
    assert Place(t, fd) in Slots(filp, filp[t][fd]);
  }

  lemma SlotKeepsOpening(filp: Tables, opening: Pending, t: int, fd: int, g: int)
    requires Opening(filp, opening) && t in filp && t !in opening && 0 <= fd < NR_OPEN
    requires NotTaken(filp, opening, g)
    ensures Opening(filp[t := filp[t][fd := g]], opening)
  {
    forall u, fe | u in opening && fe in opening[u] ensures OwnFile(filp[t := filp[t][fd := g]], u, fe) {
      assert OwnFile(filp, u, fe);
      NotMine(filp, opening, t, fd, u, fe);
      SlotsUpdate(filp, t, fd, g, filp[u][fe]);
    }
  }

  /** A file nobody counts is not being opened by anyone. */
  lemma FreeFile(filp: Tables, file: seq<File>, opening: Pending, g: int)
    requires Counted(filp, file) && Opening(filp, opening) && 0 <= g < NR_FILE && file[g].count == 0
    ensures Slots(filp, g) == {} && NotTaken(filp, opening, g)
  {
    forall u, fd | u in opening && fd in opening[u]
      ensures u in filp && 0 <= fd < |filp[u]| && g != filp[u][fd]
    {
      assert OwnFile(filp, u, fd);
    }
  }

  lemma MyFile(filp: Tables, opening: Pending, t: int, fd: int)
    requires Opening(filp, opening) && t in filp && t !in opening && 0 <= fd < NR_OPEN
    ensures NotTaken(filp, opening, filp[t][fd])
  {
    forall u, fe | u in opening && fe in opening[u]
      ensures u in filp && 0 <= fe < |filp[u]| && filp[t][fd] != filp[u][fe]
    {
      NotMine(filp, opening, t, fd, u, fe);
    }
  }

  function Empty(n: nat): (r: seq<int>)
    ensures |r| == n && forall i :: 0 <= i < n ==> r[i] == NULL
  { seq(n, _ => NULL) }

  datatype Op =
    | Open(t: int)
    | Opened(t: int, found: int, allowed: bool)
    | Close(t: int, fd: nat)
    | Dup(t: int, fd: nat, arg: nat)
    | Dup2(t: int, fd: nat, arg: nat)
    | Pipe(t: int)
    | Piped(t: int, inode: int)
    | Forks(t: int, child: int, memory: bool)
    | Exits(t: int)
    | Reaped(t: int)

  /** The file table, the descriptors of every process, the processes asleep in
      sys_open and sys_pipe with the slots they have taken, and the inodes released so far. */
  datatype State = State(filp: Tables, file: seq<File>, opening: Pending, iputs: seq<int>)

  ghost predicate Good(a: State) { Counted(a.filp, a.file) && Opening(a.filp, a.opening) }

  /** A process that can make a call. */
  predicate Awake(a: State, t: int) { t in a.filp && t !in a.opening }

  /** No f_inode has changed. */
  predicate SameInodes(file: seq<File>, file': seq<File>) {
    |file'| == |file| && forall f :: 0 <= f < |file| ==> file'[f].inode == file[f].inode
  }

  /** Then who refers to what says all about the file table. */
  lemma FilesDetermined(a: State, b: State)
    requires Good(a) && Good(b) && a.filp == b.filp && SameInodes(a.file, b.file)
    ensures a.file == b.file
  {
    hide Slots;
    forall f | 0 <= f < NR_FILE ensures a.file[f] == b.file[f] { }
  }

  predicate InFiles(gs: seq<int>) { forall i :: 0 <= i < |gs| ==> 0 <= gs[i] < NR_FILE }

  /** The files gs have lost their last descriptor, each listed once. */
  ghost predicate Gone(filp: Tables, filp': Tables, gs: seq<int>)
    requires Sized(filp) && Sized(filp')
  {
    && (forall i, j :: 0 <= i < j < |gs| ==> gs[i] != gs[j])
    && InFiles(gs)
    && (forall f :: f in gs <==> 0 <= f < NR_FILE && Slots(filp, f) != {} && Slots(filp', f) == {})
  }

  function Inodes(file: seq<File>, gs: seq<int>): (r: seq<int>)
    requires forall i :: 0 <= i < |gs| ==> 0 <= gs[i] < |file|
    ensures |r| == |gs| && forall i :: 0 <= i < |gs| ==> r[i] == file[gs[i]].inode
  {
    seq(|gs|, i requires 0 <= i < |gs| => file[gs[i]].inode)
  }

  /** The inodes released are those of the files that lost their last descriptor. */
  ghost predicate Releases(a: State, b: State) {
    && Sized(a.filp) && Sized(b.filp) && |a.file| == NR_FILE
    && exists gs: seq<int> :: Gone(a.filp, b.filp, gs) && b.iputs == a.iputs + Inodes(a.file, gs)
  }

  predicate Held(a: State, t: int, fd: nat)
    requires t in a.filp && |a.filp[t]| == NR_OPEN
  {
    fd < NR_OPEN && a.filp[t][fd] != NULL
  }

  /** Slot fd of process t now says f. */
  function Set(filp: Tables, t: int, fd: int, f: int): Tables
    requires t in filp && 0 <= fd < |filp[t]|
  {
    filp[t := filp[t][fd := f]]
  }

  /* ---- what the calls do ---- */

  ghost predicate Begun(a: State, t: int, r: int, b: State)
    requires Good(a) && Awake(a, t)
  {
    && b.iputs == a.iputs
    && if r < 0 then
         && r == -EINVAL && b == a
         && ((forall fd :: 0 <= fd < NR_OPEN ==> a.filp[t][fd] != NULL) || forall f :: 0 <= f < NR_FILE ==>
                a.file[f].count != 0)
       else
         && FirstFree(a.filp[t], 0, r) && b.opening == a.opening[t := [r]]
         && exists f :: FirstFile(a.file, 0, f) && b.filp == Set(a.filp, t, r, f)
                        && b.file == a.file[f := a.file[f].(count := 1)]
  }

  /** found is the inode or an error; allowed says that it is not a terminal that
      the process may not have. */
  ghost predicate Ended(a: State, t: int, found: int, allowed: bool, r: int, b: State)
    requires Good(a) && t in a.opening && |a.opening[t]| == 1
  {
    var fd := a.opening[t][0];
    && OwnFile(a.filp, t, fd) && b.opening == a.opening - {t} && b.iputs == a.iputs
    && var f := a.filp[t][fd];
       if found < 0 || !allowed then
         && r == (if found < 0 then found else -EPERM) && b.filp == Set(a.filp, t, fd, NULL)
         && b.file == a.file[f := a.file[f].(count := 0)]
       else r == fd && b.filp == a.filp && b.file == a.file[f := File(1, found)]
  }

  ghost predicate Closed(a: State, t: int, fd: nat, r: int, b: State)
    requires Good(a) && Awake(a, t)
  {
    if !Held(a, t, fd) then r == -EINVAL && b == a
    else
      && r == 0 && b.filp == Set(a.filp, t, fd, NULL) && b.opening == a.opening && SameInodes(a.file, b.file)
      && Releases(a, b)
  }

  ghost predicate Dupped(a: State, t: int, fd: nat, arg: nat, r: int, b: State)
    requires Good(a) && Awake(a, t)
  {
    if !Held(a, t, fd) then r == -EBADF && b == a
    else if arg >= NR_OPEN then r == -EINVAL && b == a
    else if forall k :: arg <= k < NR_OPEN ==> a.filp[t][k] != NULL then r == -EMFILE && b == a
    else
      && FirstFree(a.filp[t], arg, r) && b.filp == Set(a.filp, t, r, a.filp[t][fd])
      && b.opening == a.opening && b.iputs == a.iputs && SameInodes(a.file, b.file)
  }

  /** newFd is closed whatever happens; so a bad oldFd, or the same, costs it. */
  ghost predicate Dupped2(a: State, t: int, oldFd: nat, newFd: nat, r: int, b: State)
    requires Good(a) && Awake(a, t)
  {
    && b.opening == a.opening && SameInodes(a.file, b.file) && Releases(a, b)
    && if newFd >= NR_OPEN then r == (if Held(a, t, oldFd) then -EINVAL else -EBADF) && b.filp == a.filp
       else if oldFd == newFd || !Held(a, t, oldFd) then r == -EBADF && b.filp == Set(a.filp, t, newFd, NULL)
       else r == newFd && b.filp == Set(a.filp, t, newFd, a.filp[t][oldFd])
  }

  /** Two files and the lowest two empty slots are taken, or nothing. */
  ghost predicate PipeBegun(a: State, t: int, r: int, b: State)
    requires Good(a) && Awake(a, t)
  {
    if r != 0 then
      && r == -1 && b == a
      && (|| !(exists fd, fe :: 0 <= fd < fe < NR_OPEN && a.filp[t][fd] == a.filp[t][fe] == NULL)
          || !(exists f, g :: 0 <= f < g < NR_FILE && a.file[f].count == a.file[g].count == 0))
    else b.iputs == a.iputs && exists fd0: nat, fd1: int, f0, f1 :: PipeSlots(a, t, fd0, fd1, f0, f1, b)
  }

  ghost predicate PipeSlots(a: State, t: int, fd0: nat, fd1: int, f0: int, f1: int, b: State)
    requires Good(a) && Awake(a, t)
  {
    && FirstFree(a.filp[t], 0, fd0) && FirstFree(a.filp[t], fd0 + 1, fd1)
    && FirstFile(a.file, 0, f0) && FirstFile(a.file, f0 + 1, f1)
    && b.opening == a.opening[t := [fd0, fd1]] && b.filp == Set(Set(a.filp, t, fd0, f0), t, fd1, f1)
    && b.file == a.file[f0 := a.file[f0].(count := 1)][f1 := a.file[f1].(count := 1)]
  }

  /** With an inode both files get it; without (inode < 0) all is given back. */
  ghost predicate PipeEnded(a: State, t: int, inode: int, r: int, b: State)
    requires Good(a) && t in a.opening && |a.opening[t]| == 2
  {
    var fd0, fd1 := a.opening[t][0], a.opening[t][1];
    && OwnFile(a.filp, t, fd0) && OwnFile(a.filp, t, fd1) && b.opening == a.opening - {t} && b.iputs == a.iputs
    && var f0, f1 := a.filp[t][fd0], a.filp[t][fd1];
       if inode < 0 then
         && r == -1 && b.filp == Set(Set(a.filp, t, fd0, NULL), t, fd1, NULL)
         && b.file == a.file[f0 := a.file[f0].(count := 0)][f1 := a.file[f1].(count := 0)]
       else r == 0 && b.filp == a.filp && b.file == a.file[f0 := File(1, inode)][f1 := File(1, inode)]
  }

  /** f is the first free file from a given one on. */
  predicate FirstFile(file: seq<File>, from: nat, f: int) {
    from <= f < |file| && file[f].count == 0 && forall k :: from <= k < f ==> file[k].count != 0
  }

  /** One step of any process; what cannot be called now changes nothing. */
  ghost predicate Stepped(op: Op, a: State, r: int, b: State)
    requires Good(a)
  {
    match op
    case Open(t) => if Awake(a, t) then Begun(a, t, r, b) else b == a
    case Opened(t, found, allowed) =>
      if t in a.opening && |a.opening[t]| == 1 then Ended(a, t, found, allowed, r, b) else b == a
    case Close(t, fd) => if Awake(a, t) then Closed(a, t, fd, r, b) else b == a
    case Dup(t, fd, arg) => if Awake(a, t) then Dupped(a, t, fd, arg, r, b) else b == a
    case Dup2(t, fd, arg) => if Awake(a, t) then Dupped2(a, t, fd, arg, r, b) else b == a
    case Pipe(t) => if Awake(a, t) then PipeBegun(a, t, r, b) else b == a
    case Piped(t, inode) =>
      if t in a.opening && |a.opening[t]| == 2 then PipeEnded(a, t, inode, r, b) else b == a
    case Forks(t, child, memory) =>
      if Awake(a, t) && child !in a.filp && child !in a.opening && memory
      then
        && r == child && b.filp == a.filp[child := a.filp[t]] && b.opening == a.opening && b.iputs == a.iputs
        && SameInodes(a.file, b.file)
      else b == a
    case Exits(t) =>
      if Awake(a, t) then
        && b.filp == a.filp[t := Empty(NR_OPEN)] && b.opening == a.opening && SameInodes(a.file, b.file)
        && Releases(a, b)
      else b == a
    case Reaped(t) =>
      if Awake(a, t) && a.filp[t] == Empty(NR_OPEN) then b == a.(filp := a.filp - {t}) else b == a
  }

  /** One slot was closed: its file goes with it if that was the last. */
  lemma GoneOne(filp: Tables, t: int, fd: int)
    requires Sized(filp) && t in filp && 0 <= fd < NR_OPEN && 0 <= filp[t][fd] < NR_FILE
    ensures Sized(Set(filp, t, fd, NULL))
    ensures var f := filp[t][fd];
        Gone(filp, Set(filp, t, fd, NULL), if Slots(Set(filp, t, fd, NULL), f) == {} then [f] else [])
  {
    var f := filp[t][fd];
    SlotsUpdate(filp, t, fd, NULL, f);
    forall g | g != f && g != NULL
      ensures Slots(Set(filp, t, fd, NULL), g) == Slots(filp, g)
    {
      SlotsUpdate(filp, t, fd, NULL, g);
    }
    hide Slots;
  }

  /** Closing on, slot by slot. */
  lemma GoneMore(filp0: Tables, filp: Tables, filp': Tables, gs: seq<int>, hs: seq<int>)
    requires Sized(filp0) && Sized(filp) && Sized(filp') && Gone(filp0, filp, gs) && Gone(filp, filp', hs)
    requires forall f :: Slots(filp', f) != {} && 0 <= f < NR_FILE ==> Slots(filp, f) != {}
    requires forall f :: Slots(filp, f) != {} && 0 <= f < NR_FILE ==> Slots(filp0, f) != {}
    ensures Gone(filp0, filp', gs + hs)
  {
    hide Slots;
    var all := gs + hs;
    forall i, j | 0 <= i < j < |all| ensures all[i] != all[j] {
      if i < |gs| <= j { assert all[i] in gs && all[j] in hs; }
    }
  }

  lemma GoneNone(filp: Tables)
    requires Sized(filp)
    ensures Gone(filp, filp, [])
  { }

  /** A process without descriptors comes or goes unnoticed. */
  lemma NewTable(filp: Tables, opening: Pending, child: int)
    requires Sized(filp) && child !in filp && Opening(filp, opening)
    ensures Sized(filp[child := Empty(NR_OPEN)]) && Opening(filp[child := Empty(NR_OPEN)], opening)
    ensures forall f :: f != NULL ==> Slots(filp[child := Empty(NR_OPEN)], f) == Slots(filp, f)
    ensures forall file :: Counted(filp, file) ==> Counted(filp[child := Empty(NR_OPEN)], file)
  {
    var filp' := filp[child := Empty(NR_OPEN)];
    forall f | f != NULL ensures Slots(filp', f) == Slots(filp, f) { }
    forall u, fd | u in opening && fd in opening[u] ensures OwnFile(filp', u, fd) { assert OwnFile(filp, u, fd); }
  }

  lemma OldTable(filp: Tables, opening: Pending, t: int)
    requires Sized(filp) && t in filp && filp[t] == Empty(NR_OPEN) && Opening(filp, opening) && t !in opening
    ensures Sized(filp - {t}) && Opening(filp - {t}, opening)
    ensures forall file :: Counted(filp, file) ==> Counted(filp - {t}, file)
  {
    var filp' := filp - {t};
    forall f | f != NULL ensures Slots(filp', f) == Slots(filp, f) { }
    forall u, fd | u in opening && fd in opening[u] ensures OwnFile(filp', u, fd) { assert OwnFile(filp, u, fd); }
  }

  /** r is the lowest empty slot from a given one on. */
  ghost predicate FirstFree(table: seq<int>, from: nat, r: int) {
    from <= r < |table| && table[r] == NULL && forall k :: from <= k < r ==> table[k] != NULL
  }

  class FileTables {
    var filp: Tables
    var file: seq<File>
    /** Processes asleep inside sys_open or sys_pipe, and the slots they have taken. */
    var opening: Pending
    /** The inodes released so far by closing, oldest first. */
    var iputs: seq<int>

    ghost function St(): State reads this { State(filp, file, opening, iputs) }

    ghost predicate Valid() reads this { Good(St()) }

    /** Only the first process, with nothing open. */
    constructor ()
      ensures Valid() && filp == map[0 := seq(NR_OPEN, _ => NULL)] && opening == map[] && iputs == []
    {
      filp := map[0 := seq(NR_OPEN, _ => NULL)];
      file := seq(NR_FILE, _ => File(0, NULL));
      opening := map[];
      iputs := [];
      new;
      NoSlots(filp);
    }

    /** The lowest empty slot from a given one on, or NR_OPEN. */
    method FindSlot(t: int, from: nat) returns (fd: nat)
      requires t in filp && |filp[t]| == NR_OPEN && from <= NR_OPEN
      ensures from <= fd <= NR_OPEN && (fd < NR_OPEN ==> filp[t][fd] == NULL) && forall k :: from <= k < fd ==>
          filp[t][k] != NULL
    {
      fd := from;
      while fd < NR_OPEN && filp[t][fd] != NULL
        invariant from <= fd <= NR_OPEN && forall k :: from <= k < fd ==> filp[t][k] != NULL
      {
        fd := fd + 1;
      }
    }

    method FindFile(from: nat) returns (f: nat)
      requires |file| == NR_FILE && from <= NR_FILE
      ensures from <= f <= NR_FILE && (f < NR_FILE ==> file[f].count == 0) && forall k :: from <= k < f ==>
          file[k].count != 0
    {
      f := from;
      while f < NR_FILE && file[f].count != 0
        invariant from <= f <= NR_FILE && forall k :: from <= k < f ==> file[k].count != 0
      {
        f := f + 1;
      }
    }

    /** sys_open up to open_namei, which may sleep. */
    method BeginOpen(t: int) returns (fd: int)
      requires Valid() && t in filp && t !in opening
      modifies `filp, `file, `opening
      ensures Valid() && Begun(old(St()), t, fd, St())
    {
      fd := FindSlot(t, 0);
      if fd >= NR_OPEN { return -EINVAL; }
      var f := FindFile(0);
      if f >= NR_FILE { return -EINVAL; }
      FreeFile(filp, file, opening, f);
      AddSlot(filp, file, t, fd, f, file[f].(count := file[f].count + 1));
      SlotKeepsOpening(filp, opening, t, fd, f);
      SlotsUpdate(filp, t, fd, f, f);
      ghost var was := filp;
      filp := filp[t := filp[t][fd := f]];
      file := file[f := file[f].(count := file[f].count + 1)];
      opening := opening[t := [fd]];
      assert OwnFile(filp, t, fd);
    }

    /** sys_open after open_namei. */
    method EndOpen(t: int, found: int, allowed: bool) returns (r: int)
      requires Valid() && t in opening && |opening[t]| == 1
      modifies `filp, `file, `opening
      ensures Valid() && Ended(old(St()), t, found, allowed, r, St())
    {
      var fd := opening[t][0];
      assert OwnFile(filp, t, fd);
      var f := filp[t][fd];
      ClearSlot(filp, file, t, fd);
      Fewer(filp, opening, t);
      if found < 0 || !allowed {
        SlotKeepsOpening(filp, opening - {t}, t, fd, NULL);
        filp := filp[t := filp[t][fd := NULL]];
        file := file[f := file[f].(count := 0)];
        opening := opening - {t};
        return if found < 0 then found else -EPERM;
      }
      file := file[f := File(1, found)];
      opening := opening - {t};
      return fd;
    }

    /** sys_close.  The count of a file in use is never 0, so the source's panic
        cannot happen; the inode goes with the last descriptor. */
    method SysClose(t: int, fd: nat) returns (r: int)
      requires Valid() && t in filp && t !in opening
      modifies `filp, `file, `iputs
      ensures Valid() && Closed(old(St()), t, fd, r, St())
    {
      if fd >= NR_OPEN || filp[t][fd] == NULL { return -EINVAL; }
      var f := filp[t][fd];
      ClearSlot(filp, file, t, fd);
      MyFile(filp, opening, t, fd);
      SlotKeepsNull(filp, opening, t, fd);
      GoneOne(filp, t, fd);
      ghost var gs := if Slots(Set(filp, t, fd, NULL), f) == {} then [f] else [];
      assert iputs + Inodes(file, gs) == if gs == [] then iputs else iputs + [file[f].inode];
      filp := filp[t := filp[t][fd := NULL]];
      assert file[f].count != 0;
      file := file[f := file[f].(count := file[f].count - 1)];
      if file[f].count != 0 { return 0; }
      iputs := iputs + [file[f].inode];
      return 0;
    }

    /** dupfd, the heart of sys_dup, sys_dup2 and F_DUPFD. */
    method DupFd(t: int, fd: nat, arg: nat) returns (r: int)
      requires Valid() && t in filp && t !in opening
      modifies `filp, `file
      ensures Valid() && Dupped(old(St()), t, fd, arg, r, St())
    {
      if fd >= NR_OPEN || filp[t][fd] == NULL { return -EBADF; }
      if arg >= NR_OPEN { return -EINVAL; }
      r := FindSlot(t, arg);
      if r >= NR_OPEN { return -EMFILE; }
      var f := filp[t][fd];
      assert InTable(f);
      AddSlot(filp, file, t, r, f, file[f].(count := file[f].count + 1));
      MyFile(filp, opening, t, fd);
      SlotKeepsOpening(filp, opening, t, r, f);
      filp := filp[t := filp[t][r := f]];
      file := file[f := file[f].(count := file[f].count + 1)];
    }

    /** sys_dup2 closes newFd before it looks at oldFd. */
    method SysDup2(t: int, oldFd: nat, newFd: nat) returns (r: int)
      requires Valid() && t in filp && t !in opening
      modifies `filp, `file, `iputs
      ensures Valid() && Dupped2(old(St()), t, oldFd, newFd, r, St())
    {
      hide Slots, Gone, Good, Closed, Dupped, Dupped2;
      ghost var a := St();
      SizedNow(a);
      var _ := SysClose(t, newFd);
      ghost var b := St();
      StillAwake(a, b, t, newFd);
      r := DupFd(t, oldFd, newFd);
      Dup2Is(a, b, St(), t, oldFd, newFd, r);
    }

    /** sys_pipe up to get_pipe_inode, which may sleep. */
    method BeginPipe(t: int) returns (r: int)
      requires Valid() && t in filp && t !in opening
      modifies `filp, `file, `opening
      ensures Valid() && PipeBegun(old(St()), t, r, St())
    {
      hide Slots;
      var f0 := FindFile(0);
      if f0 >= NR_FILE { return -1; }
      var f1 := FindFile(f0 + 1);
      if f1 >= NR_FILE { return -1; }
      var fd0 := FindSlot(t, 0);
      if fd0 >= NR_OPEN { return -1; }
      var fd1 := FindSlot(t, fd0 + 1);
      if fd1 >= NR_OPEN { return -1; }
      Take(t, fd0, f0);
      Take(t, fd1, f1);
      TwoTaken(old(filp), t, fd0, f0, fd1, f1);
      opening := opening[t := [fd0, fd1]];
      assert PipeSlots(old(St()), t, fd0, fd1, f0, f1, St());
      return 0;
    }

    method Take(t: int, fd: int, f: int)
      requires Valid() && t in filp && t !in opening && 0 <= fd < NR_OPEN && filp[t][fd] == NULL && 0 <= f < NR_FILE
               && file[f].count == 0
      modifies `filp, `file
      ensures Valid() && Slots(old(filp), f) == {}
      ensures filp == Set(old(filp), t, fd, f) && file == old(file)[f := old(file)[f].(count := 1)]
    {
      FreeFile(filp, file, opening, f);
      AddSlot(filp, file, t, fd, f, file[f].(count := 1));
      SlotKeepsOpening(filp, opening, t, fd, f);
      filp := filp[t := filp[t][fd := f]];
      file := file[f := file[f].(count := 1)];
    }

    /** sys_pipe after get_pipe_inode: the two descriptors, or all given back. */
    method EndPipe(t: int, inode: int) returns (r: int, fd0: int, fd1: int)
      requires Valid() && t in opening && |opening[t]| == 2
      modifies `filp, `file, `opening
      ensures Valid() && PipeEnded(old(St()), t, inode, r, St())
      ensures [fd0, fd1] == old(opening)[t]
    {
      hide Slots;
      fd0, fd1 := opening[t][0], opening[t][1];
      assert OwnFile(filp, t, fd0) && OwnFile(filp, t, fd1);
      var f0, f1 := filp[t][fd0], filp[t][fd1];
      OwnTwo(filp, file, t, fd0, fd1);
      Fewer(filp, opening, t);
      opening := opening - {t};
      if inode < 0 {
        GiveBack(t, fd0);
        GiveBack(t, fd1);
        return -1, fd0, fd1;
      }
      file := file[f0 := File(1, inode)][f1 := File(1, inode)];
      return 0, fd0, fd1;
    }

    /** A descriptor whose file nobody else has is given up with the file. */
    method GiveBack(t: int, fd: int)
      requires Valid() && t in filp && t !in opening && 0 <= fd < NR_OPEN && 0 <= filp[t][fd] < NR_FILE
      requires |file| == NR_FILE && file[filp[t][fd]].count == 1
      modifies `filp, `file
      ensures Valid() && filp == Set(old(filp), t, fd, NULL)
      ensures var f := old(filp)[t][fd]; file == old(file)[f := old(file)[f].(count := 0)]
    {
      var f := filp[t][fd];
      ClearSlot(filp, file, t, fd);
      SlotKeepsNull(filp, opening, t, fd);
      filp := filp[t := filp[t][fd := NULL]];
      file := file[f := file[f].(count := 0)];
    }

    /** The descriptors in copy_process: the child shares all of them; a fork that
        fails before leaves no trace. */
    method Fork(t: int, child: int, memory: bool) returns (r: int)
      requires Valid() && t in filp && t !in opening && child !in filp && child != t && child !in opening
      modifies `filp, `file
      ensures Valid() && r == if memory then child else -1
      ensures if memory then filp == old(filp)[child := old(filp)[t]] else filp == old(filp) && file == old(file)
      ensures SameInodes(old(file), file)
    {
      if !memory { return -1; }
      ghost var parent, was := filp[t], filp;
      NewTable(filp, opening, child);
      filp := filp[child := filp[t]];
      var i := 0;
      assert parent[..0] + Empty(NR_OPEN) == Empty(NR_OPEN);
      while i < NR_OPEN
        invariant 0 <= i <= NR_OPEN && filp == was[child := parent] && |file| == NR_FILE
        invariant SameInodes(old(file), file)
        invariant var half := was[child := parent[..i] + Empty(NR_OPEN - i)];
            Sized(half) && Counted(half, file) && Opening(half, opening)
      {
        ghost var half := was[child := parent[..i] + Empty(NR_OPEN - i)];
        assert parent[..i + 1] + Empty(NR_OPEN - i - 1) == half[child][i := parent[i]];
        assert half[child := half[child][i := parent[i]]] == was[child := parent[..i + 1] + Empty(NR_OPEN - i - 1)];
        assert half[t][i] == parent[i] && InTable(parent[i]);
        var f := filp[child][i];
        if f != NULL {
          AddSlot(half, file, child, i, f, file[f].(count := file[f].count + 1));
          MyFile(half, opening, t, i);
          SlotKeepsOpening(half, opening, child, i, f);
          file := file[f := file[f].(count := file[f].count + 1)];
        } else {
          assert half[child][i := NULL] == half[child];
          assert half[child := half[child]] == half;
        }
        i := i + 1;
      }
      assert parent[..NR_OPEN] + Empty(0) == parent;
      return child;
    }

    /** The descriptors in do_exit: each inode goes with its last descriptor. */
    method Exit(t: int)
      requires Valid() && t in filp && t !in opening
      modifies `filp, `file, `iputs
      ensures Valid() && filp == old(filp)[t := Empty(NR_OPEN)] && Releases(old(St()), St())
      ensures SameInodes(old(file), file)
    {
      hide Slots, Gone, Opening, Counted;
      ghost var a, gs := St(), [];
      SizedNow(a);
      GoneNone(filp);
      var i := 0;
      assert filp[t][0..] == filp[t];
      assert Empty(0) + filp[t][0..] == filp[t];
      assert a.iputs + Inodes(a.file, gs) == a.iputs;
      while i < NR_OPEN
        invariant 0 <= i <= NR_OPEN && Valid() && t in filp && Sized(filp) && |file| == NR_FILE
        invariant filp == a.filp[t := Empty(i) + a.filp[t][i..]]
        invariant SameInodes(a.file, file)
        invariant forall f :: Slots(filp, f) != {} && 0 <= f < NR_FILE ==> Slots(a.filp, f) != {}
        invariant Gone(a.filp, filp, gs) && InFiles(gs) && iputs == a.iputs + Inodes(a.file, gs)
      {
        ghost var b := St();
        assert filp[t][i] == a.filp[t][i];
        assert filp[t][i := NULL] == Empty(i + 1) + a.filp[t][i + 1..];
        if filp[t][i] != NULL {
          var _ := SysClose(t, i);
          SizedNow(St());
          gs := ReleasesOn(a, b, St(), gs, t, i);
        } else {
          assert filp[t][i := NULL] == filp[t];
        }
        assert filp == a.filp[t := Empty(i + 1) + a.filp[t][i + 1..]];
        i := i + 1;
      }
      assert Empty(NR_OPEN) + a.filp[t][NR_OPEN..] == Empty(NR_OPEN);
    }

    /** The slot in task[] of a process that has exited is given up. */
    method Reap(t: int)
      requires Valid() && t in filp && t !in opening && filp[t] == Empty(NR_OPEN)
      modifies `filp
      ensures Valid() && filp == old(filp) - {t}
    {
      OldTable(filp, opening, t);
      filp := filp - {t};
    }

    /** One step. */
    method Step(op: Op) returns (r: int)
      requires Valid()
      modifies this
      ensures Valid() && Stepped(op, old(St()), r, St())
    {
      hide Good, Begun, Ended, Closed, Dupped, Dupped2, PipeBegun, PipeEnded, Releases;
      r := 0;
      match op
      case Open(t) => if t in filp && t !in opening { r := BeginOpen(t); }
      case Opened(t, found, allowed) => if t in opening && |opening[t]| == 1 { r := EndOpen(t, found, allowed); }
      case Close(t, fd) => if t in filp && t !in opening { r := SysClose(t, fd); }
      case Dup(t, fd, arg) => if t in filp && t !in opening { r := DupFd(t, fd, arg); }
      case Dup2(t, fd, arg) => if t in filp && t !in opening { r := SysDup2(t, fd, arg); }
      case Pipe(t) => if t in filp && t !in opening { r := BeginPipe(t); }
      case Piped(t, inode) =>
        if t in opening && |opening[t]| == 2 {
          var fd0, fd1;
          r, fd0, fd1 := EndPipe(t, inode);
        }
      case Forks(t, child, memory) =>
        if t in filp && t !in opening && child !in filp && child !in opening { r := Fork(t, child, memory); }
      case Exits(t) => if t in filp && t !in opening { Exit(t); }
      case Reaped(t) => if t in filp && t !in opening && filp[t] == Empty(NR_OPEN) { Reap(t); }
    }

    /** Any run: before and after every step each f_count is the number of
        descriptors that refer to the file. */
    method Run(ops: seq<Op>) returns (rs: seq<int>, ghost states: seq<State>)
      requires Valid()
      modifies this
      ensures Valid() && |rs| == |ops| && |states| == |ops| + 1 && states[0] == old(St()) && states[|ops|] == St()
      ensures forall k :: 0 <= k <= |ops| ==> Good(states[k])
      ensures forall k :: 0 <= k < |ops| ==> Stepped(ops[k], states[k], rs[k], states[k + 1])
    {
      hide Good, Stepped;
      rs, states := [], [St()];
      for n := 0 to |ops|
        invariant Valid() && |rs| == n && |states| == n + 1 && states[0] == old(St()) && states[n] == St()
        invariant forall k :: 0 <= k <= n ==> Good(states[k])
        invariant forall k :: 0 <= k < n ==> Stepped(ops[k], states[k], rs[k], states[k + 1])
      {
        var r := Step(ops[n]);
        rs, states := rs + [r], states + [St()];
      }
    }
  }

  lemma SizedNow(a: State)
    requires Good(a)
    ensures Sized(a.filp) && |a.file| == NR_FILE
  { }

  lemma SetTwice(filp: Tables, t: int, fd: int, f: int)
    requires t in filp && 0 <= fd < |filp[t]|
    ensures Set(Set(filp, t, fd, NULL), t, fd, f) == Set(filp, t, fd, f)
  {
    assert filp[t][fd := NULL][fd := f] == filp[t][fd := f];
  }

  /** Closing leaves no file with a descriptor that had none. */
  lemma FewerSlots(filp: Tables, t: int, fd: int)
    requires Sized(filp) && t in filp && 0 <= fd < NR_OPEN
    ensures Sized(Set(filp, t, fd, NULL))
    ensures forall f :: Slots(Set(filp, t, fd, NULL), f) != {} && 0 <= f < NR_FILE ==> Slots(filp, f) != {}
  {
    forall f | 0 <= f < NR_FILE ensures Slots(Set(filp, t, fd, NULL), f) != {} ==> Slots(filp, f) != {} {
      SlotsUpdate(filp, t, fd, NULL, f);
    }
    hide Slots;
  }

  lemma ReleasesOn(a: State, b: State, c: State, gs: seq<int>, t: int, fd: nat) returns (hs: seq<int>)
    requires Sized(a.filp) && Sized(b.filp) && Sized(c.filp) && |a.file| == |b.file| == NR_FILE
             && Gone(a.filp, b.filp, gs)
    requires t in b.filp && fd < NR_OPEN && c.filp == Set(b.filp, t, fd, NULL) && Releases(b, c)
    requires InFiles(gs) && b.iputs == a.iputs + Inodes(a.file, gs)
    requires SameInodes(a.file, b.file)
    requires forall f :: Slots(b.filp, f) != {} && 0 <= f < NR_FILE ==> Slots(a.filp, f) != {}
    ensures Gone(a.filp, c.filp, hs) && InFiles(hs) && c.iputs == a.iputs + Inodes(a.file, hs)
    ensures forall f :: Slots(c.filp, f) != {} && 0 <= f < NR_FILE ==> Slots(a.filp, f) != {}
  {
    hide Slots;
    var more: seq<int> :| Gone(b.filp, c.filp, more) && c.iputs == b.iputs + Inodes(b.file, more);
    FewerSlots(b.filp, t, fd);
    GoneMore(a.filp, b.filp, c.filp, gs, more);
    hs := gs + more;
    hide Gone;
    assert Inodes(a.file, hs) == Inodes(a.file, gs) + Inodes(b.file, more);
  }

  lemma StillAwake(a: State, b: State, t: int, fd: nat)
    requires Good(a) && Awake(a, t) && exists r :: Closed(a, t, fd, r, b)
    ensures Awake(b, t)
  { }

  /** Closing and duplicating amount to dup2. */
  lemma Dup2Is(a: State, b: State, c: State, t: int, oldFd: nat, newFd: nat, r: int)
    requires Good(a) && Good(b) && Good(c) && Awake(a, t) && Awake(b, t)
    requires (exists q :: Closed(a, t, newFd, q, b)) && Dupped(b, t, oldFd, newFd, r, c)
    ensures Dupped2(a, t, oldFd, newFd, r, c)
  {
    hide Slots, Gone, Opening, Releases;
    DupReleases(a, b, c, t, oldFd, newFd, r);
    if newFd < NR_OPEN {
      assert a.filp[t][newFd] == NULL ==> Set(a.filp, t, newFd, NULL) == a.filp by {
        assert a.filp[t][newFd := a.filp[t][newFd]] == a.filp[t];
      }
      assert b.filp == Set(a.filp, t, newFd, NULL) && b.filp[t] == a.filp[t][newFd := NULL];
      if oldFd != newFd && Held(a, t, oldFd) {
        SetTwice(a.filp, t, newFd, a.filp[t][oldFd]);
        assert b.filp[t][newFd] == NULL;
      }
    }
  }

  /** Referring once more to a file in use releases nothing. */
  lemma DupReleases(a: State, b: State, c: State, t: int, oldFd: nat, newFd: nat, r: int)
    requires Good(a) && Good(b) && Good(c) && Awake(a, t) && Awake(b, t)
    requires (exists q :: Closed(a, t, newFd, q, b)) && Dupped(b, t, oldFd, newFd, r, c)
    ensures Releases(a, c)
  {
    hide Slots, Opening;
    if b == a {
      GoneNone(a.filp);
      assert a.iputs + Inodes(a.file, []) == a.iputs;
    }
    var gs: seq<int> :| Gone(a.filp, b.filp, gs) && b.iputs == a.iputs + Inodes(a.file, gs);
    if c != b {
      SameFiles(b.filp, t, oldFd, r);
      hide Gone;
      GoneSame(a.filp, b.filp, c.filp, gs);
    }
  }

  lemma SameFiles(filp: Tables, t: int, fd: int, r: int)
    requires Sized(filp) && t in filp && 0 <= fd < NR_OPEN && 0 <= r < NR_OPEN && filp[t][r] == NULL
             && filp[t][fd] != NULL
    ensures Sized(Set(filp, t, r, filp[t][fd]))
    ensures forall g :: 0 <= g < NR_FILE ==> (Slots(Set(filp, t, r, filp[t][fd]), g) == {} <==> Slots(filp, g) == {})
  {
    var f := filp[t][fd];
    assert Place(t, fd) in Slots(filp, f);
    forall g | 0 <= g < NR_FILE ensures Slots(Set(filp, t, r, f), g) == {} <==> Slots(filp, g) == {} {
      SlotsUpdate(filp, t, r, f, g);
    }
    hide Slots;
  }

  lemma GoneSame(filp: Tables, filp1: Tables, filp2: Tables, gs: seq<int>)
    requires Sized(filp) && Sized(filp1) && Sized(filp2) && Gone(filp, filp1, gs)
    requires forall g :: 0 <= g < NR_FILE ==> (Slots(filp2, g) == {} <==> Slots(filp1, g) == {})
    ensures Gone(filp, filp2, gs)
  {
    hide Slots;
  }

  lemma NoSlots(filp: Tables)
    requires filp == map[0 := seq(NR_OPEN, _ => NULL)]
    ensures Sized(filp) && forall f :: f != NULL ==> Slots(filp, f) == {}
  { }

  lemma Fewer(filp: Tables, opening: Pending, t: int)
    requires Opening(filp, opening)
    ensures Opening(filp, opening - {t}) && NotTaken(filp, opening, NULL) && NotTaken(filp, opening - {t}, NULL)
  {
    forall u, fd | u in opening && fd in opening[u]
      ensures u in filp && 0 <= fd < |filp[u]| && NULL != filp[u][fd]
    {
      assert OwnFile(filp, u, fd);
    }
  }

  /** Two files just taken belong to their two slots alone. */
  lemma TwoTaken(filp: Tables, t: int, fd0: int, f0: int, fd1: int, f1: int)
    requires Sized(filp) && t in filp && 0 <= fd0 < fd1 < NR_OPEN && 0 <= f0 < f1 < NR_FILE
    requires Slots(filp, f0) == {} == Slots(filp, f1)
    ensures var filp' := Set(Set(filp, t, fd0, f0), t, fd1, f1);
      Sized(filp') && OwnFile(filp', t, fd0) && OwnFile(filp', t, fd1)
  {
    var filp1 := Set(filp, t, fd0, f0);
    SlotsUpdate(filp, t, fd0, f0, f0);
    SlotsUpdate(filp, t, fd0, f0, f1);
    SlotsUpdate(filp1, t, fd1, f1, f0);
    SlotsUpdate(filp1, t, fd1, f1, f1);
  }

  lemma OwnTwo(filp: Tables, file: seq<File>, t: int, fd0: int, fd1: int)
    requires Counted(filp, file) && fd0 != fd1 && OwnFile(filp, t, fd0) && OwnFile(filp, t, fd1)
    ensures filp[t][fd0] != filp[t][fd1] && file[filp[t][fd0]].count == 1 == file[filp[t][fd1]].count
  { }

  lemma SlotKeepsNull(filp: Tables, opening: Pending, t: int, fd: int)
    requires Opening(filp, opening) && t in filp && t !in opening && 0 <= fd < NR_OPEN
    ensures Opening(filp[t := filp[t][fd := NULL]], opening)
  {
    Fewer(filp, opening, t);
    SlotKeepsOpening(filp, opening, t, fd, NULL);
  }
}
