/** fs/namei.c, the calls on directories.  A call that makes a name looks for it, may
    sleep while new_inode finds an inode, and then enters it without looking again; a
    call that takes a name away looks for it, sleeps in iget, and rmdir in empty_dir
    too, and then clears the entry without looking again.  All are cut at these sleeps,
    and other calls come between. */
module Namei {
  import opened Directories
  import opened Sequences

  const EPERM: int := 1
  const ENOENT: int := 2
  const EEXIST: int := 17
  const ENOTDIR: int := 20
  const EISDIR: int := 21
  const ENOSPC: int := 28
  const ENOTEMPTY: int := 39

  /** The first place that add_entry can use. */
  ghost predicate FirstVacant(entries: seq<Entry>, i: nat) {
    Vacant(entries, i) && forall j :: 0 <= j < i ==> entries[j].ino != 0
  }

  /** add_entry needs a new block for the place and the disk has none. */
  predicate NoRoom(entries: seq<Entry>, i: nat, room: bool) {
    i == |entries| && i % DIR_ENTRIES_PER_BLOCK == 0 && !room
  }

  /** ".." at the root of the process means ".". */
  function Sought(name: Name, atRoot: bool): Name { if name == DOTDOT && atRoot then DOT else name }

  /** A call that sleeps.  In new_inode: mknod or open with O_CREAT (stays: left open),
      mkdir; link of file n, before it enters the name.  In iget for inode n: open,
      unlink and rmdir, which have found it in entry i of directory d.  Then unlink with
      the inode in hand, rmdir before its checks, and in empty_dir, with the first at of
      len entries passed. */
  datatype Call =
    | Creating(d: int, name: Name, stays: bool)
    | Linking(d: int, name: Name, n: int)
    | MakingDir(d: int, name: Name)
    | Opening(n: int, writing: bool)
    | Unlinking(d: int, i: nat, n: int)
    | Unnaming(d: int, i: nat, n: int)
    | Removing(d: int, i: nat, n: int)
    | Checking(d: int, i: nat, n: int)
    | Emptying(d: int, i: nat, n: int, len: nat, at: nat)

  /** lost: some iget has found its inode free, and nothing can be said any more. */
  datatype State = State(fs: Fs, pending: map<int, Call>, lost: bool)

  predicate Makes(c: Call) { c.Creating? || c.Linking? || c.MakingDir? }

  /** The call waits for an inode that it does not hold yet. */
  predicate Waits(c: Call) { c.Opening? || c.Unlinking? || c.Removing? }

  predicate HoldsDir(c: Call, x: int) { !c.Opening? && c.d == x }

  predicate HoldsInode(c: Call, x: int) {
    (c.Linking? || c.Unnaming? || c.Checking? || c.Emptying?) && c.n == x
  }

  function Weight(c: Call, x: int): nat { (if HoldsDir(c, x) then 1 else 0) + if HoldsInode(c, x) then 1 else 0 }

  function DirHolders(pending: map<int, Call>, x: int): set<int> { set p | p in pending && HoldsDir(pending[p], x) }

  function InodeHolders(pending: map<int, Call>, x: int): set<int> {
    set p | p in pending && HoldsInode(pending[p], x)
  }

  /** How often sleeping calls hold the inode. */
  function Holders(pending: map<int, Call>, x: int): nat { |DirHolders(pending, x)| + |InodeHolders(pending, x)| }

  predicate AtEntry(fs: Fs, d: int, i: nat) { d in fs && fs[d].dir && i < |fs[d].entries| }

  /** What the call has in hand. */
  predicate Held(fs: Fs, c: Call) {
    match c
    case Creating(d, name, _) => d in fs && fs[d].dir && name != [] && Plain(name)
    case Linking(d, name, n) => d in fs && fs[d].dir && name != [] && Plain(name) && n in fs && !fs[n].dir
    case MakingDir(d, name) => d in fs && fs[d].dir && name != [] && Plain(name)
    case Opening(_, _) => true
    case Unlinking(d, i, _) => AtEntry(fs, d, i)
    case Unnaming(d, i, n) => AtEntry(fs, d, i) && n in fs
    case Removing(d, i, _) => AtEntry(fs, d, i)
    case Checking(d, i, n) => AtEntry(fs, d, i) && n in fs
    case Emptying(d, i, n, len, at) =>
      AtEntry(fs, d, i) && n in fs && fs[n].dir && n != d && 2 <= at <= len <= |fs[n].entries|
  }

  /** What sleeping calls hold is there and counted as in use. */
  ghost predicate AllHeld(s: State) {
    && (forall p :: p in s.pending ==> Held(s.fs, s.pending[p]))
    && (forall n :: n in s.fs ==> s.fs[n].users >= Holders(s.pending, n))
  }

  ghost predicate Good(s: State) { Inv(s.fs) && AllHeld(s) && !s.lost }

  /** The map of directory d changes at one name; the others stay as they are. */
  ghost predicate Renamed(fs: Fs, fs': Fs, d: int, nm: Name, n: int) {
    && d in fs && d in fs'
    && (forall x :: x in fs && x in fs' && x != d ==> fs'[x].entries == fs[x].entries)
    && forall m :: Lookup(fs'[d].entries, m) == if m == nm then n else Lookup(fs[d].entries, m)
  }

  /* ---- what the calls do, as steps between states ---- */

  predicate CanBegin(s: State, p: int, c: Call) {
    && p !in s.pending && Makes(c) && c.d in s.fs && s.fs[c.d].dir && (c.name == [] || Plain(c.name))
    && (c.Linking? ==> c.n in s.fs)
  }

  function Hold(fs: Fs, c: Call): Fs
    requires Makes(c) && c.d in fs && (c.Linking? ==> c.n in fs)
  {
    if c.Linking? then Using(Using(fs, c.d), c.n) else Using(fs, c.d)
  }

  /** The first half of a call that makes a name: refused, or asleep (0). */
  ghost predicate Began(a: State, p: int, c: Call, atRoot: bool, r: int, b: State)
    requires CanBegin(a, p, c)
  {
    if c.Linking? && a.fs[c.n].dir then r == -EPERM && b == a
    else if c.name == [] then
      b == a && r == if c.Linking? then -EPERM else if c.Creating? && c.stays then -EISDIR else -ENOENT
    else if HasName(a.fs[c.d].entries, Stored(Sought(c.name, atRoot))) then r == -EEXIST && b == a
    else r == 0 && b == a.(fs := Hold(a.fs, c), pending := a.pending[p := c])
  }

  /** n is the inode that new_inode found; counts stay below 256. */
  predicate CanFinish(s: State, p: int, n: int) {
    && p in s.pending && Makes(s.pending[p]) && Held(s.fs, s.pending[p])
    && var c := s.pending[p];
       if c.Linking? then s.fs[c.n].nlinks < 255 else n !in s.fs && n != 0 && (c.MakingDir? ==> s.fs[c.d].nlinks < 255)
  }

  /** iput of a directory, which always has a link. */
  function Unused(fs: Fs, d: int): Fs
    requires d in fs
  {
    fs[d := fs[d].(users := if fs[d].users > 0 then fs[d].users - 1 else 0)]
  }

  function Entered(fs: Fs, c: Call, i: nat, n: int): Fs
    requires Makes(c) && Held(fs, c) && i <= |fs[c.d].entries| && (!c.Linking? ==> n !in fs)
  {
    match c
    case Creating(d, name, stays) =>
      var e := WithFile(fs[n := FRESH], d, i, name, n);
      Unused(if stays then e else Unused(e, n), d)
    case Linking(d, name, f) => Unused(Unused(WithFile(fs, d, i, name, f), d), f)
    case MakingDir(d, name) => Unused(WithDir(fs, d, i, name, n), d)
    case _ => fs
  }

  /** The call gives up and lets go of what it holds. */
  function LetGo(fs: Fs, c: Call): Fs
    requires Held(fs, c) && !c.Opening?
  {
    if HoldsSome(c) then Left(Unused(fs, c.d), c.n) else Unused(fs, c.d)
  }

  predicate HoldsSome(c: Call) { c.Linking? || c.Unnaming? || c.Checking? || c.Emptying? }

  ghost predicate Refused(a: State, p: int, b: State)
    requires p in a.pending && !a.pending[p].Opening?
  {
    Held(a.fs, a.pending[p]) && b == a.(fs := LetGo(a.fs, a.pending[p]), pending := a.pending - {p})
  }

  function Target(c: Call, n: int): int { if c.Linking? then c.n else n }

  /** The second half: the name goes to the first vacant place, whatever has
      happened meanwhile; mkdir is given room. */
  ghost predicate Finished(a: State, p: int, n: int, room: bool, r: int, b: State)
    requires CanFinish(a, p, n)
  {
    exists i: nat :: FirstVacant(a.fs[a.pending[p].d].entries, i) && FinishedWith(a, p, n, room, i, r, b)
  }

  ghost predicate FinishedWith(a: State, p: int, n: int, room: bool, i: nat, r: int, b: State)
    requires CanFinish(a, p, n)
  {
    var c := a.pending[p];
    && i <= |a.fs[c.d].entries|
    && if NoRoom(a.fs[c.d].entries, i, room) && !c.MakingDir? then r == -ENOSPC && Refused(a, p, b)
       else r == 0 && b == a.(fs := Entered(a.fs, c, i, n), pending := a.pending - {p})
  }

  /** A call whose inode new_inode has yet to find. */
  predicate NeedsInode(s: State, p: int) {
    p in s.pending && Makes(s.pending[p]) && Held(s.fs, s.pending[p]) && !s.pending[p].Linking?
  }

  predicate AtDir(fs: Fs, d: int, name: Name) { d in fs && fs[d].dir && (name == [] || Plain(name)) }

  predicate CanSearch(s: State, p: int, d: int, name: Name) { p !in s.pending && AtDir(s.fs, d, name) }

  /** unlink and rmdir look for the name and go to sleep in iget. */
  ghost predicate Searched(a: State, p: int, d: int, name: Name, atRoot: bool, rmdir: bool, r: int, b: State)
    requires CanSearch(a, p, d, name)
  {
    var entries, nm := a.fs[d].entries, Stored(Sought(name, atRoot));
    if !HasName(entries, nm) then r == -ENOENT && b == a
    else r == 0 && exists i: nat :: i < |entries| && IsEntry(entries, nm, i) && Found(a, p, d, i, rmdir, b)
  }

  ghost predicate Found(a: State, p: int, d: int, i: nat, rmdir: bool, b: State)
    requires AtEntry(a.fs, d, i)
  {
    var n := a.fs[d].entries[i].ino;
    b == a.(fs := Using(a.fs, d), pending := a.pending[p := if rmdir then Removing(d, i, n) else Unlinking(d, i, n)])
  }

  /** open of what is there; an empty name means the directory itself. */
  ghost predicate OpenBegun(a: State, p: int, d: int, name: Name, atRoot: bool, writing: bool, r: int, b: State)
    requires CanSearch(a, p, d, name)
  {
    if name == [] then
      if writing then r == -EISDIR && b == a else r == 0 && b == a.(fs := Using(a.fs, d))
    else
      var n := Lookup(a.fs[d].entries, Stored(Sought(name, atRoot)));
      if n == 0 then r == -ENOENT && b == a
      else r == 0 && b == a.(pending := a.pending[p := Opening(n, writing)])
  }

  /** iget has found the inode, if it is still there. */
  ghost predicate Got(a: State, p: int, r: int, b: State)
    requires p in a.pending && Waits(a.pending[p])
  {
    var c := a.pending[p];
    if c.n !in a.fs then r == 0 && b == a.(lost := true)
    else if c.Opening? then
      if a.fs[c.n].dir && c.writing then r == -EPERM && b == a.(pending := a.pending - {p})
      else r == 0 && b == a.(fs := Using(a.fs, c.n), pending := a.pending - {p})
    else r == 0 && b == a.(fs := Using(a.fs, c.n), pending := a.pending[p := Arrived(c)])
  }

  function Arrived(c: Call): Call
    requires c.Unlinking? || c.Removing?
  {
    if c.Unlinking? then Unnaming(c.d, c.i, c.n) else Checking(c.d, c.i, c.n)
  }

  /** What unlink leaves: its entry is cleared, whatever it names by now. */
  function Unnamed(fs: Fs, d: int, i: nat, n: int): Fs
    requires AtEntry(fs, d, i) && n in fs && n != d
  {
    Unused(Left(WithoutName(fs, d, i, n), n), d)
  }

  ghost predicate UnnameDone(a: State, p: int, r: int, b: State)
    requires p in a.pending && a.pending[p].Unnaming? && Held(a.fs, a.pending[p])
  {
    var Unnaming(d, i, n) := a.pending[p];
    if a.fs[n].dir then r == -EPERM && Refused(a, p, b)
    else r == 0 && b == a.(fs := Unnamed(a.fs, d, i, n), pending := a.pending - {p})
  }

  /** The checks of rmdir, up to the first sleep in empty_dir. */
  ghost predicate Checked(a: State, p: int, r: int, b: State)
    requires p in a.pending && a.pending[p].Checking? && Held(a.fs, a.pending[p])
  {
    var Checking(d, i, n) := a.pending[p];
    if a.fs[n].users > 1 || n == d then r == -EPERM && Refused(a, p, b)
    else if !a.fs[n].dir then r == -ENOTDIR && Refused(a, p, b)
    else r == 0 && b == a.(pending := a.pending[p := Emptying(d, i, n, |a.fs[n].entries|, 2)])
  }

  /** The end of the block that entry at is in, or of the entries. */
  function NextStop(len: nat, at: nat): nat {
    var stop := (at / DIR_ENTRIES_PER_BLOCK + 1) * DIR_ENTRIES_PER_BLOCK;
    if stop < len then stop else len
  }

  predicate AllVacant(entries: seq<Entry>, from: nat, to: nat) {
    forall j :: from <= j < to && j < |entries| ==> entries[j].ino == 0
  }

  /** What rmdir leaves: its entry is cleared and inode n has no links, whatever they
      are by now. */
  function Removed(fs: Fs, d: int, i: nat, n: int): Fs
    requires AtEntry(fs, d, i) && n in fs && n != d
  {
    var entries := fs[d].entries[i := fs[d].entries[i].(ino := 0)];
    var fewer := if fs[d].nlinks > 0 then fs[d].nlinks - 1 else 0;
    Left(Unused(fs[n := fs[n].(nlinks := 0)][d := fs[d].(entries := entries, nlinks := fewer)], d), n)
  }

  /** empty_dir looks through one more block; after the last one rmdir is done. */
  ghost predicate Scanned(a: State, p: int, r: int, b: State)
    requires p in a.pending && a.pending[p].Emptying? && Held(a.fs, a.pending[p])
  {
    var Emptying(d, i, n, len, at) := a.pending[p];
    var stop := NextStop(len, at);
    if !AllVacant(a.fs[n].entries, at, stop) then r == -ENOTEMPTY && Refused(a, p, b)
    else if stop < len then r == 0 && b == a.(pending := a.pending[p := Emptying(d, i, n, len, stop)])
    else r == 0 && b == a.(fs := Removed(a.fs, d, i, n), pending := a.pending - {p})
  }

  datatype Op =
    | Begins(p: int, call: Call, atRoot: bool)
    | Finishes(p: int, n: int, room: bool)
    | NoInode(p: int)
    | Unlinks(p: int, d: int, name: Name, atRoot: bool)
    | Rmdirs(p: int, d: int, name: Name, atRoot: bool)
    | Opens(p: int, d: int, name: Name, atRoot: bool, writing: bool)
    | Gets(p: int)
    | Unnames(p: int)
    | Checks(p: int)
    | Scans(p: int)
    | Closes(n: int)

  predicate CanGet(s: State, p: int) { p in s.pending && Waits(s.pending[p]) }

  predicate CanUnname(s: State, p: int) { p in s.pending && s.pending[p].Unnaming? && Held(s.fs, s.pending[p]) }

  predicate CanCheck(s: State, p: int) { p in s.pending && s.pending[p].Checking? && Held(s.fs, s.pending[p]) }

  predicate CanScan(s: State, p: int) { p in s.pending && s.pending[p].Emptying? && Held(s.fs, s.pending[p]) }

  /** One step of any process; r is what the call returns, 0 where it sleeps or
      cannot be made. */
  ghost predicate Stepped(op: Op, a: State, r: int, b: State) {
    match op
    case Begins(p, c, atRoot) => if CanBegin(a, p, c) then Began(a, p, c, atRoot, r, b) else r == 0 && b == a
    case Finishes(p, n, room) => if CanFinish(a, p, n) then Finished(a, p, n, room, r, b) else r == 0 && b == a
    case NoInode(p) => if NeedsInode(a, p) then r == -ENOSPC && Refused(a, p, b) else r == 0 && b == a
    case Unlinks(p, d, name, atRoot) =>
      if CanSearch(a, p, d, name) then Searched(a, p, d, name, atRoot, false, r, b) else r == 0 && b == a
    case Rmdirs(p, d, name, atRoot) =>
      if CanSearch(a, p, d, name) then Searched(a, p, d, name, atRoot, true, r, b) else r == 0 && b == a
    case Opens(p, d, name, atRoot, writing) =>
      if CanSearch(a, p, d, name) then OpenBegun(a, p, d, name, atRoot, writing, r, b) else r == 0 && b == a
    case Gets(p) => if CanGet(a, p) then Got(a, p, r, b) else r == 0 && b == a
    case Unnames(p) => if CanUnname(a, p) then UnnameDone(a, p, r, b) else r == 0 && b == a
    case Checks(p) => if CanCheck(a, p) then Checked(a, p, r, b) else r == 0 && b == a
    case Scans(p) => if CanScan(a, p) then Scanned(a, p, r, b) else r == 0 && b == a
    case Closes(n) =>
      r == 0 && b == if n in a.fs && a.fs[n].users > Holders(a.pending, n) then a.(fs := Left(a.fs, n)) else a
  }

  /** The entry still names the file, or the file has lost its last name and the entry
      is vacant. */
  predicate StillNamed(fs: Fs, d: int, i: nat, n: int)
    requires AtEntry(fs, d, i) && n in fs
  {
    fs[d].entries[i].ino == n || (fs[d].entries[i].ino == 0 && fs[n].nlinks == 0)
  }

  /** The entry still names the directory, which is empty and used by nobody else. */
  predicate StillEmpty(fs: Fs, d: int, i: nat, n: int)
    requires AtEntry(fs, d, i) && n in fs
  {
    fs[d].entries[i].ino == n && EmptyDir(fs, n) && fs[n].users == 1
  }

  /** This step relies on what is no longer so: it enters a name that has come into
      its directory while the call slept, looks for an inode that has gone, or clears
      an entry that means something else by now. */
  predicate Breaks(op: Op, a: State, r: int) {
    match op
    case Finishes(p, n, _) =>
      CanFinish(a, p, n) && r == 0 && HasName(a.fs[a.pending[p].d].entries, Stored(a.pending[p].name))
    case Gets(p) => CanGet(a, p) && a.pending[p].n !in a.fs
    case Unnames(p) =>
      CanUnname(a, p) && r == 0 && var c := a.pending[p]; !StillNamed(a.fs, c.d, c.i, c.n)
    case Scans(p) =>
      CanScan(a, p) && r == 0
      && var c := a.pending[p]; NextStop(c.len, c.at) == c.len && !StillEmpty(a.fs, c.d, c.i, c.n)
    case _ => false
  }

  /* ---- what is held stays there ---- */

  lemma HoldersPut(pending: map<int, Call>, p: int, c: Call, x: int)
    requires p !in pending
    ensures Holders(pending[p := c], x) == Holders(pending, x) + Weight(c, x)
  {
    var ds, ns := DirHolders(pending, x), InodeHolders(pending, x);
    assert DirHolders(pending[p := c], x) == if HoldsDir(c, x) then ds + {p} else ds;
    assert InodeHolders(pending[p := c], x) == if HoldsInode(c, x) then ns + {p} else ns;
  }

  lemma HoldersDrop(pending: map<int, Call>, p: int, x: int)
    requires p in pending
    ensures Holders(pending, x) == Holders(pending - {p}, x) + Weight(pending[p], x)
  {
    HoldersPut(pending - {p}, p, pending[p], x);
    assert pending == (pending - {p})[p := pending[p]];
  }

  lemma HoldersChange(pending: map<int, Call>, p: int, c: Call, x: int)
    requires p in pending
    ensures Holders(pending[p := c], x) + Weight(pending[p], x) == Holders(pending, x) + Weight(c, x)
  {
    HoldersDrop(pending, p, x);
    HoldersPut(pending - {p}, p, c, x);
    assert pending[p := c] == (pending - {p})[p := c];
  }

  /** Nothing is held that is not there. */
  lemma NoHolders(s: State, x: int)
    requires AllHeld(s) && x !in s.fs
    ensures Holders(s.pending, x) == 0
  {
    forall p ensures p !in DirHolders(s.pending, x) && p !in InodeHolders(s.pending, x) {
      assert p in s.pending ==> Held(s.fs, s.pending[p]);
    }
  }

  lemma Holds(s: State, p: int)
    requires p in s.pending
    ensures forall x :: Weight(s.pending[p], x) > 0 ==> Holders(s.pending, x) > 0
  {
    forall x | Weight(s.pending[p], x) > 0 ensures Holders(s.pending, x) > 0 {
      HoldersDrop(s.pending, p, x);
    }
  }

  /** What x is for those who hold it. */
  ghost predicate SameFor(fs: Fs, fs': Fs, x: int) {
    x in fs && x in fs' && fs'[x].dir == fs[x].dir && |fs[x].entries| <= |fs'[x].entries|
  }

  lemma HeldStays(fs: Fs, fs': Fs, c: Call)
    requires Held(fs, c) && forall x :: Weight(c, x) > 0 && x in fs ==> SameFor(fs, fs', x)
    ensures Held(fs', c)
  {
    hide Plain;
    if !c.Opening? { assert Weight(c, c.d) > 0; }
    if HoldsSome(c) { assert Weight(c, c.n) > 0; }
  }

  /** What was held is still there, with users enough. */
  lemma HeldKept(a: State, b: State)
    requires AllHeld(a)
    requires forall p :: p in b.pending ==>
        (p in a.pending && b.pending[p] == a.pending[p]) || Held(b.fs, b.pending[p])
    requires forall x :: x in a.fs && Holders(b.pending, x) > 0 ==> SameFor(a.fs, b.fs, x)
    requires forall x :: x in b.fs ==> b.fs[x].users >= Holders(b.pending, x)
    ensures AllHeld(b)
  {
    hide Held, Holders, SameFor;
    forall p | p in b.pending ensures Held(b.fs, b.pending[p]) {
      if p in a.pending && b.pending[p] == a.pending[p] {
        assert Held(a.fs, a.pending[p]);
        Holds(b, p);
        HeldStays(a.fs, b.fs, b.pending[p]);
      }
    }
  }

  /** A call is over: what it held has as many users less. */
  ghost predicate Released(fs: Fs, fs': Fs, c: Call) {
    && (forall x :: x in fs && x in fs' ==> SameFor(fs, fs', x) && fs'[x].users + Weight(c, x) >= fs[x].users)
    && (forall x :: x in fs && x !in fs' ==> fs[x].users <= Weight(c, x))
  }

  lemma ReleasedHeld(a: State, p: int, b: State)
    requires AllHeld(a) && p in a.pending && Released(a.fs, b.fs, a.pending[p]) && b.pending == a.pending - {p}
    ensures AllHeld(b)
  {
    hide Held, Holders, SameFor, Weight;
    forall x
      ensures x in a.fs && Holders(b.pending, x) > 0 ==> x in b.fs
      ensures x in b.fs ==> b.fs[x].users >= Holders(b.pending, x)
    {
      HoldersDrop(a.pending, p, x);
      if x !in a.fs { NoHolders(a, x); }
    }
    HeldKept(a, b);
  }

  lemma HoldKeeps(a: State, p: int, c: Call)
    requires Good(a) && CanBegin(a, p, c) && c.name != [] && (c.Linking? ==> !a.fs[c.n].dir)
    ensures Good(a.(fs := Hold(a.fs, c), pending := a.pending[p := c]))
  {
    hide Inv, Holders;
    UsersKeep(a.fs, c.d, a.fs[c.d].users + 1);
    if c.Linking? { UsersKeep(Using(a.fs, c.d), c.n, a.fs[c.n].users + 1); }
    var b := a.(fs := Hold(a.fs, c), pending := a.pending[p := c]);
    forall x | x in b.fs ensures b.fs[x].users >= Holders(b.pending, x) { HoldersPut(a.pending, p, c, x); }
    HeldKept(a, b);
  }

  /** A call falls asleep with an inode more in hand than before, or as many. */
  lemma TakesKeeps(a: State, p: int, c: Call, x: int)
    requires Good(a) && x in a.fs && Held(a.fs, c)
    requires forall y :: Weight(c, y) <= (if p in a.pending then Weight(a.pending[p], y) else 0)
                                         + if y == x then 1 else 0
    ensures Good(a.(fs := Using(a.fs, x), pending := a.pending[p := c]))
  {
    hide Inv, Holders, Weight;
    UsersKeep(a.fs, x, a.fs[x].users + 1);
    var b := a.(fs := Using(a.fs, x), pending := a.pending[p := c]);
    HeldUsing(a.fs, x, c);
    forall y | y in b.fs ensures b.fs[y].users >= Holders(b.pending, y) {
      if p in a.pending { HoldersChange(a.pending, p, c, y); } else { HoldersPut(a.pending, p, c, y); }
    }
    hide Held;
    HeldKept(a, b);
  }

  lemma HeldUsing(fs: Fs, x: int, c: Call)
    requires x in fs && Held(fs, c)
    ensures Held(Using(fs, x), c)
  {
    HeldStays(fs, Using(fs, x), c);
  }

  /** A call goes on with the same in hand. */
  lemma GoesOn(a: State, p: int, c: Call)
    requires Good(a) && p in a.pending && Held(a.fs, c)
    requires forall y :: Weight(c, y) == Weight(a.pending[p], y)
    ensures Good(a.(pending := a.pending[p := c]))
  {
    hide Inv, Holders, Weight, Held;
    var b := a.(pending := a.pending[p := c]);
    forall y | y in b.fs ensures b.fs[y].users >= Holders(b.pending, y) { HoldersChange(a.pending, p, c, y); }
    HeldKept(a, b);
  }

  lemma UnusedKeeps(fs: Fs, d: int)
    requires Inv(fs) && d in fs && fs[d].nlinks > 0
    ensures Inv(Unused(fs, d))
  {
    hide Inv;
    UsersKeep(fs, d, if fs[d].users > 0 then fs[d].users - 1 else 0);
  }

  lemma UnusedBack(fs: Fs, d: int)
    requires d in fs && fs[d].dir && Inv(Unused(fs, d))
    ensures Inv(fs)
  {
    hide Inv;
    DirLinks(Unused(fs, d), d);
    UsersKeep(Unused(fs, d), d, fs[d].users);
    assert fs == Unused(fs, d)[d := Unused(fs, d)[d].(users := fs[d].users)];
  }

  /** A directory has a link: its own ".". */
  lemma DirLinks(fs: Fs, d: int)
    requires Inv(fs) && d in fs && fs[d].dir
    ensures fs[d].nlinks > 0 && d != 0 && Unique(fs[d].entries)
  {
    hide Dirs, AllLinked;
    NamedByItself(fs, d);
    GoodEntries(fs, d);
  }

  lemma FileBare(fs: Fs, n: int)
    requires Inv(fs) && n in fs
    ensures n != 0 && (!fs[n].dir ==> fs[n].entries == [])
  {
    hide Refs;
    assert Linked(fs, n);
  }

  lemma LetGoReleases(fs: Fs, c: Call)
    requires Held(fs, c) && !c.Opening? && (forall x :: x in fs ==> fs[x].users >= Weight(c, x)) && fs[c.d].nlinks > 0
    ensures Released(fs, LetGo(fs, c), c)
  {
    hide Plain;
  }

  lemma UsersEnough(a: State, p: int)
    requires AllHeld(a) && p in a.pending
    ensures forall x :: x in a.fs ==> a.fs[x].users >= Weight(a.pending[p], x)
  {
    hide Held, Weight, Holders;
    forall x | x in a.fs ensures a.fs[x].users >= Weight(a.pending[p], x) { HoldersDrop(a.pending, p, x); }
  }

  lemma RefusedGood(a: State, p: int, b: State)
    requires Good(a) && p in a.pending && !a.pending[p].Opening? && Refused(a, p, b)
    ensures Good(b)
  {
    hide Inv, Holders, Released, Weight;
    var c := a.pending[p];
    DirLinks(a.fs, c.d);
    UnusedKeeps(a.fs, c.d);
    if HoldsSome(c) { LeftKeeps(Unused(a.fs, c.d), c.n); }
    UsersEnough(a, p);
    LetGoReleases(a.fs, c);
    hide Held;
    ReleasedHeld(a, p, b);
  }

  /* ---- entering a name ---- */

  /** What a finished call leaves, one inode at a time. */
  lemma EnteredIs(fs: Fs, c: Call, i: nat, n: int)
    requires Makes(c) && Held(fs, c) && i <= |fs[c.d].entries| && (!c.Linking? ==> n !in fs)
    ensures var fs' := Entered(fs, c, i, n);
      && fs'.Keys == fs.Keys + {Target(c, n)}
      && (forall x :: x in fs ==> fs'[x].dir == fs[x].dir)
      && (forall x :: x in fs ==> fs'[x].users + Weight(c, x) >= fs[x].users)
      && (forall x :: x in fs ==>
            fs'[x].entries == if x == c.d then Put(fs[x].entries, i, Entry(Target(c, n), Stored(c.name)))
                              else fs[x].entries)
  {
    hide Stored, Put, Plain;
  }

  /** The counts and the shape of the directories survive a new name that is absent. */
  lemma EnteredInv(fs: Fs, c: Call, i: nat, n: int)
    requires Inv(fs) && Makes(c) && Held(fs, c) && Vacant(fs[c.d].entries, i)
             && !HasName(fs[c.d].entries, Stored(c.name))
    requires if c.Linking? then fs[c.n].nlinks < 255 else n !in fs && n != 0 && (c.MakingDir? ==> fs[c.d].nlinks < 255)
    ensures Inv(Entered(fs, c, i, n))
  {
    hide Inv, HasName, Stored, Put, Vacant, Plain;
    DirLinks(fs, c.d);
    match c
    case Creating(d, name, stays) =>
      FreshKeeps(fs, n);
      EnterKeeps(fs[n := FRESH], d, i, name, n);
      var e := WithFile(fs[n := FRESH], d, i, name, n);
      if !stays { UnusedKeeps(e, n); }
      UnusedKeeps(if stays then e else Unused(e, n), d);
    case Linking(d, name, f) =>
      EnterKeeps(fs, d, i, name, f);
      UnusedKeeps(WithFile(fs, d, i, name, f), d);
      UnusedKeeps(Unused(WithFile(fs, d, i, name, f), d), f);
    case MakingDir(d, name) =>
      MkdirKeeps(fs, d, i, name, n);
      UnusedKeeps(WithDir(fs, d, i, name, n), d);
  }

  lemma EnteredHeld(a: State, p: int, i: nat, n: int)
    requires AllHeld(a) && CanFinish(a, p, n) && i <= |a.fs[a.pending[p].d].entries|
    ensures AllHeld(a.(fs := Entered(a.fs, a.pending[p], i, n), pending := a.pending - {p}))
  {
    hide Entered, Held, Holders, Weight;
    EnteredIs(a.fs, a.pending[p], i, n);
    ReleasedHeld(a, p, a.(fs := Entered(a.fs, a.pending[p], i, n), pending := a.pending - {p}));
  }

  /** The names and the counts are right after the second half of a call exactly
      when nobody entered the name while the call slept. */
  lemma FinishExact(a: State, p: int, n: int, room: bool, b: State)
    requires Good(a) && CanFinish(a, p, n) && Finished(a, p, n, room, 0, b)
    ensures Good(b) <==> !HasName(a.fs[a.pending[p].d].entries, Stored(a.pending[p].name))
    ensures HasName(a.fs[a.pending[p].d].entries, Stored(a.pending[p].name)) ==>
        a.pending[p].d in b.fs && !Unique(b.fs[a.pending[p].d].entries)
    ensures Good(b) ==> Renamed(a.fs, b.fs, a.pending[p].d, Stored(a.pending[p].name), Target(a.pending[p], n))
  {
    hide Inv, HasName, Stored, Put, Entered, Lookup, NoRoom, AllHeld;
    var c := a.pending[p];
    var entries := a.fs[c.d].entries;
    var i: nat :| FirstVacant(entries, i) && FinishedWith(a, p, n, room, i, 0, b);
    DirLinks(a.fs, c.d);
    TargetThere(a, p, n);
    PutExact(entries, i, c.name, Target(c, n));
    EnteredIs(a.fs, c, i, n);
    EnteredHeld(a, p, i, n);
    if HasName(entries, Stored(c.name)) {
      NotUnique(b.fs, c.d);
    } else {
      EnteredInv(a.fs, c, i, n);
      LookupPut(entries, i, c.name, Target(c, n));
    }
  }

  lemma TargetThere(a: State, p: int, n: int)
    requires Inv(a.fs) && CanFinish(a, p, n)
    ensures Target(a.pending[p], n) != 0
  { }

  lemma NotUnique(fs: Fs, d: int)
    requires d in fs && fs[d].dir && !Unique(fs[d].entries)
    ensures !Inv(fs)
  {
    if Inv(fs) { GoodEntries(fs, d); }
  }

  /* ---- taking a name away ---- */

  lemma UnnamedReleases(fs: Fs, c: Call)
    requires c.Unnaming? && Held(fs, c) && c.n != c.d && fs[c.d].nlinks > 0
             && forall x :: x in fs ==> fs[x].users >= Weight(c, x)
    ensures Released(fs, Unnamed(fs, c.d, c.i, c.n), c)
  { }

  /** Everything is right after unlink exactly when its entry still names the file,
      or the file had lost its last name and the entry is vacant. */
  lemma UnnameExact(a: State, p: int, b: State)
    requires Good(a) && CanUnname(a, p) && UnnameDone(a, p, 0, b)
    ensures var c := a.pending[p];
      && (Good(b) <==> StillNamed(a.fs, c.d, c.i, c.n))
      && (a.fs[c.d].entries[c.i].ino == c.n ==> Renamed(a.fs, b.fs, c.d, a.fs[c.d].entries[c.i].name, 0))
  {
    hide Inv, Holders, Lookup, Weight, Released;
    var Unnaming(d, i, n) := a.pending[p];
    FileBare(a.fs, n);
    DirLinks(a.fs, d);
    UsersEnough(a, p);
    assert Weight(a.pending[p], n) > 0 by { HoldsItsInode(a.pending[p]); }
    var w := WithoutName(a.fs, d, i, n);
    ClearExact(a.fs, d, i, n);
    if StillNamed(a.fs, d, i, n) {
      LeftKeeps(w, n);
      DirLinks(Left(w, n), d);
      UnusedKeeps(Left(w, n), d);
      UnnamedReleases(a.fs, a.pending[p]);
      ReleasedHeld(a, p, b);
    } else if Inv(b.fs) {
      UnusedBack(Left(w, n), d);
      LeftBack(w, n);
    }
    if a.fs[d].entries[i].ino == n { LookupClear(a.fs[d].entries, i); }
  }

  lemma HoldsItsInode(c: Call)
    requires HoldsSome(c)
    ensures Weight(c, c.n) > 0
  { }

  lemma RemovedReleases(fs: Fs, c: Call)
    requires c.Emptying? && Held(fs, c) && forall x :: x in fs ==> fs[x].users >= Weight(c, x)
    requires fs[c.d].nlinks > 1
    ensures Released(fs, Removed(fs, c.d, c.i, c.n), c)
  { }

  lemma RemovedIs(fs: Fs, d: int, i: nat, n: int)
    requires AtEntry(fs, d, i) && n in fs && n != d && fs[n].users > 0
    ensures fs[n].users == 1 ==>
        d in WithoutDir(fs, d, i, n) && Removed(fs, d, i, n) == Unused(WithoutDir(fs, d, i, n), d)
    ensures fs[n].users > 1 ==>
        var fs' := Removed(fs, d, i, n); n in fs' && fs'[n].dir == fs[n].dir && fs'[n].nlinks == 0
  { }

  lemma NoLinks(fs: Fs, n: int)
    requires n in fs && fs[n].dir && fs[n].nlinks == 0
    ensures !Inv(fs)
  {
    if Inv(fs) { NamedByItself(fs, n); }
  }

  /** Everything is right after rmdir exactly when its entry still names the
      directory, which is empty and used by nobody else. */
  lemma RemoveIsExact(a: State, p: int, b: State)
    requires Good(a) && CanScan(a, p)
    requires var c := a.pending[p];
      b == a.(fs := Removed(a.fs, c.d, c.i, c.n), pending := a.pending - {p})
    ensures var c := a.pending[p];
      && (Good(b) <==> StillEmpty(a.fs, c.d, c.i, c.n))
      && (Good(b) ==> Renamed(a.fs, b.fs, c.d, a.fs[c.d].entries[c.i].name, 0))
  {
    hide Inv, Holders, Lookup, Weight, Released, EmptyDir, Removed, WithoutDir;
    var Emptying(d, i, n, _, _) := a.pending[p];
    DirLinks(a.fs, d);
    UsersEnough(a, p);
    assert Weight(a.pending[p], n) > 0 by { HoldsItsInode(a.pending[p]); }
    RemovedIs(a.fs, d, i, n);
    RemoveExact(a.fs, d, i, n);
    WithoutDirIs(a.fs, d, i, n);
    if StillEmpty(a.fs, d, i, n) {
      RmdirKeeps(a.fs, d, i, n);
      DirLinks(WithoutDir(a.fs, d, i, n), d);
      UnusedKeeps(WithoutDir(a.fs, d, i, n), d);
      RemovedReleases(a.fs, a.pending[p]);
      ReleasedHeld(a, p, b);
      FileBare(a.fs, n);
      LookupClear(a.fs[d].entries, i);
    } else if a.fs[n].users > 1 {
      NoLinks(b.fs, n);
    } else if Inv(b.fs) {
      UnusedBack(WithoutDir(a.fs, d, i, n), d);
    }
  }

  lemma CheckedGood(a: State, p: int, r: int, b: State)
    requires Good(a) && CanCheck(a, p) && Checked(a, p, r, b)
    ensures Good(b)
  {
    hide Inv, AllHeld, LetGo;
    if r == 0 {
      var Checking(d, i, n) := a.pending[p];
      DotsFirst(a.fs, n);
      GoesOn(a, p, Emptying(d, i, n, |a.fs[n].entries|, 2));
    } else {
      RefusedGood(a, p, b);
    }
  }

  lemma ScannedExact(a: State, p: int, r: int, b: State)
    requires Good(a) && CanScan(a, p) && Scanned(a, p, r, b)
    ensures Good(b) <==> !Breaks(Scans(p), a, r)
  {
    hide Inv, AllHeld, LetGo, Removed, StillEmpty, AllVacant;
    var Emptying(d, i, n, len, at) := a.pending[p];
    if r != 0 {
      RefusedGood(a, p, b);
    } else if NextStop(len, at) < len {
      GoesOn(a, p, Emptying(d, i, n, len, NextStop(len, at)));
    } else {
      RemoveIsExact(a, p, b);
    }
  }

  lemma GotExact(a: State, p: int, r: int, b: State)
    requires Good(a) && CanGet(a, p) && Got(a, p, r, b)
    ensures Good(b) <==> a.pending[p].n in a.fs
  {
    hide Inv, Holders;
    var c := a.pending[p];
    if c.n in a.fs {
      assert Held(a.fs, c);
      if c.Opening? {
        if r == 0 { UsersKeep(a.fs, c.n, a.fs[c.n].users + 1); }
        ReleasedHeld(a, p, b);
      } else {
        TakesKeeps(a, p, Arrived(c), c.n);
      }
    }
  }

  lemma SearchedGood(a: State, p: int, d: int, name: Name, atRoot: bool, rmdir: bool, r: int, b: State)
    requires Good(a) && CanSearch(a, p, d, name) && Searched(a, p, d, name, atRoot, rmdir, r, b)
    ensures Good(b)
  {
    hide Inv, AllHeld, HasName, Stored, IsEntry;
    if b != a { TakesKeeps(a, p, b.pending[p], d); }
  }

  lemma OpenBegunGood(a: State, p: int, d: int, name: Name, atRoot: bool, writing: bool, r: int, b: State)
    requires Good(a) && CanSearch(a, p, d, name) && OpenBegun(a, p, d, name, atRoot, writing, r, b)
    ensures Good(b)
  {
    hide Inv, Holders, Lookup, Stored;
    if b != a {
      if name == [] {
        UsersKeep(a.fs, d, a.fs[d].users + 1);
      } else {
        forall x | x in b.fs ensures b.fs[x].users >= Holders(b.pending, x) {
          HoldersPut(a.pending, p, b.pending[p], x);
        }
      }
      HeldKept(a, b);
    }
  }

  lemma ClosesGood(a: State, n: int)
    requires Good(a) && n in a.fs && a.fs[n].users > Holders(a.pending, n)
    ensures Good(a.(fs := Left(a.fs, n)))
  {
    hide Inv, Holders;
    LeftKeeps(a.fs, n);
    HeldKept(a, a.(fs := Left(a.fs, n)));
  }

  /** Every step from a good state leads to a good state, except one that relies on
      what is no longer so; that one never does. */
  lemma StepExact(op: Op, a: State, r: int, b: State)
    requires Good(a) && Stepped(op, a, r, b)
    ensures Good(b) <==> !Breaks(op, a, r)
  {
    hide Inv, AllHeld, HasName, Stored, Held, Hold, LetGo, Using, Left, Lookup, Entered, Unnamed, Removed, Searched,
         OpenBegun, Checked, Scanned, StillNamed, StillEmpty, AllVacant;
    match op
    case Begins(p, c, atRoot) =>
      if CanBegin(a, p, c) && b != a { HoldKeeps(a, p, c); }
    case Finishes(p, n, room) =>
      if CanFinish(a, p, n) {
        if r == 0 {
          FinishExact(a, p, n, room, b);
        } else {
          RefusedGood(a, p, b);
        }
      }
    case NoInode(p) => if NeedsInode(a, p) { RefusedGood(a, p, b); }
    case Unlinks(p, d, name, atRoot) =>
      if CanSearch(a, p, d, name) { SearchedGood(a, p, d, name, atRoot, false, r, b); }
    case Rmdirs(p, d, name, atRoot) =>
      if CanSearch(a, p, d, name) { SearchedGood(a, p, d, name, atRoot, true, r, b); }
    case Opens(p, d, name, atRoot, writing) =>
      if CanSearch(a, p, d, name) { OpenBegunGood(a, p, d, name, atRoot, writing, r, b); }
    case Gets(p) => if CanGet(a, p) { GotExact(a, p, r, b); }
    case Unnames(p) =>
      if CanUnname(a, p) {
        if r == 0 { UnnameExact(a, p, b); } else { RefusedGood(a, p, b); }
      }
    case Checks(p) => if CanCheck(a, p) { CheckedGood(a, p, r, b); }
    case Scans(p) => if CanScan(a, p) { ScannedExact(a, p, r, b); }
    case Closes(n) => if n in a.fs && a.fs[n].users > Holders(a.pending, n) { ClosesGood(a, n); }
  }

  /** A run that stops after a step that relies on what is no longer so, if one
      does. */
  ghost predicate IsRun(ops: seq<Op>, rs: seq<int>, states: seq<State>) {
    && |rs| <= |ops| && |states| == |rs| + 1
    && (forall k :: 0 <= k < |rs| ==> Good(states[k]) && Stepped(ops[k], states[k], rs[k], states[k + 1]))
    && (rs != [] ==> var k := |rs| - 1; Good(states[k + 1]) <==> !Breaks(ops[k], states[k], rs[k]))
  }

  /* ---- and it can happen ---- */

  const LETTER: Name := [97]
  const OTHER: Name := [98]

  /** Two processes that make the same file in the root directory, both asleep at once. */
  function BothCreate(): seq<Op> {
    var c := Creating(ROOT_INO, LETTER, false);
    [Begins(1, c, false), Begins(2, c, false), Finishes(1, 2, true), Finishes(2, 3, true)]
  }

  /** Every call succeeds, and the root directory then holds the name twice. */
  lemma TwoCreates() returns (states: seq<State>)
    ensures IsRun(BothCreate(), [0, 0, 0, 0], states) && states[0] == State(Bare(), map[], false)
    ensures ROOT_INO in states[4].fs && !Unique(states[4].fs[ROOT_INO].entries) && !Good(states[4])
  {
    hide Inv, AllHeld, Entered, HasName, Stored, NoRoom;
    var c := Creating(ROOT_INO, LETTER, false);
    var s0 := State(Bare(), map[], false);
    BareGood();
    var s1 := State(Hold(s0.fs, c), map[1 := c], false);
    StepExact(BothCreate()[0], s0, 0, s1);
    var s2 := State(Hold(s1.fs, c), map[1 := c, 2 := c], false);
    assert s1.pending[2 := c] == s2.pending;
    StepExact(BothCreate()[1], s1, 0, s2);
    var s3 := State(Entered(s2.fs, c, 2, 2), s2.pending - {1}, false);
    EntersAt(s2, 1, 2, 2, s3);
    StepExact(BothCreate()[2], s2, 0, s3);
    var s4 := State(Entered(s3.fs, c, 3, 3), s3.pending - {2}, false);
    EntersAt(s3, 2, 3, 3, s4);
    StepExact(BothCreate()[3], s3, 0, s4);
    FinishExact(s3, 2, 3, true, s4);
    states := [s0, s1, s2, s3, s4];
  }

  lemma BareGood()
    ensures Good(State(Bare(), map[], false))
    ensures !HasName(Bare()[ROOT_INO].entries, Stored(LETTER)) && Plain(LETTER) && Plain(OTHER)
    ensures Stored(LETTER) != Stored(OTHER)
  {
    RootOnly();
    assert Stored(LETTER)[0] == 97 && Stored(DOT)[0] == 46 && Stored(DOTDOT)[0] == 46 && Stored(OTHER)[0] == 98;
  }

  /** The first file goes to place 2, the second to place 3. */
  lemma EntersAt(a: State, p: int, n: int, i: nat, b: State)
    requires p in a.pending && a.pending[p] == Creating(ROOT_INO, LETTER, false) && ROOT_INO in a.fs
             && a.fs[ROOT_INO].dir
    requires n !in a.fs && n != 0 && |a.fs[ROOT_INO].entries| == i && 2 <= i <= 3
    requires forall j :: 0 <= j < i ==> a.fs[ROOT_INO].entries[j].ino != 0
    requires Plain(LETTER) && b == a.(fs := Entered(a.fs, a.pending[p], i, n), pending := a.pending - {p})
    ensures CanFinish(a, p, n) && Finished(a, p, n, true, 0, b)
    ensures b.fs.Keys == a.fs.Keys + {n} && b.fs[ROOT_INO].dir && |b.fs[ROOT_INO].entries| == i + 1
    ensures b.fs[ROOT_INO].entries == a.fs[ROOT_INO].entries + [Entry(n, Stored(LETTER))]
    ensures HasName(b.fs[ROOT_INO].entries, Stored(LETTER))
  {
    EnteredIs(a.fs, a.pending[p], i, n);
    assert IsEntry(b.fs[ROOT_INO].entries, Stored(LETTER), i);
    hide Entered, Stored, HasName;
    assert FinishedWith(a, p, n, true, i, 0, b);
  }

  /** File 2 under two names in the root directory. */
  function Linked2(): Fs {
    var root := [Entry(ROOT_INO, Stored(DOT)), Entry(ROOT_INO, Stored(DOTDOT)), Entry(2, Stored(LETTER)),
                 Entry(2, Stored(OTHER))];
    map[ROOT_INO := Inode(true, 2, root, 0), 2 := Inode(false, 2, [], 0)]
  }

  lemma Linked2Good()
    ensures Good(State(Linked2(), map[], false)) && Plain(LETTER)
    ensures IsEntry(Linked2()[ROOT_INO].entries, Stored(LETTER), 2)
  {
    hide Inv, Stored;
    BareGood();
    FreshKeeps(Bare(), 2);
    var f0 := Bare()[2 := FRESH];
    EnterKeeps(f0, ROOT_INO, 2, LETTER, 2);
    var f1 := WithFile(f0, ROOT_INO, 2, LETTER, 2);
    OnlyNew(f0[ROOT_INO].entries, 2, LETTER, 2, OTHER);
    EnterKeeps(f1, ROOT_INO, 3, OTHER, 2);
    var f2 := WithFile(f1, ROOT_INO, 3, OTHER, 2);
    UsersKeep(f2, 2, 0);
    assert f2[ROOT_INO].entries == Linked2()[ROOT_INO].entries;
    assert f2[2 := f2[2].(users := 0)] == Linked2();
  }

  lemma OnlyNew(entries: seq<Entry>, i: nat, name: Name, n: int, other: Name)
    requires i == |entries| == 2 && entries[0].name == Stored(DOT) && entries[1].name == Stored(DOTDOT)
    requires name == LETTER && other == OTHER
    ensures !HasName(Put(entries, i, Entry(n, Stored(name))), Stored(other))
  {
    assert Stored(LETTER)[0] == 97 && Stored(DOT)[0] == 46 && Stored(DOTDOT)[0] == 46 && Stored(OTHER)[0] == 98;
  }

  /** Two processes that unlink the same name, both in iget at once. */
  function BothUnlink(): seq<Op> {
    [Unlinks(1, ROOT_INO, LETTER, false), Unlinks(2, ROOT_INO, LETTER, false), Gets(1), Gets(2), Unnames(1), Unnames(2)]
  }

  /** Both succeed; the file has gone, and its other name is still there. */
  lemma TwoUnlinks() returns (states: seq<State>)
    ensures IsRun(BothUnlink(), [0, 0, 0, 0, 0, 0], states) && states[0] == State(Linked2(), map[], false)
    ensures !Good(states[6]) && 2 !in states[6].fs && ROOT_INO in states[6].fs
    ensures |states[6].fs[ROOT_INO].entries| == 4 && states[6].fs[ROOT_INO].entries[3] == Entry(2, Stored(OTHER))
  {
    hide Inv, AllHeld, HasName, Stored, Plain;
    var ops := BothUnlink();
    Linked2Good();
    var c, h := Unlinking(ROOT_INO, 2, 2), Unnaming(ROOT_INO, 2, 2);
    var s0 := State(Linked2(), map[], false);
    var s1 := State(Using(s0.fs, ROOT_INO), s0.pending[1 := c], false);
    SearchedAt(s0, 1, LETTER, 2, false, s1);
    StepExact(ops[0], s0, 0, s1);
    var s2 := State(Using(s1.fs, ROOT_INO), s1.pending[2 := c], false);
    SearchedAt(s1, 2, LETTER, 2, false, s2);
    StepExact(ops[1], s1, 0, s2);
    var s3 := State(Using(s2.fs, 2), s2.pending[1 := h], false);
    StepExact(ops[2], s2, 0, s3);
    var s4 := State(Using(s3.fs, 2), s3.pending[2 := h], false);
    StepExact(ops[3], s3, 0, s4);
    var s5 := State(Unnamed(s4.fs, ROOT_INO, 2, 2), s4.pending - {1}, false);
    StepExact(ops[4], s4, 0, s5);
    var s6 := State(Unnamed(s5.fs, ROOT_INO, 2, 2), s5.pending - {2}, false);
    StepExact(ops[5], s5, 0, s6);
    states := [s0, s1, s2, s3, s4, s5, s6];
  }

  /** The entry in the root directory is found. */
  lemma SearchedAt(a: State, p: int, name: Name, i: nat, rmdir: bool, b: State)
    requires p !in a.pending && ROOT_INO in a.fs && a.fs[ROOT_INO].dir && Plain(name) && name != DOTDOT
    requires IsEntry(a.fs[ROOT_INO].entries, Stored(name), i) && Found(a, p, ROOT_INO, i, rmdir, b)
    ensures CanSearch(a, p, ROOT_INO, name) && Searched(a, p, ROOT_INO, name, false, rmdir, 0, b)
  {
    hide Stored;
    assert HasName(a.fs[ROOT_INO].entries, Stored(Sought(name, false)));
  }

  /** The root directory with an empty directory in it. */
  function OneDir(): Fs {
    var root := [Entry(ROOT_INO, Stored(DOT)), Entry(ROOT_INO, Stored(DOTDOT)), Entry(2, Stored(LETTER))];
    map[ROOT_INO := Inode(true, 3, root, 0), 2 := NewDir(2, ROOT_INO)]
  }

  lemma OneDirGood()
    ensures Good(State(OneDir(), map[], false)) && Plain(LETTER) && Plain(OTHER)
    ensures IsEntry(OneDir()[ROOT_INO].entries, Stored(LETTER), 2)
    ensures !HasName(OneDir()[2].entries, Stored(OTHER))
  {
    hide Inv;
    BareGood();
    assert Stored(OTHER)[0] == 98 && Stored(DOT)[0] == 46 && Stored(DOTDOT)[0] == 46;
    MkdirKeeps(Bare(), ROOT_INO, 2, LETTER, 2);
    hide Stored;
    var f := WithDir(Bare(), ROOT_INO, 2, LETTER, 2);
    assert f[ROOT_INO].entries == OneDir()[ROOT_INO].entries;
    assert f == OneDir();
  }

  /** A process makes a file in a directory while another one removes it. */
  function CreateInside(): seq<Op> {
    [Rmdirs(1, ROOT_INO, LETTER, false), Gets(1), Checks(1), Begins(2, Creating(2, OTHER, false), false), Scans(1)]
  }

  /** rmdir succeeds; the other process has a directory in hand that nothing names. */
  lemma RemovedInUse() returns (states: seq<State>)
    ensures IsRun(CreateInside(), [0, 0, 0, 0, 0], states) && states[0] == State(OneDir(), map[], false)
    ensures !Good(states[5]) && 2 in states[5].fs && states[5].fs[2].nlinks == 0
    ensures states[5].pending == map[2 := Creating(2, OTHER, false)]
  {
    hide Inv, AllHeld, HasName, Stored, Plain;
    var ops := CreateInside();
    OneDirGood();
    var s0 := State(OneDir(), map[], false);
    var s1 := State(Using(s0.fs, ROOT_INO), s0.pending[1 := Removing(ROOT_INO, 2, 2)], false);
    SearchedAt(s0, 1, LETTER, 2, true, s1);
    StepExact(ops[0], s0, 0, s1);
    var s2 := State(Using(s1.fs, 2), s1.pending[1 := Checking(ROOT_INO, 2, 2)], false);
    StepExact(ops[1], s1, 0, s2);
    var s3 := State(s2.fs, s2.pending[1 := Emptying(ROOT_INO, 2, 2, 2, 2)], false);
    StepExact(ops[2], s2, 0, s3);
    var s4 := State(Using(s3.fs, 2), s3.pending[2 := Creating(2, OTHER, false)], false);
    StepExact(ops[3], s3, 0, s4);
    var s5 := State(Removed(s4.fs, ROOT_INO, 2, 2), s4.pending - {1}, false);
    StepExact(ops[4], s4, 0, s5);
    states := [s0, s1, s2, s3, s4, s5];
  }

  lemma NoEmptyName(entries: seq<Entry>)
    requires Padded(entries)
    ensures !HasName(entries, Stored([]))
  {
    forall i | 0 <= i < |entries| && entries[i].ino != 0 ensures entries[i].name != Stored([]) {
      var m: Name :| Plain(m) && entries[i].name == Stored(m);
      assert entries[i].name[0] != 0;
    }
  }

  lemma Truncated(name: Name)
    ensures |name| > NAME_LEN ==> Stored(name[..NAME_LEN]) == Stored(name)
  { }

  lemma SoughtName(name: Name, atRoot: bool)
    requires Plain(name)
    ensures var len := if |name| > NAME_LEN then NAME_LEN
                       else if |name| == 2 && name[0] == 46 && name[1] == 46 && atRoot then 1 else |name|;
      Stored(name[..len]) == Stored(Sought(name, atRoot))
  {
    Truncated(name);
    if |name| == 2 && name[0] == 46 && name[1] == 46 && atRoot {
      assert name == DOTDOT && name[..1] == DOT;
    } else {
      assert name[..|name|] == name;
      assert !(name == DOTDOT && atRoot);
    }
  }

  /** The entry found is the one that the map gives. */
  lemma FoundIs(entries: seq<Entry>, nm: Name, i: int)
    requires Unique(entries) && IsEntry(entries, nm, i)
    ensures HasName(entries, nm) && 0 <= i < |entries| && entries[i] == Entry(Lookup(entries, nm), nm)
            && entries[i].ino != 0
  {
    OneEntry(entries, nm);
  }

  /** add_entry stores the name first and the inode's number after it. */
  lemma PutTwice(entries: seq<Entry>, i: nat, n: int, name: Name)
    requires i <= |entries|
    ensures var e := Put(entries, i, Entry(0, Stored(name)));
      i < |e| && e[i := e[i].(ino := n)] == Put(entries, i, Entry(n, Stored(name)))
  { }

  lemma HasRoom(entries: seq<Entry>)
    ensures !NoRoom(entries, |entries|, true)
  { }

  /** A new file that gets no name goes again. */
  lemma BackOut(fs: Fs, d: int, n: int)
    requires n !in fs && d in fs && fs[d].nlinks > 0
    ensures d in Left(fs[n := FRESH], n) && Left(Left(fs[n := FRESH], n), d) == Unused(fs, d)
  {
    assert fs[n := FRESH] - {n} == fs;
  }

  /** What the rest of mknod and open leaves, put together. */
  lemma CreatedIs(fs: Fs, c: Call, i: nat, n: int)
    requires c.Creating? && Held(fs, c) && i <= |fs[c.d].entries| && n !in fs && fs[c.d].nlinks > 0
    ensures var entries := Put(fs[c.d].entries, i, Entry(n, Stored(c.name)));
        var f := SetEntries(fs[n := Inode(false, 1, [], 1)], c.d, entries);
      && c.d in f && n in f && n in Left(f, c.d)
      && Entered(fs, c, i, n) == if c.stays then Left(f, c.d) else Left(Left(f, c.d), n)
  {
    hide Stored, Put, Plain;
  }

  class FileTree {
    var fs: Fs
    var pending: map<int, Call>
    /** An iget has found its inode free. */
    var lost: bool

    ghost function St(): State reads this { State(fs, pending, lost) }

    ghost predicate Valid() reads this { Good(St()) }

    /** A disk with only the root directory. */
    constructor ()
      ensures Valid() && St() == State(Bare(), map[], false)
    {
      hide Inv, AllHeld;
      BareGood();
      fs, pending, lost := Bare(), map[], false;
    }

    /** find_entry: the entry of that name, or NULL if there is none.  Bytes beyond
        the fourteenth do not count. */
    method FindEntry(d: int, name: Name, atRoot: bool) returns (i: int)
      requires Inv(fs) && AtDir(fs, d, name)
      ensures i == NULL ==> !HasName(fs[d].entries, Stored(Sought(name, atRoot)))
      ensures i != NULL ==> name != [] && i >= 0 && IsEntry(fs[d].entries, Stored(Sought(name, atRoot)), i)
    {
      hide Inv, HasName, Stored, Padded, Unique;
      GoodEntries(fs, d);
      var len := if |name| > NAME_LEN then NAME_LEN else |name|;
      if len == 0 {
        NoEmptyName(fs[d].entries);
        return NULL;
      }
      if len == 2 && name[0] == 46 && name[1] == 46 && atRoot { len := 1; }
      SoughtName(name, atRoot);
      i := Scan(fs[d].entries, name, len);
    }

    /** The loop of find_entry. */
    method Scan(entries: seq<Entry>, name: Name, len: int) returns (i: int)
      requires Plain(name) && 0 < len <= |name| && len <= NAME_LEN && Padded(entries)
      ensures i == NULL ==> !HasName(entries, Stored(name[..len]))
      ensures i != NULL ==> IsEntry(entries, Stored(name[..len]), i) && forall j :: 0 <= j < i ==>
          !IsEntry(entries, Stored(name[..len]), j)
    {
      hide Stored, Plain;
      i := 0;
      while i < |entries|
        invariant 0 <= i <= |entries|
        invariant forall j :: 0 <= j < i ==> !IsEntry(entries, Stored(name[..len]), j)
      {
        var same := Match(name, len, entries[i]);
        if same { return; }
        i := i + 1;
      }
      return NULL;
    }

    /** add_entry: the first vacant place, named and still without inode; NULL when
        it needs a block and there is none. */
    method AddEntry(d: int, name: Name, room: bool) returns (i: int)
      requires d in fs && fs[d].dir && Plain(name)
      modifies `fs
      ensures i == NULL ==>
          fs == old(fs) && FirstVacant(fs[d].entries, |fs[d].entries|) && NoRoom(fs[d].entries, |fs[d].entries|, room)
      ensures i != NULL ==>
          0 <= i <= |old(fs)[d].entries| && FirstVacant(old(fs)[d].entries, i) && !NoRoom(old(fs)[d].entries, i, room)
      ensures i != NULL ==> fs == SetEntries(old(fs), d, Put(old(fs)[d].entries, i, Entry(0, Stored(name))))
    {
      i := 0;
      while i < |fs[d].entries| && fs[d].entries[i].ino != 0
        invariant 0 <= i <= |fs[d].entries| && fs == old(fs) && forall j :: 0 <= j < i ==> fs[d].entries[j].ino != 0
      {
        i := i + 1;
      }
      if i == |fs[d].entries| {
        if i % DIR_ENTRIES_PER_BLOCK == 0 && !room { return NULL; }
        // i_size grows by one entry.
        fs := fs[d := fs[d].(entries := fs[d].entries + [Entry(0, Stored(name))])];
      } else {
        fs := fs[d := fs[d].(entries := fs[d].entries[i := Entry(0, Stored(name))])];
      }
    }

    /** add_entry and the inode's number after it. */
    method NewEntry(d: int, name: Name, n: int, room: bool) returns (i: int)
      requires d in fs && fs[d].dir && Plain(name)
      modifies `fs
      ensures i == NULL ==>
          fs == old(fs) && FirstVacant(fs[d].entries, |fs[d].entries|) && NoRoom(fs[d].entries, |fs[d].entries|, room)
      ensures i != NULL ==>
          0 <= i <= |old(fs)[d].entries| && FirstVacant(old(fs)[d].entries, i) && !NoRoom(old(fs)[d].entries, i, room)
      ensures i != NULL ==> fs == SetEntries(old(fs), d, Put(old(fs)[d].entries, i, Entry(n, Stored(name))))
    {
      hide Stored, Put, NoRoom, Plain, FirstVacant;
      i := AddEntry(d, name, room);
      if i != NULL {
        PutTwice(old(fs)[d].entries, i, n, name);
        fs := fs[d := fs[d].(entries := fs[d].entries[i := fs[d].entries[i].(ino := n)])];
      }
    }

    /** iput: without links and other users the inode goes. */
    method IPut(n: int)
      requires n in fs
      modifies `fs
      ensures fs == Left(old(fs), n)
    {
      if fs[n].nlinks == 0 && fs[n].users <= 1 {
        fs := fs - {n};
      } else {
        fs := fs[n := fs[n].(users := if fs[n].users > 0 then fs[n].users - 1 else 0)];
      }
    }

    /** sys_mknod, open_namei with O_CREAT and O_EXCL, sys_link and sys_mkdir up to
        the sleep: the name must not be there. */
    method Begin(p: int, c: Call, atRoot: bool) returns (r: int)
      requires Valid() && CanBegin(St(), p, c)
      modifies this
      ensures Began(old(St()), p, c, atRoot, r, St())
    {
      hide Inv, HasName, Stored, IsEntry, AllHeld, Plain;
      if c.Linking? && fs[c.n].dir { return -EPERM; }
      if c.name == [] { return if c.Linking? then -EPERM else if c.Creating? && c.stays then -EISDIR else -ENOENT; }
      var at := FindEntry(c.d, c.name, atRoot);
      if at != NULL {
        DirLinks(fs, c.d);
        FoundIs(fs[c.d].entries, Stored(Sought(c.name, atRoot)), at);
        return -EEXIST;
      }
      fs := fs[c.d := fs[c.d].(users := fs[c.d].users + 1)];
      if c.Linking? { fs := fs[c.n := fs[c.n].(users := fs[c.n].users + 1)]; }
      pending := pending[p := c];
      return 0;
    }

    /** The rest of sys_mknod and of open_namei: inode n is new. */
    method Create(p: int, n: int, room: bool) returns (r: int)
      requires Valid() && CanFinish(St(), p, n) && pending[p].Creating?
      modifies this
      ensures Finished(old(St()), p, n, room, r, St())
      ensures r == 0 && !HasName(old(fs)[old(pending)[p].d].entries, Stored(old(pending)[p].name)) ==>
                Renamed(old(fs), fs, old(pending)[p].d, Stored(old(pending)[p].name), Target(old(pending)[p], n))
    {
      hide Inv, AllHeld, Stored, Put, NoRoom, Plain, FirstVacant, HasName, Renamed, Entered, Left, Weight;
      var Creating(d, name, stays) := pending[p];
      DirLinks(fs, d);
      ghost var a := St();
      pending := pending - {p};
      fs := fs[n := Inode(false, 1, [], 1)];
      var at := NewEntry(d, name, n, room);
      if at == NULL {
        fs := fs[n := fs[n].(nlinks := 0)];
        assert fs == a.fs[n := FRESH];
        BackOut(a.fs, d, n);
        IPut(n);
        IPut(d);
        assert FinishedWith(a, p, n, room, |a.fs[d].entries|, -ENOSPC, St());
        return -ENOSPC;
      }
      CreatedIs(a.fs, a.pending[p], at, n);
      IPut(d);
      if !stays { IPut(n); }
      assert FinishedWith(a, p, n, room, at, 0, St());
      FinishExact(a, p, n, room, St());
      return 0;
    }

    /** new_inode found no inode for the call: it lets go of its directory. */
    method GiveUp(p: int) returns (r: int)
      requires Valid() && NeedsInode(St(), p)
      modifies this
      ensures Valid() && r == -ENOSPC && Refused(old(St()), p, St())
    {
      hide Inv, AllHeld;
      ghost var a := St();
      DirLinks(fs, pending[p].d);
      IPut(pending[p].d);
      pending := pending - {p};
      RefusedGood(a, p, St());
      return -ENOSPC;
    }

    /** The rest of sys_link. */
    method Link(p: int, n: int, room: bool) returns (r: int)
      requires Valid() && CanFinish(St(), p, n) && pending[p].Linking?
      modifies this
      ensures Finished(old(St()), p, n, room, r, St())
      ensures r == 0 && !HasName(old(fs)[old(pending)[p].d].entries, Stored(old(pending)[p].name)) ==>
                Renamed(old(fs), fs, old(pending)[p].d, Stored(old(pending)[p].name), Target(old(pending)[p], n))
    {
      hide Inv, AllHeld, Stored, Put, NoRoom, Plain, FirstVacant, HasName, Renamed;
      var Linking(d, name, f) := pending[p];
      DirLinks(fs, d);
      ghost var a := St();
      pending := pending - {p};
      var at := NewEntry(d, name, f, room);
      if at == NULL {
        IPut(d);
        IPut(f);
        assert FinishedWith(a, p, n, room, |a.fs[d].entries|, -ENOSPC, St());
        return -ENOSPC;
      }
      IPut(d);
      fs := fs[f := fs[f].(nlinks := fs[f].nlinks + 1)];
      IPut(f);
      assert FinishedWith(a, p, n, room, at, 0, St());
      FinishExact(a, p, n, room, St());
      return 0;
    }

    /** The rest of sys_mkdir, with room for the new entry: without it the source
        gives the new directory's block back twice. */
    method Mkdir(p: int, n: int, room: bool) returns (r: int)
      requires Valid() && CanFinish(St(), p, n) && pending[p].MakingDir?
      modifies this
      ensures Finished(old(St()), p, n, room, r, St())
      ensures r == 0 && !HasName(old(fs)[old(pending)[p].d].entries, Stored(old(pending)[p].name)) ==>
                Renamed(old(fs), fs, old(pending)[p].d, Stored(old(pending)[p].name), Target(old(pending)[p], n))
    {
      hide Inv, AllHeld, Stored, Put, NoRoom, Plain, FirstVacant, HasName, Renamed;
      var MakingDir(d, name) := pending[p];
      DirLinks(fs, d);
      ghost var a := St();
      pending := pending - {p};
      fs := fs[n := Inode(true, 2, [Entry(n, Stored(DOT)), Entry(d, Stored(DOTDOT))], 1)];
      var at := NewEntry(d, name, n, true);
      assert at != NULL by { HasRoom(a.fs[d].entries); }
      fs := fs[d := fs[d].(nlinks := fs[d].nlinks + 1)];
      IPut(d);
      IPut(n);
      assert FinishedWith(a, p, n, room, at, 0, St());
      FinishExact(a, p, n, room, St());
      return 0;
    }

    /** sys_unlink up to iget. */
    method Unlink(p: int, d: int, name: Name, atRoot: bool) returns (r: int)
      requires Valid() && CanSearch(St(), p, d, name)
      modifies this
      ensures Valid() && Searched(old(St()), p, d, name, atRoot, false, r, St())
    {
      hide Inv, HasName, Stored, Sought, AllHeld, Plain;
      ghost var a := St();
      var at := FindEntry(d, name, atRoot);
      if at == NULL { return -ENOENT; }
      DirLinks(fs, d);
      FoundIs(fs[d].entries, Stored(Sought(name, atRoot)), at);
      pending := pending[p := Unlinking(d, at, fs[d].entries[at].ino)];
      fs := fs[d := fs[d].(users := fs[d].users + 1)];
      assert Found(a, p, d, at, false, St());
      SearchedGood(a, p, d, name, atRoot, false, 0, St());
      return 0;
    }

    /** sys_rmdir up to iget. */
    method Rmdir(p: int, d: int, name: Name, atRoot: bool) returns (r: int)
      requires Valid() && CanSearch(St(), p, d, name)
      modifies this
      ensures Valid() && Searched(old(St()), p, d, name, atRoot, true, r, St())
    {
      hide Inv, HasName, Stored, Sought, AllHeld, Plain;
      ghost var a := St();
      var at := FindEntry(d, name, atRoot);
      if at == NULL { return -ENOENT; }
      DirLinks(fs, d);
      FoundIs(fs[d].entries, Stored(Sought(name, atRoot)), at);
      pending := pending[p := Removing(d, at, fs[d].entries[at].ino)];
      fs := fs[d := fs[d].(users := fs[d].users + 1)];
      assert Found(a, p, d, at, true, St());
      SearchedGood(a, p, d, name, atRoot, true, 0, St());
      return 0;
    }

    /** open_namei of what is there, up to iget. */
    method Open(p: int, d: int, name: Name, atRoot: bool, writing: bool) returns (r: int)
      requires Valid() && CanSearch(St(), p, d, name)
      modifies this
      ensures Valid() && OpenBegun(old(St()), p, d, name, atRoot, writing, r, St())
    {
      hide Inv, HasName, Padded, Stored, IsEntry, Sought, AllHeld, Plain;
      ghost var a := St();
      DirLinks(fs, d);
      if name == [] {
        if writing { return -EISDIR; }
        fs := fs[d := fs[d].(users := fs[d].users + 1)];
        OpenBegunGood(a, p, d, name, atRoot, writing, 0, St());
        return 0;
      }
      var at := FindEntry(d, name, atRoot);
      if at == NULL { return -ENOENT; }
      FoundIs(fs[d].entries, Stored(Sought(name, atRoot)), at);
      pending := pending[p := Opening(fs[d].entries[at].ino, writing)];
      OpenBegunGood(a, p, d, name, atRoot, writing, 0, St());
      return 0;
    }

    /** iget takes hold of the inode; an inode that has been freed meanwhile would be
        read from the disk as it was once, and is not followed further. */
    method IGet(p: int) returns (r: int)
      requires Valid() && CanGet(St(), p)
      modifies this
      ensures Got(old(St()), p, r, St())
      ensures Valid() <==> old(pending)[p].n in old(fs)
    {
      hide Inv, AllHeld;
      ghost var a := St();
      var c := pending[p];
      r := 0;
      if c.n !in fs {
        lost := true;
      } else {
        FileBare(fs, c.n);
        fs := fs[c.n := fs[c.n].(users := fs[c.n].users + 1)];
        match c
        case Opening(n, writing) =>
          pending := pending - {p};
          if fs[n].dir && writing {
            DirLinks(a.fs, n);
            IPut(n);
            r := -EPERM;
          }
        case Unlinking(d, i, n) => pending := pending[p := Unnaming(d, i, n)];
        case Removing(d, i, n) => pending := pending[p := Checking(d, i, n)];
      }
      GotExact(a, p, r, St());
    }

    /** The rest of sys_unlink. */
    method Unname(p: int) returns (r: int)
      requires Valid() && CanUnname(St(), p)
      modifies this
      ensures UnnameDone(old(St()), p, r, St())
      ensures var c := old(pending)[p]; r == 0 && old(fs)[c.d].entries[c.i].ino == c.n ==>
          Renamed(old(fs), fs, c.d, old(fs)[c.d].entries[c.i].name, 0)
    {
      hide Inv, AllHeld, Plain, Renamed;
      ghost var a := St();
      var Unnaming(d, i, n) := pending[p];
      DirLinks(fs, d);
      pending := pending - {p};
      if fs[n].dir {
        DirLinks(fs, n);
        IPut(d);
        IPut(n);
        return -EPERM;
      }
      if fs[n].nlinks == 0 { fs := fs[n := fs[n].(nlinks := 1)]; }
      fs := fs[d := fs[d].(entries := fs[d].entries[i := fs[d].entries[i].(ino := 0)])];
      fs := fs[n := fs[n].(nlinks := fs[n].nlinks - 1)];
      IPut(n);
      IPut(d);
      UnnameExact(a, p, St());
      return 0;
    }

    /** sys_rmdir from iget up to empty_dir; its checks of the first two entries never
        fail. */
    method Check(p: int) returns (r: int)
      requires Valid() && CanCheck(St(), p)
      modifies this
      ensures Valid() && Checked(old(St()), p, r, St())
    {
      hide Inv, AllHeld, Plain;
      ghost var a := St();
      var Checking(d, i, n) := pending[p];
      DirLinks(fs, d);
      if fs[n].users > 1 || n == d || !fs[n].dir {
        r := if fs[n].users > 1 || n == d then -EPERM else -ENOTDIR;
        pending := pending - {p};
        IPut(d);
        IPut(n);
      } else {
        pending := pending[p := Emptying(d, i, n, |fs[n].entries|, 2)];
        r := 0;
      }
      CheckedGood(a, p, r, St());
    }

    /** empty_dir from one sleep to the next, and the rest of sys_rmdir behind the
        last. */
    method ScanBlock(p: int) returns (r: int)
      requires Valid() && CanScan(St(), p)
      modifies this
      ensures Scanned(old(St()), p, r, St()) && (Valid() <==> !Breaks(Scans(p), old(St()), r))
    {
      hide Inv, AllHeld, Plain, StillEmpty;
      ghost var a := St();
      var Emptying(d, i, n, len, at) := pending[p];
      TwoAtLeast(fs, d);
      DirLinks(fs, n);
      var stop := NextStop(len, at);
      var empty := LooksEmpty(fs[n].entries, at, stop);
      r := 0;
      if !empty {
        pending := pending - {p};
        IPut(d);
        IPut(n);
        r := -ENOTEMPTY;
      } else if stop < len {
        pending := pending[p := Emptying(d, i, n, len, stop)];
      } else {
        pending := pending - {p};
        fs := fs[d := fs[d].(entries := fs[d].entries[i := fs[d].entries[i].(ino := 0)])];
        fs := fs[n := fs[n].(nlinks := 0)];
        fs := fs[d := fs[d].(nlinks := fs[d].nlinks - 1)];
        IPut(d);
        IPut(n);
      }
      ScannedExact(a, p, r, St());
    }

    /** The loop of empty_dir, within one block. */
    method LooksEmpty(entries: seq<Entry>, at: nat, stop: nat) returns (empty: bool)
      requires at <= stop <= |entries|
      ensures empty <==> AllVacant(entries, at, stop)
    {
      var nr := at;
      while nr < stop
        invariant at <= nr <= stop && forall j :: at <= j < nr ==> entries[j].ino == 0
      {
        if entries[nr].ino != 0 { return false; }
        nr := nr + 1;
      }
      return true;
    }

    /** One step. */
    method Step(op: Op) returns (r: int)
      requires Valid()
      modifies this
      ensures Stepped(op, old(St()), r, St())
    {
      hide Inv, AllHeld, Began, Finished, Searched, OpenBegun, Got, UnnameDone, Checked, Scanned, Plain, Held, Refused;
      r := 0;
      match op
      case Begins(p, c, atRoot) => if CanBegin(State(fs, pending, lost), p, c) { r := Begin(p, c, atRoot); }
      case Finishes(p, n, room) =>
        if CanFinish(State(fs, pending, lost), p, n) {
          match pending[p]
          case Creating(_, _, _) => r := Create(p, n, room);
          case Linking(_, _, _) => r := Link(p, n, room);
          case MakingDir(_, _) => r := Mkdir(p, n, room);
        }
      case NoInode(p) => if NeedsInode(State(fs, pending, lost), p) { r := GiveUp(p); }
      case Unlinks(p, d, name, atRoot) =>
        if CanSearch(State(fs, pending, lost), p, d, name) { r := Unlink(p, d, name, atRoot); }
      case Rmdirs(p, d, name, atRoot) =>
        if CanSearch(State(fs, pending, lost), p, d, name) { r := Rmdir(p, d, name, atRoot); }
      case Opens(p, d, name, atRoot, writing) =>
        if CanSearch(State(fs, pending, lost), p, d, name) { r := Open(p, d, name, atRoot, writing); }
      case Gets(p) => if CanGet(State(fs, pending, lost), p) { r := IGet(p); }
      case Unnames(p) => if CanUnname(State(fs, pending, lost), p) { r := Unname(p); }
      case Checks(p) => if CanCheck(State(fs, pending, lost), p) { r := Check(p); }
      case Scans(p) => if CanScan(State(fs, pending, lost), p) { r := ScanBlock(p); }
      case Closes(n) => if n in fs && fs[n].users > Holders(pending, n) { IPut(n); }
    }

    /** Any run of any processes, up to the first step that relies on what is no longer
        so: until then every count is exact and every directory is a map. */
    method Run(ops: seq<Op>) returns (rs: seq<int>, ghost states: seq<State>)
      requires Valid()
      modifies this
      ensures IsRun(ops, rs, states) && states[0] == old(St()) && states[|rs|] == St()
      ensures Valid() ==> |rs| == |ops|
    {
      hide Inv, AllHeld, Stepped, Breaks, Good;
      rs, states := [], [St()];
      while |rs| < |ops|
        invariant Valid() && |rs| <= |ops| && IsRun(ops, rs, states) && states[0] == old(St()) && states[|rs|] == St()
        decreases |ops| - |rs|
      {
        var a := State(fs, pending, lost);
        var r := Step(ops[|rs|]);
        StepExact(ops[|rs|], a, r, St());
        rs, states := rs + [r], states + [St()];
        if Breaks(ops[|rs| - 1], a, r) { return; }
      }
    }
  }
}
