/** fs/namei.c: directories as lists of 16-byte entries, and the link counts. */
module Directories {
  import opened Sequences

  const NAME_LEN: int := 14
  const DIR_ENTRIES_PER_BLOCK: int := 64
  const ROOT_INO: int := 1

  type Name = seq<nat>

  /** A name as it comes out of a path: no zero bytes. */
  predicate Plain(name: Name) { name != [] && forall i :: 0 <= i < |name| ==> 0 < name[i] < 256 }

  /** As it is stored: 14 bytes, cut off or filled up with zeroes. */
  function Stored(name: Name): (r: Name)
    ensures |r| == NAME_LEN && forall i :: 0 <= i < NAME_LEN ==> r[i] == if i < |name| then name[i] else 0
  {
    seq(NAME_LEN, i => if 0 <= i < |name| then name[i] else 0)
  }

  const DOT: Name := [46]
  const DOTDOT: Name := [46, 46]

  datatype Entry = Entry(ino: int, name: Name)

  /** nlinks is i_nlinks, one byte wide; entries are the i_size/16 entries of a
      directory; users is i_count, the uses that processes make of the inode. */
  datatype Inode = Inode(dir: bool, nlinks: nat, entries: seq<Entry>, users: nat)

  type Fs = map<int, Inode>

  /** Entry i of directory d. */
  datatype Place = Place(d: int, i: int)

  /** All live entries that name inode n. */
  ghost function Refs(fs: Fs, n: int): set<Place> {
    set d, i | d in fs && fs[d].dir && 0 <= i < |fs[d].entries| && fs[d].entries[i].ino == n :: Place(d, i)
  }

  /** The live entry with a stored name, or NULL. */
  predicate IsEntry(entries: seq<Entry>, nm: Name, i: int) {
    0 <= i < |entries| && entries[i].ino != 0 && entries[i].name == nm
  }

  predicate HasName(entries: seq<Entry>, nm: Name) { exists i :: 0 <= i < |entries| && IsEntry(entries, nm, i) }

  /** The directory as a map: the inode of a stored name, or 0. */
  ghost function Lookup(entries: seq<Entry>, nm: Name): int {
    if HasName(entries, nm) then var i :| IsEntry(entries, nm, i); entries[i].ino else 0
  }

  /** No two live entries have the same 14 bytes. */
  ghost predicate Unique(entries: seq<Entry>) {
    forall i, j :: 0 <= i < j < |entries| && entries[i].ino != 0 && entries[j].ino != 0 ==>
         entries[i].name != entries[j].name
  }

  ghost predicate Padded(entries: seq<Entry>) {
    forall i :: 0 <= i < |entries| && entries[i].ino != 0 ==> exists name: Name ::
         Plain(name) && entries[i].name == Stored(name)
  }

  /** Directory d begins with itself and its parent, whose place names it. */
  ghost predicate Rooted(fs: Fs, d: int)
    requires d in fs
  {
    var e := fs[d].entries;
    && |e| >= 2 && e[0] == Entry(d, Stored(DOT)) && e[1].name == Stored(DOTDOT)
    && e[1].ino in fs && fs[e[1].ino].dir && (d == ROOT_INO ==> e[1].ino == d)
    && (d != ROOT_INO ==> exists i :: 2 <= i < |fs[e[1].ino].entries| && fs[e[1].ino].entries[i].ino == d)
  }

  /** Entry i of directory d names something that exists; a directory only in its
      parent. */
  ghost predicate Names(fs: Fs, d: int, i: int)
    requires d in fs && 0 <= i < |fs[d].entries|
  {
    var n := fs[d].entries[i].ino;
    n != 0 ==> n in fs && (fs[n].dir && i >= 2 ==> n != ROOT_INO && |fs[n].entries| >= 2 && fs[n].entries[1].ino == d)
  }

  /** No directory is named twice in its parent. */
  ghost predicate Once(fs: Fs, d: int)
    requires d in fs
  {
    forall i, j :: 2 <= i < j < |fs[d].entries| && fs[d].entries[i].ino in fs && fs[fs[d].entries[i].ino].dir ==>
      fs[d].entries[i].ino != fs[d].entries[j].ino
  }

  ghost predicate GoodDir(fs: Fs, d: int)
    requires d in fs
  {
    && Unique(fs[d].entries) && Padded(fs[d].entries) && Rooted(fs, d) && Once(fs, d)
    && forall i :: 0 <= i < |fs[d].entries| ==> Names(fs, d, i)
  }

  ghost predicate Dirs(fs: Fs) {
    ROOT_INO in fs && fs[ROOT_INO].dir && 0 !in fs && forall d :: d in fs && fs[d].dir ==> GoodDir(fs, d)
  }

  /** The link count is the number of live entries that name the inode, "." and
      ".." included; what nothing names is there only while it is in use. */
  ghost predicate Linked(fs: Fs, n: int)
    requires n in fs
  {
    fs[n].nlinks == |Refs(fs, n)| < 256 && (fs[n].nlinks > 0 || fs[n].users > 0) && (!fs[n].dir ==> fs[n].entries == [])
  }

  ghost predicate AllLinked(fs: Fs) { forall n :: n in fs ==> Linked(fs, n) }

  ghost predicate Inv(fs: Fs) { Dirs(fs) && AllLinked(fs) }

  /** match(): for plain names exactly the equality of the stored names. */
  method Match(name: Name, len: int, de: Entry) returns (same: bool)
    requires Plain(name) && 0 < len <= |name| && (de.ino != 0 ==> exists m: Name :: Plain(m) && de.name == Stored(m))
    ensures same <==> de.ino != 0 && len <= NAME_LEN && de.name == Stored(name[..len])
  {
    if de.ino == 0 || len > NAME_LEN { return false; }
    var m: Name :| Plain(m) && de.name == Stored(m);
    if len < NAME_LEN && de.name[len] != 0 { return false; }
    var i := 0;
    while i < len
      invariant 0 <= i <= len && de.name[..i] == name[..i]
    {
      if de.name[i] != name[i] { return false; }
      i := i + 1;
    }
    return true;
  }

  /** Entry i replaced, or added at the end. */
  function Put(entries: seq<Entry>, i: nat, e: Entry): (r: seq<Entry>)
    requires i <= |entries|
    ensures |r| >= |entries| && i < |r| && r[i] == e && forall j :: 0 <= j < |entries| && j != i ==> r[j] == entries[j]
    ensures |r| == if i < |entries| then |entries| else |entries| + 1
  {
    if i < |entries| then entries[i := e] else entries + [e]
  }

  predicate Vacant(entries: seq<Entry>, i: nat) { i == |entries| || (i < |entries| && entries[i].ino == 0) }

  function SetEntries(fs: Fs, d: int, entries: seq<Entry>): Fs
    requires d in fs
  { fs[d := fs[d].(entries := entries)] }

  function Counted(fs: Fs, n: int, nlinks: nat): Fs
    requires n in fs
  { fs[n := fs[n].(nlinks := nlinks)] }

  /** One more name for file n, at place i of directory d. */
  function WithFile(fs: Fs, d: int, i: nat, name: Name, n: int): Fs
    requires d in fs && n in fs && i <= |fs[d].entries|
  {
    Counted(SetEntries(fs, d, Put(fs[d].entries, i, Entry(n, Stored(name)))), n, fs[n].nlinks + 1)
  }

  function WithoutName(fs: Fs, d: int, i: nat, n: int): Fs
    requires d in fs && n in fs && i < |fs[d].entries|
  {
    Counted(SetEntries(fs, d, fs[d].entries[i := fs[d].entries[i].(ino := 0)]), n,
            if fs[n].nlinks > 0 then fs[n].nlinks - 1 else 0)
  }

  /** A vacant place of directory d now names inode n. */
  lemma PutRefs(fs: Fs, fs': Fs, d: int, i: nat, e: Entry, n: int)
    requires d in fs && fs[d].dir && Vacant(fs[d].entries, i) && n != 0
    requires fs'.Keys == fs.Keys && forall x :: x in fs ==>
        fs'[x].dir == fs[x].dir && fs'[x].entries == if x == d then Put(fs[d].entries, i, e) else fs[x].entries
    ensures Refs(fs', n) == Refs(fs, n) + if e.ino == n then {Place(d, i)} else {}
    ensures Place(d, i) !in Refs(fs, n)
  { }

  /** Entry i of directory d is cleared. */
  lemma ClearRefs(fs: Fs, fs': Fs, d: int, i: nat, n: int)
    requires d in fs && fs[d].dir && i < |fs[d].entries| && n != 0
    requires fs'.Keys == fs.Keys && forall x :: x in fs ==> fs'[x].dir == fs[x].dir
    requires forall x :: x in fs ==>
        fs'[x].entries == if x == d then fs[d].entries[i := fs[d].entries[i].(ino := 0)] else fs[x].entries
    ensures Refs(fs', n) == Refs(fs, n) - {Place(d, i)}
    ensures Place(d, i) in Refs(fs, n) <==> fs[d].entries[i].ino == n
  { }

  /** All live entries stay where they are, and so do the directories. */
  ghost predicate Kept(fs: Fs, fs': Fs) {
    && (forall x :: x in fs ==> x in fs' && fs'[x].dir == fs[x].dir && |fs[x].entries| <= |fs'[x].entries|)
    && forall x, i :: x in fs && 0 <= i < |fs[x].entries| && fs[x].entries[i].ino != 0 ==>
         fs'[x].entries[i] == fs[x].entries[i]
  }

  lemma RootedKept(fs: Fs, fs': Fs, d: int)
    requires d in fs && d in fs' && Kept(fs, fs') && Rooted(fs, d) && d != 0 && 0 !in fs
    ensures Rooted(fs', d)
  {
    var e, e' := fs[d].entries, fs'[d].entries;
    assert e'[0] == e[0] && e'[1] == e[1];
    if d != ROOT_INO {
      var p := e[1].ino;
      var i :| 2 <= i < |fs[p].entries| && fs[p].entries[i].ino == d;
      assert fs'[p].entries[i] == fs[p].entries[i];
    }
  }

  lemma NamesKept(fs: Fs, fs': Fs, d: int, i: int)
    requires d in fs && d in fs' && Kept(fs, fs') && 0 <= i < |fs[d].entries| && i < |fs'[d].entries|
             && fs'[d].entries[i] == fs[d].entries[i]
    requires Names(fs, d, i) && 0 !in fs
    requires forall n :: n in fs && fs[n].dir ==> Rooted(fs, n)
    ensures Names(fs', d, i)
  {
    var n := fs[d].entries[i].ino;
    if n != 0 && fs[n].dir { assert Rooted(fs, n); assert fs'[n].entries[1] == fs[n].entries[1]; }
  }

  lemma OnceKept(fs: Fs, fs': Fs, d: int)
    requires d in fs && d in fs' && Kept(fs, fs') && Once(fs, d) && fs'[d].entries == fs[d].entries && 0 !in fs'
    requires forall i :: 0 <= i < |fs[d].entries| ==> Names(fs, d, i)
    ensures Once(fs', d)
  {
    forall i | 0 <= i < |fs[d].entries| ensures fs[d].entries[i].ino != 0 ==> fs[d].entries[i].ino in fs {
      assert Names(fs, d, i);
    }
  }

  /** The other directories do not notice a new entry. */
  lemma GoodKept(fs: Fs, fs': Fs, d: int)
    requires d in fs && d in fs' && Kept(fs, fs') && GoodDir(fs, d) && fs'[d].entries == fs[d].entries && d != 0
             && 0 !in fs && 0 !in fs'
    requires forall n :: n in fs && fs[n].dir ==> Rooted(fs, n)
    ensures GoodDir(fs', d)
  {
    hide Rooted, Kept;
    RootedKept(fs, fs', d);
    OnceKept(fs, fs', d);
    forall i | 0 <= i < |fs'[d].entries| ensures Names(fs', d, i) { assert Names(fs, d, i); NamesKept(fs, fs', d, i); }
  }

  /** A new name in directory d for inode n. */
  lemma GoodPut(fs: Fs, fs': Fs, d: int, i: nat, name: Name, n: int)
    requires d in fs && d in fs' && Kept(fs, fs') && GoodDir(fs, d) && d != 0 && 0 !in fs && 0 !in fs'
             && Vacant(fs[d].entries, i) && n != 0
    requires fs'[d].entries == Put(fs[d].entries, i, Entry(n, Stored(name))) && Plain(name)
             && !HasName(fs[d].entries, Stored(name))
    requires forall x :: x in fs && fs[x].dir ==> Rooted(fs, x)
    requires n in fs' && (fs'[n].dir ==> n != ROOT_INO && |fs'[n].entries| >= 2 && fs'[n].entries[1].ino == d)
    requires fs'[n].dir ==> n !in fs
    ensures GoodDir(fs', d) && i >= 2
  {
    assert i >= 2 by { assert Rooted(fs, d); }
    hide GoodDir, Rooted, Unique, Padded, Names, Once, HasName, Kept;
    GoodParts(fs, d);
    RootedKept(fs, fs', d);
    UniquePut(fs[d].entries, i, name, n);
    OncePut(fs, fs', d, i, Entry(n, Stored(name)));
    NamesPut(fs, fs', d, i, Entry(n, Stored(name)));
    GoodIs(fs', d);
  }

  lemma GoodParts(fs: Fs, d: int)
    requires d in fs && GoodDir(fs, d)
    ensures Unique(fs[d].entries) && Padded(fs[d].entries) && Rooted(fs, d) && Once(fs, d)
    ensures forall j :: 0 <= j < |fs[d].entries| ==> Names(fs, d, j)
  { }

  lemma UniquePut(entries: seq<Entry>, i: nat, name: Name, n: int)
    requires Unique(entries) && Padded(entries) && Vacant(entries, i) && Plain(name) && !HasName(entries, Stored(name))
    ensures Unique(Put(entries, i, Entry(n, Stored(name)))) && Padded(Put(entries, i, Entry(n, Stored(name))))
  {
    var e' := Put(entries, i, Entry(n, Stored(name)));
    forall j | 0 <= j < |entries| && entries[j].ino != 0
      ensures entries[j].name != Stored(name)
    {
      assert !IsEntry(entries, Stored(name), j);
    }
    forall j | 0 <= j < |e'| && e'[j].ino != 0 ensures exists m: Name :: Plain(m) && e'[j].name == Stored(m) {
      if j != i { assert entries[j].ino != 0; }
    }
  }

  lemma OncePut(fs: Fs, fs': Fs, d: int, i: nat, e: Entry)
    requires d in fs && d in fs' && Kept(fs, fs') && Once(fs, d) && Vacant(fs[d].entries, i) && 0 !in fs'
    requires fs'[d].entries == Put(fs[d].entries, i, e) && e.ino in fs' && (fs'[e.ino].dir ==> e.ino !in fs)
    requires forall j :: 0 <= j < |fs[d].entries| ==> Names(fs, d, j)
    ensures Once(fs', d)
  {
    forall j | 0 <= j < |fs[d].entries| ensures fs[d].entries[j].ino != 0 ==> fs[d].entries[j].ino in fs {
      assert Names(fs, d, j);
    }
  }

  lemma NamesPut(fs: Fs, fs': Fs, d: int, i: nat, e: Entry)
    requires d in fs && d in fs' && Kept(fs, fs') && Vacant(fs[d].entries, i) && 0 !in fs
             && fs'[d].entries == Put(fs[d].entries, i, e)
    requires forall x :: x in fs && fs[x].dir ==> Rooted(fs, x)
    requires e.ino in fs'
             && (fs'[e.ino].dir ==> e.ino != ROOT_INO && |fs'[e.ino].entries| >= 2 && fs'[e.ino].entries[1].ino == d)
    requires forall j :: 0 <= j < |fs[d].entries| ==> Names(fs, d, j)
    ensures forall j :: 0 <= j < |fs'[d].entries| ==> Names(fs', d, j)
  {
    hide Rooted, Kept;
    forall j | 0 <= j < |fs'[d].entries| ensures Names(fs', d, j) {
      if j != i { NamesKept(fs, fs', d, j); }
    }
  }

  /** mknod, create and link: one more name for a file. */
  lemma EnterKeeps(fs: Fs, d: int, i: nat, name: Name, n: int)
    requires Inv(fs) && d in fs && fs[d].dir && Vacant(fs[d].entries, i) && Plain(name)
             && !HasName(fs[d].entries, Stored(name))
    requires n in fs && !fs[n].dir && fs[n].nlinks < 255
    ensures Inv(WithFile(fs, d, i, name, n))
  {
    hide Dirs, AllLinked, HasName, Put, Stored;
    var e := Entry(n, Stored(name));
    var fs' := Counted(SetEntries(fs, d, Put(fs[d].entries, i, e)), n, fs[n].nlinks + 1);
    assert d != n;
    EnterDirs(fs, fs', d, i, name, n);
    RootIn(fs);
    EnterLinks(fs, fs', d, i, e);
  }

  lemma RootIn(fs: Fs)
    requires Dirs(fs)
    ensures ROOT_INO in fs && fs[ROOT_INO].dir && 0 !in fs
  { }

  /** i_nlinks is one byte: the new count is right exactly while it is below 255. */
  lemma LinkExact(fs: Fs, d: int, i: nat, name: Name, n: int)
    requires Inv(fs) && d in fs && fs[d].dir && Vacant(fs[d].entries, i) && Plain(name)
             && !HasName(fs[d].entries, Stored(name))
    requires n in fs && !fs[n].dir
    ensures var fs' := SetEntries(fs, d, Put(fs[d].entries, i, Entry(n, Stored(name))));
      Inv(Counted(fs', n, (fs[n].nlinks + 1) % 256)) <==> fs[n].nlinks < 255
  {
    hide Dirs, HasName, Put, Stored, Refs;
    RootIn(fs);
    assert Linked(fs, n);
    if fs[n].nlinks < 255 {
      EnterKeeps(fs, d, i, name, n);
    } else {
      var fs' := Counted(SetEntries(fs, d, Put(fs[d].entries, i, Entry(n, Stored(name)))), n, (fs[n].nlinks + 1) % 256);
      PutRefs(fs, fs', d, i, Entry(n, Stored(name)), n);
      assert !Linked(fs', n);
    }
  }

  lemma EnterDirs(fs: Fs, fs': Fs, d: int, i: nat, name: Name, n: int)
    requires Dirs(fs) && d in fs && fs[d].dir && Vacant(fs[d].entries, i) && Plain(name)
             && !HasName(fs[d].entries, Stored(name))
    requires n in fs && !fs[n].dir && fs'.Keys == fs.Keys
    requires forall x :: x in fs ==>
        fs'[x].dir == fs[x].dir
        && fs'[x].entries == if x == d then Put(fs[d].entries, i, Entry(n, Stored(name))) else fs[x].entries
    ensures Dirs(fs')
  {
    AllRooted(fs);
    PutKept(fs, fs', d, i, Entry(n, Stored(name)));
    hide GoodDir, HasName, Kept, Rooted, Put;
    forall x | x in fs' && fs'[x].dir ensures GoodDir(fs', x) {
      if x == d { GoodPut(fs, fs', d, i, name, n); } else { GoodKept(fs, fs', x); }
    }
  }

  lemma EnterLinks(fs: Fs, fs': Fs, d: int, i: nat, e: Entry)
    requires AllLinked(fs) && 0 !in fs && d in fs && fs[d].dir && Vacant(fs[d].entries, i) && e.ino in fs
             && !fs[e.ino].dir && fs[e.ino].nlinks < 255
    requires fs'.Keys == fs.Keys && forall x :: x in fs ==>
        fs'[x] == fs[x].(entries := if x == d then Put(fs[d].entries, i, e) else fs[x].entries,
                         nlinks := if x == e.ino then fs[x].nlinks + 1 else fs[x].nlinks)
    ensures AllLinked(fs')
  {
    hide Refs, Put;
    forall m | m in fs' ensures Linked(fs', m) {
      assert Linked(fs, m);
      PutRefs(fs, fs', d, i, e, m);
    }
  }

  lemma AllRooted(fs: Fs)
    requires forall d :: d in fs && fs[d].dir ==> GoodDir(fs, d)
    ensures forall d :: d in fs && fs[d].dir ==> Rooted(fs, d)
  {
    forall d | d in fs && fs[d].dir ensures Rooted(fs, d) { assert GoodDir(fs, d); }
  }

  lemma PutKept(fs: Fs, fs': Fs, d: int, i: nat, e: Entry)
    requires d in fs && Vacant(fs[d].entries, i) && fs'.Keys == fs.Keys
    requires forall x :: x in fs ==>
        fs'[x].dir == fs[x].dir && fs'[x].entries == if x == d then Put(fs[d].entries, i, e) else fs[x].entries
    ensures Kept(fs, fs')
  { }

  /** A file that nothing names goes. */
  lemma DropKeeps(fs: Fs, n: int)
    requires Inv(fs) && n in fs && fs[n].nlinks == 0
    ensures Inv(fs - {n}) && !fs[n].dir
  {
    hide GoodDir, Linked;
    if fs[n].dir { NamedByItself(fs, n); }
    Unnamed(fs, n);
    DropDirs(fs, n);
    DropLinks(fs, n);
  }

  lemma DropDirs(fs: Fs, n: int)
    requires Dirs(fs) && n in fs && !fs[n].dir
    requires forall x, i :: x in fs && fs[x].dir && 0 <= i < |fs[x].entries| ==> fs[x].entries[i].ino != n
    ensures Dirs(fs - {n})
  {
    hide GoodDir;
    forall d | d in fs - {n} && fs[d].dir ensures GoodDir(fs - {n}, d) { GoodWithout(fs, fs - {n}, d, n); }
  }

  lemma DropLinks(fs: Fs, n: int)
    requires AllLinked(fs) && n in fs && !fs[n].dir
    ensures AllLinked(fs - {n})
  {
    hide Refs;
    forall m | m in fs - {n} ensures Linked(fs - {n}, m) { assert Linked(fs, m); SameRefs(fs, fs - {n}, m); }
  }

  lemma SameRefs(fs: Fs, fs': Fs, m: int)
    requires forall d :: d in fs && fs[d].dir <==> d in fs' && fs'[d].dir
    requires forall d :: d in fs && fs[d].dir ==> fs'[d].entries == fs[d].entries
    ensures Refs(fs', m) == Refs(fs, m)
  { }

  /** Every directory is named, by itself. */
  lemma NamedByItself(fs: Fs, n: int)
    requires Inv(fs) && n in fs && fs[n].dir
    ensures Place(n, 0) in Refs(fs, n) && fs[n].nlinks > 0
  {
    assert GoodDir(fs, n) && Linked(fs, n);
    assert Place(n, 0) in Refs(fs, n);
  }

  lemma Unnamed(fs: Fs, n: int)
    requires AllLinked(fs) && n in fs && fs[n].nlinks == 0
    ensures forall d, i :: d in fs && fs[d].dir && 0 <= i < |fs[d].entries| ==> fs[d].entries[i].ino != n
  {
    assert Linked(fs, n);
    assert Refs(fs, n) == {};
    forall d, i | d in fs && fs[d].dir && 0 <= i < |fs[d].entries| ensures fs[d].entries[i].ino != n {
      assert Place(d, i) !in Refs(fs, n);
    }
  }

  lemma GoodWithout(fs: Fs, fs': Fs, d: int, n: int)
    requires d in fs && fs[d].dir && d != n && GoodDir(fs, d) && n in fs && !fs[n].dir && fs' == fs - {n}
    requires forall x, i :: x in fs && fs[x].dir && 0 <= i < |fs[x].entries| ==> fs[x].entries[i].ino != n
    ensures GoodDir(fs', d)
  {
    forall i | 0 <= i < |fs'[d].entries| ensures Names(fs', d, i) { assert Names(fs, d, i); }
    assert fs[d].entries[1].ino != n;
  }

  /** A new file that is in use and has no name yet. */
  const FRESH: Inode := Inode(false, 0, [], 1)

  lemma FreshKeeps(fs: Fs, n: int)
    requires Inv(fs) && n !in fs && n != 0
    ensures Inv(fs[n := FRESH])
  {
    hide GoodDir, Linked;
    var fs' := fs[n := FRESH];
    NoNames(fs, n);
    FreshDirs(fs, fs', n);
    FreshLinks(fs, fs', n);
  }

  lemma FreshDirs(fs: Fs, fs': Fs, n: int)
    requires Dirs(fs) && n !in fs && n != 0 && fs' == fs[n := FRESH]
    ensures Dirs(fs')
  {
    hide GoodDir, Rooted;
    AllRooted(fs);
    assert Kept(fs, fs');
    forall d | d in fs' && fs'[d].dir ensures GoodDir(fs', d) { GoodKept(fs, fs', d); }
  }

  lemma FreshLinks(fs: Fs, fs': Fs, n: int)
    requires AllLinked(fs) && n !in fs && Refs(fs, n) == {} && fs' == fs[n := FRESH]
    ensures AllLinked(fs')
  {
    hide Refs;
    forall m | m in fs' ensures Linked(fs', m) {
      SameRefs(fs, fs', m);
      if m != n { assert Linked(fs, m); }
    }
  }

  /** Nothing names an inode that does not exist. */
  lemma NoNames(fs: Fs, n: int)
    requires Dirs(fs) && n !in fs && n != 0
    ensures Refs(fs, n) == {}
  {
    forall d, i | d in fs && fs[d].dir && 0 <= i < |fs[d].entries| ensures fs[d].entries[i].ino != n {
      assert GoodDir(fs, d) && Names(fs, d, i);
    }
  }

  /** unlink: entry i of directory d names a file and is cleared. */
  lemma UnlinkKeeps(fs: Fs, d: int, i: nat)
    requires Inv(fs) && d in fs && fs[d].dir && i < |fs[d].entries| && fs[d].entries[i].ino != 0
    ensures var n := fs[d].entries[i].ino; n in fs && fs[n].nlinks > 0
    ensures var n := fs[d].entries[i].ino; !fs[n].dir && (fs[n].nlinks > 1 || fs[n].users > 0) ==>
        Inv(WithoutName(fs, d, i, n))
  {
    hide Dirs, AllLinked, Refs;
    var n := fs[d].entries[i].ino;
    RefersTo(fs, d, i);
    RootIn(fs);
    if !fs[n].dir && (fs[n].nlinks > 1 || fs[n].users > 0) {
      var fs' := Counted(SetEntries(fs, d, fs[d].entries[i := fs[d].entries[i].(ino := 0)]), n, fs[n].nlinks - 1);
      ClearDirs(fs, fs', d, i);
      ClearLinks(fs, fs', d, i);
    }
  }

  lemma RefersTo(fs: Fs, d: int, i: nat)
    requires Inv(fs) && d in fs && fs[d].dir && i < |fs[d].entries| && fs[d].entries[i].ino != 0
    ensures var n := fs[d].entries[i].ino; n in fs && fs[n].nlinks > 0 && Place(d, i) in Refs(fs, n)
  {
    hide Dirs, Refs;
    EntryNames(fs, d, i);
    IsRef(fs, d, i);
    assert Linked(fs, fs[d].entries[i].ino);
  }

  /** Clearing an entry for a file, in the directories. */
  lemma ClearDirs(fs: Fs, fs': Fs, d: int, i: nat)
    requires Dirs(fs) && d in fs && fs[d].dir && i < |fs[d].entries| && fs[d].entries[i].ino in fs
             && !fs[fs[d].entries[i].ino].dir
    requires fs'.Keys == fs.Keys && forall x :: x in fs ==> fs'[x].dir == fs[x].dir
    requires forall x :: x in fs ==>
        fs'[x].entries == if x == d then fs[d].entries[i := fs[d].entries[i].(ino := 0)] else fs[x].entries
    ensures Dirs(fs')
  {
    hide GoodDir, Rooted, Unique, Padded, Names, Once;
    AllRooted(fs);
    NotADot(fs, d, i);
    forall x | x in fs' && fs'[x].dir ensures GoodDir(fs', x) {
      ClearRooted(fs, fs', d, i, x);
      ClearNames(fs, fs', d, i, x);
      GoodIs(fs', x);
    }
  }

  /** The first two entries name directories. */
  lemma NotADot(fs: Fs, d: int, i: nat)
    requires d in fs && fs[d].dir && Rooted(fs, d) && i < |fs[d].entries| && fs[d].entries[i].ino in fs
             && !fs[fs[d].entries[i].ino].dir
    ensures i >= 2
  { }

  lemma GoodIs(fs: Fs, d: int)
    requires d in fs && Unique(fs[d].entries) && Padded(fs[d].entries) && Rooted(fs, d) && Once(fs, d)
    requires forall j :: 0 <= j < |fs[d].entries| ==> Names(fs, d, j)
    ensures GoodDir(fs, d)
  { }

  lemma ClearRooted(fs: Fs, fs': Fs, d: int, i: nat, x: int)
    requires d in fs && i >= 2 && i < |fs[d].entries| && fs[d].entries[i].ino in fs && !fs[fs[d].entries[i].ino].dir
    requires fs'.Keys == fs.Keys && forall x :: x in fs ==> fs'[x].dir == fs[x].dir
    requires forall x :: x in fs ==>
        fs'[x].entries == if x == d then fs[d].entries[i := fs[d].entries[i].(ino := 0)] else fs[x].entries
    requires x in fs && fs[x].dir && Rooted(fs, x)
    ensures Rooted(fs', x)
  {
    if x != ROOT_INO {
      var p := fs[x].entries[1].ino;
      var j :| 2 <= j < |fs[p].entries| && fs[p].entries[j].ino == x;
      assert fs'[p].entries[j].ino == x;
    }
  }

  lemma ClearNames(fs: Fs, fs': Fs, d: int, i: nat, x: int)
    requires 0 !in fs && d in fs && i >= 2 && i < |fs[d].entries| && fs[d].dir
    requires fs'.Keys == fs.Keys && forall x :: x in fs ==> fs'[x].dir == fs[x].dir
    requires forall x :: x in fs ==>
        fs'[x].entries == if x == d then fs[d].entries[i := fs[d].entries[i].(ino := 0)] else fs[x].entries
    requires x in fs && fs[x].dir && GoodDir(fs, x)
    ensures Unique(fs'[x].entries) && Padded(fs'[x].entries) && Once(fs', x)
    ensures forall j :: 0 <= j < |fs'[x].entries| ==> Names(fs', x, j)
  {
    forall j | 0 <= j < |fs'[x].entries| ensures Names(fs', x, j) { assert Names(fs, x, j); }
    forall j | 0 <= j < |fs'[x].entries| && fs'[x].entries[j].ino != 0 ensures fs'[x].entries[j] == fs[x].entries[j] { }
  }

  lemma ClearLinks(fs: Fs, fs': Fs, d: int, i: nat)
    requires AllLinked(fs) && 0 !in fs && d in fs && fs[d].dir && i < |fs[d].entries| && fs[d].entries[i].ino in fs
    requires var n := fs[d].entries[i].ino;
      && !fs[n].dir && (fs[n].nlinks > 1 || (fs[n].nlinks == 1 && fs[n].users > 0)) && fs'.Keys == fs.Keys
      && forall x :: x in fs ==>
           fs'[x] == fs[x].(entries := if x == d then fs[d].entries[i := fs[d].entries[i].(ino := 0)]
                                       else fs[x].entries,
                                               nlinks := if x == n then fs[x].nlinks - 1 else fs[x].nlinks)
    ensures AllLinked(fs')
  {
    hide Refs;
    forall m | m in fs' ensures Linked(fs', m) {
      assert Linked(fs, m);
      ClearRefs(fs, fs', d, i, m);
    }
  }

  /** A directory as mkdir makes it. */
  function NewDir(n: int, d: int): Inode { Inode(true, 2, [Entry(n, Stored(DOT)), Entry(d, Stored(DOTDOT))], 0) }

  function WithDir(fs: Fs, d: int, i: nat, name: Name, n: int): Fs
    requires d in fs && i <= |fs[d].entries|
  {
    var entries := Put(fs[d].entries, i, Entry(n, Stored(name)));
    fs[n := NewDir(n, d)][d := fs[d].(entries := entries, nlinks := fs[d].nlinks + 1)]
  }

  lemma DotsDiffer()
    ensures Stored(DOT) != Stored(DOTDOT) && Plain(DOT) && Plain(DOTDOT)
  {
    assert Stored(DOT)[1] == 0 && Stored(DOTDOT)[1] == 46;
  }

  /** mkdir: the new directory counts two, its parent one more. */
  lemma MkdirKeeps(fs: Fs, d: int, i: nat, name: Name, n: int)
    requires Inv(fs) && d in fs && fs[d].dir && Vacant(fs[d].entries, i) && Plain(name)
             && !HasName(fs[d].entries, Stored(name))
    requires n !in fs && n != 0 && fs[d].nlinks < 255
    ensures Inv(WithDir(fs, d, i, name, n))
  {
    hide Dirs, AllLinked, WithDir, HasName;
    RootIn(fs);
    MkdirDirs(fs, d, i, name, n);
    NoNames(fs, n);
    MkdirLinks(fs, d, i, name, n);
  }

  lemma MkdirDirs(fs: Fs, d: int, i: nat, name: Name, n: int)
    requires Dirs(fs) && d in fs && fs[d].dir && Vacant(fs[d].entries, i) && Plain(name)
             && !HasName(fs[d].entries, Stored(name))
    requires n !in fs && n != 0
    ensures Dirs(WithDir(fs, d, i, name, n))
  {
    hide GoodDir, Rooted, Kept, HasName, Stored, Put, WithDir;
    var fs' := WithDir(fs, d, i, name, n);
    WithDirIs(fs, d, i, name, n);
    AllRooted(fs);
    GoodPut(fs, fs', d, i, name, n);
    FreshDir(fs', d, i, n);
    forall x | x in fs' && fs'[x].dir ensures GoodDir(fs', x) {
      if x != d && x != n { GoodKept(fs, fs', x); }
    }
  }

  lemma WithDirIs(fs: Fs, d: int, i: nat, name: Name, n: int)
    requires d in fs && fs[d].dir && Vacant(fs[d].entries, i) && n !in fs && n != 0 && 0 !in fs
    ensures var fs' := WithDir(fs, d, i, name, n);
      && Kept(fs, fs') && 0 !in fs' && fs'.Keys == fs.Keys + {n} && fs'[n] == NewDir(n, d)
      && fs'[d].entries == Put(fs[d].entries, i, Entry(n, Stored(name))) && fs'[d].dir
      && (forall x :: x in fs && x != d ==> fs'[x] == fs[x])
      && i < |fs'[d].entries| && fs'[d].entries[i].ino == n
  { }

  lemma FreshDir(fs: Fs, d: int, i: nat, n: int)
    requires n in fs && fs[n] == NewDir(n, d) && d in fs && fs[d].dir && n != ROOT_INO && 2 <= i < |fs[d].entries|
             && fs[d].entries[i].ino == n
    ensures GoodDir(fs, n)
  {
    DotsDiffer();
  }

  lemma MkdirLinks(fs: Fs, d: int, i: nat, name: Name, n: int)
    requires AllLinked(fs) && 0 !in fs && d in fs && fs[d].dir && Vacant(fs[d].entries, i) && n !in fs && n != 0
             && Refs(fs, n) == {} && fs[d].nlinks < 255
    ensures AllLinked(WithDir(fs, d, i, name, n))
  {
    hide Refs, Stored;
    var fs' := WithDir(fs, d, i, name, n);
    forall m | m in fs' ensures Linked(fs', m) {
      MkdirRefs(fs, d, i, name, n, m);
      if m != n { assert Linked(fs, m); }
    }
  }

  lemma MkdirRefs(fs: Fs, d: int, i: nat, name: Name, n: int, m: int)
    requires d in fs && fs[d].dir && Vacant(fs[d].entries, i) && n !in fs && m != 0
    ensures Refs(WithDir(fs, d, i, name, n), m) ==
      Refs(fs, m) + (if m == n then {Place(d, i), Place(n, 0)} else {}) + (if m == d then {Place(n, 1)} else {})
    ensures Place(d, i) !in Refs(fs, m) && Place(n, 0) !in Refs(fs, m) && Place(n, 1) !in Refs(fs, m)
  { }

  function WithoutDir(fs: Fs, d: int, i: nat, c: int): Fs
    requires d in fs && i < |fs[d].entries|
  {
    var entries := fs[d].entries[i := fs[d].entries[i].(ino := 0)];
    fs[d := fs[d].(entries := entries, nlinks := if fs[d].nlinks > 0 then fs[d].nlinks - 1 else 0)] - {c}
  }

  /** Nothing but "." and ".." is left in the directory. */
  predicate EmptyDir(fs: Fs, c: int)
    requires c in fs
  { forall j :: 2 <= j < |fs[c].entries| ==> fs[c].entries[j].ino == 0 }

  lemma ParentNotEmpty(fs: Fs, x: int)
    requires x in fs && x != 0 && Rooted(fs, x)
    ensures x != ROOT_INO ==> !EmptyDir(fs, fs[x].entries[1].ino)
  { }

  /** The entry that rmdir may clear is the one in the parent. */
  lemma InParent(fs: Fs, d: int, i: nat, c: int)
    requires Dirs(fs) && d in fs && fs[d].dir && i < |fs[d].entries| && c == fs[d].entries[i].ino && c in fs
             && fs[c].dir && c != d && EmptyDir(fs, c)
    ensures i >= 2 && c != ROOT_INO && |fs[c].entries| >= 2 && fs[c].entries[1].ino == d && fs[c].entries[0].ino == c
  {
    assert GoodDir(fs, d) && GoodDir(fs, c);
    assert Rooted(fs, d) && Rooted(fs, c);
    ParentNotEmpty(fs, d);
    assert Names(fs, d, i);
  }

  /** All the names of an empty directory: in its parent, and its own. */
  lemma EmptyRefs(fs: Fs, d: int, i: nat, c: int)
    requires Dirs(fs) && d in fs && fs[d].dir && i < |fs[d].entries| && c == fs[d].entries[i].ino && c in fs
             && fs[c].dir && c != d && EmptyDir(fs, c)
    ensures Refs(fs, c) == {Place(d, i), Place(c, 0)}
  {
    InParent(fs, d, i, c);
    assert GoodDir(fs, d) && Once(fs, d);
    hide Dirs, GoodDir, Once, EmptyDir;
    forall x, j | x in fs && fs[x].dir && 0 <= j < |fs[x].entries| && fs[x].entries[j].ino == c
      ensures (x == d && j == i) || (x == c && j == 0)
    {
      RefIsHere(fs, d, i, c, x, j);
    }
  }

  lemma RefIsHere(fs: Fs, d: int, i: nat, c: int, x: int, j: nat)
    requires Dirs(fs) && d in fs && fs[d].dir && 2 <= i < |fs[d].entries| && c == fs[d].entries[i].ino && c in fs
    requires fs[c].dir && c != d && c != ROOT_INO && EmptyDir(fs, c)
    requires |fs[c].entries| >= 2 && fs[c].entries[1].ino == d
    requires x in fs && fs[x].dir && j < |fs[x].entries| && fs[x].entries[j].ino == c
    ensures (x == d && j == i) || (x == c && j == 0)
  {
    assert GoodDir(fs, x) && Names(fs, x, j) && Rooted(fs, x);
    ParentNotEmpty(fs, x);
    hide Dirs, GoodDir;
  }

  /** rmdir: the directory goes, its parent counts one less. */
  lemma RmdirKeeps(fs: Fs, d: int, i: nat, c: int)
    requires Inv(fs) && d in fs && fs[d].dir && i < |fs[d].entries| && c == fs[d].entries[i].ino && c in fs
             && fs[c].dir && c != d && EmptyDir(fs, c)
    ensures fs[c].nlinks == 2 && fs[d].nlinks > 2 && Inv(WithoutDir(fs, d, i, c))
  {
    hide Dirs, AllLinked, WithoutDir, EmptyDir;
    InParent(fs, d, i, c);
    EmptyRefs(fs, d, i, c);
    RootIn(fs);
    TwoLinks(fs, d, i, c);
    RmdirDirs(fs, d, i, c);
    RmdirLinks(fs, d, i, c);
  }

  lemma TwoLinks(fs: Fs, d: int, i: nat, c: int)
    requires Inv(fs) && d in fs && fs[d].dir && c in fs && c != d && fs[c].dir
             && Refs(fs, c) == {Place(d, i), Place(c, 0)} && |fs[c].entries| >= 2 && fs[c].entries[1].ino == d
    ensures fs[c].nlinks == 2 && fs[d].nlinks > 2
  {
    hide Refs, Dirs, GoodDir, Rooted;
    assert Linked(fs, c) && Linked(fs, d);
    assert |{Place(d, i), Place(c, 0)}| == 2;
    DirsGood(fs);
    AllRooted(fs);
    var p, k := ThirdRef(fs, d);
    RootedFirst(fs, d);
    IsRef(fs, d, 0);
    IsRef(fs, c, 1);
    IsRef(fs, p, k);
    hide Linked;
    Three(Refs(fs, d), Place(d, 0), Place(c, 1), Place(p, k));
  }

  lemma DirsGood(fs: Fs)
    requires Dirs(fs)
    ensures forall d :: d in fs && fs[d].dir ==> GoodDir(fs, d)
  { }

  lemma RootedFirst(fs: Fs, d: int)
    requires d in fs && Rooted(fs, d)
    ensures |fs[d].entries| >= 2 && fs[d].entries[0].ino == d
  { }

  lemma IsRef(fs: Fs, d: int, i: nat)
    requires d in fs && fs[d].dir && i < |fs[d].entries|
    ensures Place(d, i) in Refs(fs, fs[d].entries[i].ino)
  { }

  /** Besides "." and the ".." of its children, its place in its parent. */
  lemma ThirdRef(fs: Fs, d: int) returns (p: int, k: nat)
    requires d in fs && fs[d].dir && Rooted(fs, d)
    ensures p in fs && fs[p].dir && k < |fs[p].entries| && fs[p].entries[k].ino == d && k != 0 && (k == 1 ==> p == d)
  {
    p := fs[d].entries[1].ino;
    if d == ROOT_INO {
      k := 1;
    } else {
      k :| 2 <= k < |fs[p].entries| && fs[p].entries[k].ino == d;
    }
  }

  lemma Three(s: set<Place>, a: Place, b: Place, c: Place)
    requires a in s && b in s && c in s && a != b && a != c && b != c
    ensures |s| > 2
  {
    assert s == {a, b, c} + (s - {a, b, c});
  }

  lemma RmdirDirs(fs: Fs, d: int, i: nat, c: int)
    requires Dirs(fs) && d in fs && fs[d].dir && 2 <= i < |fs[d].entries| && c == fs[d].entries[i].ino && c in fs
             && c != d && c != ROOT_INO
    requires Refs(fs, c) == {Place(d, i), Place(c, 0)}
    ensures Dirs(WithoutDir(fs, d, i, c))
  {
    var fs' := WithoutDir(fs, d, i, c);
    OnlyThere(fs, d, i, c);
    WithoutDirShape(fs, d, i, c);
    hide Refs, GoodDir, WithoutDir;
    forall x | x in fs' && fs'[x].dir ensures GoodDir(fs', x) { GoodWithoutDir(fs, d, i, c, x); }
  }

  lemma WithoutDirShape(fs: Fs, d: int, i: nat, c: int)
    requires d in fs && i < |fs[d].entries|
    ensures forall x :: x in WithoutDir(fs, d, i, c) <==> x in fs && x != c
    ensures forall x :: x in fs && x != c ==> WithoutDir(fs, d, i, c)[x].dir == fs[x].dir
  { }

  lemma OnlyThere(fs: Fs, d: int, i: nat, c: int)
    requires Refs(fs, c) == {Place(d, i), Place(c, 0)}
    ensures forall x, j :: x in fs && fs[x].dir && x != c && 0 <= j < |fs[x].entries| && !(x == d && j == i) ==>
        fs[x].entries[j].ino != c
  {
    forall x, j | x in fs && fs[x].dir && x != c && 0 <= j < |fs[x].entries| && !(x == d && j == i)
      ensures fs[x].entries[j].ino != c
    {
      assert Place(x, j) !in Refs(fs, c);
    }
  }

  lemma GoodWithoutDir(fs: Fs, d: int, i: nat, c: int, x: int)
    requires d in fs && fs[d].dir && 2 <= i < |fs[d].entries| && c == fs[d].entries[i].ino && c in fs && c != d
             && 0 !in fs
    requires forall y, j :: y in fs && fs[y].dir && y != c && 0 <= j < |fs[y].entries| && !(y == d && j == i) ==>
        fs[y].entries[j].ino != c
    requires x in fs && fs[x].dir && x != c && GoodDir(fs, x)
    ensures GoodDir(WithoutDir(fs, d, i, c), x)
  {
    hide GoodDir, Rooted, Unique, Padded, Names, Once;
    GoodParts(fs, x);
    RmdirRooted(fs, d, i, c, x);
    RmdirNames(fs, d, i, c, x);
    GoodIs(WithoutDir(fs, d, i, c), x);
  }

  lemma RmdirRooted(fs: Fs, d: int, i: nat, c: int, x: int)
    requires d in fs && fs[d].dir && 2 <= i < |fs[d].entries| && c == fs[d].entries[i].ino && c in fs && c != d
    requires forall y, j :: y in fs && fs[y].dir && y != c && 0 <= j < |fs[y].entries| && !(y == d && j == i) ==>
        fs[y].entries[j].ino != c
    requires x in fs && fs[x].dir && x != c && Rooted(fs, x)
    ensures Rooted(WithoutDir(fs, d, i, c), x)
  {
    var fs' := WithoutDir(fs, d, i, c);
    if x != ROOT_INO {
      var p := fs[x].entries[1].ino;
      var j :| 2 <= j < |fs[p].entries| && fs[p].entries[j].ino == x;
      assert fs'[p].entries[j].ino == x;
    }
  }

  lemma RmdirNames(fs: Fs, d: int, i: nat, c: int, x: int)
    requires d in fs && fs[d].dir && 2 <= i < |fs[d].entries| && c == fs[d].entries[i].ino && c in fs && c != d
             && 0 !in fs
    requires forall y, j :: y in fs && fs[y].dir && y != c && 0 <= j < |fs[y].entries| && !(y == d && j == i) ==>
        fs[y].entries[j].ino != c
    requires x in fs && fs[x].dir && x != c && GoodDir(fs, x)
    ensures var fs' := WithoutDir(fs, d, i, c);
      && x in fs' && Unique(fs'[x].entries) && Padded(fs'[x].entries) && Once(fs', x)
      && forall j :: 0 <= j < |fs'[x].entries| ==> Names(fs', x, j)
  {
    hide Rooted;
    var fs' := WithoutDir(fs, d, i, c);
    forall j | 0 <= j < |fs'[x].entries| && fs'[x].entries[j].ino != 0 ensures fs'[x].entries[j] == fs[x].entries[j] { }
    forall j | 0 <= j < |fs'[x].entries| ensures Names(fs', x, j) { assert Names(fs, x, j); }
  }

  lemma RmdirLinks(fs: Fs, d: int, i: nat, c: int)
    requires AllLinked(fs) && 0 !in fs && d in fs && fs[d].dir && i < |fs[d].entries| && c == fs[d].entries[i].ino
             && c in fs && fs[c].dir && c != d
    requires EmptyDir(fs, c) && |fs[c].entries| >= 2 && fs[c].entries[1].ino == d && fs[c].entries[0].ino == c
             && fs[d].nlinks > 2
    ensures AllLinked(WithoutDir(fs, d, i, c))
  {
    hide Refs, EmptyDir;
    var fs' := WithoutDir(fs, d, i, c);
    forall m | m in fs' ensures Linked(fs', m) {
      assert Linked(fs, m);
      RmdirRefs(fs, d, i, c, m);
    }
  }

  lemma RmdirRefs(fs: Fs, d: int, i: nat, c: int, m: int)
    requires d in fs && fs[d].dir && i < |fs[d].entries| && c == fs[d].entries[i].ino && c in fs && fs[c].dir && c != d
             && m != 0 && m != c
    requires EmptyDir(fs, c) && |fs[c].entries| >= 2 && fs[c].entries[1].ino == d && fs[c].entries[0].ino == c
    ensures Refs(WithoutDir(fs, d, i, c), m) == Refs(fs, m) - (if m == d then {Place(c, 1)} else {})
    ensures m == d ==> Place(c, 1) in Refs(fs, m)
  { }

  /** The number of users changes; somebody uses it or something names it. */
  lemma UsersKeep(fs: Fs, n: int, users: nat)
    requires Inv(fs) && n in fs && (users > 0 || fs[n].nlinks > 0)
    ensures Inv(fs[n := fs[n].(users := users)])
  {
    hide Dirs, Linked;
    DirsSame(fs, fs[n := fs[n].(users := users)]);
    UsersLinks(fs, n, users);
  }

  lemma DirsSame(fs: Fs, fs': Fs)
    requires Dirs(fs) && fs'.Keys == fs.Keys && forall x :: x in fs ==>
        fs'[x].dir == fs[x].dir && fs'[x].entries == fs[x].entries
    ensures Dirs(fs')
  {
    hide GoodDir, Rooted;
    AllRooted(fs);
    assert Kept(fs, fs');
    forall d | d in fs' && fs'[d].dir ensures GoodDir(fs', d) { GoodKept(fs, fs', d); }
  }

  lemma UsersLinks(fs: Fs, n: int, users: nat)
    requires AllLinked(fs) && n in fs && (users > 0 || fs[n].nlinks > 0)
    ensures AllLinked(fs[n := fs[n].(users := users)])
  {
    hide Refs;
    var fs' := fs[n := fs[n].(users := users)];
    forall m | m in fs' ensures Linked(fs', m) { assert Linked(fs, m); SameRefs(fs, fs', m); }
  }

  function Using(fs: Fs, n: int): Fs
    requires n in fs
  {
    fs[n := fs[n].(users := fs[n].users + 1)]
  }

  /** What iput leaves: without links and other users the inode goes. */
  function Left(fs: Fs, n: int): Fs
    requires n in fs
  {
    if fs[n].nlinks == 0 && fs[n].users <= 1 then fs - {n}
    else fs[n := fs[n].(users := if fs[n].users > 0 then fs[n].users - 1 else 0)]
  }

  lemma LeftKeeps(fs: Fs, n: int)
    requires Inv(fs) && n in fs
    ensures Inv(Left(fs, n))
  {
    hide Inv;
    if fs[n].nlinks == 0 && fs[n].users <= 1 {
      DropKeeps(fs, n);
    } else {
      UsersKeep(fs, n, if fs[n].users > 0 then fs[n].users - 1 else 0);
    }
  }

  /** The map changes at one name only. */
  lemma LookupPut(entries: seq<Entry>, i: nat, name: Name, n: int)
    requires Unique(entries) && Vacant(entries, i) && !HasName(entries, Stored(name)) && n != 0
    ensures var e' := Put(entries, i, Entry(n, Stored(name)));
      forall nm :: Lookup(e', nm) == if nm == Stored(name) then n else Lookup(entries, nm)
  {
    var e' := Put(entries, i, Entry(n, Stored(name)));
    forall nm ensures Lookup(e', nm) == if nm == Stored(name) then n else Lookup(entries, nm) {
      forall j ensures IsEntry(e', nm, j) <==> (j == i && nm == Stored(name)) || (j != i && IsEntry(entries, nm, j)) { }
      assert nm == Stored(name) ==> forall j :: j != i ==> !IsEntry(entries, nm, j);
      OneEntry(entries, nm);
      assert IsEntry(e', Stored(name), i);
      if HasName(entries, nm) {
        var j :| IsEntry(entries, nm, j);
        assert IsEntry(e', nm, j);
      }
    }
  }

  /** Unique names: the entry found is the entry there is. */
  lemma OneEntry(entries: seq<Entry>, nm: Name)
    requires Unique(entries)
    ensures forall i :: IsEntry(entries, nm, i) ==> Lookup(entries, nm) == entries[i].ino
  {
    forall i, j | IsEntry(entries, nm, i) && IsEntry(entries, nm, j) ensures i == j { }
  }

  lemma LookupClear(entries: seq<Entry>, i: nat)
    requires Unique(entries) && i < |entries| && entries[i].ino != 0
    ensures var e' := entries[i := entries[i].(ino := 0)];
      forall nm :: Lookup(e', nm) == if nm == entries[i].name then 0 else Lookup(entries, nm)
  {
    var e' := entries[i := entries[i].(ino := 0)];
    forall nm ensures Lookup(e', nm) == if nm == entries[i].name then 0 else Lookup(entries, nm) {
      forall j ensures IsEntry(e', nm, j) <==> j != i && IsEntry(entries, nm, j) { }
      OneEntry(entries, nm);
      if HasName(entries, nm) && nm != entries[i].name {
        var j :| IsEntry(entries, nm, j);
        assert IsEntry(e', nm, j);
      }
      assert IsEntry(entries, entries[i].name, i);
    }
  }

  lemma GoodEntries(fs: Fs, d: int)
    requires Inv(fs) && d in fs && fs[d].dir
    ensures Unique(fs[d].entries) && Padded(fs[d].entries) && d != 0
  {
    assert GoodDir(fs, d);
  }

  lemma DotsFirst(fs: Fs, c: int)
    requires Inv(fs) && c in fs && fs[c].dir
    ensures |fs[c].entries| >= 2 && fs[c].entries[0].ino == c && fs[c].entries[1].ino != 0
    ensures fs[c].entries[0].name == Stored(DOT) && fs[c].entries[1].name == Stored(DOTDOT)
  {
    assert GoodDir(fs, c) && Rooted(fs, c);
  }

  lemma EntryNames(fs: Fs, d: int, i: nat)
    requires Inv(fs) && d in fs && fs[d].dir && i < |fs[d].entries| && fs[d].entries[i].ino != 0
    ensures fs[d].entries[i].ino in fs
  {
    assert GoodDir(fs, d) && Names(fs, d, i);
  }

  /** The root directory alone. */
  function Bare(): Fs {
    map[ROOT_INO := Inode(true, 2, [Entry(ROOT_INO, Stored(DOT)), Entry(ROOT_INO, Stored(DOTDOT))], 0)]
  }

  lemma RootOnly()
    ensures Inv(Bare())
  {
    var fs := Bare();
    DotsDiffer();
    hide Stored;
    assert Refs(fs, ROOT_INO) == {Place(ROOT_INO, 0), Place(ROOT_INO, 1)};
    assert |{Place(ROOT_INO, 0), Place(ROOT_INO, 1)}| == 2;
    hide Refs;
    assert GoodDir(fs, ROOT_INO);
  }

  /* ---- when a step of an interrupted call is right ---- */

  /** Entering a name keeps the names of the directory apart exactly when the name
      is still absent. */
  lemma PutExact(entries: seq<Entry>, i: nat, name: Name, n: int)
    requires Unique(entries) && Vacant(entries, i) && n != 0
    ensures Unique(Put(entries, i, Entry(n, Stored(name)))) <==> !HasName(entries, Stored(name))
  {
    var e' := Put(entries, i, Entry(n, Stored(name)));
    if HasName(entries, Stored(name)) {
      var j :| 0 <= j < |entries| && IsEntry(entries, Stored(name), j);
      assert e'[j] == entries[j] && e'[i].name == Stored(name);
    } else {
      forall j | 0 <= j < |entries| && entries[j].ino != 0 ensures entries[j].name != Stored(name) {
        assert !IsEntry(entries, Stored(name), j);
      }
    }
  }

  /** Clearing an entry and taking one off the count of file n, if there is one to
      take, keeps the counts right exactly when the entry names n, or when there was
      nothing to clear and nothing to take. */
  lemma ClearExact(fs: Fs, d: int, i: nat, n: int)
    requires Inv(fs) && d in fs && fs[d].dir && i < |fs[d].entries| && n in fs && !fs[n].dir && fs[n].users > 0
    ensures var e := fs[d].entries[i];
      Inv(WithoutName(fs, d, i, n)) <==> e.ino == n || (e.ino == 0 && fs[n].nlinks == 0)
  {
    hide Dirs, Refs;
    RootIn(fs);
    assert Linked(fs, n);
    var fs', m := WithoutName(fs, d, i, n), fs[d].entries[i].ino;
    if m == n {
      UnlinkKeeps(fs, d, i);
    } else if m == 0 && fs[n].nlinks == 0 {
      assert fs[d].entries[i := fs[d].entries[i].(ino := 0)] == fs[d].entries;
      assert fs' == fs;
    } else if fs[n].nlinks > 0 {
      ClearRefs(fs, fs', d, i, n);
      assert !Linked(fs', n);
    } else {
      EntryNames(fs, d, i);
      assert Linked(fs, m);
      ClearRefs(fs, fs', d, i, m);
      assert !Linked(fs', m);
    }
  }

  /** iput cannot repair anything. */
  lemma LeftBack(fs: Fs, n: int)
    requires n in fs && n != 0 && !fs[n].dir && fs[n].entries == [] && fs[n].users > 0 && Inv(Left(fs, n))
    ensures Inv(fs)
  {
    hide Inv;
    if fs[n].nlinks == 0 && fs[n].users <= 1 {
      FreshKeeps(fs - {n}, n);
      assert fs == (fs - {n})[n := FRESH];
    } else {
      UsersKeep(Left(fs, n), n, fs[n].users);
      assert fs == Left(fs, n)[n := Left(fs, n)[n].(users := fs[n].users)];
    }
  }

  /** Clearing an entry and taking directory c away keeps everything right exactly
      when the entry names c and c is empty. */
  lemma RemoveExact(fs: Fs, d: int, i: nat, c: int)
    requires Inv(fs) && d in fs && fs[d].dir && i < |fs[d].entries| && c in fs && fs[c].dir && c != d
    ensures Inv(WithoutDir(fs, d, i, c)) <==> fs[d].entries[i].ino == c && EmptyDir(fs, c)
  {
    hide Inv, EmptyDir, WithoutDir;
    if fs[d].entries[i].ino == c && EmptyDir(fs, c) {
      RmdirKeeps(fs, d, i, c);
    } else if Inv(WithoutDir(fs, d, i, c)) {
      WasNamed(fs, d, i, c);
      WasEmpty(fs, d, i, c);
    }
  }

  lemma WithoutDirIs(fs: Fs, d: int, i: nat, c: int)
    requires d in fs && fs[d].dir && i < |fs[d].entries| && c != d
    ensures var fs' := WithoutDir(fs, d, i, c);
      && d in fs' && fs'[d].entries == fs[d].entries[i := fs[d].entries[i].(ino := 0)] && fs'[d].dir
      && (forall x :: x in fs' <==> x in fs && x != c)
      && (forall x :: x in fs && x != c && x != d ==> fs'[x] == fs[x])
      && (fs[d].nlinks > 0 ==> fs'[d].nlinks == fs[d].nlinks - 1)
  { }

  /** Live entries name what is there. */
  lemma NamesThere(fs: Fs)
    requires Inv(fs)
    ensures 0 !in fs && ROOT_INO in fs
    ensures forall x :: x in fs && fs[x].dir ==> Rooted(fs, x) && Once(fs, x)
    ensures forall x, j :: x in fs && fs[x].dir && 0 <= j < |fs[x].entries| ==> Names(fs, x, j)
  {
    forall x | x in fs && fs[x].dir ensures Rooted(fs, x) && Once(fs, x) { assert GoodDir(fs, x); }
    forall x, j | x in fs && fs[x].dir && 0 <= j < |fs[x].entries| ensures Names(fs, x, j) { assert GoodDir(fs, x); }
  }

  /** What WithoutDir leaves of d, if that is right. */
  lemma ParentKept(fs: Fs, d: int, i: nat, c: int)
    requires Inv(fs) && d in fs && fs[d].dir && i < |fs[d].entries| && c in fs && fs[c].dir && c != d
    requires Inv(WithoutDir(fs, d, i, c))
    ensures i >= 2 && c != ROOT_INO && fs[d].entries[1].ino != c && fs[d].entries[i].ino != d
    ensures forall k :: 0 <= k < |fs[d].entries| && k != i ==> fs[d].entries[k].ino != c
  {
    hide Inv, WithoutDir;
    var fs' := WithoutDir(fs, d, i, c);
    WithoutDirIs(fs, d, i, c);
    NamesThere(fs);
    NamesThere(fs');
    assert Rooted(fs, d) && Rooted(fs', d);
    assert Names(fs', d, 1) && Names(fs, d, i) && Once(fs, d);
    forall k | 0 <= k < |fs[d].entries| && k != i ensures fs[d].entries[k].ino != c { assert Names(fs', d, k); }
  }

  /** Its "." and its place in its parent. */
  lemma TwoAtLeast(fs: Fs, d: int)
    requires Inv(fs) && d in fs && fs[d].dir
    ensures fs[d].nlinks >= 2
  {
    hide Refs, Dirs;
    DirsGood(fs);
    AllRooted(fs);
    var p, k := ThirdRef(fs, d);
    RootedFirst(fs, d);
    IsRef(fs, d, 0);
    IsRef(fs, p, k);
    assert Linked(fs, d);
    assert |{Place(d, 0), Place(p, k)}| == 2;
    SubsetSize({Place(d, 0), Place(p, k)}, Refs(fs, d));
  }

  lemma LinksAre(fs: Fs, n: int)
    requires Inv(fs) && n in fs
    ensures fs[n].nlinks == |Refs(fs, n)| && (fs[n].dir ==> fs[n].nlinks > 0)
  {
    hide Dirs, Refs;
    assert Linked(fs, n);
    if fs[n].dir { NamedByItself(fs, n); }
  }

  /** d has lost the name that c had for it: its "..". */
  lemma WasNamed(fs: Fs, d: int, i: nat, c: int)
    requires Inv(fs) && d in fs && fs[d].dir && i < |fs[d].entries| && c in fs && fs[c].dir && c != d
    requires Inv(WithoutDir(fs, d, i, c))
    ensures fs[d].entries[i].ino == c && i >= 2 && |fs[c].entries| >= 2 && fs[c].entries[1].ino == d
  {
    hide Inv, Once, WithoutDir, Refs;
    var fs' := WithoutDir(fs, d, i, c);
    WithoutDirIs(fs, d, i, c);
    ParentKept(fs, d, i, c);
    LinksAre(fs, d);
    LinksAre(fs', d);
    NamesThere(fs);
    var j := LostName(fs, fs', d, i, c);
    assert Names(fs, c, j) && Rooted(fs, c);
  }

  lemma LostName(fs: Fs, fs': Fs, d: int, i: nat, c: int) returns (j: nat)
    requires d in fs && fs[d].dir && i < |fs[d].entries| && c in fs && fs[c].dir && c != d && d != 0
    requires fs[d].entries[i].ino != d && fs' == WithoutDir(fs, d, i, c) && |Refs(fs', d)| < |Refs(fs, d)|
    ensures j < |fs[c].entries| && fs[c].entries[j].ino == d
  {
    var p := OneOfMore(Refs(fs, d), Refs(fs', d));
    j := p.i;
  }

  lemma OneOfMore(a: set<Place>, b: set<Place>) returns (p: Place)
    requires |b| < |a|
    ensures p in a && p !in b
  {
    assert !(a <= b) by {
      if a <= b { SubsetSize(a, b); }
    }
    p :| p in a && p !in b;
  }

  /** What c named would be named once less than its count says. */
  lemma WasEmpty(fs: Fs, d: int, i: nat, c: int)
    requires Inv(fs) && d in fs && fs[d].dir && i < |fs[d].entries| && c in fs && fs[c].dir && c != d
    requires Inv(WithoutDir(fs, d, i, c)) && |fs[c].entries| >= 2 && fs[c].entries[1].ino == d
    ensures EmptyDir(fs, c)
  {
    hide Inv, WithoutDir, Refs, Once, Rooted;
    var fs' := WithoutDir(fs, d, i, c);
    forall j | 0 <= j < |fs[c].entries| && fs[c].entries[j].ino != 0
      ensures |Refs(fs', fs[c].entries[j].ino)| < |Refs(fs, fs[c].entries[j].ino)|
    {
      OneRefLess(fs, fs', d, i, c, j, fs[c].entries[j].ino);
    }
    CountsSame(fs, d, i, c);
    ParentKept(fs, d, i, c);
    NamesThere(fs);
    forall j | 2 <= j < |fs[c].entries| ensures fs[c].entries[j].ino == 0 { assert Names(fs, c, j); }
  }

  lemma CountsSame(fs: Fs, d: int, i: nat, c: int)
    requires Inv(fs) && d in fs && fs[d].dir && i < |fs[d].entries| && c in fs && fs[c].dir && c != d
    requires Inv(WithoutDir(fs, d, i, c))
    ensures forall m :: m in fs && m != c && m != d ==> |Refs(WithoutDir(fs, d, i, c), m)| == |Refs(fs, m)|
  {
    hide Inv, WithoutDir, Refs;
    WithoutDirIs(fs, d, i, c);
    forall m | m in fs && m != c && m != d ensures |Refs(WithoutDir(fs, d, i, c), m)| == |Refs(fs, m)| {
      LinksAre(fs, m);
      LinksAre(WithoutDir(fs, d, i, c), m);
    }
  }

  lemma OneRefLess(fs: Fs, fs': Fs, d: int, i: nat, c: int, j: nat, m: int)
    requires d in fs && fs[d].dir && i < |fs[d].entries| && c in fs && fs[c].dir && c != d && m != 0
    requires j < |fs[c].entries| && fs[c].entries[j].ino == m && fs' == WithoutDir(fs, d, i, c)
    ensures |Refs(fs', m)| < |Refs(fs, m)|
  {
    assert Place(c, j) in Refs(fs, m);
    assert Refs(fs', m) <= Refs(fs, m) - {Place(c, j)};
    hide Refs;
    SubsetSize(Refs(fs', m), Refs(fs, m) - {Place(c, j)});
  }
}
