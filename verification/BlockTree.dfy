/** The zone bitmap and the block trees of fs/bitmap.c, fs/inode.c and
    fs/truncate.c as values.

    A slot is a place that can hold a block number: one of the nine i_zone words
    of an inode, or one of the 512 pointers of the block that another slot holds. */
module BlockTree {
  const BLOCK_SIZE: int := 1024
  const POINTERS: int := 512
  const BITS: int := 8192
  const Z_MAP_SLOTS: int := 8
  const MAX_BLOCKS: int := 7 + 512 + 512 * 512

  type Byte = b: int | 0 <= b < 256
  type Block = b: seq<Byte> | |b| == BLOCK_SIZE witness seq(BLOCK_SIZE, _ => 0)

  function ZeroBlock(): (z: Block)
    ensures forall k :: 0 <= k < BLOCK_SIZE ==> z[k] == 0
  {
    seq(BLOCK_SIZE, _ => 0)
  }

  /** `tree`: a regular file or a directory, whose zones are block numbers. */
  datatype Inode = Inode(tree: bool, size: nat, zone: seq<nat>)

  /** `zmap` holds the zone map blocks that are in memory; `data` the contents of
      every block as the buffer cache shows them. */
  datatype Disk = Disk(zmap: seq<seq<bool>>, data: seq<Block>, inodes: seq<Inode>, first: nat, nzones: nat)

  datatype Slot = Zone(ino: nat, k: nat) | Child(parent: Slot, k: nat)

  ghost predicate Shape(s: Disk) {
    && 1 <= |s.zmap| <= Z_MAP_SLOTS && (forall i :: 0 <= i < |s.zmap| ==> |s.zmap[i]| == BITS)
    && 1 <= s.first < s.nzones <= 65536 && s.nzones - s.first < |s.zmap| * BITS
    && |s.data| == s.nzones && s.zmap[0][0]
    && (forall i :: 0 <= i < |s.inodes| ==> |s.inodes[i].zone| == 9)
  }

  /* ---- bits ---- */

  predicate Bit(s: Disk, n: int)
    requires 0 <= n
  {
    n / BITS < |s.zmap| && n % BITS < |s.zmap[n / BITS]| && s.zmap[n / BITS][n % BITS]
  }

  predicate InZone(s: Disk, b: int) { s.first <= b < s.nzones }

  /** Block b is marked in use. */
  predicate Used(s: Disk, b: int)
    requires s.first <= b
  {
    Bit(s, b - (s.first - 1))
  }

  function SetBit(s: Disk, n: int, v: bool): Disk
    requires 0 <= n && n / BITS < |s.zmap| && |s.zmap[n / BITS]| == BITS
  {
    s.(zmap := s.zmap[n / BITS := s.zmap[n / BITS][n % BITS := v]])
  }

  lemma BitAfter(s: Disk, n: int, v: bool)
    requires Shape(s) && 0 <= n && n / BITS < |s.zmap| && (v || n > 0)
    ensures Shape(SetBit(s, n, v))
    ensures forall m :: 0 <= m ==> Bit(SetBit(s, n, v), m) == if m == n then v else Bit(s, m)
  {
    forall m | 0 <= m ensures Bit(SetBit(s, n, v), m) == if m == n then v else Bit(s, m) {
      if m / BITS == n / BITS && m % BITS == n % BITS { assert m == n; }
    }
  }

  /* ---- pointers ---- */

  /** The j-th unsigned short of a block. */
  function Ptr(b: Block, j: int): (p: nat)
    requires 0 <= j < POINTERS
    ensures p < 65536
  {
    (b[2 * j] as int) + 256 * (b[2 * j + 1] as int)
  }

  function SetPtr(b: Block, j: int, p: nat): Block
    requires 0 <= j < POINTERS && p < 65536
  {
    var lo: Byte := p % 256;
    var hi: Byte := p / 256;
    b[2 * j := lo][2 * j + 1 := hi]
  }

  lemma PtrAfter(b: Block, j: int, p: nat)
    requires 0 <= j < POINTERS && p < 65536
    ensures forall k :: 0 <= k < POINTERS ==> Ptr(SetPtr(b, j, p), k) == if k == j then p else Ptr(b, k)
  {
    assert p % 256 + 256 * (p / 256) == p;
  }

  /* ---- slots ---- */

  /** Slots whose block is a block of pointers. */
  predicate HasKids(x: Slot) {
    match x
    case Zone(_, k) => k == 7 || k == 8
    case Child(Zone(_, k), _) => k == 8
    case Child(_, _) => false
  }

  function InodeOf(x: Slot): nat {
    match x case Zone(i, _) => i case Child(p, _) => InodeOf(p)
  }

  predicate ValidSlot(s: Disk, x: Slot) {
    match x
    case Zone(i, k) => i < |s.inodes| && s.inodes[i].tree && k < 9
    case Child(p, k) => ValidSlot(s, p) && HasKids(p) && k < POINTERS
  }

  /** The block number in a slot; 0 when there is none. */
  function At(s: Disk, x: Slot): nat
    requires Shape(s) && ValidSlot(s, x)
  {
    match x
    case Zone(i, k) => s.inodes[i].zone[k]
    case Child(p, k) => var b := At(s, p); if b == 0 || b >= s.nzones then 0 else Ptr(s.data[b], k)
  }

  /* ---- the invariant ---- */

  /** Apart from the slots in `gone` (freed, about to be forgotten), the blocks in
      use are exactly those in slots, each in one slot: its owner. */
  ghost predicate Exact(s: Disk, owner: map<nat, Slot>, gone: iset<Slot>) {
    && Shape(s)
    && (forall b :: InZone(s, b) ==> (b in owner <==> Used(s, b)))
    && (forall b :: b in owner ==> InZone(s, b) && ValidSlot(s, owner[b]) && owner[b] !in gone && At(s, owner[b]) == b)
    && (forall x :: ValidSlot(s, x) && x !in gone && At(s, x) != 0 ==> At(s, x) in owner && owner[At(s, x)] == x)
  }

  ghost predicate Inv(s: Disk, owner: map<nat, Slot>) { Exact(s, owner, iset{}) }

  /** A device as it is formatted: no inode has a block, none is in use. */
  ghost predicate Formatted(s: Disk) {
    && Shape(s) && (forall b :: InZone(s, b) ==> !Used(s, b))
    && forall i, k :: 0 <= i < |s.inodes| && 0 <= k < 9 ==> s.inodes[i].zone[k] == 0
  }

  lemma {:induction false} FormattedAt(s: Disk, x: Slot)
    requires Formatted(s) && ValidSlot(s, x)
    ensures At(s, x) == 0
  {
    if x.Child? { FormattedAt(s, x.parent); }
  }

  lemma FormattedInv(s: Disk)
    requires Formatted(s)
    ensures Inv(s, map[])
  {
    forall x | ValidSlot(s, x) ensures At(s, x) == 0 { FormattedAt(s, x); }
  }

  /** In plain words: a block is marked in use exactly when some slot holds it,
      and then only one does. */
  lemma UsedIffReached(s: Disk, owner: map<nat, Slot>, b: int)
    requires Inv(s, owner) && InZone(s, b)
    ensures Used(s, b) <==> exists x :: ValidSlot(s, x) && At(s, x) == b
    ensures forall x, y :: ValidSlot(s, x) && ValidSlot(s, y) && At(s, x) == b == At(s, y) ==> x == y
  {
    if Used(s, b) {
      assert b in owner;
      assert ValidSlot(s, owner[b]) && At(s, owner[b]) == b;
    }
  }

  /* ---- elementary steps ---- */

  /** A zone is taken: its bit is set and its block cleared. */
  function TakeZone(s: Disk, b: int): Disk
    requires Shape(s) && InZone(s, b)
  {
    SetBit(s, b - (s.first - 1), true).(data := s.data[b := ZeroBlock()])
  }

  /** A block number is stored in a slot. */
  function PutSlot(s: Disk, x: Slot, b: nat): Disk
    requires Shape(s) && ValidSlot(s, x) && b < 65536
    requires x.Child? ==> InZone(s, At(s, x.parent))
  {
    match x
    case Zone(i, k) => s.(inodes := s.inodes[i := s.inodes[i].(zone := s.inodes[i].zone[k := b])])
    case Child(p, k) => var h := At(s, p); s.(data := s.data[h := SetPtr(s.data[h], k, b)])
  }

  lemma SameKinds(s: Disk, t: Disk, x: Slot)
    requires |s.inodes| == |t.inodes| && forall i :: 0 <= i < |s.inodes| ==> s.inodes[i].tree == t.inodes[i].tree
    ensures ValidSlot(s, x) == ValidSlot(t, x)
  { }

  /** A block that no slot holds may change at will. */
  lemma {:induction false} AtUnheld(s: Disk, t: Disk, b: int, x: Slot)
    requires Shape(s) && Shape(t) && ValidSlot(s, x)
    requires s.inodes == t.inodes && s.nzones == t.nzones
    requires forall c :: 0 <= c < s.nzones && c != b ==> t.data[c] == s.data[c]
    requires forall y :: ValidSlot(s, y) && HasKids(y) ==> At(s, y) != b
    ensures ValidSlot(t, x) && At(t, x) == At(s, x)
  {
    match x
    case Zone(i, k) =>
    case Child(p, k) => AtUnheld(s, t, b, p);
  }

  /** Storing into an empty slot whose new block is blank changes that slot alone. */
  lemma {:induction false} AtAfterPut(s: Disk, owner: map<nat, Slot>, x: Slot, b: nat, y: Slot)
    requires Inv(s, owner) && ValidSlot(s, x) && At(s, x) == 0 && ValidSlot(s, y)
    requires x.Child? ==> At(s, x.parent) != 0
    requires InZone(s, b) && b !in owner && s.data[b] == ZeroBlock()
    ensures x.Child? ==> InZone(s, At(s, x.parent))
    ensures var t := PutSlot(s, x, b); Shape(t) && ValidSlot(t, y) && At(t, y) == if y == x then b else At(s, y)
  {
    if x.Child? { assert At(s, x.parent) in owner; }
    var t := PutSlot(s, x, b);
    SameKinds(s, t, y);
    match y {
      case Zone(i, k) =>
      case Child(p, k) =>
        AtAfterPut(s, owner, x, b, p);
        if p == x {
          assert t.data[b] == ZeroBlock() by { if x.Child? { assert At(s, x.parent) != b; } }
        } else if x.Child? && At(s, p) != 0 && At(s, p) == At(s, x.parent) {
          assert p == owner[At(s, p)] == x.parent;
          PtrAfter(s.data[At(s, p)], x.k, b);
        }
    }
  }

  lemma AtSame(s: Disk, t: Disk, x: Slot)
    requires Shape(s) && Shape(t) && s.inodes == t.inodes && s.data == t.data && s.nzones == t.nzones
    ensures ValidSlot(s, x) == ValidSlot(t, x)
    ensures ValidSlot(s, x) ==> At(t, x) == At(s, x)
  {
    SameKinds(s, t, x);
    if ValidSlot(s, x) { AtUnheld(s, t, -1, x); }
  }

  /** Clearing a free block disturbs nothing. */
  lemma BlankKeeps(s: Disk, owner: map<nat, Slot>, b: int)
    requires Inv(s, owner) && InZone(s, b) && b !in owner
    ensures var u := s.(data := s.data[b := ZeroBlock()]);
      Inv(u, owner) && forall y :: ValidSlot(s, y) ==> ValidSlot(u, y) && At(u, y) == At(s, y)
  {
    var u := s.(data := s.data[b := ZeroBlock()]);
    forall y | ValidSlot(s, y) ensures ValidSlot(u, y) && At(u, y) == At(s, y) { AtUnheld(s, u, b, y); }
    forall y | ValidSlot(u, y) ensures ValidSlot(s, y) { SameKinds(s, u, y); }
    assert forall c :: InZone(u, c) ==> Used(u, c) == Used(s, c);
  }

  /** Giving an empty slot a new block keeps the accounting exact. */
  lemma PutKeeps(s: Disk, owner: map<nat, Slot>, x: Slot, b: nat)
    requires Inv(s, owner) && ValidSlot(s, x) && At(s, x) == 0
    requires x.Child? ==> At(s, x.parent) != 0
    requires InZone(s, b) && !Used(s, b)
    ensures Shape(TakeZone(s, b)) && ValidSlot(TakeZone(s, b), x)
    ensures x.Child? ==> InZone(s, At(s, x.parent)) && At(TakeZone(s, b), x.parent) == At(s, x.parent)
    ensures var t := PutSlot(TakeZone(s, b), x, b);
      && Inv(t, owner[b := x])
      && (forall y :: ValidSlot(s, y) ==> ValidSlot(t, y) && At(t, y) == if y == x then b else At(s, y))
      && (forall c :: InZone(s, c) && c != b && (x.Child? ==> c != At(s, x.parent)) ==> t.data[c] == s.data[c])
      && t.data[b] == ZeroBlock()
  {
    assert b !in owner;
    BlankKeeps(s, owner, b);
    var u := s.(data := s.data[b := ZeroBlock()]);
    var n := b - (s.first - 1);
    var z := TakeZone(s, b);
    assert z == u.(zmap := z.zmap);
    BitAfter(s, n, true);
    AtSame(u, z, x);
    if x.Child? {
      AtSame(u, z, x.parent);
      assert At(s, x.parent) in owner;
    }
    var v := PutSlot(u, x, b);
    var t := PutSlot(z, x, b);
    assert t == v.(zmap := z.zmap);
    forall y | ValidSlot(s, y) ensures ValidSlot(t, y) && At(t, y) == if y == x then b else At(s, y) {
      AtAfterPut(u, owner, x, b, y);
      AtSame(v, t, y);
    }
    PutExact(s, t, owner, x, b, n);
  }

  lemma PutExact(s: Disk, t: Disk, owner: map<nat, Slot>, x: Slot, b: nat, n: nat)
    requires Inv(s, owner) && Shape(t) && ValidSlot(s, x) && InZone(s, b) && n == b - (s.first - 1) && b !in owner
    requires |t.inodes| == |s.inodes| && (forall i :: 0 <= i < |s.inodes| ==> s.inodes[i].tree == t.inodes[i].tree)
    requires t.first == s.first && t.nzones == s.nzones && At(s, x) == 0
    requires forall m :: 0 <= m ==> Bit(t, m) == if m == n then true else Bit(s, m)
    requires forall y :: ValidSlot(s, y) ==> ValidSlot(t, y) && At(t, y) == if y == x then b else At(s, y)
    ensures Inv(t, owner[b := x])
  {
    hide Shape, Bit, Used;
    TakenUsed(s, t, b, n);
    forall y | ValidSlot(t, y) ensures ValidSlot(s, y) { SameKinds(s, t, y); }
  }

  lemma TakenUsed(s: Disk, t: Disk, b: nat, n: nat)
    requires Shape(s) && InZone(s, b) && n == b - (s.first - 1) && t.first == s.first && t.nzones == s.nzones
    requires forall m :: 0 <= m ==> Bit(t, m) == if m == n then true else Bit(s, m)
    ensures s.first >= 1 && forall c :: InZone(t, c) <==> InZone(s, c)
    ensures forall c :: InZone(s, c) ==> (Used(t, c) <==> c == b || Used(s, c))
  {
    hide Bit;
  }

  /* ---- freeing ---- */

  /** y lies below x in the tree. */
  predicate Under(y: Slot, x: Slot) {
    match y case Zone(_, _) => false case Child(p, _) => p == x || Under(p, x)
  }

  /** y lies below one of the first n children of x, or is one. */
  predicate UnderFirst(y: Slot, x: Slot, n: nat) {
    match y case Zone(_, _) => false case Child(p, k) => (p == x && k < n) || UnderFirst(p, x, n)
  }

  ghost function Cut(x: Slot): iset<Slot> { iset y | y == x || Under(y, x) }

  ghost function First(x: Slot, n: nat): iset<Slot> { iset y | UnderFirst(y, x, n) }

  lemma {:induction false} FirstNext(y: Slot, x: Slot, n: nat)
    ensures UnderFirst(y, x, n + 1) <==> UnderFirst(y, x, n) || y == Child(x, n) || Under(y, Child(x, n))
  {
    if y.Child? { FirstNext(y.parent, x, n); }
  }

  lemma {:induction false} FirstAll(s: Disk, y: Slot, x: Slot)
    requires ValidSlot(s, y)
    ensures UnderFirst(y, x, POINTERS) <==> Under(y, x)
    ensures !UnderFirst(y, x, 0)
  {
    if y.Child? { FirstAll(s, y.parent, x); }
  }

  /** Whatever is freed is freed with everything below it. */
  ghost predicate Closed(gone: iset<Slot>) {
    forall y: Slot :: y.Child? && y.parent in gone ==> y in gone
  }

  function FreeZone(s: Disk, b: int, junk: Block): Disk
    requires Shape(s) && InZone(s, b)
  {
    SetBit(s, b - (s.first - 1), false).(data := s.data[b := junk])
  }

  /** Freed block b held only freed slots: the others are where they were. */
  lemma {:induction false} AtAfterFree(s: Disk, t: Disk, owner: map<nat, Slot>, gone: iset<Slot>, x: Slot, b: int,
                                       y: Slot)
    requires Exact(s, owner, gone) && Closed(gone) && b in owner && owner[b] == x && Shape(t)
    requires forall k: nat :: Child(x, k) in gone
    requires s.inodes == t.inodes && s.nzones == t.nzones
    requires forall c :: 0 <= c < s.nzones && c != b ==> t.data[c] == s.data[c]
    requires ValidSlot(s, y) && y !in gone
    ensures ValidSlot(t, y) && At(t, y) == At(s, y)
  {
    SameKinds(s, t, y);
    match y
    case Zone(i, k) =>
    case Child(p, k) =>
      assert p !in gone && p != x;
      AtAfterFree(s, t, owner, gone, x, b, p);
  }

  lemma FreeKeeps(s: Disk, owner: map<nat, Slot>, gone: iset<Slot>, x: Slot, junk: Block)
    requires Exact(s, owner, gone) && Closed(gone) && ValidSlot(s, x) && x !in gone && At(s, x) != 0
    requires forall k: nat :: Child(x, k) in gone
    ensures InZone(s, At(s, x)) && Used(s, At(s, x))
    ensures var b := At(s, x); var t := FreeZone(s, b, junk);
      && Exact(t, owner - {b}, gone + iset{x}) && Closed(gone + iset{x})
      && (forall y :: ValidSlot(s, y) && y !in gone ==> ValidSlot(t, y) && At(t, y) == At(s, y))
      && (forall m :: 0 <= m ==> Bit(t, m) == (Bit(s, m) && m != b - (s.first - 1)))
  {
    hide Exact, Closed, Bit, At, ValidSlot;
    OwnerOf(s, owner, gone, x);
    var b := At(s, x);
    var t := FreeZone(s, b, junk);
    BitAfter(s, b - (s.first - 1), false);
    assert Shape(t);
    forall m | 0 <= m ensures Bit(t, m) == (Bit(s, m) && m != b - (s.first - 1)) {
      BitOnly(t, SetBit(s, b - (s.first - 1), false), m);
    }
    forall y | ValidSlot(s, y) && y !in gone ensures ValidSlot(t, y) && At(t, y) == At(s, y) {
      AtAfterFree(s, t, owner, gone, x, b, y);
    }
    FreeExact(s, t, owner, gone, x, b);
  }

  lemma BitOnly(s: Disk, t: Disk, m: int)
    requires 0 <= m && s.zmap == t.zmap
    ensures Bit(s, m) == Bit(t, m)
  { }

  lemma OwnerOf(s: Disk, owner: map<nat, Slot>, gone: iset<Slot>, x: Slot)
    requires Exact(s, owner, gone) && ValidSlot(s, x) && x !in gone && At(s, x) != 0
    ensures Shape(s) && At(s, x) in owner && owner[At(s, x)] == x && InZone(s, At(s, x)) && Used(s, At(s, x))
    ensures 1 <= At(s, x) - (s.first - 1) && (At(s, x) - (s.first - 1)) / BITS < |s.zmap|
  { }

  lemma FreeExact(s: Disk, t: Disk, owner: map<nat, Slot>, gone: iset<Slot>, x: Slot, b: int)
    requires Exact(s, owner, gone) && Closed(gone) && b in owner && owner[b] == x && Shape(t)
    requires forall k: nat :: Child(x, k) in gone
    requires s.inodes == t.inodes && s.nzones == t.nzones && s.first == t.first
    requires forall y :: ValidSlot(s, y) && y !in gone ==> ValidSlot(t, y) && At(t, y) == At(s, y)
    requires forall m :: 0 <= m ==> Bit(t, m) == (Bit(s, m) && m != b - (s.first - 1))
    ensures Exact(t, owner - {b}, gone + iset{x}) && Closed(gone + iset{x})
  {
    hide Shape, Bit;
    forall y | ValidSlot(t, y) ensures ValidSlot(s, y) { SameKinds(s, t, y); }
    forall c | InZone(t, c) ensures c in owner - {b} <==> Used(t, c) {
      assert Used(t, c) <==> c != b && Used(s, c);
    }
  }

  /** An empty slot may be counted as freed, with all that is not below it. */
  lemma EmptyKeeps(s: Disk, owner: map<nat, Slot>, gone: iset<Slot>, x: Slot)
    requires Exact(s, owner, gone) && Closed(gone) && ValidSlot(s, x) && At(s, x) == 0
    ensures Exact(s, owner, gone + Cut(x)) && Closed(gone + Cut(x))
  {
    forall y | ValidSlot(s, y) && (y == x || Under(y, x)) ensures At(s, y) == 0 { EmptyBelow(s, y, x); }
  }

  lemma {:induction false} EmptyBelow(s: Disk, y: Slot, x: Slot)
    requires Shape(s) && ValidSlot(s, y) && ValidSlot(s, x) && At(s, x) == 0 && (y == x || Under(y, x))
    ensures At(s, y) == 0
  {
    if y != x { EmptyBelow(s, y.parent, x); }
  }

  lemma GoneAlike(s: Disk, owner: map<nat, Slot>, gone: iset<Slot>, gone': iset<Slot>)
    requires Exact(s, owner, gone)
    requires forall y :: ValidSlot(s, y) ==> (y in gone <==> y in gone')
    ensures Exact(s, owner, gone')
  { }

  /** Clearing the i_zone word over a freed tree forgets it for good. */
  lemma ForgetKeeps(s: Disk, owner: map<nat, Slot>, gone: iset<Slot>, i: nat, k: nat)
    requires Exact(s, owner, gone) && Closed(gone) && ValidSlot(s, Zone(i, k)) && Zone(i, k) in gone
    ensures var t := PutSlot(s, Zone(i, k), 0);
      && Exact(t, owner, gone - Cut(Zone(i, k))) && Closed(gone - Cut(Zone(i, k)))
      && (forall y :: ValidSlot(s, y) ==> ValidSlot(t, y) && At(t, y) == if y in Cut(Zone(i, k)) then 0 else At(s, y))
  {
    var x := Zone(i, k);
    var t := PutSlot(s, x, 0);
    forall y | ValidSlot(s, y) ensures ValidSlot(t, y) && At(t, y) == if y == x || Under(y, x) then 0 else At(s, y) {
      AtAfterForget(s, t, i, k, y);
    }
    forall y | ValidSlot(t, y) ensures ValidSlot(s, y) { SameKinds(s, t, y); }
    forall y | ValidSlot(s, y) && y in Cut(x) ensures y in gone { InClosed(gone, y, x); }
    ForgetExact(s, t, owner, gone, x);
  }

  lemma ForgetExact(s: Disk, t: Disk, owner: map<nat, Slot>, gone: iset<Slot>, x: Slot)
    requires Exact(s, owner, gone) && Shape(t) && t.zmap == s.zmap && t.first == s.first && t.nzones == s.nzones
    requires forall y :: ValidSlot(t, y) <==> ValidSlot(s, y)
    requires forall y :: ValidSlot(s, y) ==> At(t, y) == if y in Cut(x) then 0 else At(s, y)
    requires forall y :: ValidSlot(s, y) && y in Cut(x) ==> y in gone
    ensures Exact(t, owner, gone - Cut(x))
  {
    hide Shape, Cut, Used;
    SameUsed(s, t);
  }

  lemma SameUsed(s: Disk, t: Disk)
    requires Shape(s) && t.zmap == s.zmap && t.first == s.first && t.nzones == s.nzones
    ensures s.first >= 1 && forall c :: InZone(t, c) <==> InZone(s, c)
    ensures forall c :: InZone(s, c) ==> Used(t, c) == Used(s, c)
  { }

  lemma {:induction false} InClosed(gone: iset<Slot>, y: Slot, x: Slot)
    requires Closed(gone) && x in gone && (y == x || Under(y, x))
    ensures y in gone
  {
    if y != x { InClosed(gone, y.parent, x); }
  }

  lemma {:induction false} AtAfterForget(s: Disk, t: Disk, i: nat, k: nat, y: Slot)
    requires Shape(s) && ValidSlot(s, Zone(i, k)) && t == PutSlot(s, Zone(i, k), 0) && ValidSlot(s, y)
    ensures ValidSlot(t, y) && At(t, y) == if y == Zone(i, k) || Under(y, Zone(i, k)) then 0 else At(s, y)
  {
    SameKinds(s, t, y);
    if y.Child? { AtAfterForget(s, t, i, k, y.parent); }
  }

  /* ---- freed sets ---- */

  ghost function Below(x: Slot): iset<Slot> { iset y | Under(y, x) }

  lemma CutIs(gone: iset<Slot>, x: Slot)
    ensures gone + Below(x) + iset{x} == gone + Cut(x)
    ensures forall k: nat :: Child(x, k) in gone + Below(x)
  { }

  /** A slot that is no pointer block has nothing below it. */
  lemma LeafBelow(s: Disk, owner: map<nat, Slot>, gone: iset<Slot>, x: Slot)
    requires Exact(s, owner, gone) && Closed(gone) && ValidSlot(s, x) && !HasKids(x)
    ensures Exact(s, owner, gone + Below(x)) && Closed(gone + Below(x))
    ensures forall y :: ValidSlot(s, y) ==> !Under(y, x)
  {
    forall y | ValidSlot(s, y) ensures !Under(y, x) { NotUnderLeaf(s, y, x); }
    GoneAlike(s, owner, gone, gone + Below(x));
  }

  lemma {:induction false} NotUnderLeaf(s: Disk, y: Slot, x: Slot)
    requires ValidSlot(s, y) && !HasKids(x)
    ensures !Under(y, x)
  {
    if y.Child? { NotUnderLeaf(s, y.parent, x); }
  }

  lemma FirstGrows(gone: iset<Slot>, x: Slot, n: nat)
    ensures gone + First(x, n) + Cut(Child(x, n)) == gone + First(x, n + 1)
  {
    forall y ensures y in gone + First(x, n) + Cut(Child(x, n)) <==> y in gone + First(x, n + 1) { FirstNext(y, x, n); }
  }

  lemma {:induction false} NoneFirst(y: Slot, x: Slot)
    ensures !UnderFirst(y, x, 0)
  {
    if y.Child? { NoneFirst(y.parent, x); }
  }

  lemma FirstEmpty(gone: iset<Slot>, x: Slot)
    ensures gone + First(x, 0) == gone
  {
    forall y ensures y !in First(x, 0) { NoneFirst(y, x); }
  }

  lemma FirstDone(s: Disk, owner: map<nat, Slot>, gone: iset<Slot>, x: Slot)
    requires Exact(s, owner, gone + First(x, POINTERS)) && Closed(gone)
    ensures Exact(s, owner, gone + Below(x)) && Closed(gone + Below(x))
    ensures forall y :: ValidSlot(s, y) ==> (y in gone + First(x, POINTERS) <==> y in gone + Below(x))
  {
    forall y | ValidSlot(s, y) ensures y in gone + First(x, POINTERS) <==> y in gone + Below(x) { FirstAll(s, y, x); }
    GoneAlike(s, owner, gone + First(x, POINTERS), gone + Below(x));
  }

  lemma {:induction false} ChildNotFirst(x: Slot, n: nat)
    ensures Child(x, n) !in First(x, n) && x !in First(x, n) && !Under(x, x)
  {
    NotUnderSelf(x, x, n);
  }

  lemma {:induction false} NotUnderSelf(y: Slot, x: Slot, n: nat)
    requires Depth(y) <= Depth(x)
    ensures !UnderFirst(y, x, n) && !Under(y, x)
  {
    if y.Child? { NotUnderSelf(y.parent, x, n); }
  }

  function Depth(x: Slot): nat {
    match x case Zone(_, _) => 0 case Child(p, _) => 1 + Depth(p)
  }

  /** Slots outside `gone` hold what they held, and so do their blocks. */
  ghost predicate Pruned(s: Disk, t: Disk, gone: iset<Slot>) {
    && Shape(s) && Shape(t) && t.first == s.first && t.nzones == s.nzones
    && |t.inodes| == |s.inodes| && (forall i :: 0 <= i < |s.inodes| ==> t.inodes[i].tree == s.inodes[i].tree)
    && (forall y :: ValidSlot(s, y) ==> ValidSlot(t, y))
    && (forall y :: ValidSlot(s, y) && y !in gone ==>
          && At(t, y) == At(s, y)
          && (At(s, y) != 0 && At(s, y) < s.nzones ==> t.data[At(s, y)] == s.data[At(s, y)]))
  }

  lemma PrunedTwice(s: Disk, t: Disk, u: Disk, gone: iset<Slot>, gone': iset<Slot>)
    requires Pruned(s, t, gone) && Pruned(t, u, gone') && forall y :: ValidSlot(s, y) && y in gone ==> y in gone'
    ensures Pruned(s, u, gone')
  { }

  lemma FreePrunes(s: Disk, owner: map<nat, Slot>, gone: iset<Slot>, x: Slot, junk: Block)
    requires Exact(s, owner, gone) && Closed(gone) && ValidSlot(s, x) && x !in gone && At(s, x) != 0
    requires forall k: nat :: Child(x, k) in gone
    ensures InZone(s, At(s, x)) && Used(s, At(s, x))
    ensures Pruned(s, FreeZone(s, At(s, x), junk), gone + iset{x})
  {
    FreeKeeps(s, owner, gone, x, junk);
    var t := FreeZone(s, At(s, x), junk);
    forall y ensures ValidSlot(s, y) == ValidSlot(t, y) { SameKinds(s, t, y); }
    forall y | ValidSlot(s, y) && y !in gone + iset{x} && At(s, y) != 0 ensures At(s, y) != At(s, x) {
      assert owner[At(s, y)] == y && owner[At(s, x)] == x;
    }
  }
}
