/** fs/bitmap.c, fs/inode.c (_bmap) and fs/truncate.c: the methods change the
    zone map, the inodes and the block contents in place. */
module FileBlocks {
  import opened BlockTree

  /** The slot of block n of a file: 7 direct, 512 indirect, 512*512 double. */
  function SlotOf(ino: nat, n: nat): Slot {
    if n < 7 then Zone(ino, n)
    else if n < 7 + 512 then Child(Zone(ino, 7), n - 7)
    else Child(Child(Zone(ino, 8), (n - 7 - 512) / 512), (n - 7 - 512) % 512)
  }

  lemma SlotOfIsLeaf(s: Disk, ino: nat, n: nat)
    requires ino < |s.inodes| && s.inodes[ino].tree && n < MAX_BLOCKS
    ensures ValidSlot(s, SlotOf(ino, n)) && !HasKids(SlotOf(ino, n)) && InodeOf(SlotOf(ino, n)) == ino
  {
    assert InodeOf(Zone(ino, 7)) == ino && InodeOf(Zone(ino, 8)) == ino;
    assert forall j :: InodeOf(Child(Zone(ino, 8), j)) == ino;
  }

  /** The block holding kilobyte n of a file, 0 for a hole. */
  ghost function BlockOf(s: Disk, ino: nat, n: nat): nat
    requires Shape(s) && ino < |s.inodes| && s.inodes[ino].tree && n < MAX_BLOCKS
  {
    SlotOfIsLeaf(s, ino, n);
    At(s, SlotOf(ino, n))
  }

  lemma SlotOfInjective(i: nat, n: nat, j: nat, m: nat)
    requires n < MAX_BLOCKS && m < MAX_BLOCKS && SlotOf(i, n) == SlotOf(j, m)
    ensures i == j && n == m
  {
    if n >= 7 + 512 && m >= 7 + 512 {
      assert n - 519 == 512 * ((n - 519) / 512) + (n - 519) % 512;
      assert m - 519 == 512 * ((m - 519) / 512) + (m - 519) % 512;
    }
  }

  ghost predicate Full(s: Disk) {
    forall b :: InZone(s, b) ==> Used(s, b)
  }

  /** Block b of t holds what block a of s held, or is blank if there was none. */
  ghost predicate SameOrBlank(s: Disk, t: Disk, a: nat, b: nat) {
    && a < |s.data| && b < |t.data|
    && t.data[b] == if a == 0 then ZeroBlock() else s.data[a]
  }

  /** Only empty slots at or above x were given blocks, blank ones, and no
      file contents moved. */
  ghost predicate Grown(s: Disk, t: Disk, x: Slot) {
    && Shape(s) && Shape(t) && t.first == s.first && t.nzones == s.nzones
    && |t.inodes| == |s.inodes|
    && (forall i :: 0 <= i < |s.inodes| ==>
           t.inodes[i].tree == s.inodes[i].tree && t.inodes[i].size == s.inodes[i].size)
    && (forall y :: ValidSlot(s, y) ==>
          && ValidSlot(t, y)
          && (At(t, y) == At(s, y) || (At(s, y) == 0 && (y == x || Under(x, y))))
          && (!HasKids(y) && At(t, y) != 0 ==> SameOrBlank(s, t, At(s, y), At(t, y))))
  }

  lemma GrownSelf(s: Disk, owner: map<nat, Slot>, x: Slot)
    requires Inv(s, owner)
    ensures Grown(s, s, x)
  { }

  lemma {:induction false} UnderTrans(z: Slot, y: Slot, x: Slot)
    requires Under(z, y) && Under(y, x)
    ensures Under(z, x)
  {
    if z.parent != y { UnderTrans(z.parent, y, x); }
  }

  lemma GrownTwice(s: Disk, t: Disk, u: Disk, x1: Slot, x2: Slot)
    requires Grown(s, t, x1) && Grown(t, u, x2) && Under(x2, x1)
    ensures Grown(s, u, x2)
  {
    forall y | ValidSlot(s, y) && At(t, y) != At(s, y) ensures y == x2 || Under(x2, y) {
      if y != x1 { UnderTrans(x2, x1, y); }
    }
  }

  lemma PutGrows(s: Disk, owner: map<nat, Slot>, x: Slot, b: nat)
    requires Inv(s, owner) && ValidSlot(s, x) && At(s, x) == 0
    requires x.Child? ==> At(s, x.parent) != 0
    requires InZone(s, b) && !Used(s, b)
    ensures Shape(TakeZone(s, b)) && ValidSlot(TakeZone(s, b), x)
    ensures x.Child? ==> InZone(s, At(s, x.parent)) && At(TakeZone(s, b), x.parent) == At(s, x.parent)
    ensures var t := PutSlot(TakeZone(s, b), x, b); Inv(t, owner[b := x]) && Grown(s, t, x) && At(t, x) == b
  {
    PutKeeps(s, owner, x, b);
    var t := PutSlot(TakeZone(s, b), x, b);
    forall y | ValidSlot(s, y) && !HasKids(y) && At(t, y) != 0
      ensures SameOrBlank(s, t, At(s, y), At(t, y))
    {
      if y != x {
        assert At(s, y) in owner && owner[At(s, y)] == y;
        assert x.Child? ==> owner[At(s, x.parent)] == x.parent;
      }
    }
  }

  lemma LeakKeeps(s: Disk, owner: map<nat, Slot>, n: nat)
    requires Inv(s, owner) && n / BITS < |s.zmap| && n + s.first - 1 >= s.nzones
    ensures Inv(SetBit(s, n, true), owner) && Full(SetBit(s, n, true)) == Full(s)
    ensures forall y :: ValidSlot(s, y) ==> ValidSlot(SetBit(s, n, true), y) && At(SetBit(s, n, true), y) == At(s, y)
  {
    var t := SetBit(s, n, true);
    BitAfter(s, n, true);
    forall y ensures ValidSlot(t, y) == ValidSlot(s, y) && (ValidSlot(s, y) ==> At(t, y) == At(s, y)) {
      AtSame(s, t, y);
    }
    assert forall c :: InZone(s, c) ==> Used(t, c) == Used(s, c);
  }

  /** The k-th pointer of the block that slot p holds. */
  lemma ChildAt(s: Disk, owner: map<nat, Slot>, p: Slot, k: nat)
    requires Inv(s, owner) && ValidSlot(s, Child(p, k)) && At(s, p) != 0
    ensures Shape(s) && InZone(s, At(s, p)) && At(s, p) < |s.data| && k < POINTERS
    ensures At(s, Child(p, k)) == Ptr(s.data[At(s, p)], k)
  {
    OwnerOf(s, owner, iset{}, p);
  }

  class FileSystem {
    var zmap: seq<seq<bool>>
    var data: seq<Block>
    var inodes: seq<Inode>
    const first: nat
    const nzones: nat
    ghost var owner: map<nat, Slot>

    ghost function S(): Disk reads this { Disk(zmap, data, inodes, first, nzones) }

    ghost predicate Valid() reads this { Inv(S(), owner) }

    /** A formatted device: data zones from start to zones, no block in use. */
    constructor (start: nat, zones: nat, files: nat)
      requires 1 <= start < zones <= 65536
      ensures Valid() && Formatted(S()) && first == start && nzones == zones
      ensures inodes == seq(files, _ => Inode(true, 0, seq(9, _ => 0)))
    {
      zmap := seq(Z_MAP_SLOTS, i => seq(BITS, j => i == 0 && j == 0));
      data := seq(zones, _ => ZeroBlock());
      inodes := seq(files, _ => Inode(true, 0, seq(9, _ => 0)));
      first, nzones, owner := start, zones, map[];
      new;
      FormattedInv(S());
    }

    /** The first zero bit of a map block, BITS when there is none. */
    method FindFirstZero(m: seq<bool>) returns (j: nat)
      requires |m| == BITS
      ensures j <= BITS && (j < BITS ==> !m[j]) && forall k :: 0 <= k < j ==> m[k]
    {
      j := 0;
      while j < BITS && m[j]
        invariant j <= BITS && forall k :: 0 <= k < j ==> m[k]
      {
        j := j + 1;
      }
    }

    /** new_block: the lowest free zone, blanked; 0 exactly when every zone of the
        device is in use (a bit past the last zone may then be set for nothing). */
    method NewBlock() returns (b: nat)
      requires Valid()
      modifies `zmap, `data
      ensures b == 0 <==> Full(old(S()))
      ensures b != 0 ==> InZone(S(), b) && !Used(old(S()), b) && S() == TakeZone(old(S()), b)
      ensures b != 0 ==> forall c :: InZone(S(), c) && c < b ==> Used(old(S()), c)
      ensures b == 0 ==> Valid() && data == old(data) && Full(S()) && Grown(old(S()), S(), Zone(0, 0))
      ensures b == 0 ==> forall y :: ValidSlot(old(S()), y) ==> At(S(), y) == At(old(S()), y)
    {
      var j := BITS;
      var i := 0;
      while i < Z_MAP_SLOTS
        invariant 0 <= i <= Z_MAP_SLOTS && j == BITS && S() == old(S()) && owner == old(owner)
        invariant forall n :: 0 <= n < i * BITS && n / BITS < |zmap| ==> Bit(S(), n)
      {
        if i < |zmap| {
          j := FindFirstZero(zmap[i]);
          if j < BITS { break; }
        }
        i := i + 1;
      }
      if i >= Z_MAP_SLOTS || j >= BITS {
        forall c | InZone(S(), c) ensures Used(S(), c) { assert Bit(S(), c - (first - 1)); }
        GrownSelf(S(), owner, Zone(0, 0));
        return 0;
      }
      ghost var n := i * BITS + j;
      LowestFree(S(), i, j);
      zmap := zmap[i := zmap[i][j := true]];
      assert n / BITS == i && n % BITS == j && S() == SetBit(old(S()), n, true);
      b := j + i * BITS + first - 1;
      if b >= nzones {
        LeakKeeps(old(S()), owner, n);
        LeakGrows(old(S()), owner, n);
        forall c | InZone(S(), c) ensures Used(old(S()), c) { assert Bit(old(S()), c - (first - 1)); }
        return 0;
      }
      assert b - (first - 1) == n;
      data := data[b := ZeroBlock()];
      assert n > 0 && InZone(S(), b) && !Used(old(S()), b);
      assert S() == TakeZone(old(S()), b);
      forall c | InZone(S(), c) && c < b ensures Used(old(S()), c) { assert Bit(old(S()), c - (first - 1)); }
    }

    /** "If there is no block here, get one": the i_zone form. */
    method FillZone(ino: nat, k: nat, create: bool) returns (r: nat)
      requires Valid() && ValidSlot(S(), Zone(ino, k))
      modifies this
      ensures Valid() && Grown(old(S()), S(), Zone(ino, k)) && r == At(S(), Zone(ino, k))
      ensures !create || old(At(S(), Zone(ino, k))) != 0 ==> S() == old(S())
      ensures create && r == 0 ==> Full(S())
    {
      assert |inodes[ino].zone| == 9;
      hide Inv, Grown, TakeZone, Full;
      r := inodes[ino].zone[k];
      GrownSelf(S(), owner, Zone(ino, k));
      if create && r == 0 {
        var z := NewBlock();
        if z != 0 {
          PutGrows(old(S()), owner, Zone(ino, k), z);
          inodes := inodes[ino := inodes[ino].(zone := inodes[ino].zone[k := z])];
          owner := owner[z := Zone(ino, k)];
          r := z;
        } else {
          LeakedGrows(old(S()), S(), Zone(ino, k));
        }
      }
    }

    /** The same for the k-th pointer of block h, which slot p holds. */
    method FillPtr(h: nat, k: nat, create: bool, ghost p: Slot) returns (r: nat)
      requires Valid() && ValidSlot(S(), Child(p, k)) && h == At(S(), p) != 0
      modifies this
      ensures Valid() && Grown(old(S()), S(), Child(p, k)) && r == At(S(), Child(p, k))
      ensures !create || old(At(S(), Child(p, k))) != 0 ==> S() == old(S())
      ensures create && r == 0 ==> Full(S())
    {
      hide Inv, Grown, TakeZone, Full, At;
      ChildAt(S(), owner, p, k);
      r := Ptr(data[h], k);
      GrownSelf(S(), owner, Child(p, k));
      if create && r == 0 {
        var z := NewBlock();
        if z != 0 {
          PutGrows(old(S()), owner, Child(p, k), z);
          data := data[h := SetPtr(data[h], k, z)];
          owner := owner[z := Child(p, k)];
          r := z;
        } else {
          LeakedGrows(old(S()), S(), Child(p, k));
        }
      }
    }

    /** _bmap: the block of a file that holds its n-th kilobyte. */
    method Bmap(ino: nat, n: nat, create: bool) returns (r: nat)
      requires Valid() && ino < |inodes| && inodes[ino].tree && n < MAX_BLOCKS
      modifies this
      ensures Valid() && Grown(old(S()), S(), SlotOf(ino, n))
      ensures ino < |inodes| && inodes[ino].tree && r == BlockOf(S(), ino, n)
      ensures !create || old(BlockOf(S(), ino, n)) != 0 ==> S() == old(S())
      ensures create && r == 0 ==> Full(S())
    {
      SlotOfIsLeaf(S(), ino, n);
      ghost var x := SlotOf(ino, n);
      if n >= 7 { ParentHeld(S(), x); }
      if n >= 519 { ParentHeld(S(), x.parent); }
      hide Inv, Grown, Full, At;
      if n < 7 {
        r := FillZone(ino, n, create);
        SlotOfIsLeaf(S(), ino, n);
        return;
      }
      var block := n - 7;
      if block < 512 {
        r := FillZone(ino, 7, create);
        GrownUp(old(S()), S(), Zone(ino, 7), Child(Zone(ino, 7), block));
        if r == 0 { EmptyParent(S(), Child(Zone(ino, 7), block)); return; }
        ghost var s1 := S();
        r := FillPtr(r, block, create, Zone(ino, 7));
        GrownTwice(old(S()), s1, S(), Zone(ino, 7), Child(Zone(ino, 7), block));
        return;
      }
      block := block - 512;
      r := FillZone(ino, 8, create);
      ghost var y := Child(Zone(ino, 8), block / 512);
      GrownUp(old(S()), S(), Zone(ino, 8), x);
      if r == 0 { EmptyParent(S(), y); EmptyParent(S(), x); return; }
      ghost var s1 := S();
      r := FillPtr(r, block / 512, create, Zone(ino, 8));
      GrownTwice(old(S()), s1, S(), Zone(ino, 8), y);
      GrownUp(old(S()), S(), y, x);
      if r == 0 { EmptyParent(S(), x); return; }
      ghost var s2 := S();
      r := FillPtr(r, block % 512, create, y);
      GrownTwice(old(S()), s2, S(), y, x);
    }

    /** free_block: the zone's bit is cleared; its contents are nobody's now.
        False where the source panics. */
    method FreeBlock(b: nat) returns (ok: bool, ghost junk: Block)
      requires Shape(S())
      modifies `zmap, `data
      ensures ok <==> InZone(S(), b) && Used(old(S()), b)
      ensures ok ==> S() == FreeZone(old(S()), b, junk)
      ensures !ok ==> S() == old(S())
    {
      junk := ZeroBlock();
      if b < first || b >= nzones { return false, junk; }
      var n := b - (first - 1);
      if !zmap[n / BITS][n % BITS] { return false, junk; }
      var contents: Block := *;
      junk := contents;
      zmap := zmap[n / BITS := zmap[n / BITS][n % BITS := false]];
      data := data[b := contents];
      return true, junk;
    }

    /** Frees the block in slot x, everything below x being freed already. */
    method FreeSlot(b: nat, ghost x: Slot, ghost gone: iset<Slot>)
      requires Exact(S(), owner, gone) && Closed(gone) && ValidSlot(S(), x) && x !in gone && At(S(), x) == b != 0
      requires forall k: nat :: Child(x, k) in gone
      modifies `zmap, `data, `owner
      ensures Exact(S(), owner, gone + iset{x}) && Closed(gone + iset{x}) && Pruned(old(S()), S(), gone + iset{x})
    {
      hide Exact, Closed, Pruned, At;
      OwnerOf(S(), owner, gone, x);
      ghost var s := S();
      var ok, junk := FreeBlock(b);
      assert ok;
      FreeKeeps(s, owner, gone, x, junk);
      FreePrunes(s, owner, gone, x, junk);
      owner := owner - {b};
    }

    /** A data block, if there is one. */
    method FreeLeaf(b: nat, ghost x: Slot, ghost gone: iset<Slot>)
      requires Exact(S(), owner, gone) && Closed(gone) && ValidSlot(S(), x) && !HasKids(x) && x !in gone
               && At(S(), x) == b
      modifies `zmap, `data, `owner
      ensures Exact(S(), owner, gone + Cut(x)) && Closed(gone + Cut(x)) && Pruned(old(S()), S(), gone + Cut(x))
    {
      hide Exact, Closed, Pruned, At, Below, Cut;
      if b == 0 {
        EmptyKeeps(S(), owner, gone, x);
        PrunedSelf(S(), owner, gone, gone + Cut(x));
      } else {
        LeafBelow(S(), owner, gone, x);
        CutIs(gone, x);
        NotBelowSelf(x, gone);
        FreeSlot(b, x, gone + Below(x));
      }
    }

    /** free_ind: the 512 blocks a pointer block names, then the block itself. */
    method FreeInd(block: nat, ghost x: Slot, ghost gone: iset<Slot>)
      requires Exact(S(), owner, gone) && Closed(gone) && ValidSlot(S(), x) && HasKids(x) && At(S(), x) == block
      requires !HasKids(Child(x, 0)) && x !in gone && forall y :: y in Below(x) ==> y !in gone
      modifies `zmap, `data, `owner
      ensures Exact(S(), owner, gone + Cut(x)) && Closed(gone + Cut(x)) && Pruned(old(S()), S(), gone + Cut(x))
    {
      hide Exact, Closed, Pruned, At, Below, Cut, First;
      ghost var s := S();
      if block == 0 {
        EmptyKeeps(S(), owner, gone, x);
        PrunedSelf(S(), owner, gone, gone + Cut(x));
        return;
      }
      OwnerOf(S(), owner, gone, x);
      FirstEmpty(gone, x);
      PrunedSelf(S(), owner, gone, gone);
      var i := 0;
      while i < POINTERS
        invariant 0 <= i <= POINTERS && ValidSlot(S(), x) && Shape(S()) && At(S(), x) == block < nzones
        invariant Exact(S(), owner, gone + First(x, i)) && Closed(gone + First(x, i))
                  && Pruned(s, S(), gone + First(x, i))
      {
        ghost var si := S();
        StillThere(S(), x, i, gone);
        FreeLeaf(Ptr(data[block], i), Child(x, i), gone + First(x, i));
        FirstGrows(gone, x, i);
        PrunedNext(s, si, S(), gone, x, i);
        i := i + 1;
      }
      FirstDone(S(), owner, gone, x);
      PrunedAlike(s, S(), gone + First(x, POINTERS), gone + Below(x), x);
      CutIs(gone, x);
      NotBelowSelf(x, gone);
      ghost var s1 := S();
      FreeSlot(block, x, gone + Below(x));
      PrunedTwice(s, s1, S(), gone + Below(x), gone + Cut(x));
    }

    /** free_dind: the same one level up. */
    method FreeDind(block: nat, ghost x: Slot, ghost gone: iset<Slot>)
      requires Exact(S(), owner, gone) && Closed(gone) && ValidSlot(S(), x) && HasKids(x) && At(S(), x) == block
      requires HasKids(Child(x, 0)) && !HasKids(Child(Child(x, 0), 0)) && x !in gone && forall y :: y in Below(x) ==>
          y !in gone
      modifies `zmap, `data, `owner
      ensures Exact(S(), owner, gone + Cut(x)) && Closed(gone + Cut(x)) && Pruned(old(S()), S(), gone + Cut(x))
    {
      hide Exact, Closed, Pruned, At, Below, Cut, First;
      ghost var s := S();
      if block == 0 {
        EmptyKeeps(S(), owner, gone, x);
        PrunedSelf(S(), owner, gone, gone + Cut(x));
        return;
      }
      OwnerOf(S(), owner, gone, x);
      FirstEmpty(gone, x);
      PrunedSelf(S(), owner, gone, gone);
      var i := 0;
      while i < POINTERS
        invariant 0 <= i <= POINTERS && ValidSlot(S(), x) && Shape(S()) && At(S(), x) == block < nzones
        invariant Exact(S(), owner, gone + First(x, i)) && Closed(gone + First(x, i))
                  && Pruned(s, S(), gone + First(x, i))
      {
        ghost var si := S();
        StillThere(S(), x, i, gone);
        BelowChild(x, i, gone);
        FreeInd(Ptr(data[block], i), Child(x, i), gone + First(x, i));
        FirstGrows(gone, x, i);
        PrunedNext(s, si, S(), gone, x, i);
        i := i + 1;
      }
      FirstDone(S(), owner, gone, x);
      PrunedAlike(s, S(), gone + First(x, POINTERS), gone + Below(x), x);
      CutIs(gone, x);
      NotBelowSelf(x, gone);
      ghost var s1 := S();
      FreeSlot(block, x, gone + Below(x));
      PrunedTwice(s, s1, S(), gone + Below(x), gone + Cut(x));
    }

    /** truncate: every block of this file and no other block is freed. */
    method Truncate(ino: nat)
      requires Valid() && ino < |inodes|
      modifies this
      ensures !old(inodes[ino].tree) ==> S() == old(S()) && owner == old(owner)
      ensures Valid() && Truncated(old(S()), S(), ino)
      ensures old(inodes[ino].tree) ==> inodes[ino].size == 0
    {
      hide Inv, Exact, Closed, Pruned, At, Below, Cut, First, Truncated, OfInode;
      ghost var s, own := S(), owner;
      if !inodes[ino].tree {
        TruncatedNothing(s, owner, ino);
        return;
      }
      InvShape(S(), owner);
      InvIsExact(S(), owner);
      PrunedSelf(S(), owner, iset{}, OfInode(ino));
      var i := 0;
      while i < 7
        invariant 0 <= i <= 7 && Valid() && ZonesKept(s, S(), ino, i) && Pruned(s, S(), OfInode(ino))
      {
        FreeDirect(ino, i, s);
        i := i + 1;
      }
      FreeTrees(ino, s);
      ghost var t := S();
      inodes := inodes[ino := inodes[ino].(size := 0)];
      SizeKeeps(s, t, owner, ino, 0);
      TruncatedIs(s, S(), own, owner, ino);
    }

    method FreeDirect(ino: nat, k: nat, ghost s: Disk)
      requires Valid() && k < 7 && ZonesKept(s, S(), ino, k) && inodes[ino].tree && Pruned(s, S(), OfInode(ino))
      modifies this
      ensures Valid() && ZonesKept(s, S(), ino, k + 1) && Pruned(s, S(), OfInode(ino))
    {
      hide Inv, Exact, Closed, Pruned, At, Cut, OfInode, Below;
      InvShape(S(), owner);
      if inodes[ino].zone[k] != 0 {
        ghost var s1 := S();
        AtZone(S(), ino, k);
        InvIsExact(S(), owner);
        FreeLeaf(inodes[ino].zone[k], Zone(ino, k), iset{});
        OnlyInode(s, s1, S(), iset{} + Cut(Zone(ino, k)), ino, k);
        CutAway(Zone(ino, k));
        ClearZone(s, S(), owner, iset{} + Cut(Zone(ino, k)), ino, k);
        inodes := inodes[ino := inodes[ino].(zone := inodes[ino].zone[k := 0])];
        InvIsExact(S(), owner);
      }
    }

    method FreeTrees(ino: nat, ghost s: Disk)
      requires Valid() && ZonesKept(s, S(), ino, 7) && inodes[ino].tree && Pruned(s, S(), OfInode(ino))
      modifies this
      ensures Valid() && ZonesKept(s, S(), ino, 9) && Pruned(s, S(), OfInode(ino))
    {
      hide Inv, Exact, Closed, Pruned, At, Cut, OfInode, Below;
      InvShape(S(), owner);
      InvIsExact(S(), owner);
      AtZone(S(), ino, 7);
      AtZone(S(), ino, 8);
      ghost var x, y, s1 := Zone(ino, 7), Zone(ino, 8), S();
      FreeInd(inodes[ino].zone[7], x, iset{});
      OnlyInode(s, s1, S(), iset{} + Cut(x), ino, 7);
      Apart(ino);
      ghost var s2 := S();
      AtZone(S(), ino, 8);
      FreeDind(inodes[ino].zone[8], y, iset{} + Cut(x));
      OnlyInode2(s, s2, S(), iset{} + Cut(x) + Cut(y), ino);
      ClearZone(s, S(), owner, iset{} + Cut(x) + Cut(y), ino, 8);
      inodes := inodes[ino := inodes[ino].(zone := inodes[ino].zone[8 := 0])];
      ClearZone(s, S(), owner, iset{} + Cut(x) + Cut(y) - Cut(y), ino, 7);
      inodes := inodes[ino := inodes[ino].(zone := inodes[ino].zone[7 := 0])];
      InvIsExact(S(), owner);
    }
  }

  /** The parent of a slot in use is in use. */
  lemma ParentHeld(s: Disk, x: Slot)
    requires Shape(s) && ValidSlot(s, x) && x.Child?
    ensures At(s, x) != 0 ==> At(s, x.parent) != 0
  { }

  lemma PrunedSelf(s: Disk, owner: map<nat, Slot>, gone: iset<Slot>, gone': iset<Slot>)
    requires Exact(s, owner, gone)
    ensures Pruned(s, s, gone')
  { }

  /** While the block in x is being walked, its i-th pointer is still to be freed. */
  lemma StillThere(s: Disk, x: Slot, i: nat, gone: iset<Slot>)
    requires Shape(s) && ValidSlot(s, x) && HasKids(x) && i < POINTERS && 0 != At(s, x) < s.nzones
    requires forall y :: y in Below(x) ==> y !in gone
    ensures ValidSlot(s, Child(x, i)) && At(s, Child(x, i)) == Ptr(s.data[At(s, x)], i)
    ensures Child(x, i) !in gone + First(x, i) && HasKids(Child(x, i)) == HasKids(Child(x, 0))
  {
    assert Child(x, i) in Below(x);
    ChildNotFirst(x, i);
  }

  /** What hangs under the i-th child hangs under no earlier child. */
  lemma BelowChild(x: Slot, i: nat, gone: iset<Slot>)
    requires forall y :: y in Below(x) ==> y !in gone
    ensures forall y :: y in Below(Child(x, i)) ==> y !in gone + First(x, i)
  {
    forall y | Under(y, Child(x, i)) ensures Under(y, x) && !UnderFirst(y, x, i) { OnePlace(y, x, i); }
  }

  lemma {:induction false} OnePlace(y: Slot, x: Slot, i: nat)
    requires Under(y, Child(x, i))
    ensures Under(y, x) && !UnderFirst(y, x, i)
  {
    if y.parent == Child(x, i) {
      NotUnderSelf(x, x, i);
      assert y.parent != x;
    } else {
      OnePlace(y.parent, x, i);
      if y.parent == x { NotUnderSelf(x, Child(x, i), i); }
    }
  }

  ghost function OfInode(ino: nat): iset<Slot> { iset y | InodeOf(y) == ino }

  /** Only inode ino changed, and its first n zones are clear. */
  ghost predicate ZonesKept(s: Disk, t: Disk, ino: nat, n: nat) {
    && |t.inodes| == |s.inodes| && ino < |s.inodes| && n <= 9
    && t.inodes[ino].tree == s.inodes[ino].tree && |t.inodes[ino].zone| == 9
    && (forall j :: 0 <= j < |s.inodes| && j != ino ==> t.inodes[j] == s.inodes[j])
    && (forall k :: 0 <= k < n ==> t.inodes[ino].zone[k] == 0)
  }

  /** The file is empty, its blocks are free, and nothing else changed. */
  ghost predicate Truncated(s: Disk, t: Disk, ino: nat) {
    && Shape(s) && Shape(t) && t.first == s.first && t.nzones == s.nzones
    && |t.inodes| == |s.inodes| && ino < |s.inodes| && t.inodes[ino].tree == s.inodes[ino].tree
    && (forall j :: 0 <= j < |s.inodes| && j != ino ==> t.inodes[j] == s.inodes[j])
    && (forall y :: ValidSlot(s, y) ==> ValidSlot(t, y) && At(t, y) == if InodeOf(y) == ino then 0 else At(s, y))
    && (forall y :: ValidSlot(s, y) && InodeOf(y) != ino && 0 < At(s, y) < s.nzones ==>
           t.data[At(s, y)] == s.data[At(s, y)])
    && (forall b :: InZone(s, b) ==>
          (Used(t, b) <==> Used(s, b) && forall y :: ValidSlot(s, y) && InodeOf(y) == ino ==> At(s, y) != b))
  }

  lemma InvShape(s: Disk, owner: map<nat, Slot>)
    requires Inv(s, owner)
    ensures Shape(s) && Closed(iset{})
  { }

  lemma {:induction false} UnderSameInode(y: Slot, x: Slot)
    requires Under(y, x)
    ensures InodeOf(y) == InodeOf(x)
  {
    if y.parent != x { UnderSameInode(y.parent, x); }
  }

  lemma {:induction false} EmptyZones(s: Disk, ino: nat, y: Slot)
    requires Shape(s) && ino < |s.inodes| && ValidSlot(s, y) && InodeOf(y) == ino
    requires forall k :: 0 <= k < 9 ==> s.inodes[ino].zone[k] == 0
    ensures At(s, y) == 0
  {
    if y.Child? { EmptyZones(s, ino, y.parent); }
  }

  lemma TruncatedNothing(s: Disk, owner: map<nat, Slot>, ino: nat)
    requires Inv(s, owner) && ino < |s.inodes| && !s.inodes[ino].tree
    ensures Truncated(s, s, ino)
  {
    forall y | ValidSlot(s, y) ensures InodeOf(y) != ino { InTree(s, y); }
  }

  lemma {:induction false} InTree(s: Disk, y: Slot)
    requires ValidSlot(s, y)
    ensures InodeOf(y) < |s.inodes| && s.inodes[InodeOf(y)].tree
  {
    if y.Child? { InTree(s, y.parent); }
  }

  lemma AtZone(s: Disk, ino: nat, k: nat)
    requires Shape(s) && ino < |s.inodes| && s.inodes[ino].tree && k < 9
    ensures ValidSlot(s, Zone(ino, k)) && At(s, Zone(ino, k)) == s.inodes[ino].zone[k]
    ensures InodeOf(Zone(ino, k)) == ino
  { }

  lemma InvIsExact(s: Disk, owner: map<nat, Slot>)
    ensures Inv(s, owner) <==> Exact(s, owner, iset{})
  { }

  lemma CutInInode(x: Slot, ino: nat)
    requires InodeOf(x) == ino
    ensures forall y :: y in Cut(x) ==> InodeOf(y) == ino
  {
    forall y | Under(y, x) ensures InodeOf(y) == ino { UnderSameInode(y, x); }
  }

  /** What freeing slots of one inode leaves alone includes every other inode. */
  lemma OnlyInode(s: Disk, t: Disk, u: Disk, gone: iset<Slot>, ino: nat, k: nat)
    requires Pruned(s, t, OfInode(ino)) && Pruned(t, u, gone) && gone == iset{} + Cut(Zone(ino, k))
    ensures Pruned(s, u, OfInode(ino)) && Shape(u)
  {
    CutInInode(Zone(ino, k), ino);
    PrunedMore(t, u, gone, OfInode(ino));
    PrunedTwice(s, t, u, OfInode(ino), OfInode(ino));
  }

  lemma OnlyInode2(s: Disk, t: Disk, u: Disk, gone: iset<Slot>, ino: nat)
    requires Pruned(s, t, OfInode(ino)) && Pruned(t, u, gone) && gone == iset{} + Cut(Zone(ino, 7)) + Cut(Zone(ino, 8))
    ensures Pruned(s, u, OfInode(ino)) && Shape(u)
  {
    CutInInode(Zone(ino, 7), ino);
    CutInInode(Zone(ino, 8), ino);
    PrunedMore(t, u, gone, OfInode(ino));
    PrunedTwice(s, t, u, OfInode(ino), OfInode(ino));
  }

  lemma PrunedMore(s: Disk, t: Disk, gone: iset<Slot>, gone': iset<Slot>)
    requires Pruned(s, t, gone) && gone <= gone'
    ensures Pruned(s, t, gone')
  { }

  lemma CutAway(x: Slot)
    ensures x in Cut(x) && iset{} + Cut(x) - Cut(x) == iset{}
  { }

  lemma ClearZone(s: Disk, t: Disk, owner: map<nat, Slot>, gone: iset<Slot>, ino: nat, k: nat)
    requires Exact(t, owner, gone) && Closed(gone) && ino < |t.inodes| && t.inodes[ino].tree && k < 9
             && Zone(ino, k) in gone
    requires Pruned(s, t, OfInode(ino))
    ensures ValidSlot(t, Zone(ino, k))
    ensures var u := PutSlot(t, Zone(ino, k), 0);
      Exact(u, owner, gone - Cut(Zone(ino, k))) && Closed(gone - Cut(Zone(ino, k))) && Pruned(s, u, OfInode(ino))
  {
    ForgetKeeps(t, owner, gone, ino, k);
    var u := PutSlot(t, Zone(ino, k), 0);
    CutInInode(Zone(ino, k), ino);
    forall y | ValidSlot(t, y) && InodeOf(y) != ino ensures At(u, y) == At(t, y) { }
    PrunedTwice(s, t, u, OfInode(ino), OfInode(ino));
  }

  /** The indirect and the double-indirect tree have nothing in common. */
  lemma Apart(ino: nat)
    ensures Zone(ino, 8) !in iset{} + Cut(Zone(ino, 7))
    ensures forall y :: y in Below(Zone(ino, 8)) ==> y !in iset{} + Cut(Zone(ino, 7))
    ensures iset{} + Cut(Zone(ino, 7)) + Cut(Zone(ino, 8)) - Cut(Zone(ino, 8)) == iset{} + Cut(Zone(ino, 7))
    ensures iset{} + Cut(Zone(ino, 7)) - Cut(Zone(ino, 7)) == iset{}
    ensures Zone(ino, 7) in Cut(Zone(ino, 7)) && Zone(ino, 8) in Cut(Zone(ino, 8))
  {
    forall y | Under(y, Zone(ino, 8)) ensures !Under(y, Zone(ino, 7)) { TwoRoots(y, Zone(ino, 7), Zone(ino, 8)); }
  }

  lemma {:induction false} TwoRoots(y: Slot, a: Slot, b: Slot)
    requires a.Zone? && b.Zone? && a != b && Under(y, b)
    ensures !Under(y, a)
  {
    if y.parent.Child? { TwoRoots(y.parent, a, b); }
  }

  lemma SizeKeeps(s: Disk, t: Disk, owner: map<nat, Slot>, ino: nat, size: nat)
    requires Inv(t, owner) && ZonesKept(s, t, ino, 9) && Pruned(s, t, OfInode(ino))
    ensures var u := t.(inodes := t.inodes[ino := t.inodes[ino].(size := size)]);
      Inv(u, owner) && ZonesKept(s, u, ino, 9) && Pruned(s, u, OfInode(ino))
  {
    ResizeKeeps(t, owner, ino, size);
  }

  /** i_size plays no part in the block tree. */
  lemma ResizeKeeps(t: Disk, owner: map<nat, Slot>, ino: nat, size: nat)
    requires Inv(t, owner) && ino < |t.inodes|
    ensures var u := t.(inodes := t.inodes[ino := t.inodes[ino].(size := size)]);
      Inv(u, owner) && forall y :: ValidSlot(t, y) ==> ValidSlot(u, y) && At(u, y) == At(t, y)
  {
    var u := t.(inodes := t.inodes[ino := t.inodes[ino].(size := size)]);
    forall y ensures ValidSlot(u, y) == ValidSlot(t, y) && (ValidSlot(t, y) ==> At(u, y) == At(t, y)) {
      SameKinds(t, u, y);
      if ValidSlot(t, y) { AtResized(t, u, y); }
    }
    assert forall c :: InZone(u, c) ==> Used(u, c) == Used(t, c);
  }

  lemma {:induction false} AtResized(t: Disk, u: Disk, y: Slot)
    requires Shape(t) && Shape(u) && ValidSlot(t, y) && ValidSlot(u, y) && t.data == u.data && t.nzones == u.nzones
             && |t.inodes| == |u.inodes|
    requires forall i :: 0 <= i < |t.inodes| ==> t.inodes[i].zone == u.inodes[i].zone
    ensures At(u, y) == At(t, y)
  {
    if y.Child? { AtResized(t, u, y.parent); }
  }

  lemma TruncatedIs(s: Disk, t: Disk, owner: map<nat, Slot>, owner': map<nat, Slot>, ino: nat)
    requires Inv(s, owner) && Inv(t, owner') && Pruned(s, t, OfInode(ino)) && ZonesKept(s, t, ino, 9)
    ensures Truncated(s, t, ino)
  {
    hide Inv, At, ValidSlot, Used, Bit, Shape;
    forall y | ValidSlot(s, y) ensures ValidSlot(t, y) && At(t, y) == if InodeOf(y) == ino then 0 else At(s, y) {
      if InodeOf(y) == ino { EmptyZones(t, ino, y); }
    }
    forall b | InZone(s, b)
      ensures Used(t, b) <==> Used(s, b) && forall y :: ValidSlot(s, y) && InodeOf(y) == ino ==> At(s, y) != b
    {
      UsedAfter(s, t, owner, owner', ino, b);
    }
  }

  lemma UsedAfter(s: Disk, t: Disk, owner: map<nat, Slot>, owner': map<nat, Slot>, ino: nat, b: int)
    requires Inv(s, owner) && Inv(t, owner') && InZone(s, b) && t.first == s.first && t.nzones == s.nzones
    requires |s.inodes| == |t.inodes| && forall i :: 0 <= i < |s.inodes| ==> s.inodes[i].tree == t.inodes[i].tree
    requires forall y :: ValidSlot(s, y) ==> ValidSlot(t, y) && At(t, y) == if InodeOf(y) == ino then 0 else At(s, y)
    ensures Used(t, b) <==> Used(s, b) && forall y :: ValidSlot(s, y) && InodeOf(y) == ino ==> At(s, y) != b
  {
    if Used(t, b) {
      assert b in owner';
      SameKinds(s, t, owner'[b]);
      var x := owner'[b];
      assert At(s, x) == b && InodeOf(x) != ino;
      assert owner[b] == x;
    }
    if Used(s, b) { assert b in owner && ValidSlot(s, owner[b]) && At(s, owner[b]) == b; }
  }

  lemma PrunedNext(s: Disk, t: Disk, u: Disk, gone: iset<Slot>, x: Slot, i: nat)
    requires Pruned(s, t, gone + First(x, i)) && Pruned(t, u, gone + First(x, i) + Cut(Child(x, i)))
    requires ValidSlot(t, x) && x !in gone
    ensures Pruned(s, u, gone + First(x, i + 1)) && Shape(u) && ValidSlot(u, x) && At(u, x) == At(t, x)
  {
    FirstGrows(gone, x, i);
    PrunedTwice(s, t, u, gone + First(x, i), gone + First(x, i + 1));
    ChildNotFirst(x, i + 1);
  }

  lemma PrunedAlike(s: Disk, t: Disk, gone: iset<Slot>, gone': iset<Slot>, x: Slot)
    requires Pruned(s, t, gone) && forall y :: ValidSlot(t, y) ==> (y in gone <==> y in gone')
    ensures Pruned(s, t, gone')
  { }

  lemma NotBelowSelf(x: Slot, gone: iset<Slot>)
    requires x !in gone
    ensures x !in gone + Below(x)
  {
    NotUnderSelf(x, x, 0);
  }

  lemma EmptyParent(s: Disk, x: Slot)
    requires Shape(s) && ValidSlot(s, x) && x.Child? && At(s, x.parent) == 0
    ensures At(s, x) == 0
  { }

  lemma GrownUp(s: Disk, t: Disk, x1: Slot, x2: Slot)
    requires Grown(s, t, x1) && Under(x2, x1)
    ensures Grown(s, t, x2)
    ensures ValidSlot(s, x2) ==> ValidSlot(t, x2)
  {
    forall y | ValidSlot(s, y) && At(t, y) != At(s, y) ensures y == x2 || Under(x2, y) {
      if y != x1 { UnderTrans(x2, x1, y); }
    }
  }

  lemma LeakedGrows(s: Disk, t: Disk, x: Slot)
    requires Grown(s, t, Zone(0, 0)) && forall y :: ValidSlot(s, y) ==> At(t, y) == At(s, y)
    ensures Grown(s, t, x)
  { }

  lemma LeakGrows(s: Disk, owner: map<nat, Slot>, n: nat)
    requires Inv(s, owner) && n / BITS < |s.zmap| && n + s.first - 1 >= s.nzones
    ensures Grown(s, SetBit(s, n, true), Zone(0, 0))
  {
    LeakKeeps(s, owner, n);
    BitAfter(s, n, true);
  }

  lemma LowestFree(s: Disk, i: nat, j: nat)
    requires Shape(s) && i < |s.zmap| && j < BITS && !s.zmap[i][j]
    requires forall k :: 0 <= k < j ==> s.zmap[i][k]
    requires forall n :: 0 <= n < i * BITS && n / BITS < |s.zmap| ==> Bit(s, n)
    ensures !Bit(s, i * BITS + j) && forall n :: 0 <= n < i * BITS + j ==> Bit(s, n)
  {
    assert (i * BITS + j) / BITS == i && (i * BITS + j) % BITS == j;
    forall n | 0 <= n < i * BITS + j ensures Bit(s, n) {
      if n >= i * BITS {
        assert n / BITS == i && n % BITS == n - i * BITS;
      }
    }
  }
}
