/** fs/file_dev.c: on top of the block trees every file is an array of bytes in
    which whatever was never written reads as zero. */
module FileData {
  import opened BlockTree
  import opened FileBlocks

  const MAX_POS: int := MAX_BLOCKS * BLOCK_SIZE

  predicate IsFile(s: Disk, ino: int) { 0 <= ino < |s.inodes| && s.inodes[ino].tree }

  /** The byte at a position: a hole reads as zero. */
  ghost function FileByte(s: Disk, ino: nat, pos: nat): Byte
    requires Shape(s) && IsFile(s, ino) && pos < MAX_POS
  {
    var b := BlockOf(s, ino, pos / BLOCK_SIZE);
    if b == 0 || b >= s.nzones then 0 else s.data[b][pos % BLOCK_SIZE]
  }

  /** No file is longer than a block tree, and past its end there is nothing. */
  ghost predicate Tidy(s: Disk)
    requires Shape(s)
  {
    forall ino :: IsFile(s, ino) ==>
      && s.inodes[ino].size <= MAX_POS
      && forall pos :: s.inodes[ino].size <= pos < MAX_POS ==> FileByte(s, ino, pos) == 0
  }

  /** On a formatted device every file is empty. */
  lemma FormattedTidy(s: Disk)
    requires Formatted(s) && forall i :: 0 <= i < |s.inodes| ==> s.inodes[i].size == 0
    ensures Tidy(s)
  {
    forall ino, pos | IsFile(s, ino) && 0 <= pos < MAX_POS ensures FileByte(s, ino, pos) == 0 {
      SlotOfIsLeaf(s, ino, pos / BLOCK_SIZE);
      FormattedAt(s, SlotOf(ino, pos / BLOCK_SIZE));
    }
  }

  /** Getting a blank block for a hole changes no byte of any file. */
  lemma GrownBytes(s: Disk, t: Disk, x: Slot, ino: nat, pos: nat)
    requires Grown(s, t, x) && IsFile(s, ino) && pos < MAX_POS
    ensures IsFile(t, ino) && FileByte(t, ino, pos) == FileByte(s, ino, pos)
  {
    var y := SlotOf(ino, pos / BLOCK_SIZE);
    SlotOfIsLeaf(s, ino, pos / BLOCK_SIZE);
    if At(t, y) != 0 { assert SameOrBlank(s, t, At(s, y), At(t, y)); }
  }

  /** Writing a data block changes that stretch of that file and nothing else. */
  lemma DataWritten(s: Disk, owner: map<nat, Slot>, ino: nat, n: nat, b: nat, w: Block)
    requires Inv(s, owner) && IsFile(s, ino) && n < MAX_BLOCKS && b == BlockOf(s, ino, n) != 0
    ensures b < s.nzones
    ensures var t := s.(data := s.data[b := w]);
      && Inv(t, owner)
      && (forall i, m :: IsFile(s, i) && 0 <= m < MAX_BLOCKS ==> BlockOf(t, i, m) == BlockOf(s, i, m))
      && (forall i, pos :: IsFile(s, i) && 0 <= pos < MAX_POS ==>
            FileByte(t, i, pos) == if i == ino && pos / BLOCK_SIZE == n then w[pos % BLOCK_SIZE]
                                   else FileByte(s, i, pos))
  {
    hide Inv, Shape, At, ValidSlot, SlotOf;
    OneBlock(s, owner, ino, n, ino, n);
    var t := s.(data := s.data[b := w]);
    LeafWritten(s, owner, SlotOf(ino, n), b, w);
    forall i, m | IsFile(s, i) && 0 <= m < MAX_BLOCKS
      ensures BlockOf(t, i, m) == BlockOf(s, i, m) && (BlockOf(s, i, m) == b ==> i == ino && m == n)
    {
      SlotOfIsLeaf(s, i, m);
      OneBlock(s, owner, i, m, ino, n);
    }
    hide BlockOf;
    forall i, pos | IsFile(s, i) && 0 <= pos < MAX_POS
      ensures FileByte(t, i, pos) == if i == ino && pos / BLOCK_SIZE == n then w[pos % BLOCK_SIZE]
                                     else FileByte(s, i, pos)
    {
      assert BlockOf(t, i, pos / BLOCK_SIZE) == BlockOf(s, i, pos / BLOCK_SIZE);
    }
  }

  /** No two kilobytes of files share a block. */
  lemma OneBlock(s: Disk, owner: map<nat, Slot>, i: nat, m: nat, j: nat, n: nat)
    requires Inv(s, owner) && IsFile(s, i) && IsFile(s, j) && m < MAX_BLOCKS && n < MAX_BLOCKS
    ensures BlockOf(s, i, m) == BlockOf(s, j, n) != 0 ==> i == j && m == n
    ensures BlockOf(s, j, n) != 0 ==> InZone(s, BlockOf(s, j, n)) && BlockOf(s, j, n) < |s.data|
    ensures Shape(s) && ValidSlot(s, SlotOf(j, n)) && !HasKids(SlotOf(j, n)) && BlockOf(s, j, n) == At(s, SlotOf(j, n))
  {
    SlotOfIsLeaf(s, i, m);
    SlotOfIsLeaf(s, j, n);
    if BlockOf(s, j, n) != 0 { OwnerOf(s, owner, iset{}, SlotOf(j, n)); }
    if BlockOf(s, i, m) == BlockOf(s, j, n) != 0 { SlotOfInjective(i, m, j, n); }
  }

  lemma LeafWritten(s: Disk, owner: map<nat, Slot>, x: Slot, b: nat, w: Block)
    requires Inv(s, owner) && ValidSlot(s, x) && !HasKids(x) && At(s, x) == b && InZone(s, b) && b != 0
    ensures var t := s.(data := s.data[b := w]);
      Inv(t, owner) && Shape(t) && forall y :: ValidSlot(s, y) ==> ValidSlot(t, y) && At(t, y) == At(s, y)
  {
    var t := s.(data := s.data[b := w]);
    forall y | ValidSlot(s, y) ensures ValidSlot(t, y) && At(t, y) == At(s, y) {
      forall z | ValidSlot(s, z) && HasKids(z) ensures At(s, z) != b {
        assert owner[b] == x && (At(s, z) != 0 ==> At(s, z) in owner && owner[At(s, z)] == z);
      }
      AtUnheld(s, t, b, y);
    }
    forall y | ValidSlot(t, y) ensures ValidSlot(s, y) { SameKinds(s, t, y); }
    assert forall c :: InZone(t, c) ==> Used(t, c) == Used(s, c);
  }

  /* ---- files as byte arrays ---- */

  ghost function Contents(s: Disk, ino: nat): seq<Byte>
    requires Shape(s) && IsFile(s, ino) && s.inodes[ino].size <= MAX_POS
  {
    seq(s.inodes[ino].size, pos requires 0 <= pos < s.inodes[ino].size => FileByte(s, ino, pos))
  }

  /** b laid over f at position p; a gap in front of it is filled with zeros. */
  function Overlay(f: seq<Byte>, p: nat, b: seq<Byte>): (g: seq<Byte>)
    ensures |g| == if |b| == 0 || p + |b| <= |f| then |f| else p + |b|
    ensures forall k :: 0 <= k < |g| ==> g[k] == if p <= k < p + |b| then b[k - p] else if k < |f| then f[k] else 0
  {
    if |b| == 0 then f
    else seq(if p + |b| <= |f| then |f| else p + |b|, k requires 0 <= k =>
               if p <= k < p + |b| then b[k - p] else if k < |f| then f[k] else 0)
  }

  /** n bytes from position p; zeros where the array has ended. */
  function Slice(f: seq<Byte>, p: nat, n: nat): (g: seq<Byte>)
    ensures |g| == n
  {
    seq(n, k requires 0 <= k => if p + k < |f| then f[p + k] else 0)
  }

  /** What was written is read back. */
  lemma ReadBack(f: seq<Byte>, p: nat, b: seq<Byte>)
    ensures Slice(Overlay(f, p, b), p, |b|) == b
    ensures forall q: nat, n: nat :: q + n <= p || p + |b| <= q ==> Slice(Overlay(f, p, b), q, n) == Slice(f, q, n)
  {
    forall q: nat, n: nat | q + n <= p || p + |b| <= q
      ensures Slice(Overlay(f, p, b), q, n) == Slice(f, q, n)
    { }
  }

  class OpenFile {
    var pos: nat
    const append: bool

    constructor (p: nat, a: bool)
      ensures pos == p && append == a
    {
      pos, append := p, a;
    }
  }

  /** file_read: count bytes from f_pos on, zeros for holes. */
  method FileRead(fs: FileSystem, ino: nat, filp: OpenFile, count: int) returns (r: int, buf: seq<Byte>)
    requires fs.Valid() && IsFile(fs.S(), ino) && (count > 0 ==> filp.pos + count <= MAX_POS)
    modifies fs, filp
    ensures fs.Valid() && fs.S() == old(fs.S())
    ensures r == |buf| == (if count <= 0 then 0 else count) && filp.pos == old(filp.pos) + |buf|
    ensures forall k :: 0 <= k < |buf| ==> buf[k] == FileByte(fs.S(), ino, old(filp.pos) + k)
  {
    hide Inv, Grown, FileByte;
    buf := [];
    var left := count;
    if left <= 0 { return 0, []; }
    ghost var s := fs.S();
    InvShape(s, fs.owner);
    while left > 0
      invariant 0 <= left <= count && left + |buf| == count && filp.pos == old(filp.pos) + |buf|
      invariant fs.Valid() && fs.S() == s
      invariant forall k :: 0 <= k < |buf| ==> buf[k] == FileByte(s, ino, old(filp.pos) + k)
    {
      var nr := filp.pos / BLOCK_SIZE;
      var b := fs.Bmap(ino, nr, false);
      OneBlock(s, fs.owner, ino, nr, ino, nr);
      var from := filp.pos % BLOCK_SIZE;
      var chars := if BLOCK_SIZE - from < left then BLOCK_SIZE - from else left;
      ghost var pos := filp.pos;
      filp.pos := filp.pos + chars;
      left := left - chars;
      var chunk := [];
      while |chunk| < chars
        invariant |chunk| <= chars && fs.S() == s && fs.Valid()
        invariant forall k :: 0 <= k < |chunk| ==> chunk[k] == if b == 0 then 0 else s.data[b][from + k]
      {
        chunk := chunk + [if b != 0 then fs.data[b][from + |chunk|] else 0];
      }
      forall k | 0 <= k < chars ensures chunk[k] == FileByte(s, ino, pos + k) {
        ByteIn(s, ino, pos, nr, b, k);
      }
      buf := buf + chunk;
    }
    return count, buf;
  }

  /** Inside one kilobyte the file is its block. */
  lemma ByteIn(s: Disk, ino: nat, pos: nat, nr: nat, b: nat, k: nat)
    requires Shape(s) && IsFile(s, ino) && nr == pos / BLOCK_SIZE && pos % BLOCK_SIZE + k < BLOCK_SIZE
             && nr < MAX_BLOCKS
    requires b == BlockOf(s, ino, nr) && b < s.nzones
    ensures pos + k < MAX_POS && FileByte(s, ino, pos + k) == if b == 0 then 0 else s.data[b][pos % BLOCK_SIZE + k]
  {
    assert (pos + k) / BLOCK_SIZE == nr && (pos + k) % BLOCK_SIZE == pos % BLOCK_SIZE + k;
  }

  function NewSize(size: nat, p: nat, n: nat): nat { if n > 0 && p + n > size then p + n else size }

  /** t is s after b was written at position p of file ino. */
  ghost predicate Wrote(s: Disk, t: Disk, ino: nat, p: nat, b: seq<Byte>) {
    && Shape(s) && Shape(t) && IsFile(s, ino) && |t.inodes| == |s.inodes|
    && (forall i :: 0 <= i < |s.inodes| ==> t.inodes[i].tree == s.inodes[i].tree)
    && (forall i :: 0 <= i < |s.inodes| && i != ino ==> t.inodes[i].size == s.inodes[i].size)
    && t.inodes[ino].size == NewSize(s.inodes[ino].size, p, |b|)
    && (forall i, pos :: IsFile(s, i) && 0 <= pos < MAX_POS ==>
          FileByte(t, i, pos) == if i == ino && p <= pos < p + |b| then b[pos - p] else FileByte(s, i, pos))
  }

  /** w is a with c laid over it at offset from. */
  predicate Patched(a: Block, w: Block, from: nat, c: seq<Byte>) {
    forall k :: 0 <= k < BLOCK_SIZE ==> w[k] == if from <= k < from + |c| then c[k - from] else a[k]
  }

  lemma WroteNothing(s: Disk, ino: nat, p: nat)
    requires Shape(s) && IsFile(s, ino)
    ensures Wrote(s, s, ino, p, [])
  { }

  lemma WroteGrown(s: Disk, t: Disk, u: Disk, ino: nat, p: nat, b: seq<Byte>, x: Slot)
    requires Wrote(s, t, ino, p, b) && Grown(t, u, x)
    ensures Wrote(s, u, ino, p, b) && IsFile(u, ino)
  {
    hide FileByte;
    forall i, pos | IsFile(s, i) && 0 <= pos < MAX_POS ensures FileByte(u, i, pos) == FileByte(t, i, pos) {
      GrownBytes(t, u, x, i, pos);
    }
  }

  /** The next piece, within one kilobyte. */
  lemma WroteMore(s: Disk, t: Disk, owner: map<nat, Slot>, ino: nat, p: nat, b: seq<Byte>, blk: nat, c: seq<Byte>,
                  w: Block)
    requires Wrote(s, t, ino, p, b) && Inv(t, owner) && p + |b| + |c| <= MAX_POS && |c| > 0
    requires IsFile(t, ino) && blk == BlockOf(t, ino, (p + |b|) / BLOCK_SIZE) != 0 && blk < t.nzones
    requires (p + |b|) % BLOCK_SIZE + |c| <= BLOCK_SIZE
    requires Patched(t.data[blk], w, (p + |b|) % BLOCK_SIZE, c)
    ensures var u := t.(inodes := t.inodes[ino := t.inodes[ino].(size := NewSize(t.inodes[ino].size, p + |b|, |c|))],
                        data := t.data[blk := w]);
      Inv(u, owner) && Wrote(s, u, ino, p, b + c) && IsFile(u, ino)
  {
    hide Inv, Shape, FileByte, BlockOf;
    var q := p + |b|;
    var n := q / BLOCK_SIZE;
    var size := NewSize(t.inodes[ino].size, q, |c|);
    OneBlock(t, owner, ino, n, ino, n);
    DataWritten(t, owner, ino, n, blk, w);
    var v := t.(data := t.data[blk := w]);
    ResizeKeeps(v, owner, ino, size);
    var u := v.(inodes := v.inodes[ino := v.inodes[ino].(size := size)]);
    assert u == t.(inodes := t.inodes[ino := t.inodes[ino].(size := size)], data := t.data[blk := w]);
    InvShape(v, owner);
    InvShape(u, owner);
    forall i, pos | IsFile(s, i) && 0 <= pos < MAX_POS
      ensures FileByte(u, i, pos) == if i == ino && p <= pos < p + |b + c| then (b + c)[pos - p]
                                     else FileByte(s, i, pos)
    {
      ResizedByte(v, u, owner, i, pos);
      InPiece(t, ino, q, n, blk, pos, |c|);
    }
  }

  lemma ResizedByte(v: Disk, u: Disk, owner: map<nat, Slot>, i: nat, pos: nat)
    requires Inv(v, owner) && Shape(v) && Shape(u) && IsFile(v, i) && IsFile(u, i) && pos < MAX_POS
    requires v.data == u.data && v.nzones == u.nzones
    requires forall y :: ValidSlot(v, y) ==> ValidSlot(u, y) && At(u, y) == At(v, y)
    ensures FileByte(u, i, pos) == FileByte(v, i, pos)
  {
    SlotOfIsLeaf(v, i, pos / BLOCK_SIZE);
  }

  /** A position of the piece or of its kilobyte, seen through the block. */
  lemma InPiece(t: Disk, ino: nat, q: nat, n: nat, blk: nat, pos: nat, c: nat)
    requires Shape(t) && IsFile(t, ino) && n == q / BLOCK_SIZE && n < MAX_BLOCKS && blk == BlockOf(t, ino, n) != 0
             && blk < t.nzones
    requires q % BLOCK_SIZE + c <= BLOCK_SIZE && pos < MAX_POS && q + c <= MAX_POS && c > 0
    ensures q <= pos < q + c ==> pos / BLOCK_SIZE == n && pos % BLOCK_SIZE == q % BLOCK_SIZE + (pos - q)
    ensures pos / BLOCK_SIZE == n ==> FileByte(t, ino, pos) == t.data[blk][pos % BLOCK_SIZE]
    ensures pos / BLOCK_SIZE == n && !(q <= pos < q + c) ==> !(q % BLOCK_SIZE <= pos % BLOCK_SIZE < q % BLOCK_SIZE + c)
  { }

  /** file_write: the bytes that fit are laid over the file; a short count means
      the disk is full.  r is the C result, n the number of bytes written. */
  method FileWrite(fs: FileSystem, ino: nat, filp: OpenFile, buf: seq<Byte>) returns (r: int, n: nat)
    requires fs.Valid() && IsFile(fs.S(), ino)
    requires (if filp.append then fs.inodes[ino].size else filp.pos) + |buf| <= MAX_POS
    modifies fs, filp
    ensures fs.Valid() && n <= |buf| && r == if n > 0 then n else -1
    ensures var p := if filp.append then old(fs.inodes[ino].size) else old(filp.pos);
      && Wrote(old(fs.S()), fs.S(), ino, p, buf[..n])
      && filp.pos == if filp.append then old(filp.pos) else p + n
    ensures n < |buf| ==> Full(fs.S())
  {
    hide Inv, Grown, Wrote, Full, FileByte, BlockOf, Patched;
    ghost var s := fs.S();
    InvShape(s, fs.owner);
    var pos := if filp.append then fs.inodes[ino].size else filp.pos;
    ghost var p := pos;
    var i := 0;
    WroteNothing(s, ino, p);
    assert buf[..0] == [];
    while i < |buf|
      invariant 0 <= i <= |buf| && pos == p + i && filp.pos == old(filp.pos)
      invariant fs.Valid() && Wrote(s, fs.S(), ino, p, buf[..i]) && IsFile(fs.S(), ino)
    {
      ghost var t := fs.S();
      var block := fs.Bmap(ino, pos / BLOCK_SIZE, true);
      WroteGrown(s, t, fs.S(), ino, p, buf[..i], SlotOf(ino, pos / BLOCK_SIZE));
      if block == 0 { break; }
      InvShape(fs.S(), fs.owner);
      var c := WriteBlock(fs, ino, block, pos, buf[i..], s, p, buf[..i]);
      assert buf[..i] + buf[i..][..c] == buf[..i + c];
      pos := pos + c;
      i := i + c;
    }
    if !filp.append { filp.pos := pos; }
    n := i;
    r := if i > 0 then i else -1;
  }

  /** One kilobyte of file_write: i_size first, then byte by byte. */
  method WriteBlock(fs: FileSystem, ino: nat, block: nat, pos: nat, buf: seq<Byte>, ghost s: Disk, ghost p: nat,
                    ghost b: seq<Byte>) returns (c: nat)
    requires fs.Valid() && Wrote(s, fs.S(), ino, p, b) && IsFile(fs.S(), ino) && pos == p + |b| && |buf| > 0
             && pos + |buf| <= MAX_POS
    requires Shape(fs.S()) && block == BlockOf(fs.S(), ino, pos / BLOCK_SIZE) != 0
    modifies fs
    ensures fs.Valid() && IsFile(fs.S(), ino) && 0 < c <= |buf| && Wrote(s, fs.S(), ino, p, b + buf[..c])
  {
    hide Inv, Grown, Wrote, FileByte, BlockOf;
    ghost var t := fs.S();
    OneBlock(t, fs.owner, ino, pos / BLOCK_SIZE, ino, pos / BLOCK_SIZE);
    var from := pos % BLOCK_SIZE;
    c := BLOCK_SIZE - from;
    if c > |buf| { c := |buf|; }
    if pos + c > fs.inodes[ino].size {
      fs.inodes := fs.inodes[ino := fs.inodes[ino].(size := pos + c)];
    }
    ghost var inodes := fs.inodes;
    var j := 0;
    while j < c
      invariant 0 <= j <= c && fs.inodes == inodes && fs.zmap == t.zmap && |fs.data| == |t.data|
                && fs.owner == old(fs.owner)
      invariant fs.data == t.data[block := fs.data[block]]
      invariant Patched(t.data[block], fs.data[block], from, buf[..j])
    {
      fs.data := fs.data[block := fs.data[block][from + j := buf[j]]];
      j := j + 1;
    }
    assert inodes == t.inodes[ino := t.inodes[ino].(size := NewSize(t.inodes[ino].size, pos, c))];
    WroteMore(s, t, fs.owner, ino, p, b, block, buf[..c], fs.data[block]);
  }

  /* ---- whole runs ---- */

  lemma WroteContents(s: Disk, t: Disk, ino: nat, p: nat, b: seq<Byte>)
    requires Wrote(s, t, ino, p, b) && Tidy(s) && p + |b| <= MAX_POS
    ensures Tidy(t) && IsFile(t, ino) && Contents(t, ino) == Overlay(Contents(s, ino), p, b)
    ensures forall i :: IsFile(s, i) && i != ino ==> IsFile(t, i) && Contents(t, i) == Contents(s, i)
  {
    hide FileByte;
  }

  lemma TruncatedContents(s: Disk, t: Disk, ino: nat)
    requires Truncated(s, t, ino) && Tidy(s) && IsFile(s, ino) && t.inodes[ino].size == 0
    ensures Tidy(t) && IsFile(t, ino) && Contents(t, ino) == []
    ensures forall i :: IsFile(s, i) && i != ino ==> IsFile(t, i) && Contents(t, i) == Contents(s, i)
  {
    forall i, pos | IsFile(s, i) && 0 <= pos < MAX_POS
      ensures IsFile(t, i) && FileByte(t, i, pos) == if i == ino then 0 else FileByte(s, i, pos)
    {
      TruncatedByte(s, t, ino, i, pos);
    }
    hide FileByte;
  }

  lemma TruncatedByte(s: Disk, t: Disk, ino: nat, i: nat, pos: nat)
    requires Truncated(s, t, ino) && IsFile(s, i) && pos < MAX_POS
    ensures IsFile(t, i) && FileByte(t, i, pos) == if i == ino then 0 else FileByte(s, i, pos)
  {
    SlotOfIsLeaf(s, i, pos / BLOCK_SIZE);
  }

  /** sys_read on a regular file or directory: it stops at i_size. */
  method ReadFile(fs: FileSystem, ino: nat, filp: OpenFile, count: nat) returns (r: int, buf: seq<Byte>)
    requires fs.Valid() && IsFile(fs.S(), ino) && Tidy(fs.S())
    modifies fs, filp
    ensures fs.Valid() && fs.S() == old(fs.S()) && r == |buf| && filp.pos == old(filp.pos) + |buf|
    ensures var f := old(Contents(fs.S(), ino)); var p := old(filp.pos);
      buf == if p >= |f| then [] else if p + count <= |f| then f[p..p + count] else f[p..]
  {
    var n: int := count;
    if n + filp.pos > fs.inodes[ino].size { n := fs.inodes[ino].size - filp.pos; }
    if n <= 0 { return 0, []; }
    r, buf := FileRead(fs, ino, filp, n);
  }

  datatype Op = Write(ino: nat, append: bool, pos: nat, buf: seq<Byte>) | Trunc(ino: nat)

  /** A step was refused, or it took the first n bytes. */
  datatype Outcome = Refused | Took(n: nat)

  /** The files of a disk: one byte array an inode. */
  ghost function Files(s: Disk): seq<seq<Byte>>
    requires Shape(s) && Tidy(s)
  {
    seq(|s.inodes|, i requires 0 <= i < |s.inodes| => if IsFile(s, i) then Contents(s, i) else [])
  }

  /** The same step on byte arrays. */
  function Apply(f: seq<seq<Byte>>, op: Op, out: Outcome): seq<seq<Byte>> {
    if out.Refused? || op.ino >= |f| then f
    else match op
      case Write(ino, append, pos, buf) =>
        if out.n <= |buf| then f[ino := Overlay(f[ino], if append then |f[ino]| else pos, buf[..out.n])] else f
      case Trunc(ino) => f[ino := []]
  }

  function ApplyAll(f: seq<seq<Byte>>, ops: seq<Op>, outs: seq<Outcome>): seq<seq<Byte>>
    requires |ops| == |outs|
  {
    if ops == [] then f else Apply(ApplyAll(f, ops[..|ops| - 1], outs[..|ops| - 1]), ops[|ops| - 1], outs[|ops| - 1])
  }

  lemma ApplyNext(f: seq<seq<Byte>>, ops: seq<Op>, outs: seq<Outcome>, op: Op, out: Outcome)
    requires |ops| == |outs|
    ensures ApplyAll(f, ops + [op], outs + [out]) == Apply(ApplyAll(f, ops, outs), op, out)
  {
    assert (ops + [op])[..|ops|] == ops && (outs + [out])[..|outs|] == outs;
  }

  /** What the system accepts: a file, and a write that ends within a block tree. */
  predicate Fits(inodes: seq<Inode>, op: Op) {
    op.ino < |inodes| && inodes[op.ino].tree
    && (op.Write? ==> (if op.append then inodes[op.ino].size else op.pos) + |op.buf| <= MAX_POS)
  }

  /** One step on byte arrays: it is refused exactly when it does not fit, and a
      write is cut short only by a full disk. */
  ghost predicate Stepped(s: Disk, t: Disk, op: Op, out: Outcome) {
    && Shape(s) && Tidy(s) && Shape(t) && Tidy(t) && Files(t) == Apply(Files(s), op, out)
    && (out.Refused? <==> !Fits(s.inodes, op))
    && (op.Write? && out.Took? ==> out.n <= |op.buf| && (out.n < |op.buf| ==> Full(t)))
  }

  ghost predicate IsRun(disks: seq<Disk>, ops: seq<Op>, outs: seq<Outcome>) {
    && |disks| == |ops| + 1 && |outs| == |ops|
    && forall k :: 0 <= k < |ops| ==> Stepped(disks[k], disks[k + 1], ops[k], outs[k])
  }

  /** Any run of writes and truncations: the disk behaves as a row of byte arrays,
      except that a full disk cuts a write short. */
  method Run(fs: FileSystem, ops: seq<Op>) returns (outs: seq<Outcome>, ghost disks: seq<Disk>)
    requires fs.Valid() && Shape(fs.S()) && Tidy(fs.S())
    modifies fs
    ensures fs.Valid() && Shape(fs.S()) && Tidy(fs.S())
    ensures IsRun(disks, ops, outs) && disks[0] == old(fs.S()) && disks[|ops|] == fs.S()
    ensures Files(fs.S()) == ApplyAll(old(Files(fs.S())), ops, outs)
  {
    hide Inv, Apply, Files, Shape, FileByte, Tidy, Stepped;
    ghost var f := Files(fs.S());
    outs, disks := [], [fs.S()];
    for k := 0 to |ops|
      invariant fs.Valid() && Shape(fs.S()) && Tidy(fs.S()) && |outs| == k
      invariant |disks| == k + 1 && disks[0] == old(fs.S()) && disks[k] == fs.S()
      invariant forall j :: 0 <= j < k ==> Stepped(disks[j], disks[j + 1], ops[j], outs[j])
      invariant Files(fs.S()) == ApplyAll(f, ops[..k], outs)
    {
      var out := Step(fs, ops[k]);
      ApplyNext(f, ops[..k], outs, ops[k], out);
      SteppedApplies(disks[k], fs.S(), ops[k], out);
      assert ops[..k] + [ops[k]] == ops[..k + 1];
      outs, disks := outs + [out], disks + [fs.S()];
    }
    assert ops[..|ops|] == ops;
  }

  lemma SteppedApplies(s: Disk, t: Disk, op: Op, out: Outcome)
    requires Stepped(s, t, op, out) && Shape(s) && Tidy(s) && Shape(t) && Tidy(t)
    ensures Files(t) == Apply(Files(s), op, out)
  { }

  /** One step. */
  method Step(fs: FileSystem, op: Op) returns (out: Outcome)
    requires fs.Valid() && Shape(fs.S()) && Tidy(fs.S())
    modifies fs
    ensures fs.Valid() && Shape(fs.S()) && Tidy(fs.S()) && Stepped(old(fs.S()), fs.S(), op, out)
  {
    hide Inv, Shape, Wrote, Truncated, Full, Contents, FileByte;
    ghost var s := fs.S();
    if !Fits(fs.inodes, op) { return Refused; }
    match op
    case Write(ino, append, pos, buf) =>
      var filp := new OpenFile(pos, append);
      var r, n := FileWrite(fs, ino, filp, buf);
      InvShape(fs.S(), fs.owner);
      ContentsLength(s, ino);
      WroteContents(s, fs.S(), ino, if append then s.inodes[ino].size else pos, buf[..n]);
      SameShape(s, fs.S(), ino, if append then s.inodes[ino].size else pos, buf[..n]);
      out := Took(n);
      assert Files(fs.S()) == Apply(Files(s), op, out);
    case Trunc(ino) =>
      fs.Truncate(ino);
      InvShape(fs.S(), fs.owner);
      SameShape2(s, fs.S(), ino);
      TruncatedContents(s, fs.S(), ino);
      out := Took(0);
      assert Files(fs.S()) == Apply(Files(s), op, out);
  }

  lemma ContentsLength(s: Disk, ino: nat)
    requires Shape(s) && IsFile(s, ino) && s.inodes[ino].size <= MAX_POS
    ensures |Contents(s, ino)| == s.inodes[ino].size
  { }

  lemma SameShape(s: Disk, t: Disk, ino: nat, p: nat, b: seq<Byte>)
    requires Wrote(s, t, ino, p, b)
    ensures |t.inodes| == |s.inodes| && forall i :: IsFile(s, i) == IsFile(t, i)
  { }

  lemma SameShape2(s: Disk, t: Disk, ino: nat)
    requires Truncated(s, t, ino)
    ensures |t.inodes| == |s.inodes| && forall i :: IsFile(s, i) == IsFile(t, i)
  { }
}
