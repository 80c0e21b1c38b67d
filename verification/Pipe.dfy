/** fs/pipe.c: read_pipe and write_pipe, cut where they sleep.  The ring in one
    page refines a queue of at most 4095 bytes. */
module Pipe {
  const PAGE_SIZE: int := 4096

  /** n bytes of the ring from tail on. */
  function Ring(page: seq<nat>, tail: nat, n: nat): (r: seq<nat>)
    requires |page| == PAGE_SIZE
    ensures |r| == n
  {
    seq(n, i requires 0 <= i < n => page[(tail + i) % PAGE_SIZE])
  }

  function PipeSize(head: nat, tail: nat): nat { (head - tail) % PAGE_SIZE }

  function Least(a: nat, b: nat): nat { if a < b then a else b }

  /** A process inside read_pipe or write_pipe: what it still wants and has got, or
      what it still has to write and how much it has written. */
  datatype Pc = Reading(want: nat, got: seq<nat>) | Writing(left: seq<nat>, done: nat)

  /** What a call returned; None where there was no call. */
  datatype Outcome = None | Asleep | Read(bytes: seq<nat>) | Wrote(n: nat) | Broken

  /** The pipe as a queue, and how many processes have it open. */
  datatype State = State(queue: seq<nat>, opens: nat, proc: map<int, Pc>)

  datatype Step = Step(s: State, r: Outcome)

  /** A reader runs until it has all it wants, or finds the pipe empty. */
  function ReaderRuns(s: State, p: int): Step
    requires p in s.proc && s.proc[p].Reading?
  {
    var pc := s.proc[p];
    var n := Least(pc.want, |s.queue|);
    var got := pc.got + s.queue[..n];
    var s' := s.(queue := s.queue[n..], proc := s.proc - {p});
    if pc.want == n || s.opens != 2 then Step(s', Read(got))
    else Step(s'.(proc := s.proc[p := Reading(pc.want - n, got)]), Asleep)
  }

  /** A writer runs until all is written, or finds the pipe full. */
  function WriterRuns(s: State, p: int): Step
    requires p in s.proc && s.proc[p].Writing? && |s.queue| < PAGE_SIZE
  {
    var pc := s.proc[p];
    var n := Least(|pc.left|, PAGE_SIZE - 1 - |s.queue|);
    var s' := s.(queue := s.queue + pc.left[..n], proc := s.proc - {p});
    if |pc.left| == n then Step(s', Wrote(pc.done + n))
    else if s.opens != 2 then Step(s', if pc.done + n > 0 then Wrote(pc.done + n) else Broken)
    else Step(s'.(proc := s.proc[p := Writing(pc.left[n..], pc.done + n)]), Asleep)
  }

  datatype Op = Reads(p: int, count: int) | Writes(p: int, bytes: seq<nat>) | Wakes(p: int) | Opens(n: nat)

  /** One step: a call, a sleeper that runs on, or a change of who has it open. */
  function Next(s: State, op: Op): (r: Step)
    requires |s.queue| < PAGE_SIZE
    ensures |r.s.queue| < PAGE_SIZE
  {
    match op
    case Reads(p, count) =>
      if p in s.proc then Step(s, None)
      else if count <= 0 then Step(s, Read([]))
      else ReaderRuns(s.(proc := s.proc[p := Reading(count, [])]), p)
    case Writes(p, bytes) =>
      if p in s.proc then Step(s, None) else WriterRuns(s.(proc := s.proc[p := Writing(bytes, 0)]), p)
    case Wakes(p) =>
      if p !in s.proc then Step(s, None) else if s.proc[p].Reading? then ReaderRuns(s, p) else WriterRuns(s, p)
    case Opens(n) => Step(s.(opens := n), None)
  }

  function After(s: State, ops: seq<Op>): (r: State)
    requires |s.queue| < PAGE_SIZE
    ensures |r.queue| < PAGE_SIZE
    decreases |ops|
  {
    if ops == [] then s else Next(After(s, ops[..|ops| - 1]), ops[|ops| - 1]).s
  }

  /** Reading k bytes in one piece of the page. */
  lemma TakePiece(page: seq<nat>, tail: nat, n: nat, k: nat)
    requires |page| == PAGE_SIZE && tail + k <= PAGE_SIZE && k <= n
    ensures Ring(page, tail, n) == page[tail..tail + k] + Ring(page, (tail + k) % PAGE_SIZE, n - k)
  {
    var q, rest := Ring(page, tail, n), Ring(page, (tail + k) % PAGE_SIZE, n - k);
    forall i | 0 <= i < n ensures q[i] == (page[tail..tail + k] + rest)[i] {
      if i >= k { Shift(tail + k, i - k); }
    }
  }

  lemma Shift(a: nat, i: nat)
    ensures (a + i) % PAGE_SIZE == (a % PAGE_SIZE + i) % PAGE_SIZE
  { }

  /** Writing k bytes in one piece behind the queue. */
  lemma PutPiece(page: seq<nat>, tail: nat, n: nat, head: nat, bytes: seq<nat>)
    requires |page| == PAGE_SIZE && tail < PAGE_SIZE && head == (tail + n) % PAGE_SIZE
    requires head + |bytes| <= PAGE_SIZE && n + |bytes| < PAGE_SIZE
    ensures var page' := page[..head] + bytes + page[head + |bytes|..];
      Ring(page', tail, n + |bytes|) == Ring(page, tail, n) + bytes
  {
    var page' := page[..head] + bytes + page[head + |bytes|..];
    var q', q := Ring(page', tail, n + |bytes|), Ring(page, tail, n);
    forall i | 0 <= i < n + |bytes| ensures q'[i] == (q + bytes)[i] {
      if i < n {
        BeforeHead(tail, n, |bytes|, i);
      } else {
        Shift(tail + n, i - n);
        assert (tail + i) % PAGE_SIZE == head + (i - n);
      }
    }
  }

  lemma BeforeHead(tail: nat, n: nat, k: nat, i: nat)
    requires tail < PAGE_SIZE && i < n && n + k < PAGE_SIZE && (tail + n) % PAGE_SIZE + k <= PAGE_SIZE
    ensures var h := (tail + n) % PAGE_SIZE; !(h <= (tail + i) % PAGE_SIZE < h + k)
  { }

  lemma SizeAfter(head: nat, tail: nat, k: nat)
    requires head < PAGE_SIZE && tail < PAGE_SIZE
    ensures PipeSize(head, tail) < PAGE_SIZE && head == (tail + PipeSize(head, tail)) % PAGE_SIZE
    ensures k <= PipeSize(head, tail) ==> PipeSize(head, (tail + k) % PAGE_SIZE) == PipeSize(head, tail) - k
    ensures PipeSize(head, tail) + k < PAGE_SIZE ==> PipeSize((head + k) % PAGE_SIZE, tail) == PipeSize(head, tail) + k
  { }

  class PipeInode {
    const page: array<nat>
    var head: nat
    var tail: nat
    /** i_count: 2 while both ends are open. */
    var opens: nat
    var proc: map<int, Pc>
    /** Everything ever written and everything ever read. */
    ghost var written: seq<nat>
    ghost var taken: seq<nat>

    ghost predicate Shape() reads `head, `tail { page.Length == PAGE_SIZE && head < PAGE_SIZE && tail < PAGE_SIZE }

    ghost function Queue(): (q: seq<nat>)
      requires Shape()
      reads `head, `tail, page
      ensures |q| < PAGE_SIZE
    {
      Ring(page[..], tail, PipeSize(head, tail))
    }

    /** The FIFO law: what was read, then what is in the ring, is what was written. */
    ghost predicate Valid() reads `head, `tail, `written, `taken, page {
      Shape() && written == taken + Queue()
    }

    ghost function St(): State
      requires Shape()
      reads `head, `tail, `opens, `proc, page
    { State(Queue(), opens, proc) }

    constructor ()
      ensures Valid() && St() == State([], 2, map[]) && written == [] && fresh(page)
    {
      page := new nat[PAGE_SIZE];
      head, tail, opens, proc := 0, 0, 2, map[];
      written, taken := [], [];
    }

    /** One round of read_pipe's loop: a piece of the page, as far as it goes. */
    method TakeBytes(count: nat) returns (bytes: seq<nat>)
      requires Valid() && count > 0 && PipeSize(head, tail) > 0
      modifies `tail, `taken
      ensures Valid() && bytes != [] && |bytes| <= count && old(Queue()) == bytes + Queue()
              && taken == old(taken) + bytes
    {
      hide Ring, PipeSize;
      var size := PipeSize(head, tail);
      var chars := PAGE_SIZE - tail;
      if chars > count { chars := count; }
      if chars > size { chars := size; }
      SizeAfter(head, tail, chars);
      TakePiece(page[..], tail, size, chars);
      size := tail;
      tail := (tail + chars) % PAGE_SIZE;
      bytes := [];
      while |bytes| < chars
        invariant |bytes| <= chars && bytes == page[size..size + |bytes|]
      {
        bytes := bytes + [page[size + |bytes|]];
      }
      taken := taken + bytes;
    }

    /** One round of write_pipe's loop. */
    method PutBytes(bytes: seq<nat>) returns (n: nat)
      requires Valid() && bytes != [] && PipeSize(head, tail) < PAGE_SIZE - 1
      modifies `head, `written, page
      ensures Valid() && 0 < n <= |bytes| && Queue() == old(Queue()) + bytes[..n]
              && written == old(written) + bytes[..n]
    {
      hide Ring, PipeSize;
      SizeAfter(head, tail, 0);
      var size := PAGE_SIZE - 1 - PipeSize(head, tail);
      var chars := PAGE_SIZE - head;
      if chars > |bytes| { chars := |bytes|; }
      if chars > size { chars := size; }
      SizeAfter(head, tail, chars);
      PutPiece(page[..], tail, PipeSize(head, tail), head, bytes[..chars]);
      size := head;
      head := (head + chars) % PAGE_SIZE;
      CopyIn(size, bytes[..chars]);
      written := written + bytes[..chars];
      n := chars;
    }

    /** while (chars-->0): the bytes go into the page. */
    method CopyIn(at: nat, bytes: seq<nat>)
      requires at + |bytes| <= page.Length
      modifies page
      ensures page[..] == old(page[..])[..at] + bytes + old(page[..])[at + |bytes|..]
    {
      ghost var was := page[..];
      var i := 0;
      while i < |bytes|
        invariant 0 <= i <= |bytes| && page[..] == was[..at] + bytes[..i] + was[at + i..]
      {
        page[at + i] := bytes[i];
        i := i + 1;
      }
    }

    /** A process in read_pipe runs up to its next sleep or its return. */
    method RunReader(p: int) returns (r: Outcome)
      requires Valid() && p in proc && proc[p].Reading?
      modifies `tail, `taken, `proc
      ensures Valid() && Step(St(), r) == ReaderRuns(old(St()), p) && written == old(written)
    {
      var want, got := proc[p].want, proc[p].got;
      ghost var q0, n := Queue(), 0;
      while want > 0
        invariant Valid() && written == old(written) && proc == old(proc) && 0 <= want && 0 <= n <= |q0|
                  && want + n == proc[p].want
        invariant Queue() == q0[n..] && got == proc[p].got + q0[..n]
      {
        if PipeSize(head, tail) == 0 {
          assert n == |q0|;
          if opens != 2 {
            proc := proc - {p};
            return Read(got);
          }
          proc := proc[p := Reading(want, got)];
          return Asleep;
        }
        var bytes := TakeBytes(want);
        assert q0[..n + |bytes|] == q0[..n] + bytes;
        want := want - |bytes|;
        got := got + bytes;
        n := n + |bytes|;
      }
      assert n == Least(old(St()).proc[p].want, |q0|);
      proc := proc - {p};
      return Read(got);
    }

    /** A process in write_pipe runs up to its next sleep or its return. */
    method RunWriter(p: int) returns (r: Outcome)
      requires Valid() && p in proc && proc[p].Writing?
      modifies `head, `written, `proc, page
      ensures Valid() && Step(St(), r) == WriterRuns(old(St()), p) && taken == old(taken)
      ensures old(written) <= written
    {
      var left, done := proc[p].left, proc[p].done;
      ghost var all, q0, n := left, Queue(), 0;
      while left != []
        invariant Valid() && taken == old(taken) && proc == old(proc) && 0 <= n <= |all| && left == all[n..]
                  && done == proc[p].done + n
        invariant Queue() == q0 + all[..n] && old(written) <= written
        decreases |left|
      {
        if PipeSize(head, tail) == PAGE_SIZE - 1 {
          if opens != 2 {
            proc := proc - {p};
            return if done > 0 then Wrote(done) else Broken;
          }
          proc := proc[p := Writing(left, done)];
          return Asleep;
        }
        var k := PutBytes(left);
        assert all[..n + k] == all[..n] + left[..k];
        left := left[k..];
        done := done + k;
        n := n + k;
      }
      proc := proc - {p};
      return Wrote(done);
    }

    /** read_pipe and write_pipe are called. */
    method SysRead(p: int, count: int) returns (r: Outcome)
      requires Valid() && p !in proc
      modifies `tail, `taken, `proc
      ensures Valid() && written == old(written)
      ensures if count <= 0 then r == Read([]) && St() == old(St())
              else Step(St(), r) == ReaderRuns(old(St()).(proc := old(proc)[p := Reading(count, [])]), p)
    {
      if count <= 0 { return Read([]); }
      proc := proc[p := Reading(count, [])];
      r := RunReader(p);
    }

    method SysWrite(p: int, bytes: seq<nat>) returns (r: Outcome)
      requires Valid() && p !in proc
      modifies `head, `written, `proc, page
      ensures Valid() && taken == old(taken) && old(written) <= written
      ensures Step(St(), r) == WriterRuns(old(St()).(proc := old(proc)[p := Writing(bytes, 0)]), p)
    {
      proc := proc[p := Writing(bytes, 0)];
      r := RunWriter(p);
    }

    /** One step of any process. */
    method Do(op: Op) returns (r: Outcome)
      requires Valid()
      modifies `head, `tail, `opens, `written, `taken, `proc, page
      ensures Valid() && Step(St(), r) == Next(old(St()), op)
      ensures old(written) <= written && old(taken) <= taken
    {
      ghost var taken0, q := taken, Queue();
      r := None;
      match op
      case Reads(p, count) =>
        if p !in proc { r := SysRead(p, count); }
        ReadsOn(taken0, q, taken, Queue());
      case Writes(p, bytes) =>
        if p !in proc { r := SysWrite(p, bytes); }
      case Wakes(p) =>
        if p in proc {
          if proc[p].Reading? { r := RunReader(p); } else { r := RunWriter(p); }
        }
        if taken != taken0 { ReadsOn(taken0, q, taken, Queue()); }
      case Opens(n) =>
        opens := n;
    }

    /** Any interleaving of readers and writers at their sleeping points: the ring
        does what the queue does, what was read is a prefix of what was written, the
        rest is in the ring, and no byte read or written is ever taken back. */
    method Run(ops: seq<Op>) returns (outs: seq<Outcome>)
      requires Valid()
      modifies `head, `tail, `opens, `written, `taken, `proc, page
      ensures Valid() && old(written) <= written && old(taken) <= taken <= written
      ensures |written| - |taken| == |Queue()| < PAGE_SIZE
      ensures St() == After(old(St()), ops) && |outs| == |ops|
      ensures forall k :: 0 <= k < |ops| ==> outs[k] == Next(After(old(St()), ops[..k]), ops[k]).r
    {
      hide Next, Ring, PipeSize;
      outs := [];
      for i := 0 to |ops|
        invariant Valid() && old(written) <= written && old(taken) <= taken
        invariant St() == After(old(St()), ops[..i]) && |outs| == i
        invariant forall k :: 0 <= k < i ==> outs[k] == Next(After(old(St()), ops[..k]), ops[k]).r
      {
        var r := Do(ops[i]);
        assert ops[..i + 1][..i] == ops[..i];
        outs := outs + [r];
      }
      assert ops[..|ops|] == ops;
    }
  }

  /** With nothing written, less in the ring means more was read. */
  lemma ReadsOn(taken: seq<nat>, q: seq<nat>, taken': seq<nat>, q': seq<nat>)
    requires taken + q == taken' + q' && |q'| <= |q|
    ensures taken <= taken'
  {
    assert taken == (taken + q)[..|taken|] == (taken' + q')[..|taken|] == taken'[..|taken|];
  }
}
