/** What every task sees under eager copying, and the events that change it. */
module AddressSpaces {
  import opened PageTables

  ghost predicate SameTables(m: Memory, n: Memory) {
    && |m| == |n|
    && (forall d :: 0 <= d < TABLE_SIZE ==> Dir(n, d) == Dir(m, d))
    && (forall d, i :: DIRS_PER_TASK <= d < TABLE_SIZE && 0 <= i < TABLE_SIZE ==> Ent(n, d, i) == Ent(m, d, i))
  }

  /** The spaces without directory entries from .. to-1. */
  ghost function Without(s: Spaces, from: int, to: int): Spaces {
    map k | k in s && !(from <= k.0 < to) :: s[k]
  }

  /** The spaces without the first n pages of directory entry d. */
  ghost function CutRow(s: Spaces, d: int, n: int): Spaces {
    map k | k in s && !(k.0 == d && k.1 < n) :: s[k]
  }

  /** Directory entries outside from .. to-1 and all pages below them are untouched. */
  ghost predicate SameOutside(m: Memory, n: Memory, from: int, to: int) {
    && |m| == |n|
    && (forall d :: 0 <= d < TABLE_SIZE && !(from <= d < to) ==> Dir(n, d) == Dir(m, d))
    && (forall d, i :: DIRS_PER_TASK <= d < TABLE_SIZE && 0 <= i < TABLE_SIZE && !(from <= d < to) ==>
           Ent(n, d, i) == Ent(m, d, i))
  }

  lemma CutNext(s: Spaces, d: int, n: int)
    ensures CutRow(s, d, n) - {(d, n)} == CutRow(s, d, n + 1)
    ensures n <= 0 && (forall k :: k in s ==> InPages(k.0, k.1)) ==> CutRow(s, d, n) == s
  { }

  lemma CutAll(m: Memory, d: int)
    ensures CutRow(View(m), d, 0) == View(m)
    ensures CutRow(View(m), d, TABLE_SIZE) == Without(View(m), d, d + 1)
  { }

  lemma WithoutNext(s: Spaces, from: int, to: int)
    requires from <= to
    ensures Without(Without(s, from, to), to, to + 1) == Without(s, from, to + 1)
    ensures Without(s, from, from) == s
  { }

  lemma NoTableNoPages(m: Memory, d: int)
    requires DIRS_PER_TASK <= d < TABLE_SIZE && !Dir(m, d).present
    ensures Without(View(m), d, d + 1) == View(m)
  {
    forall k | k in View(m) ensures k.0 != d { }
  }

  ghost predicate CopiedSoFar(from: int, to: int, a: int, i: int, k: (int, int)) {
    to <= k.0 && (k.0 < to + a || (k.0 == to + a && k.1 < i)) && (from == 0 ==> k.1 < LOW_COPY)
  }

  /** What the first a directory entries and i further pages from `from` hold, as
      seen from `to`; task 0 lends only its first 160 pages. */
  ghost function Copied(m: Memory, from: int, to: int, a: int, i: int): Spaces
    requires 0 <= from && DIRS_PER_TASK <= to && from + a <= TABLE_SIZE && to + a <= TABLE_SIZE
    requires from + a == TABLE_SIZE || to + a == TABLE_SIZE ==> i <= 0
  {
    map k | k in Grid() && CopiedSoFar(from, to, a, i, k) && Ent(m, k.0 - to + from, k.1).present
      :: See(m, Ent(m, k.0 - to + from, k.1))
  }

  /** Outside entries to .. to+n-1 every page maps the frame it mapped before. */
  ghost predicate SameFrames(m: Memory, m': Memory, to: int, n: int) {
    && |m| == |m'|
    && (forall d :: 0 <= d < TABLE_SIZE && !(to <= d < to + n) ==> Dir(m', d) == Dir(m, d))
    && (forall d, i :: DIRS_PER_TASK <= d < TABLE_SIZE && 0 <= i < TABLE_SIZE && !(to <= d < to + n) ==>
          Ent(m', d, i).present == Ent(m, d, i).present && Ent(m', d, i).frame == Ent(m, d, i).frame)
    && (forall i :: 0 <= i < LOW_COPY ==> Ent(m', 0, i) == Ent(m, 0, i))
  }

  lemma FramesStart(m: Memory, to: int, n: int)
    ensures SameFrames(m, m, to, n)
  { }

  /** The next entry is copied. */
  lemma FramesStep(m: Memory, m1: Memory, m2: Memory, to: int, a: int, n: int)
    requires 0 <= a < n && DIRS_PER_TASK <= to && to + n <= TABLE_SIZE && SameFrames(m, m1, to, n)
             && SameFrames(m1, m2, to + a, 1)
    requires forall d :: to + a <= d < to + n ==> !Dir(m1, d).present
    ensures SameFrames(m, m2, to, n)
    ensures forall d :: to + a + 1 <= d < to + n ==> !Dir(m2, d).present
  {
    hide Ent, Dir;
  }

  /** The pages of a source are seen alike as long as only other pages were added. */
  lemma SourceUnchanged(m: Memory, m': Memory, s: Spaces, d: int, i: int)
    requires |m| == |m'| && InPages(d, i) && (d, i) !in s && View(m') == View(m) + s
    requires Ent(m', d, i).present && Ent(m, d, i).present
    ensures See(m', Ent(m', d, i)) == See(m, Ent(m, d, i))
  {
    assert (d, i) in View(m) && (d, i) in View(m');
  }

  lemma CopiedNext(m: Memory, from: int, to: int, a: int, i: int)
    requires 0 <= from && DIRS_PER_TASK <= to && 0 <= a && from + a < TABLE_SIZE && to + a < TABLE_SIZE
             && 0 <= i < TABLE_SIZE
    requires from == 0 ==> i < LOW_COPY
    ensures Copied(m, from, to, a, i + 1) ==
            if Ent(m, from + a, i).present then Copied(m, from, to, a, i)[(to + a, i) := See(m, Ent(m, from + a, i))]
            else Copied(m, from, to, a, i)
    ensures (to + a, i) !in Copied(m, from, to, a, i)
  {
    hide Ent, See;
    var key := (to + a, i);
    forall k ensures CopiedSoFar(from, to, a, i + 1, k) <==> CopiedSoFar(from, to, a, i, k) || k == key {
      assert k == key <==> k.0 == to + a && k.1 == i;
    }
    hide CopiedSoFar;
    var c := Copied(m, from, to, a, i);
    var n := Copied(m, from, to, a, i + 1);
    assert key in Grid();
    assert key in n <==> Ent(m, from + a, i).present;
    var r := if Ent(m, from + a, i).present then c[key := See(m, Ent(m, from + a, i))] else c;
    assert n.Keys == r.Keys;
    forall k | k in n ensures n[k] == r[k] { }
  }

  /** One more directory entry: its row is what the source row shows now. */
  lemma CopiedRow(m: Memory, m': Memory, from: int, to: int, a: int, n: int)
    requires 0 <= from && DIRS_PER_TASK <= to && 0 <= a < n && from + n <= TABLE_SIZE && to + n <= TABLE_SIZE
    requires (DIRS_PER_TASK <= from && (from + n <= to || to + n <= from)) || (from == a == 0)
    requires View(m') == View(m) + Copied(m, from, to, a, 0) && SameFrames(m, m', to, n)
    requires from == 0 ==> forall i :: 0 <= i < LOW_COPY && Ent(m, 0, i).present ==> Ent(m, 0, i).frame < LOW
    ensures View(m') + Copied(m', from + a, to + a, 0, TABLE_SIZE) == View(m) + Copied(m, from, to, a + 1, 0)
  {
    assert from == 0 ==> a == 0;
    hide *;
    var d := from + a;
    forall i | 0 <= i < TABLE_SIZE && (from == 0 ==> i < LOW_COPY)
      ensures Ent(m', d, i).present == Ent(m, d, i).present
      ensures Ent(m, d, i).present ==> See(m', Ent(m', d, i)) == See(m, Ent(m, d, i))
    {
      RowSeen(m, m', from, to, a, n, i);
    }
    CopiedUnion(m, m', from, to, a, d);
    PlusAssoc(View(m), Copied(m, from, to, a, 0), Copied(m', d, to + a, 0, TABLE_SIZE));
  }

  lemma PlusAssoc<K, V>(a: map<K, V>, b: map<K, V>, c: map<K, V>)
    ensures a + b + c == a + (b + c)
  { }

  lemma RowSeen(m: Memory, m': Memory, from: int, to: int, a: int, n: int, i: int)
    requires 0 <= from && DIRS_PER_TASK <= to && 0 <= a < n && from + n <= TABLE_SIZE && to + n <= TABLE_SIZE
    requires (DIRS_PER_TASK <= from && (from + n <= to || to + n <= from)) || (from == a == 0)
    requires View(m') == View(m) + Copied(m, from, to, a, 0) && SameFrames(m, m', to, n)
    requires from == 0 ==> forall i :: 0 <= i < LOW_COPY && Ent(m, 0, i).present ==> Ent(m, 0, i).frame < LOW
    requires 0 <= i < TABLE_SIZE && (from == 0 ==> i < LOW_COPY)
    ensures Ent(m', from + a, i).present == Ent(m, from + a, i).present
    ensures Ent(m, from + a, i).present ==> See(m', Ent(m', from + a, i)) == See(m, Ent(m, from + a, i))
  {
    hide View, Copied, Ent, Dir;
    SourceNotCopied(m, from, to, a, 0, from + a, i);
    if from > 0 && Ent(m, from + a, i).present { SourceUnchanged(m, m', Copied(m, from, to, a, 0), from + a, i); }
  }

  lemma SourceNotCopied(m: Memory, from: int, to: int, a: int, j: int, d: int, i: int)
    requires 0 <= from && DIRS_PER_TASK <= to && from + a < TABLE_SIZE && to + a < TABLE_SIZE && (d < to || d > to + a)
    ensures (d, i) !in Copied(m, from, to, a, j)
  { }

  lemma RowSeenInside(m: Memory, m': Memory, d: int, e: int, i: int)
    requires DIRS_PER_TASK <= e < TABLE_SIZE && (d == 0 || (DIRS_PER_TASK <= d < TABLE_SIZE && d != e))
    requires View(m') == View(m) + Copied(m, d, e, 0, i) && SameFrames(m, m', e, 1)
    requires d == 0 ==> forall j :: 0 <= j < LOW_COPY && Ent(m, 0, j).present ==> Ent(m, 0, j).frame < LOW
    requires 0 <= i < TABLE_SIZE && (d == 0 ==> i < LOW_COPY)
    ensures Ent(m', d, i).present == Ent(m, d, i).present
    ensures Ent(m, d, i).present ==> See(m', Ent(m', d, i)) == See(m, Ent(m, d, i))
  {
    if d > 0 {
      assert (d, i) !in Copied(m, d, e, 0, i);
      hide View, Copied;
      if Ent(m, d, i).present { SourceUnchanged(m, m', Copied(m, d, e, 0, i), d, i); }
    }
  }

  lemma PlusOne<K, V>(a: map<K, V>, b: map<K, V>, k: K, v: V)
    ensures (a + b)[k := v] == a + b[k := v]
  { }

  lemma CopiedStart(m: Memory, from: int, to: int, s: Spaces)
    requires 0 <= from <= TABLE_SIZE && DIRS_PER_TASK <= to <= TABLE_SIZE
    ensures s + Copied(m, from, to, 0, 0) == s
  {
    assert Copied(m, from, to, 0, 0) == map[];
  }

  lemma CopiedLow(m: Memory, to: int)
    requires DIRS_PER_TASK <= to < TABLE_SIZE
    ensures Copied(m, 0, to, 0, LOW_COPY) == Copied(m, 0, to, 0, TABLE_SIZE)
  { }

  /** Forgetting the destination forgets the partial copy. */
  lemma PrefixDropped(m: Memory, m': Memory, from: int, to: int, a: int, n: int)
    requires 0 <= from && DIRS_PER_TASK <= to && 0 <= a < n && from + n <= TABLE_SIZE && to + n <= TABLE_SIZE
    requires View(m') == View(m) + Copied(m, from, to, a, 0)
    requires forall d :: to <= d < to + n ==> !Dir(m, d).present
    ensures Without(View(m'), to, to + n) == View(m)
  {
    forall k | k in View(m) ensures !(to <= k.0 < to + n) { }
  }

  lemma CopiedSame(m: Memory, m': Memory, from: int, to: int)
    requires (from == 0 || DIRS_PER_TASK <= from < TABLE_SIZE) && DIRS_PER_TASK <= to < TABLE_SIZE && |m| == |m'|
    requires forall i :: 0 <= i < TABLE_SIZE && (from == 0 ==> i < LOW_COPY) ==> Ent(m', from, i) == Ent(m, from, i)
    requires from == 0 ==> forall i :: 0 <= i < LOW_COPY && Ent(m, 0, i).present ==> Ent(m, 0, i).frame < LOW
    requires View(m) == View(m')
    ensures Copied(m, from, to, 0, TABLE_SIZE) == Copied(m', from, to, 0, TABLE_SIZE)
  {
    forall i | 0 <= i < TABLE_SIZE && (from == 0 ==> i < LOW_COPY) && Ent(m, from, i).present
      ensures See(m', Ent(m', from, i)) == See(m, Ent(m, from, i))
    {
      if from != 0 { assert (from, i) in View(m); }
    }
    CopiedAlike(m, m', from, to);
  }

  lemma CopiedAlike(m: Memory, m': Memory, from: int, to: int)
    requires 0 <= from < TABLE_SIZE && DIRS_PER_TASK <= to < TABLE_SIZE
    requires forall i :: 0 <= i < TABLE_SIZE && (from == 0 ==> i < LOW_COPY) ==> Ent(m', from, i) == Ent(m, from, i)
    requires forall i :: 0 <= i < TABLE_SIZE && (from == 0 ==> i < LOW_COPY) && Ent(m, from, i).present ==>
               See(m', Ent(m', from, i)) == See(m, Ent(m, from, i))
    ensures Copied(m, from, to, 0, TABLE_SIZE) == Copied(m', from, to, 0, TABLE_SIZE)
  {
    hide See, Ent;
    var c := Copied(m, from, to, 0, TABLE_SIZE);
    var c' := Copied(m', from, to, 0, TABLE_SIZE);
    forall k ensures k in c <==> k in c' { if k.0 == to { assert k.0 - to + from == from; } }
    assert c.Keys == c'.Keys;
    forall k | k in c ensures c[k] == c'[k] { assert k.0 - to + from == from; }
  }

  lemma CopiedUnion(m: Memory, m': Memory, from: int, to: int, a: int, d: int)
    requires 0 <= from && DIRS_PER_TASK <= to && 0 <= a && from + a < TABLE_SIZE && to + a < TABLE_SIZE
    requires d == from + a && (from == 0 ==> a == 0)
    requires forall i :: 0 <= i < TABLE_SIZE && (from == 0 ==> i < LOW_COPY) ==>
               && Ent(m', d, i).present == Ent(m, d, i).present
               && (Ent(m, d, i).present ==> See(m', Ent(m', d, i)) == See(m, Ent(m, d, i)))
    ensures Copied(m, from, to, a + 1, 0) == Copied(m, from, to, a, 0) + Copied(m', from + a, to + a, 0, TABLE_SIZE)
  {
    hide Ent, See;
    var n := Copied(m, from, to, a + 1, 0);
    var c := Copied(m, from, to, a, 0);
    var r := Copied(m', from + a, to + a, 0, TABLE_SIZE);
    forall k ensures k in n <==> k in c + r {
      if k.0 == to + a { assert k.0 - to + from == from + a == k.0 - (to + a) + (from + a); }
    }
    assert n.Keys == (c + r).Keys;
    forall k | k in n ensures n[k] == (c + r)[k] {
      if k in r { assert k.0 == to + a && k.0 - to + from == from + a == k.0 - (to + a) + (from + a); }
    }
  }

  /** An absent source row adds nothing. */
  lemma CopiedNothing(m: Memory, from: int, to: int, a: int)
    requires 0 <= from && DIRS_PER_TASK <= to && 0 <= a && from + a < TABLE_SIZE && to + a < TABLE_SIZE
    requires !Dir(m, from + a).present
    ensures Copied(m, from, to, a + 1, 0) == Copied(m, from, to, a, 0)
  {
    var n := Copied(m, from, to, a + 1, 0);
    forall k | k in n ensures k.0 != to + a { assert k.0 == to + a ==> k.0 - to + from == from + a; }
    assert n.Keys == Copied(m, from, to, a, 0).Keys;
  }

  /** Every page maps the frame it mapped before. */
  ghost predicate SamePages(m: Memory, m': Memory) {
    && |m| == |m'|
    && (forall d :: DIRS_PER_TASK <= d < TABLE_SIZE ==>
           Dir(m', d) == Dir(m, d) || !(Dir(m', d).present || Dir(m, d).present))
    && (forall d, i :: DIRS_PER_TASK <= d < TABLE_SIZE && 0 <= i < TABLE_SIZE ==>
          Ent(m', d, i).present == Ent(m, d, i).present
          && (Ent(m, d, i).present ==> Ent(m', d, i).frame == Ent(m, d, i).frame))
  }

  /** mem_map is a function of who uses what: equal users, equal counts. */
  lemma CountsDetermined(p: Phys, q: Phys, kernel: set<int>)
    requires Counts(p, kernel) && Counts(q, kernel) && LOW < p.main == q.main
    requires SamePages(p.mem, q.mem)
    ensures p.count == q.count
  {
    assert Tables(p.mem) == Tables(q.mem);
    forall k | 0 <= k < PAGING_PAGES ensures p.count[k] == q.count[k] {
      if p.main <= k + LOW < |p.mem| {
        assert p.count[k + LOW - LOW] == Owners(p.mem, kernel, k + LOW);
        assert q.count[k + LOW - LOW] == Owners(q.mem, kernel, k + LOW);
        assert Refs(p.mem, k + LOW) == Refs(q.mem, k + LOW);
      }
    }
  }

  /** A copy into an unused range, torn down again, leaves every page as it was. */
  lemma UndoneCopy(m: Memory, m1: Memory, m2: Memory, to: int, n: int)
    requires DIRS_PER_TASK <= to && 0 <= n && to + n <= TABLE_SIZE
    requires SameFrames(m, m1, to, n) && SameOutside(m1, m2, to, to + n)
    requires forall d :: to <= d < to + n ==> !Dir(m, d).present && !Dir(m2, d).present
    ensures SamePages(m, m2)
  {
    forall d, i | DIRS_PER_TASK <= d < TABLE_SIZE && 0 <= i < TABLE_SIZE
      ensures Ent(m2, d, i).present == Ent(m, d, i).present
              && (Ent(m, d, i).present ==> Ent(m2, d, i).frame == Ent(m, d, i).frame)
    {
      if to <= d < to + n {
        assert !Dir(m, d).present && !Dir(m2, d).present;
      } else {
        assert Ent(m2, d, i) == Ent(m1, d, i);
      }
    }
  }

  lemma SeenBy(m: Memory, d: int, i: int)
    requires InPages(d, i)
    ensures (d, i) in View(m) <==> Ent(m, d, i).present
    ensures Ent(m, d, i).present ==> View(m)[(d, i)] == See(m, Ent(m, d, i))
  {
    assert (d, i) in Grid();
  }

  /** Directory entries change only at d, and no page but (d,i) appears or goes. */
  ghost predicate OnlyAt(m: Memory, m': Memory, d: int, i: int) {
    && |m'| == |m|
    && (forall e :: 0 <= e < TABLE_SIZE && e != d ==> Dir(m', e) == Dir(m, e))
    && (forall k :: k != (d, i) ==> (k in View(m') <==> k in View(m)))
  }

  lemma SameOutsideTwice(m: Memory, m1: Memory, m2: Memory, from: int, mid: int, to: int)
    requires SameOutside(m, m1, from, mid) && SameOutside(m1, m2, from, to) && mid <= to
    ensures SameOutside(m, m2, from, to)
  {
    hide Dir, Ent;
  }

  /** The spaces once task page (d,i) is the task's own. */
  ghost function Owned(m: Memory, w: Word, s: Spaces, d: int, i: int): Spaces
    requires w.frame < |m|
  {
    s[(d, i) := Private(m[w.frame])]
  }

  lemma WritableIsPrivate(p: Phys, kernel: set<int>, d: int, i: int)
    requires Inv(p, kernel) && InPages(d, i)
    ensures Ent(p.mem, d, i).present ==> Ent(p.mem, d, i).frame < |p.mem|
    ensures Ent(p.mem, d, i).present && Ent(p.mem, d, i).rw ==>
        Owned(p.mem, Ent(p.mem, d, i), View(p.mem), d, i) == View(p.mem)
  {
    assert (d, i) in Grid();
  }

  /** The windows a child of task 0 gets: its first 160 pages of low memory. */
  ghost function LowPages(m: Memory, to: int): Spaces {
    map k | k in Grid() && k.0 == to && k.1 < LOW_COPY && Ent(m, 0, k.1).present :: Window(Ent(m, 0, k.1).frame)
  }

  lemma CopiedFromLow(m: Memory, m': Memory, to: int)
    requires DIRS_PER_TASK <= to < TABLE_SIZE
    requires forall i :: 0 <= i < LOW_COPY ==>
        Ent(m', 0, i) == Ent(m, 0, i) && (Ent(m, 0, i).present ==> Ent(m, 0, i).frame < LOW)
    ensures Copied(m', 0, to, 1, 0) == LowPages(m, to)
  {
    hide Ent;
    var c := Copied(m', 0, to, 1, 0);
    var l := LowPages(m, to);
    forall k ensures k in c <==> k in l { if k.0 == to { assert k.0 - to == 0; } }
    assert c.Keys == l.Keys;
    forall k | k in c ensures c[k] == l[k] { assert k.0 - to == 0; }
  }
}
