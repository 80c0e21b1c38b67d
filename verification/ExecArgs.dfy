/** fs/exec.c: the argument image of a new program.  copy_strings writes it from
    the top down into at most 32 pages; create_tables walks it from the bottom up. */
module ExecArgs {
  const PAGE_SIZE: int := 4096
  const MAX_ARG_PAGES: int := 32
  const TOP: int := PAGE_SIZE * MAX_ARG_PAGES - 4
  const DATA_LIMIT: int := 0x4000000
  const WORD: int := 0x1_0000_0000
  /** Where the argument image starts in the new program. */
  const BASE: int := DATA_LIMIT - MAX_ARG_PAGES * PAGE_SIZE

  /** A C string without its terminating zero. */
  ghost predicate IsString(s: seq<nat>) { forall i :: 0 <= i < |s| ==> 0 < s[i] < 256 }

  ghost predicate Strings(ss: seq<seq<nat>>) { forall i :: 0 <= i < |ss| ==> IsString(ss[i]) }

  /** The strings one after the other, each with its zero. */
  function Flat(ss: seq<seq<nat>>): seq<nat>
    decreases |ss|
  { if ss == [] then [] else ss[0] + [0] + Flat(ss[1..]) }

  lemma {:induction false} FlatConcat(a: seq<seq<nat>>, b: seq<seq<nat>>)
    ensures Flat(a + b) == Flat(a) + Flat(b)
    decreases |a|
  {
    if a == [] {
      assert a + b == b;
    } else {
      assert (a + b)[1..] == a[1..] + b;
      FlatConcat(a[1..], b);
    }
  }

  /** Where string k starts. */
  function Offset(ss: seq<seq<nat>>, k: nat): nat
    requires k <= |ss|
  { |Flat(ss[..k])| }

  lemma OffsetNext(ss: seq<seq<nat>>, k: nat)
    requires k < |ss|
    ensures Offset(ss, k + 1) == Offset(ss, k) + |ss[k]| + 1 <= |Flat(ss)|
    ensures Flat(ss)[Offset(ss, k)..Offset(ss, k + 1)] == ss[k] + [0]
  {
    assert ss[..k + 1] == ss[..k] + [ss[k]] && ss == ss[..k + 1] + ss[k + 1..];
    FlatConcat(ss[..k], [ss[k]]);
    FlatConcat(ss[..k + 1], ss[k + 1..]);
    assert Flat([ss[k]]) == ss[k] + [0];
    var a, b := Flat(ss[..k]), Flat(ss[k + 1..]);
    assert Flat(ss) == a + (ss[k] + [0]) + b;
  }

  lemma OffsetEnd(ss: seq<seq<nat>>)
    ensures Offset(ss, |ss|) == |Flat(ss)| && Offset(ss, 0) == 0
  {
    assert ss[..|ss|] == ss;
  }

  /** A page, or [] for none. */
  predicate IsPage(p: seq<nat>) { p == [] || |p| == PAGE_SIZE }

  ghost predicate Pages(page: seq<seq<nat>>) {
    |page| == MAX_ARG_PAGES && forall i :: 0 <= i < MAX_ARG_PAGES ==> IsPage(page[i])
  }

  /** The byte at address a of the image; what has no page reads as zero. */
  function ByteAt(page: seq<seq<nat>>, a: int): nat {
    if 0 <= a / PAGE_SIZE < |page|
       && 0 <= a % PAGE_SIZE < |page[a / PAGE_SIZE]| then page[a / PAGE_SIZE][a % PAGE_SIZE] else 0
  }

  function Present(page: seq<seq<nat>>): nat
    decreases |page|
  { if page == [] then 0 else (if page[0] == [] then 0 else 1) + Present(page[1..]) }

  lemma {:induction false} PresentUpdate(page: seq<seq<nat>>, i: nat, p: seq<nat>)
    requires i < |page|
    ensures Present(page[i := p]) == Present(page) - (if page[i] == [] then 0 else 1) + (if p == [] then 0 else 1)
    ensures Present(page) <= |page| && (page[i] == [] ==> Present(page) < |page|)
    decreases |page|
  {
    PresentBound(page[1..]);
    if i == 0 {
      assert page[i := p][1..] == page[1..];
    } else {
      assert page[i := p][1..] == page[1..][i - 1 := p];
      PresentUpdate(page[1..], i - 1, p);
    }
  }

  lemma {:induction false} PresentBound(page: seq<seq<nat>>)
    ensures Present(page) <= |page|
    decreases |page|
  {
    if page != [] { PresentBound(page[1..]); }
  }

  predicate Backed(page: seq<seq<nat>>, a: int) { 0 <= a / PAGE_SIZE < |page| && page[a / PAGE_SIZE] != [] }

  /** From a on lies the text, all of it on real pages. */
  ghost predicate Holds(page: seq<seq<nat>>, a: int, text: seq<nat>) {
    forall i :: 0 <= i < |text| ==> ByteAt(page, a + i) == text[i] && Backed(page, a + i)
  }

  ghost predicate StaysBacked(page: seq<seq<nat>>, page': seq<seq<nat>>) {
    forall a :: Backed(page, a) ==> Backed(page', a)
  }

  lemma StaysSame(page: seq<seq<nat>>)
    ensures StaysBacked(page, page)
  { }

  lemma StaysOn(page: seq<seq<nat>>, page': seq<seq<nat>>, page'': seq<seq<nat>>)
    requires StaysBacked(page, page') && StaysBacked(page', page'')
    ensures StaysBacked(page, page'')
  {
    forall a | Backed(page, a) ensures Backed(page'', a) { assert Backed(page', a); }
  }

  /** Bytes outside a to b are the same. */
  ghost predicate Elsewhere(page: seq<seq<nat>>, page': seq<seq<nat>>, a: int, b: int) {
    forall i :: 0 <= i < MAX_ARG_PAGES * PAGE_SIZE && !(a <= i < b) ==> ByteAt(page', i) == ByteAt(page, i)
  }

  /** One store into the image, on a fresh page where there was none. */
  function Stored(page: seq<seq<nat>>, a: int, v: nat): seq<seq<nat>>
    requires Pages(page) && 0 <= a < MAX_ARG_PAGES * PAGE_SIZE
  {
    var n := a / PAGE_SIZE;
    var old_ := if page[n] == [] then seq(PAGE_SIZE, _ => 0) else page[n];
    page[n := old_[..a % PAGE_SIZE] + [v] + old_[a % PAGE_SIZE + 1..]]
  }

  lemma StoredBytes(page: seq<seq<nat>>, a: int, v: nat)
    requires Pages(page) && 0 <= a < MAX_ARG_PAGES * PAGE_SIZE
    ensures Pages(Stored(page, a, v)) && ByteAt(Stored(page, a, v), a) == v
    ensures forall i :: 0 <= i < MAX_ARG_PAGES * PAGE_SIZE && i != a ==>
        ByteAt(Stored(page, a, v), i) == ByteAt(page, i)
    ensures Stored(page, a, v)[a / PAGE_SIZE] != []
  {
    forall i | 0 <= i < MAX_ARG_PAGES * PAGE_SIZE && i != a ensures ByteAt(Stored(page, a, v), i) == ByteAt(page, i) {
      if i / PAGE_SIZE == a / PAGE_SIZE { SameQuotient(i, a); }
    }
  }

  lemma SameQuotient(i: int, a: int)
    requires i / PAGE_SIZE == a / PAGE_SIZE && i != a
    ensures i % PAGE_SIZE != a % PAGE_SIZE
  { }

  /** Backing a page with zeroes changes no byte. */
  lemma BackedBytes(page: seq<seq<nat>>, n: nat)
    requires Pages(page) && n < MAX_ARG_PAGES && page[n] == []
    ensures var page' := page[n := seq(PAGE_SIZE, _ => 0)];
      && Pages(page') && Present(page') == Present(page) + 1
      && forall i :: 0 <= i < MAX_ARG_PAGES * PAGE_SIZE ==> ByteAt(page', i) == ByteAt(page, i)
  {
    PresentUpdate(page, n, seq(PAGE_SIZE, _ => 0));
  }

  /** The text with k bytes still to copy lies at p; nothing else changed. */
  ghost predicate CopiedFrom(page0: seq<seq<nat>>, page: seq<seq<nat>>, text: seq<nat>, k: nat, p: int) {
    && k <= |text| && 0 <= p && p + (|text| - k) <= TOP
    && Holds(page, p, text[k..]) && Elsewhere(page0, page, p, p + (|text| - k))
  }

  lemma CopiedOne(page0: seq<seq<nat>>, page: seq<seq<nat>>, text: seq<nat>, k: nat, p: int, page': seq<seq<nat>>)
    requires CopiedFrom(page0, page, text, k, p) && 0 < k && 0 < p && Pages(page)
    requires ByteAt(page', p - 1) == text[k - 1] && Backed(page', p - 1) && StaysBacked(page, page')
    requires forall i :: 0 <= i < MAX_ARG_PAGES * PAGE_SIZE && i != p - 1 ==> ByteAt(page', i) == ByteAt(page, i)
    ensures CopiedFrom(page0, page', text, k - 1, p - 1)
  {
    hide ByteAt, Backed, Pages;
    var more, rest := text[k - 1..], text[k..];
    forall i | 0 <= i < |more| ensures ByteAt(page', p - 1 + i) == more[i] && Backed(page', p - 1 + i) {
      if i > 0 {
        assert more[i] == rest[i - 1] == ByteAt(page, p + (i - 1)) && Backed(page, p + (i - 1));
        assert ByteAt(page', p - 1 + i) == ByteAt(page, p - 1 + i);
        assert Backed(page', p - 1 + i);
      }
    }
    forall i | 0 <= i < MAX_ARG_PAGES * PAGE_SIZE && !(p - 1 <= i < p - 1 + |more|)
      ensures ByteAt(page', i) == ByteAt(page0, i)
    {
      assert ByteAt(page', i) == ByteAt(page, i) == ByteAt(page0, i);
    }
  }

  /** Where the last byte went: pag is its page; 0 also before the first byte. */
  ghost predicate At(page: seq<seq<nat>>, offset: nat, pag: nat, p: nat) {
    && |page| == MAX_ARG_PAGES && pag < MAX_ARG_PAGES
    && (offset == 0 || (offset == p % PAGE_SIZE && pag == p / PAGE_SIZE && page[pag] != []))
  }

  /** The next byte goes just below: the same page, unless that one is used up. */
  lemma StepDown(page: seq<seq<nat>>, offset: nat, pag: nat, r: nat)
    requires At(page, offset, pag, r) && r <= TOP
    ensures r == 0 ==> offset == 0 && Down(r, 1) / PAGE_SIZE >= MAX_ARG_PAGES
    ensures r > 0 ==> Down(r, 1) == r - 1 && (r - 1) / PAGE_SIZE < MAX_ARG_PAGES
    ensures offset > 0 ==> offset - 1 == Down(r, 1) % PAGE_SIZE && pag == Down(r, 1) / PAGE_SIZE
  {
    if r > 0 { Below(r - 1); }
  }

  /* ---- the room for the strings ---- */

  /** The unsigned word p, n bytes further down. */
  function Down(p: nat, n: nat): nat { (p - n) % WORD }

  /** The test for room in copy_strings, p-len < 0 on unsigned words. */
  predicate Refuses(p: nat, len: nat) { Down(p, len) < 0 }

  /** Byte n of a copy from p downwards goes to a page of the table. */
  predicate Inside(p: nat, n: nat) { Down(p, n) / PAGE_SIZE < MAX_ARG_PAGES }

  /** That test never refuses, so the copy stays on the 32 pages exactly when the
      strings fit below p. */
  lemma StaysInside(p: nat, len: nat)
    requires p <= TOP
    ensures !Refuses(p, len)
    ensures (forall n :: 1 <= n <= len ==> Inside(p, n)) <==> len <= p
  {
    forall n | 1 <= n <= len && n <= p ensures Inside(p, n) { Below(p - n); }
    if len > p { assert !Inside(p, p + 1) by { assert Down(p, p + 1) == WORD - 1; } }
  }

  lemma Below(a: nat)
    requires a <= TOP
    ensures a % WORD == a && a / PAGE_SIZE < MAX_ARG_PAGES
  { }

  /** One argument of 131068 letters: its first byte would go to page 1048575. */
  lemma Oversized()
    ensures var s := seq(TOP, _ => 97);
        IsString(s) && |Flat([s])| == TOP + 1 && Down(TOP, TOP + 1) / PAGE_SIZE == 0xfffff
  {
    var s := seq(TOP, _ => 97);
    assert Flat([s]) == s + [0] + Flat([s][1..]);
  }

  /** How the file starts: a program, or a #! line with the interpreter's base name,
      at most one argument for it, and the script's own file name. */
  datatype Script = Plain | Bang(name: seq<nat>, arg: seq<seq<nat>>, file: seq<nat>)

  ghost predicate Proper(script: Script) { script.Bang? ==> |script.arg| <= 1 }

  /** The arguments the new program ought to get. */
  function Args(argv: seq<seq<nat>>, script: Script): seq<seq<nat>> {
    if script.Plain? then argv else [script.name] + script.arg + [script.file] + if |argv| > 0 then argv[1..] else []
  }

  /** The count that do_execve keeps of them. */
  function Argc(argv: seq<seq<nat>>, script: Script): int {
    if script.Plain? then |argv| else |argv| - 1 + 2 + if script.arg == [] then 0 else 1
  }

  lemma CopiedBoth(page0: seq<seq<nat>>, page1: seq<seq<nat>>, page: seq<seq<nat>>, a: seq<nat>, b: seq<nat>, r: int,
                   p: int)
    requires CopiedFrom(page0, page1, b, 0, p) && CopiedFrom(page1, page, a, 0, r) && p == r + |a|
             && StaysBacked(page1, page)
    ensures CopiedFrom(page0, page, a + b, 0, r)
  {
    var text := a + b;
    forall i | 0 <= i < |text| ensures ByteAt(page, r + i) == text[i] && Backed(page, r + i) {
      if i < |a| {
        assert a[0..][i] == a[i];
      } else {
        assert b[0..][i - |a|] == b[i - |a|];
        assert ByteAt(page1, p + (i - |a|)) == b[i - |a|] && Backed(page1, p + (i - |a|));
      }
    }
    assert text[0..] == text;
  }

  class ArgPages {
    var page: seq<seq<nat>>
    /** Free page frames left in the machine. */
    var free: nat

    ghost predicate Valid() reads this { Pages(page) }

    constructor (frames: nat)
      ensures Valid() && free == frames && page == seq(MAX_ARG_PAGES, _ => [])
    {
      page := seq(MAX_ARG_PAGES, _ => []);
      free := frames;
    }

    /** page[n], allocated if need be. */
    method PageFor(n: nat) returns (ok: bool)
      requires Valid() && n < MAX_ARG_PAGES
      modifies this
      ensures Valid() && free + Present(page) == old(free) + Present(old(page))
      ensures forall i :: 0 <= i < MAX_ARG_PAGES * PAGE_SIZE ==> ByteAt(page, i) == ByteAt(old(page), i)
      ensures StaysBacked(old(page), page)
      ensures |page| == MAX_ARG_PAGES
              && if ok then page[n] != [] else old(free) == 0 && old(page)[n] == [] && page == old(page)
    {
      if page[n] == [] {
        if free == 0 { return false; }
        BackedBytes(page, n);
        free := free - 1;
        page := page[n := seq(PAGE_SIZE, _ => 0)];
      }
      return true;
    }

    method Store(n: nat, offset: nat, v: nat, ghost a: int)
      requires Valid() && n < MAX_ARG_PAGES && offset < PAGE_SIZE && page[n] != [] && a == n * PAGE_SIZE + offset
      modifies `page
      ensures StaysBacked(old(page), page) && Backed(page, a)
      ensures Valid() && |page| == MAX_ARG_PAGES && page[n] != [] && Present(page) == Present(old(page))
              && ByteAt(page, a) == v
      ensures forall i :: 0 <= i < MAX_ARG_PAGES * PAGE_SIZE && i != a ==> ByteAt(page, i) == ByteAt(old(page), i)
    {
      assert a / PAGE_SIZE == n && a % PAGE_SIZE == offset;
      StoredBytes(page, a, v);
      PresentUpdate(page, n, page[n][..offset] + [v] + page[n][offset + 1..]);
      page := page[n := page[n][..offset] + [v] + page[n][offset + 1..]];
    }

    /** The inner loops of copy_strings: one string and its zero, from the last
        byte to the first.  It ends early where no page can be had, or where p has
        run below zero and the store would leave the page table (wild). */
    method CopyString(s: seq<nat>, p: nat, offset: nat, pag: nat, ghost page0: seq<seq<nat>>, ghost text: seq<nat>,
                      ghost k: nat)
      returns (ok: bool, wild: bool, r: nat, offset': nat, pag': nat)
      requires Valid() && Pages(page0) && p <= TOP && At(page, offset, pag, p)
      requires k + |s| + 1 <= |text| && text[k..k + |s| + 1] == s + [0] && CopiedFrom(page0, page, text, k + |s| + 1, p)
      modifies this
      ensures Valid() && free + Present(page) == old(free) + Present(old(page))
      ensures ok ==>
          !wild && p >= |s| + 1 && r == p - (|s| + 1) && At(page, offset', pag', r)
          && CopiedFrom(page0, page, text, k, r)
      ensures wild ==> p < |s| + 1
      ensures !ok && !wild ==> free == 0
      ensures StaysBacked(old(page), page)
    {
      hide Down, CopiedFrom, Pages, ByteAt, Present, Backed, StaysBacked;
      var len := |s| + 1;
      StaysSame(page);
      r, offset', pag' := p, offset, pag;
      while len > 0
        invariant 0 <= len <= |s| + 1 && p >= |s| + 1 - len && r == p - (|s| + 1 - len)
        invariant StaysBacked(old(page), page) && Valid() && free + Present(page) == old(free) + Present(old(page))
        invariant At(page, offset', pag', r) && CopiedFrom(page0, page, text, k + len, r)
      {
        ghost var before := page;
        StaysSame(page);
        var at := offset' - 1;
        StepDown(page, offset', pag', r);
        r := Down(r, 1);
        len := len - 1;
        if at < 0 {
          at := r % PAGE_SIZE;
          pag' := r / PAGE_SIZE;
          if pag' >= MAX_ARG_PAGES { return false, true, r, 0, 0; }
          var got := PageFor(pag');
          if !got {
            StaysOn(old(page), before, page);
            return false, false, r, 0, pag';
          }
        }
        ghost var middle := page;
        Store(pag', at, if len < |s| then s[len] else 0, r);
        StaysOn(before, middle, page);
        StaysOn(old(page), before, page);
        assert text[k + len] == text[k..k + |s| + 1][len];
        CopiedOne(page0, before, text, k + len + 1, r + 1, page);
        offset' := at;
      }
      return true, false, r, offset', pag';
    }

    /** copy_strings: 0 when there is no memory; wild when the strings do not fit
        below p, which its own test does not notice.  argc counts the strings; it
        may be -1. */
    method CopyStrings(argc: int, argv: seq<seq<nat>>, p: nat) returns (r: nat, wild: bool)
      requires Valid() && argc <= |argv| && p <= TOP
      modifies this
      ensures Valid() && free + Present(page) == old(free) + Present(old(page))
      ensures wild ==> 0 < p < |Flat(Taken(argv, argc))|
      ensures |Flat(Taken(argv, argc))| > p > 0 && !wild ==> r == 0 && free == 0
      ensures !wild && r > 0 ==>
          p > 0 && r == p - |Flat(Taken(argv, argc))| && CopiedFrom(old(page), page, Flat(Taken(argv, argc)), 0, r)
      ensures !wild && r == 0 ==> p == 0 || |Flat(Taken(argv, argc))| == p || free == 0
      ensures StaysBacked(old(page), page) && (p == 0 ==> r == 0 && free == old(free))
    {
      hide CopiedFrom, Pages, ByteAt, Present, Offset;
      wild := false;
      if p == 0 { return 0, false; }
      r := p;
      ghost var ss := Taken(argv, argc);
      ghost var text := Flat(ss);
      OffsetEnd(ss);
      StartCopy(page, text, p);
      AtStart(page, p);
      var k := argc;
      var offset, pag := 0, 0;
      while k > 0
        invariant Valid() && k <= argc && (k >= 0 || argc < 0) && free + Present(page) == old(free) + Present(old(page))
        invariant var j := if k > 0 then k else 0;
          j <= |ss| && Offset(ss, j) <= |text| && r == p - (|text| - Offset(ss, j))
          && CopiedFrom(old(page), page, text, Offset(ss, j), r)
        invariant At(page, offset, pag, r) && StaysBacked(old(page), page) && !wild
      {
        k := k - 1;
        OffsetNext(ss, k);
        var ok;
        ok, wild, r, offset, pag := CopyString(argv[k], r, offset, pag, old(page), text, Offset(ss, k));
        if !ok { return 0, wild; }
      }
    }

    /** The argument copies of do_execve: environment, arguments and, for a script,
        the spliced-in strings; p is 0 on failure. */
    method CopyArgs(argv: seq<seq<nat>>, envp: seq<seq<nat>>, script: Script) returns (p: nat, argc: int, wild: bool)
      requires Valid() && page == seq(MAX_ARG_PAGES, _ => [])
      modifies this
      ensures Valid() && free + Present(page) == old(free)
      ensures wild ==> |Flat(Args(argv, script) + envp)| > TOP
      ensures !wild ==> argc == Argc(argv, script)
      ensures !wild && p > 0 ==>
          CopiedFrom(old(page), page, Flat(Args(argv, script) + envp), 0, p)
          && p == TOP - |Flat(Args(argv, script) + envp)|
      ensures !wild && p == 0 ==> |Flat(Args(argv, script) + envp)| >= TOP || free == 0
    {
      hide CopiedFrom, Pages, ByteAt, Present, Flat;
      ghost var page0 := page;
      NoPages(page);
      AllArgs(argv, envp, script);
      TakenAll(envp);
      TakenAll(argv);
      TakenAll(argv[if |argv| > 0 then 1 else 0..]);
      if script.Bang? {
        TakenAll([script.file]);
        TakenAll([script.name]);
        TakenAll(script.arg);
      }
      argc := |argv|;
      ghost var done := envp;
      p, wild := CopyStrings(|envp|, envp, TOP);
      if wild { return; }
      if script.Plain? {
        p, wild := Prepend(argc, argv, p, argv, done, page0);
        return;
      }
      argc := argc - 1;
      ghost var rest := if |argv| > 0 then argv[1..] else [];
      p, wild := Prepend(argc, if |argv| > 0 then argv[1..] else [], p, rest, done, page0);
      if wild { return; }
      done := rest + done;
      p, wild := Prepend(1, [script.file], p, [script.file], done, page0);
      if wild { return; }
      argc := argc + 1;
      done := [script.file] + done;
      assert script.arg == [] ==> script.arg + done == done;
      if script.arg != [] {
        p, wild := Prepend(|script.arg|, script.arg, p, script.arg, done, page0);
        if wild { return; }
        argc := argc + 1;
        done := script.arg + done;
      }
      p, wild := Prepend(1, [script.name], p, [script.name], done, page0);
      argc := argc + 1;
    }

    /** Further strings in front of those done. */
    method Prepend(argc: int, argv: seq<seq<nat>>, p: nat, ghost new_: seq<seq<nat>>, ghost done: seq<seq<nat>>,
                   ghost page0: seq<seq<nat>>)
      returns (r: nat, wild: bool)
      requires Valid() && argc <= |argv| && Taken(argv, argc) == new_
      requires p > 0 ==> CopiedFrom(page0, page, Flat(done), 0, p) && p == TOP - |Flat(done)|
      requires p == 0 ==> |Flat(done)| >= TOP || free == 0
      modifies this
      ensures Valid() && free + Present(page) == old(free) + Present(old(page))
      ensures wild ==> |Flat(new_ + done)| > TOP
      ensures !wild && r > 0 ==> CopiedFrom(page0, page, Flat(new_ + done), 0, r) && r == TOP - |Flat(new_ + done)|
      ensures !wild && r == 0 ==> |Flat(new_ + done)| >= TOP || free == 0
    {
      hide CopiedFrom, Pages, ByteAt, Present, Flat;
      FlatConcat(new_, done);
      r, wild := CopyStrings(argc, argv, p);
      if !wild && r > 0 { CopiedBoth(page0, old(page), page, Flat(new_), Flat(done), r, p); }
    }

    /** change_ldt: the pages go to the top of the data segment. */
    method ChangeLdt(mem: array<nat>)
      requires Valid() && mem.Length == DATA_LIMIT
      modifies mem
      ensures forall a :: 0 <= a < MAX_ARG_PAGES * PAGE_SIZE && Backed(page, a) ==> mem[BASE + a] == ByteAt(page, a)
    {
      var i := MAX_ARG_PAGES - 1;
      var base := DATA_LIMIT;
      while i >= 0
        invariant -1 <= i < MAX_ARG_PAGES && base == DATA_LIMIT - (MAX_ARG_PAGES - 1 - i) * PAGE_SIZE
        invariant forall a :: (i + 1) * PAGE_SIZE <= a < MAX_ARG_PAGES * PAGE_SIZE && Backed(page, a) ==>
            mem[BASE + a] == ByteAt(page, a)
      {
        base := base - PAGE_SIZE;
        if page[i] != [] { PutPage(mem, page[i], base); }
        ThisPage(page, i, mem[..], base);
        i := i - 1;
      }
    }

    /** put_page: the frame becomes these 4096 bytes of the program. */
    method PutPage(mem: array<nat>, frame: seq<nat>, base: int)
      requires |frame| == PAGE_SIZE && 0 <= base && base + PAGE_SIZE <= mem.Length
      modifies mem
      ensures mem[base..base + PAGE_SIZE] == frame
      ensures forall j :: 0 <= j < mem.Length && !(base <= j < base + PAGE_SIZE) ==> mem[j] == old(mem[j])
    {
      var k := 0;
      while k < PAGE_SIZE
        invariant 0 <= k <= PAGE_SIZE && mem[base..base + k] == frame[..k]
        invariant forall j :: 0 <= j < mem.Length && !(base <= j < base + PAGE_SIZE) ==> mem[j] == old(mem[j])
      {
        mem[base + k] := frame[k];
        k := k + 1;
      }
    }

    /** exec_error1: the pages are given back. */
    method FreePages()
      requires Valid()
      modifies this
      ensures Valid() && Present(page) == 0 && free == old(free) + Present(old(page))
    {
      var i := 0;
      while i < MAX_ARG_PAGES
        invariant 0 <= i <= MAX_ARG_PAGES && Valid() && free + Present(page) == old(free) + Present(old(page))
        invariant forall j :: 0 <= j < i ==> page[j] == []
      {
        PresentUpdate(page, i, []);
        if page[i] != [] { free := free + 1; }
        page := page[i := []];
        i := i + 1;
      }
      EmptyPages(page);
    }

    /** do_execve, as far as the arguments go: the new stack pointer, or 0 with every
        page given back.  Strings that fit, with a byte to spare and enough memory,
        always get there; only strings that do not fit end in a wild store. */
    method Exec(argv: seq<seq<nat>>, envp: seq<seq<nat>>, script: Script, mem: array<nat>)
      returns (sp: nat, wild: bool, ghost p: nat)
      requires Valid() && page == seq(MAX_ARG_PAGES, _ => []) && mem.Length == DATA_LIMIT && Proper(script)
      requires Strings(Args(argv, script) + envp)
      modifies this, mem
      ensures wild ==> sp == 0 && |Flat(Args(argv, script) + envp)| > TOP
      ensures sp == 0 && !wild ==>
          free == old(free) && (|Flat(Args(argv, script) + envp)| >= TOP || old(free) <= MAX_ARG_PAGES)
      ensures sp > 0 ==>
        && p == BASE + TOP - |Flat(Args(argv, script) + envp)| && 0 <= Argc(argv, script)
        && TextAt(mem[..], p, Flat(Args(argv, script) + envp))
           && Image(mem[..], sp, Argc(argv, script), |envp|, Args(argv, script) + envp, p)
    {
      var q, argc;
      q, argc, wild := CopyArgs(argv, envp, script);
      PresentBound(page);
      if wild { return 0, true, 0; }
      if q == 0 {
        FreePages();
        return 0, false, 0;
      }
      ChangeLdt(mem);
      TextMapped(old(page), page, Flat(Args(argv, script) + envp), q, mem[..]);
      ArgcFits(argv, script, envp);
      sp := CreateTables(mem, q + DATA_LIMIT - MAX_ARG_PAGES * PAGE_SIZE, argc, |envp|, Args(argv, script) + envp);
      p := q + DATA_LIMIT - MAX_ARG_PAGES * PAGE_SIZE;
    }
  }

  /** The strings that a count of n names. */
  function Taken(ss: seq<seq<nat>>, n: int): seq<seq<nat>>
    requires n <= |ss|
  { if n > 0 then ss[..n] else [] }

  lemma StartCopy(page: seq<seq<nat>>, text: seq<nat>, p: nat)
    requires p <= TOP
    ensures CopiedFrom(page, page, text, |text|, p)
  { }

  lemma AtStart(page: seq<seq<nat>>, p: nat)
    requires Pages(page)
    ensures At(page, 0, 0, p)
  { }

  function GetLong(mem: seq<nat>, a: int): nat
    requires 0 <= a && a + 4 <= |mem|
  { mem[a] + 0x100 * mem[a + 1] + 0x10000 * mem[a + 2] + 0x1000000 * mem[a + 3] }

  /** put_fs_long on bytes, least significant first. */
  function PutLong(mem: seq<nat>, a: int, v: nat): seq<nat>
    requires 0 <= a && a + 4 <= |mem|
  { mem[..a] + [v % 0x100, v / 0x100 % 0x100, v / 0x10000 % 0x100, v / 0x1000000 % 0x100] + mem[a + 4..] }

  lemma PutGet(mem: seq<nat>, a: int, v: nat, b: int)
    requires 0 <= a && a + 4 <= |mem| && 0 <= b && b + 4 <= |mem| && v < 0x1_0000_0000
    ensures a == b ==> GetLong(PutLong(mem, a, v), b) == v
    ensures b + 4 <= a || a + 4 <= b ==> GetLong(PutLong(mem, a, v), b) == GetLong(mem, b)
    ensures |PutLong(mem, a, v)| == |mem| && forall i :: 0 <= i < |mem| && !(a <= i < a + 4) ==>
        PutLong(mem, a, v)[i] == mem[i]
  {
    Digits(v);
  }

  lemma Digits(v: nat)
    requires v < 0x1_0000_0000
    ensures v
            == v % 0x100 + 0x100 * (v / 0x100 % 0x100) + 0x10000 * (v / 0x10000 % 0x100)
               + 0x1000000 * (v / 0x1000000 % 0x100)
  {
    assert v / 0x100 / 0x100 == v / 0x10000 && v / 0x10000 / 0x100 == v / 0x1000000;
  }

  /** Word k of the table at a. */
  ghost function Entry(mem: seq<nat>, a: int, k: int): nat
    requires 0 <= a + 4 * k && a + 4 * k + 4 <= |mem|
  { GetLong(mem, a + 4 * k) }

  /** n pointers to the strings i, i+1, ... that lie from p on. */
  ghost predicate Points(mem: seq<nat>, a: int, n: nat, ss: seq<seq<nat>>, i: nat, p: nat) {
    && 0 <= a && a + 4 * n <= |mem| && i + n <= |ss|
    && forall k :: 0 <= k < n ==> Entry(mem, a, k) == p + Offset(ss, i + k)
  }

  /** A pointer table and its zero. */
  ghost predicate Table(mem: seq<nat>, a: int, n: nat, ss: seq<seq<nat>>, i: nat, p: nat) {
    Points(mem, a, n, ss, i, p) && a + 4 * n + 4 <= |mem| && GetLong(mem, a + 4 * n) == 0
  }

  lemma PointsPut(mem: seq<nat>, a: int, n: nat, ss: seq<seq<nat>>, i: nat, p: nat, at: int, v: nat)
    requires Points(mem, a, n, ss, i, p) && 0 <= at && at + 4 <= |mem| && v < 0x1_0000_0000
             && (at + 4 <= a || a + 4 * n <= at)
    ensures Points(PutLong(mem, at, v), a, n, ss, i, p)
    ensures at == a + 4 * n && i + n < |ss| && v == p + Offset(ss, i + n) ==>
        Points(PutLong(mem, at, v), a, n + 1, ss, i, p)
  {
    var mem' := PutLong(mem, at, v);
    PutGet(mem, at, v, at);
    forall k | 0 <= k < n ensures Entry(mem', a, k) == Entry(mem, a, k) { PutGet(mem, at, v, a + 4 * k); }
    hide PutLong, GetLong;
  }

  ghost predicate TextAt(mem: seq<nat>, p: int, text: seq<nat>) {
    0 <= p && p + |text| <= |mem| && mem[p..p + |text|] == text
  }

  lemma TextPut(mem: seq<nat>, p: int, text: seq<nat>, at: int, v: nat)
    requires TextAt(mem, p, text) && 0 <= at && at + 4 <= p && v < 0x1_0000_0000
    ensures TextAt(PutLong(mem, at, v), p, text)
  {
    PutGet(mem, at, v, at);
    var now, was := PutLong(mem, at, v)[p..p + |text|], mem[p..p + |text|];
    assert forall i :: 0 <= i < |text| ==> now[i] == was[i];
  }

  /** Byte j of string k, or its zero. */
  lemma StringByte(mem: seq<nat>, p: int, ss: seq<seq<nat>>, k: nat, j: nat)
    requires TextAt(mem, p, Flat(ss)) && k < |ss| && j <= |ss[k]|
    ensures Offset(ss, k) + |ss[k]| < |Flat(ss)|
    ensures mem[p + Offset(ss, k) + j] == if j < |ss[k]| then ss[k][j] else 0
  {
    OffsetNext(ss, k);
    var text := Flat(ss);
    assert mem[p..p + |text|][Offset(ss, k) + j] == text[Offset(ss, k) + j];
    assert text[Offset(ss, k)..Offset(ss, k + 1)][j] == (ss[k] + [0])[j];
  }

  method PutFsLong(mem: array<nat>, a: int, v: nat)
    requires 0 <= a && a + 4 <= mem.Length && v < 0x1_0000_0000
    modifies mem
    ensures mem[..] == PutLong(old(mem[..]), a, v)
  {
    mem[a] := v % 0x100;
    mem[a + 1] := v / 0x100 % 0x100;
    mem[a + 2] := v / 0x10000 % 0x100;
    mem[a + 3] := v / 0x1000000 % 0x100;
  }

  /** The end of the string at q: while (get_fs_byte(p++)). */
  method SkipString(mem: array<nat>, q: nat, ghost p: nat, ghost ss: seq<seq<nat>>, ghost k: nat) returns (r: nat)
    requires TextAt(mem[..], p, Flat(ss)) && Strings(ss) && k < |ss| && q == p + Offset(ss, k)
    ensures r == p + Offset(ss, k + 1) <= mem.Length
  {
    OffsetNext(ss, k);
    assert IsString(ss[k]);
    hide Flat, Offset;
    r := q;
    ghost var j := 0;
    StringByte(mem[..], p, ss, k, 0);
    while mem[r] != 0
      invariant j <= |ss[k]| && r == q + j && r < mem.Length && mem[r] == if j < |ss[k]| then ss[k][j] else 0
      decreases |ss[k]| - j
    {
      r := r + 1;
      j := j + 1;
      StringByte(mem[..], p, ss, k, j);
    }
    r := r + 1;
  }

  /** One of the two loops of create_tables: n pointers and a zero. */
  method WriteTable(mem: array<nat>, a: nat, n: nat, q: nat, ghost p: nat, ghost ss: seq<seq<nat>>,
                    ghost i: nat) returns (r: nat)
    requires TextAt(mem[..], p, Flat(ss)) && Strings(ss) && i + n <= |ss| && q == p + Offset(ss, i)
    requires a + 4 * n + 4 <= p <= mem.Length < 0x1_0000_0000
    modifies mem
    ensures TextAt(mem[..], p, Flat(ss)) && r == p + Offset(ss, i + n) && Table(mem[..], a, n, ss, i, p)
    ensures Outside(old(mem[..]), mem[..], a, a + 4 * n + 4)
  {
    hide Flat, Offset, Points, PutLong, GetLong, TextAt, Outside;
    NoPoints(mem[..], a, ss, i, p);
    r := q;
    var left, at := n, a;
    ghost var done := 0;
    OutsideSelf(mem[..], a, a + 4 * n + 4);
    while left > 0
      invariant left + done == n && at == a + 4 * done && r == p + Offset(ss, i + done)
      invariant TextAt(mem[..], p, Flat(ss)) && Points(mem[..], a, done, ss, i, p)
                && Outside(old(mem[..]), mem[..], a, a + 4 * n + 4)
    {
      left := left - 1;
      StringFits(mem[..], p, ss, i + done);
      PointsPut(mem[..], a, done, ss, i, p, at, r);
      TextPut(mem[..], p, Flat(ss), at, r);
      OutsidePut(old(mem[..]), mem[..], a, a + 4 * n + 4, at, r);
      PutFsLong(mem, at, r);
      at := at + 4;
      r := SkipString(mem, r, p, ss, i + done);
      done := done + 1;
    }
    PointsPut(mem[..], a, n, ss, i, p, at, 0);
    TextPut(mem[..], p, Flat(ss), at, 0);
    OutsidePut(old(mem[..]), mem[..], a, a + 4 * n + 4, at, 0);
    PutGet(mem[..], at, 0, at);
    PutFsLong(mem, at, 0);
  }

  ghost predicate Outside(mem: seq<nat>, mem': seq<nat>, a: int, b: int) {
    |mem'| == |mem| && forall i :: 0 <= i < |mem| && !(a <= i < b) ==> mem'[i] == mem[i]
  }

  lemma OutsideSelf(mem: seq<nat>, a: int, b: int)
    ensures Outside(mem, mem, a, b)
  { }

  lemma OutsidePut(mem0: seq<nat>, mem: seq<nat>, a: int, b: int, at: int, v: nat)
    requires Outside(mem0, mem, a, b) && a <= at && at + 4 <= b && 0 <= at && at + 4 <= |mem| && v < 0x1_0000_0000
    ensures Outside(mem0, PutLong(mem, at, v), a, b)
  {
    PutGet(mem, at, v, at);
  }

  lemma NoPoints(mem: seq<nat>, a: int, ss: seq<seq<nat>>, i: nat, p: nat)
    requires 0 <= a <= |mem| && i <= |ss|
    ensures Points(mem, a, 0, ss, i, p)
  { }

  lemma StringFits(mem: seq<nat>, p: nat, ss: seq<seq<nat>>, k: nat)
    requires TextAt(mem, p, Flat(ss)) && k < |ss|
    ensures p + Offset(ss, k) < p + Offset(ss, k + 1) <= |mem|
  {
    OffsetNext(ss, k);
  }

  /** create_tables: the new stack pointer.  Below the strings lie argc, the two
      table addresses and the tables; nothing else is stored to. */
  method CreateTables(mem: array<nat>, p: nat, argc: nat, envc: nat, ghost ss: seq<seq<nat>>) returns (sp: nat)
    requires TextAt(mem[..], p, Flat(ss)) && Strings(ss) && argc + envc <= |ss|
    requires p <= mem.Length < 0x1_0000_0000 && 4 * (argc + envc + 5) <= p / 4 * 4
    modifies mem
    ensures TextAt(mem[..], p, Flat(ss)) && Image(mem[..], sp, argc, envc, ss, p)
    ensures sp == p / 4 * 4 - 4 * (argc + envc + 5) && Outside(old(mem[..]), mem[..], sp, p / 4 * 4)
  {
    hide Flat, Offset, Points, PutLong, GetLong, TextAt, Outside, Table, Strings;
    OffsetEnd(ss);
    OutsideSelf(mem[..], p / 4 * 4 - 4 * (argc + envc + 5), p / 4 * 4);
    ghost var mem0, low, high := mem[..], p / 4 * 4 - 4 * (argc + envc + 5), p / 4 * 4;
    sp := p / 4 * 4;
    sp := sp - 4 * (envc + 1);
    var envp := sp;
    sp := sp - 4 * (argc + 1);
    var argv := sp;
    sp := sp - 4;
    Push(mem, sp, envp, mem0, low, high, p, ss);
    ghost var mem1 := mem[..];
    sp := sp - 4;
    Push(mem, sp, argv, mem0, low, high, p, ss);
    ghost var mem2 := mem[..];
    sp := sp - 4;
    Push(mem, sp, argc, mem0, low, high, p, ss);
    ghost var mem3 := mem[..];
    PutGet(mem0, sp + 8, envp, sp + 8);
    PutGet(mem1, sp + 4, argv, sp + 8);
    PutGet(mem1, sp + 4, argv, sp + 4);
    PutGet(mem2, sp, argc, sp + 8);
    PutGet(mem2, sp, argc, sp + 4);
    PutGet(mem2, sp, argc, sp);
    var q := WriteTable(mem, argv, argc, p, p, ss, 0);
    ghost var mem4 := mem[..];
    q := WriteTable(mem, envp, envc, q, p, ss, argc);
    KeepTable(mem4, mem[..], envp, envp + 4 * envc + 4, argv, argc, ss, 0, p);
    KeepLong(mem3, mem4, argv, argv + 4 * argc + 4, sp);
    KeepLong(mem3, mem4, argv, argv + 4 * argc + 4, sp + 4);
    KeepLong(mem3, mem4, argv, argv + 4 * argc + 4, sp + 8);
    KeepLong(mem4, mem[..], envp, envp + 4 * envc + 4, sp);
    KeepLong(mem4, mem[..], envp, envp + 4 * envc + 4, sp + 4);
    KeepLong(mem4, mem[..], envp, envp + 4 * envc + 4, sp + 8);
    OutsideMore(mem0, mem3, low, high, mem4, argv, argv + 4 * argc + 4);
    OutsideMore(mem0, mem4, low, high, mem[..], envp, envp + 4 * envc + 4);
  }

  /** What the new program finds at its stack pointer. */
  ghost predicate Image(mem: seq<nat>, sp: nat, argc: nat, envc: nat, ss: seq<seq<nat>>, p: nat) {
    var argv := sp + 12;
    var envp := argv + 4 * (argc + 1);
    && sp + 12 <= |mem| && GetLong(mem, sp) == argc && GetLong(mem, sp + 4) == argv && GetLong(mem, sp + 8) == envp
    && Table(mem, argv, argc, ss, 0, p) && Table(mem, envp, envc, ss, argc, p) && envp + 4 * (envc + 1) <= p
  }

  /** put_fs_long on the way down. */
  method Push(mem: array<nat>, at: nat, v: nat, ghost mem0: seq<nat>, ghost low: int, ghost high: int, ghost p: nat,
              ghost ss: seq<seq<nat>>)
    requires low <= at && at + 4 <= high <= p <= mem.Length && v < 0x1_0000_0000
    requires TextAt(mem[..], p, Flat(ss)) && Outside(mem0, mem[..], low, high)
    modifies mem
    ensures mem[..] == PutLong(old(mem[..]), at, v) && TextAt(mem[..], p, Flat(ss)) && Outside(mem0, mem[..], low, high)
  {
    hide Flat, PutLong, TextAt, Outside;
    TextPut(mem[..], p, Flat(ss), at, v);
    OutsidePut(mem0, mem[..], low, high, at, v);
    PutFsLong(mem, at, v);
  }

  lemma KeepLong(mem: seq<nat>, mem': seq<nat>, a: int, b: int, at: int)
    requires Outside(mem, mem', a, b) && 0 <= at && at + 4 <= |mem| && (at + 4 <= a || b <= at)
    ensures |mem'| == |mem| && GetLong(mem', at) == GetLong(mem, at)
  { }

  lemma KeepTable(mem: seq<nat>, mem': seq<nat>, a: int, b: int, at: int, n: nat, ss: seq<seq<nat>>, i: nat, p: nat)
    requires Outside(mem, mem', a, b) && Table(mem, at, n, ss, i, p) && (at + 4 * n + 4 <= a || b <= at)
    ensures Table(mem', at, n, ss, i, p)
  {
    hide Offset, GetLong;
    KeepLong(mem, mem', a, b, at + 4 * n);
    forall k | 0 <= k < n ensures Entry(mem', at, k) == Entry(mem, at, k) { KeepLong(mem, mem', a, b, at + 4 * k); }
  }

  lemma OutsideMore(mem0: seq<nat>, mem: seq<nat>, low: int, high: int, mem': seq<nat>, a: int, b: int)
    requires Outside(mem0, mem, low, high) && Outside(mem, mem', a, b) && low <= a && b <= high
    ensures Outside(mem0, mem', low, high)
  { }

  lemma TakenAll(ss: seq<seq<nat>>)
    ensures Taken(ss, |ss|) == ss && (|ss| == 0 ==> Taken(ss, -1) == [])
  { }

  lemma NoPages(page: seq<seq<nat>>)
    requires page == seq(MAX_ARG_PAGES, _ => [])
    ensures Present(page) == 0
  {
    EmptyPages(page);
  }

  lemma {:induction false} EmptyPages(page: seq<seq<nat>>)
    requires forall i :: 0 <= i < |page| ==> page[i] == []
    ensures Present(page) == 0
    decreases |page|
  {
    if page != [] { EmptyPages(page[1..]); }
  }

  /** No part of the arguments is longer than the whole. */
  lemma AllArgs(argv: seq<seq<nat>>, envp: seq<seq<nat>>, script: Script)
    ensures |Flat(envp)| <= |Flat(Args(argv, script) + envp)|
    ensures script.Bang? ==> var rest := if |argv| > 0 then argv[1..] else [];
        var all := |Flat(Args(argv, script) + envp)|;
      && |Flat(rest + envp)| <= all && |Flat([script.file] + (rest + envp))| <= all
      && |Flat(script.arg + ([script.file] + (rest + envp)))| <= all
      && Args(argv, script) + envp == [script.name] + (script.arg + ([script.file] + (rest + envp)))
  {
    FlatConcat(Args(argv, script), envp);
    hide Flat;
    if script.Bang? {
      var rest := if |argv| > 0 then argv[1..] else [];
      var tail := rest + envp;
      assert Args(argv, script) + envp == [script.name] + (script.arg + ([script.file] + tail));
      FlatTail([script.file], tail);
      FlatTail(script.arg, [script.file] + tail);
      FlatTail([script.name], script.arg + ([script.file] + tail));
    }
  }

  lemma FlatTail(s: seq<seq<nat>>, t: seq<seq<nat>>)
    ensures |Flat(t)| <= |Flat(s + t)|
  {
    FlatConcat(s, t);
  }

  lemma ThisPage(page: seq<seq<nat>>, i: nat, mem: seq<nat>, base: int)
    requires Pages(page) && i < MAX_ARG_PAGES && |mem| == DATA_LIMIT && base == BASE + i * PAGE_SIZE
    requires page[i] != [] ==> mem[base..base + PAGE_SIZE] == page[i]
    ensures forall a :: i * PAGE_SIZE <= a < (i + 1) * PAGE_SIZE && Backed(page, a) ==> mem[BASE + a] == ByteAt(page, a)
  {
    forall a | i * PAGE_SIZE <= a < (i + 1) * PAGE_SIZE && Backed(page, a) ensures mem[BASE + a] == ByteAt(page, a) {
      assert a / PAGE_SIZE == i && a % PAGE_SIZE == a - i * PAGE_SIZE;
      assert mem[base..base + PAGE_SIZE][a % PAGE_SIZE] == mem[BASE + a];
    }
  }

  lemma TextMapped(page0: seq<seq<nat>>, page: seq<seq<nat>>, text: seq<nat>, q: int, mem: seq<nat>)
    requires CopiedFrom(page0, page, text, 0, q) && |mem| == DATA_LIMIT
    requires forall a :: 0 <= a < MAX_ARG_PAGES * PAGE_SIZE && Backed(page, a) ==> mem[BASE + a] == ByteAt(page, a)
    ensures TextAt(mem, BASE + q, text)
  {
    var p := BASE + q;
    var now := mem[p..p + |text|];
    forall i | 0 <= i < |text| ensures now[i] == text[i] {
      assert text[0..][i] == text[i];
      assert ByteAt(page, q + i) == text[0..][i] && Backed(page, q + i);
    }
  }

  lemma {:induction false} FlatLong(ss: seq<seq<nat>>)
    ensures |ss| <= |Flat(ss)|
    decreases |ss|
  {
    if ss != [] { FlatLong(ss[1..]); }
  }

  /** There is room for the tables below the strings. */
  lemma ArgcFits(argv: seq<seq<nat>>, script: Script, envp: seq<seq<nat>>)
    requires Proper(script) && |Flat(Args(argv, script) + envp)| < TOP
    ensures 0 <= Argc(argv, script) <= |Args(argv, script)| && |Args(argv, script) + envp| <= TOP
  {
    FlatLong(Args(argv, script) + envp);
  }

  /** The count is right unless a script is started without any argument at all:
      then it is one too small. */
  lemma ArgcRight(argv: seq<seq<nat>>, script: Script)
    requires Proper(script)
    ensures Argc(argv, script) == |Args(argv, script)| <==> script.Plain? || argv != []
  { }

  /** The pointers the program gets: argv[k] and envp[k] point at their strings
      with a zero behind each, in order, when the count is right. */
  lemma RoundTrip(mem: seq<nat>, sp: nat, argv: seq<seq<nat>>, envp: seq<seq<nat>>, script: Script, p: nat)
    requires Proper(script) && (script.Plain? || argv != [])
    requires TextAt(mem, p, Flat(Args(argv, script) + envp))
             && Image(mem, sp, Argc(argv, script), |envp|, Args(argv, script) + envp, p)
    ensures var args := Args(argv, script); var a := sp + 12; var e := a + 4 * (|args| + 1);
      && GetLong(mem, sp) == |args| && GetLong(mem, sp + 4) == a && GetLong(mem, sp + 8) == e
      && (forall k :: 0 <= k < |args| ==> StringPtr(mem, Entry(mem, a, k), args[k]))
         && GetLong(mem, a + 4 * |args|) == 0
      && (forall k :: 0 <= k < |envp| ==> StringPtr(mem, Entry(mem, e, k), envp[k]))
         && GetLong(mem, e + 4 * |envp|) == 0
  {
    hide Flat, Offset, GetLong, TextAt, Args, StringPtr;
    var args := Args(argv, script);
    ArgcRight(argv, script);
    var ss := args + envp;
    forall k | 0 <= k < |args| ensures StringPtr(mem, Entry(mem, sp + 12, k), args[k]) {
      assert ss[k] == args[k];
      PointsAt(mem, p, ss, k);
    }
    forall k | 0 <= k < |envp| ensures StringPtr(mem, Entry(mem, sp + 12 + 4 * (|args| + 1), k), envp[k]) {
      assert ss[|args| + k] == envp[k];
      PointsAt(mem, p, ss, |args| + k);
    }
  }

  /** The bytes at a are s and a zero. */
  ghost predicate StringPtr(mem: seq<nat>, a: int, s: seq<nat>) {
    0 <= a && a + |s| < |mem| && mem[a..a + |s|] == s && mem[a + |s|] == 0
  }

  lemma PointsAt(mem: seq<nat>, p: nat, ss: seq<seq<nat>>, k: nat)
    requires TextAt(mem, p, Flat(ss)) && k < |ss|
    ensures StringPtr(mem, p + Offset(ss, k), ss[k])
  {
    hide Flat, Offset;
    StringByte(mem, p, ss, k, |ss[k]|);
    var s := ss[k];
    var a := p + Offset(ss, k);
    forall j | 0 <= j < |s| ensures mem[a + j] == s[j] { StringByte(mem, p, ss, k, j); }
    var now := mem[a..a + |s|];
    assert forall j :: 0 <= j < |s| ==> now[j] == mem[a + j];
    assert now == s;
  }

  /** The failing case: with no arguments at all the script's file name is where
      the environment should start. */
  lemma EmptyArgv(mem: seq<nat>, sp: nat, name: seq<nat>, file: seq<nat>, envp: seq<seq<nat>>, p: nat)
    requires envp != [] && TextAt(mem, p, Flat(Args([], Bang(name, [], file)) + envp))
    requires Image(mem, sp, Argc([], Bang(name, [], file)), |envp|, Args([], Bang(name, [], file)) + envp, p)
    ensures GetLong(mem, sp) == 1 && sp + 24 <= |mem| && StringPtr(mem, Entry(mem, sp + 20, 0), file)
  {
    hide Offset, Flat, GetLong, TextAt, StringPtr;
    var ss := Args([], Bang(name, [], file)) + envp;
    assert ss[1] == file;
    PointsAt(mem, p, ss, 1);
    FirstEntry(mem, sp + 20, |envp|, ss, 1, p);
  }

  lemma FirstEntry(mem: seq<nat>, a: int, n: nat, ss: seq<seq<nat>>, i: nat, p: nat)
    requires Table(mem, a, n, ss, i, p) && n > 0
    ensures i < |ss| && a + 4 <= |mem| && Entry(mem, a, 0) == p + Offset(ss, i)
  {
    hide Offset;
    assert Entry(mem, a, 0) == p + Offset(ss, i + 0);
  }
}
