/** Runs as seen by the tasks.  Every step of the memory manager amounts to
    events on the address spaces; eager copying gives them their meaning. */
module Events {
  import opened PageTables
  import opened AddressSpaces

  datatype Event =
    | Inherit(from: int, to: int, n: int)         // fork copies n directory entries
    | Borrow(pages: Spaces)                       // fork of task 0: windows on low memory
    | Fill(d: int, i: int, words: Frame)          // a page appears with given contents
    | Share(from: int, to: int, i: int)           // a page appears as a copy of another task's
    | Own(d: int, i: int, words: Frame)           // a window becomes a private copy
    | Store(d: int, i: int, x: int, w: Word)      // a word is written
    | Gone(from: int, to: int)                    // an address space disappears

  /** The n directory entries at `from`, moved to `to`. */
  ghost function Moved(s: Spaces, from: int, to: int, n: int): Spaces {
    map k | k in Grid() && to <= k.0 < to + n && (k.0 - to + from, k.1) in s :: s[(k.0 - to + from, k.1)]
  }

  ghost function Apply(s: Spaces, e: Event): Spaces {
    match e
    case Inherit(from, to, n) => s + Moved(s, from, to, n)
    case Borrow(pages) => s + pages
    case Fill(d, i, words) => s[(d, i) := Private(words)]
    case Share(from, to, i) => if (from, i) in s then s[(to, i) := s[(from, i)]] else s
    case Own(d, i, words) => s[(d, i) := Private(words)]
    case Store(d, i, x, w) =>
      if (d, i) in s && s[(d, i)].Private?
         && 0 <= x < TABLE_SIZE then s[(d, i) := Private(s[(d, i)].words[x := w])] else s
    case Gone(from, to) => Without(s, from, to)
  }

  ghost function ApplyAll(s: Spaces, es: seq<Event>): Spaces {
    if es == [] then s else Apply(ApplyAll(s, es[..|es| - 1]), es[|es| - 1])
  }

  lemma {:induction false} ApplyAppend(s: Spaces, es: seq<Event>, fs: seq<Event>)
    ensures ApplyAll(s, es + fs) == ApplyAll(ApplyAll(s, es), fs)
    decreases |fs|
  {
    if fs == [] {
      assert es + fs == es;
    } else {
      var g := fs[..|fs| - 1];
      ApplyAppend(s, es, g);
      assert (es + fs)[..|es + fs| - 1] == es + g;
    }
  }

  lemma GoneIs(s: Spaces, from: int, to: int)
    ensures Apply(s, Gone(from, to)) == Without(s, from, to)
  { }

  lemma ApplyNone(s: Spaces)
    ensures ApplyAll(s, []) == s
  { }

  lemma ApplyOne(s: Spaces, e: Event)
    ensures ApplyAll(s, [e]) == Apply(s, e)
  {
    assert [e][..0] == [];
    assert ApplyAll(s, []) == s;
  }

  /** The words behind a page. */
  function Words(m: Memory, v: Vpage): Frame {
    match v case Private(words) => words case Window(f) => if f < |m| then m[f] else Zeros()
  }

  /* ---- what a read returns ---- */

  /** The pages an event may change. */
  predicate Touches(e: Event, k: (int, int)) {
    match e
    case Inherit(_, to, n) => to <= k.0 < to + n
    case Borrow(pages) => k in pages
    case Fill(d, i, _) => k == (d, i)
    case Share(_, to, i) => k == (to, i)
    case Own(d, i, _) => k == (d, i)
    case Store(d, i, _, _) => k == (d, i)
    case Gone(from, to) => from <= k.0 < to
  }

  lemma UntouchedStays(s: Spaces, e: Event, k: (int, int))
    requires !Touches(e, k)
    ensures k in Apply(s, e) <==> k in s
    ensures k in s ==> Apply(s, e)[k] == s[k]
  { }

  /** The word a task reads: nothing mapped, a word of low memory, or a private word. */
  datatype Word? = None | Low(frame: nat) | Value(w: Word)

  ghost function Read(s: Spaces, d: int, i: int, x: int): Word?
    requires 0 <= x < TABLE_SIZE
  {
    if (d, i) !in s then None
    else match s[(d, i)] case Window(f) => Low(f) case Private(words) => Value(words[x])
  }

  /** The same word from the history alone: the task's own last write, else what
      the page was filled with, else what the parent or lender would have read
      at that moment. */
  ghost function Recall(s: Spaces, es: seq<Event>, d: int, i: int, x: int): Word?
    requires 0 <= x < TABLE_SIZE
    decreases |es|
  {
    if es == [] then Read(s, d, i, x)
    else
      var past := es[..|es| - 1];
      match es[|es| - 1]
      case Inherit(from, to, n) =>
        if to <= d < to + n && InPages(d, i) && Recall(s, past, d - to + from, i, x) != None
        then Recall(s, past, d - to + from, i, x) else Recall(s, past, d, i, x)
      case Borrow(pages) => if (d, i) in pages then Read(pages, d, i, x) else Recall(s, past, d, i, x)
      case Fill(d', i', words) => if (d, i) == (d', i') then Value(words[x]) else Recall(s, past, d, i, x)
      case Share(from, to, i') =>
        if (d, i) == (to, i')
           && Recall(s, past, from, i, x) != None then Recall(s, past, from, i, x) else Recall(s, past, d, i, x)
      case Own(d', i', words) => if (d, i) == (d', i') then Value(words[x]) else Recall(s, past, d, i, x)
      case Store(d', i', x', w) =>
        if (d, i, x) == (d', i', x') && Recall(s, past, d, i, x).Value? then Value(w) else Recall(s, past, d, i, x)
      case Gone(from, to) => if from <= d < to then None else Recall(s, past, d, i, x)
  }

  /** What one event leaves to be read. */
  lemma ReadAfter(s: Spaces, e: Event, d: int, i: int, x: int)
    requires 0 <= x < TABLE_SIZE
    ensures Read(Apply(s, e), d, i, x) == match e
      case Inherit(from, to, n) =>
        if to <= d < to + n && InPages(d, i)
           && Read(s, d - to + from, i, x) != None then Read(s, d - to + from, i, x) else Read(s, d, i, x)
      case Borrow(pages) => if (d, i) in pages then Read(pages, d, i, x) else Read(s, d, i, x)
      case Fill(d', i', words) => if (d, i) == (d', i') then Value(words[x]) else Read(s, d, i, x)
      case Share(from, to, i') => if (d, i) == (to, i') && Read(s, from, i, x) != None then Read(s, from, i, x)
                                  else Read(s, d, i, x)
      case Own(d', i', words) => if (d, i) == (d', i') then Value(words[x]) else Read(s, d, i, x)
      case Store(d', i', x', w) => if (d, i, x) == (d', i', x') && Read(s, d, i, x).Value? then Value(w)
                                   else Read(s, d, i, x)
      case Gone(from, to) => if from <= d < to then None else Read(s, d, i, x)
  { }

  /** After any run a task reads its own last write, or what it inherited. */
  lemma {:induction false} ReadsOwnHistory(s: Spaces, es: seq<Event>, d: int, i: int, x: int)
    requires 0 <= x < TABLE_SIZE
    ensures Read(ApplyAll(s, es), d, i, x) == Recall(s, es, d, i, x)
    decreases |es|
  {
    if es != [] {
      var past := es[..|es| - 1];
      var e := es[|es| - 1];
      ReadsOwnHistory(s, past, d, i, x);
      ReadAfter(ApplyAll(s, past), e, d, i, x);
      assert ApplyAll(s, es) == Apply(ApplyAll(s, past), e);
      hide Read, Apply, ApplyAll;
      match e
      case Inherit(from, to, _) => ReadsOwnHistory(s, past, d - to + from, i, x);
      case Share(from, _, _) => ReadsOwnHistory(s, past, from, i, x);
      case _ =>
    }
  }

  /** A run whose events leave a page alone leaves what is read there alone. */
  lemma {:induction false} IsolatedRun(s: Spaces, es: seq<Event>, d: int, i: int)
    requires forall e :: e in es ==> !Touches(e, (d, i))
    ensures (d, i) in ApplyAll(s, es) <==> (d, i) in s
    ensures (d, i) in s ==> ApplyAll(s, es)[(d, i)] == s[(d, i)]
    decreases |es|
  {
    if es != [] {
      var past := es[..|es| - 1];
      assert forall e :: e in past ==> e in es;
      IsolatedRun(s, past, d, i);
      assert es[|es| - 1] in es;
      UntouchedStays(ApplyAll(s, past), es[|es| - 1], (d, i));
    }
  }

  /** What fork copied is what the parent's pages show. */
  lemma CopiedIsMoved(m: Memory, from: int, to: int, n: int)
    requires DIRS_PER_TASK <= from && DIRS_PER_TASK <= to && 0 <= n && from + n <= TABLE_SIZE && to + n <= TABLE_SIZE
    ensures Copied(m, from, to, n, 0) == Moved(View(m), from, to, n)
  {
    hide View, Copied, Moved;
    var c := Copied(m, from, to, n, 0);
    var v := Moved(View(m), from, to, n);
    forall k ensures (k in c <==> k in v) && (k in c ==> c[k] == v[k]) { CopiedPage(m, from, to, n, k); }
  }

  lemma CopiedPage(m: Memory, from: int, to: int, n: int, k: (int, int))
    requires DIRS_PER_TASK <= from && DIRS_PER_TASK <= to && 0 <= n && from + n <= TABLE_SIZE && to + n <= TABLE_SIZE
    ensures k in Copied(m, from, to, n, 0) <==> k in Moved(View(m), from, to, n)
    ensures k in Copied(m, from, to, n, 0) ==> Copied(m, from, to, n, 0)[k] == Moved(View(m), from, to, n)[k]
  {
    hide Ent, See;
  }
}
