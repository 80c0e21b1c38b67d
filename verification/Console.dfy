/** kernel/chr_drv/console.c: con_write over video memory, with the EGA's moving
    origin or by copying.  Addresses are counted in cells. */
module Console {
  import opened Terminal
  import opened VideoMemory

  lemma EvenCells(k: nat, cols: nat)
    requires cols % 2 == 0
    ensures 0 <= k * cols && 2 * (k * cols / 2) == k * cols
  {
    assert k * cols == 2 * (k * (cols / 2));
  }

  lemma SameCells(v: seq<nat>, v': seq<nat>)
    requires |v| == |v'| && forall i :: 0 <= i < |v| ==> v'[i] == v[i]
    ensures v == v'
  { }

  lemma CopiedIs(v: seq<nat>, v': seq<nat>, dst: int, src: int, n: nat)
    requires 0 <= dst && dst + n <= |v| == |v'| && 0 <= src && src + n <= |v|
    requires forall j :: dst <= j < dst + n ==> v'[j] == v[j + (src - dst)]
    requires forall j :: 0 <= j < |v| && !(dst <= j < dst + n) ==> v'[j] == v[j]
    ensures v' == Copied(v, dst, src, n)
  {
    CopiedFacts(v, dst, src, n);
    hide Copied;
    forall j | 0 <= j < |v| ensures v'[j] == Copied(v, dst, src, n)[j] {
      if dst <= j < dst + n { assert v'[j] == v[j + (src - dst)]; }
    }
    SameCells(v', Copied(v, dst, src, n));
  }

  /** Only cells from a to b were stored to. */
  ghost predicate KeptOutside(v: seq<nat>, v': seq<nat>, a: int, b: int) {
    |v'| == |v| && forall i :: 0 <= i < |v| && !(a <= i < b) ==> v'[i] == v[i]
  }

  /** What video memory held after a store, and where the window was then. */
  datatype Shot = Shot(org: int, mem: seq<nat>)

  /** From one shot to the next only cells of the window have changed. */
  ghost predicate InWindow(a: Shot, b: Shot, lines: nat, cols: nat, ega: bool) {
    && 0 <= b.org && (!ega ==> b.org == 0) && Line(b.org, lines, cols) <= |b.mem|
    && KeptOutside(a.mem, b.mem, b.org, Line(b.org, lines, cols))
  }

  /** All that was ever stored went into the window, and led to v. */
  ghost predicate Confined(trail: seq<Shot>, v: seq<nat>, lines: nat, cols: nat, ega: bool) {
    && trail != [] && trail[|trail| - 1].mem == v
    && forall k :: 1 <= k < |trail| ==> InWindow(trail[k - 1], trail[k], lines, cols, ega)
  }

  lemma ConfinedOn(trail: seq<Shot>, v: seq<nat>, lines: nat, cols: nat, ega: bool, org: int, v': seq<nat>)
    requires Confined(trail, v, lines, cols, ega) && 0 <= org && (!ega ==> org == 0) && Line(org, lines, cols) <= |v'|
    requires KeptOutside(v, v', org, Line(org, lines, cols))
    ensures Confined(trail + [Shot(org, v')], v', lines, cols, ega)
  {
    hide KeptOutside, Line;
  }

  lemma ConfinedFrom(trail: seq<Shot>, v: seq<nat>, lines: nat, cols: nat, ega: bool, n: nat)
    requires Confined(trail, v, lines, cols, ega) && n < |trail|
    ensures Confined(trail[n..], v, lines, cols, ega)
  {
    hide InWindow;
    var t := trail[n..];
    forall k | 1 <= k < |t| ensures InWindow(t[k - 1], t[k], lines, cols, ega) {
      assert t[k - 1] == trail[n + k - 1] && t[k] == trail[n + k];
    }
  }

  lemma ConfinedLast(trail: seq<Shot>, v: seq<nat>, lines: nat, cols: nat, ega: bool)
    requires Confined(trail, v, lines, cols, ega)
    ensures trail != [] && trail[|trail| - 1].mem == v
  { }

  ghost function Slice(v: seq<nat>, p: int, n: nat): seq<nat> { if 0 <= p && p + n <= |v| then v[p..p + n] else [] }

  /** The lines of the window at the start of video memory. */
  ghost function Slices(v: seq<nat>, cols: nat, lines: nat): (r: seq<seq<nat>>)
    ensures |r| == lines && forall i :: 0 <= i < lines ==> r[i] == Slice(v, Line(0, i, cols), cols)
  {
    seq(lines, i => Slice(v, Line(0, i, cols), cols))
  }

  lemma SlicesShow(v: seq<nat>, cols: nat, lines: nat)
    requires Line(0, lines, cols) <= |v|
    ensures Shows(v, 0, Slices(v, cols, lines), cols) && Grid(Slices(v, cols, lines), lines, cols)
  {
    forall r | 0 <= r < lines
      ensures |Slices(v, cols, lines)[r]| == cols && RowAt(v, Line(0, r, cols), Slices(v, cols, lines)[r])
    {
      CellInside(0, r, lines, cols, cols);
    }
  }

  class Screen {
    const cols: nat
    const lines: nat
    /** EGA or VGA: the display can start anywhere in video memory. */
    const ega: bool
    const vmem: array<nat>
    var origin: int
    var scrEnd: int
    var pos: int
    var x: nat
    var y: nat
    var top: nat
    var bottom: nat
    var state: nat
    var npar: nat
    var par: seq<nat>
    var attr: nat
    var savedX: nat
    var savedY: nat
    ghost var rows: seq<seq<nat>>
    /** Video memory after every store so far, oldest first. */
    ghost var trail: seq<Shot>

    ghost function View(): Term reads `rows, `x, `y, `top, `bottom, `state, `npar, `par, `attr, `savedX, `savedY {
      Term(cols, lines, rows, x, y, top, bottom, state, npar, par, attr, savedX, savedY)
    }

    /** The visible window and what it shows. */
    ghost predicate Window() reads `origin, `scrEnd, `rows, vmem {
      && cols % 2 == 0 && cols >= 8 && |rows| == lines >= 1 && 0 <= origin && (!ega ==> origin == 0)
      && scrEnd == Line(origin, lines, cols) <= vmem.Length && Shows(vmem[..], origin, rows, cols)
    }

    /** Every store went into the window that was visible after it. */
    ghost predicate Trailed() reads `trail, vmem { Confined(trail, vmem[..], lines, cols, ega) }

    ghost predicate Valid() reads this, vmem {
      Window() && Trailed() && Ok(View()) && pos == Line(origin, y, cols) + x
    }

    /** con_init, with what video memory holds already on the screen. */
    constructor (columns: nat, rowCount: nat, movable: bool, memory: array<nat>, startX: nat, startY: nat)
      requires columns % 2 == 0 && 8 <= columns < 0x8000 && 1 <= rowCount < 0x8000
               && Line(0, rowCount, columns) <= memory.Length
      ensures Valid() && cols == columns && lines == rowCount && ega == movable && vmem == memory && fresh(this)
      ensures rows == Slices(memory[..], columns, rowCount) && top == 0 && bottom == lines && state == 0
      ensures (x, y) == if startX <= columns && startY < rowCount then (startX, startY) else (0, 0)
    {
      cols, lines, ega, vmem := columns, rowCount, movable, memory;
      origin, scrEnd := 0, rowCount * columns;
      top, bottom, state, npar, par := 0, rowCount, 0, 0, seq(NPAR, _ => 0);
      attr, savedX, savedY := 0x07, 0, 0;
      x, y, pos := 0, 0, 0;
      rows := Slices(memory[..], columns, rowCount);
      trail := [Shot(0, memory[..])];
      if startX <= columns && startY < rowCount {
        x, y, pos := startX, startY, startY * columns + startX;
      }
      new;
      SlicesShow(vmem[..], cols, lines);
    }

    /** rep stosw. */
    method Stosw(start: int, count: int)
      requires 0 <= start && 0 <= count && start + count <= vmem.Length
      modifies vmem
      ensures vmem[..] == Filled(old(vmem[..]), start, count)
    {
      hide Filled;
      ghost var was := vmem[..];
      var i := 0;
      while i < count
        invariant 0 <= i <= count
        invariant forall j :: 0 <= j < vmem.Length ==> vmem[j] == if start <= j < start + i then ERASE else was[j]
      {
        vmem[start + i] := ERASE;
        i := i + 1;
      }
      FilledFacts(was, start, count);
      SameCells(vmem[..], Filled(was, start, count));
    }

    /** rep stosw going down, with the direction flag set. */
    method StoswDown(last: int, count: int)
      requires 0 <= count && 0 <= last + 1 - count && last < vmem.Length
      modifies vmem
      ensures vmem[..] == Filled(old(vmem[..]), last + 1 - count, count)
    {
      hide Filled;
      ghost var was := vmem[..];
      var i := 0;
      while i < count
        invariant 0 <= i <= count
        invariant forall j :: 0 <= j < vmem.Length ==> vmem[j] == if last - i < j <= last then ERASE else was[j]
      {
        vmem[last - i] := ERASE;
        i := i + 1;
      }
      FilledFacts(was, last + 1 - count, count);
      SameCells(vmem[..], Filled(was, last + 1 - count, count));
    }

    /** rep movsl: two cells at a time, going up. */
    method Movsl(dst: int, src: int, count: int)
      requires 0 <= dst <= src && 0 <= count && src + 2 * count <= vmem.Length
      modifies vmem
      ensures vmem[..] == Copied(old(vmem[..]), dst, src, 2 * count)
    {
      hide Copied;
      ghost var was, d := vmem[..], src - dst;
      var i := 0;
      while i < count
        invariant 0 <= i <= count
        invariant forall j :: dst <= j < dst + 2 * i ==> vmem[j] == was[j + d]
        invariant forall j :: 0 <= j < vmem.Length && !(dst <= j < dst + 2 * i) ==> vmem[j] == was[j]
      {
        var low, high := vmem[src + 2 * i], vmem[src + 2 * i + 1];
        vmem[dst + 2 * i] := low;
        vmem[dst + 2 * i + 1] := high;
        i := i + 1;
      }
      CopiedIs(was, vmem[..], dst, src, 2 * count);
    }

    /** rep movsl going down from the two cells at dst and src. */
    method MovslDown(dst: int, src: int, count: int)
      requires src <= dst && dst + 2 <= vmem.Length && 0 <= count && 0 <= src + 2 - 2 * count
      modifies vmem
      ensures vmem[..] == Copied(old(vmem[..]), dst + 2 - 2 * count, src + 2 - 2 * count, 2 * count)
    {
      hide Copied;
      ghost var was, d := vmem[..], src - dst;
      var i := 0;
      while i < count
        invariant 0 <= i <= count
        invariant forall j :: dst + 2 - 2 * i <= j < dst + 2 ==> vmem[j] == was[j + d]
        invariant forall j :: 0 <= j < vmem.Length && !(dst + 2 - 2 * i <= j < dst + 2) ==> vmem[j] == was[j]
      {
        ghost var a := dst - 2 * i;
        var low, high := vmem[src - 2 * i], vmem[src - 2 * i + 1];
        assert low == was[a + d] && high == was[a + 1 + d];
        vmem[dst - 2 * i] := low;
        vmem[dst - 2 * i + 1] := high;
        assert forall j :: a + 2 <= j < dst + 2 ==> vmem[j] == was[j + d];
        i := i + 1;
      }
      CopiedIs(was, vmem[..], dst + 2 - 2 * count, src + 2 - 2 * count, 2 * count);
    }

    /** scrup: the region moves up a line, by moving the origin where it can be. */
    method ScrUp()
      requires Trailed() && Window() && top < bottom <= lines && pos == Line(origin, y, cols) + x
      modifies `origin, `scrEnd, `pos, `rows, `trail, vmem
      ensures Window() && rows == Up(old(rows), top, bottom, 1, cols) && pos == Line(origin, y, cols) + x
      ensures KeptOutside(old(vmem[..]), vmem[..], origin, scrEnd)
      ensures Trailed() && trail == old(trail) + [Shot(origin, vmem[..])]
    {
      if ega && top == 0 && bottom == lines {
        origin := origin + cols;
        pos := pos + cols;
        scrEnd := scrEnd + cols;
        if scrEnd > vmem.Length { CopyToStart(); } else { BlankLast(); }
      } else {
        CopyUp();
      }
    }

    /** The copying form of scrup. */
    method CopyUp()
      requires Trailed() && Window() && top < bottom <= lines
      modifies `rows, `trail, vmem
      ensures Window() && rows == Up(old(rows), top, bottom, 1, cols)
      ensures KeptOutside(old(vmem[..]), vmem[..], origin, scrEnd)
      ensures Trailed() && trail == old(trail) + [Shot(origin, vmem[..])]
    {
      hide Confined, Shows, Up, Copied, Filled, KeptOutside, Line;
      PlainUpIs(vmem[..], origin, rows, cols, top, bottom);
      var count := (bottom - top - 1) * cols / 2;
      Movsl(origin + top * cols, origin + (top + 1) * cols, count);
      Stosw(origin + top * cols + 2 * count, cols);
      rows := Up(rows, top, bottom, 1, cols);
      ConfinedOn(old(trail), old(vmem[..]), lines, cols, ega, origin, vmem[..]);
      trail := trail + [Shot(origin, vmem[..])];
    }

    /** The window has moved past the end of video memory: back to its start. */
    method CopyToStart()
      requires Trailed() && cols % 2 == 0 && cols >= 8 && |rows| == lines >= 1 && cols <= origin && ega
               && pos == Line(origin, y, cols) + x
      requires scrEnd == Line(origin, lines, cols) && scrEnd - cols <= vmem.Length
               && Shows(vmem[..], origin - cols, rows, cols)
      modifies `origin, `scrEnd, `pos, `rows, `trail, vmem
      ensures Window() && rows == Up(old(rows), 0, lines, 1, cols) && pos == Line(origin, y, cols) + x
      ensures KeptOutside(old(vmem[..]), vmem[..], origin, scrEnd)
      ensures Trailed() && trail == old(trail) + [Shot(origin, vmem[..])]
    {
      hide Confined, Shows, Up, Copied, Filled, KeptOutside;
      WrapUpIs(vmem[..], origin - cols, rows, cols);
      var count := (lines - 1) * cols / 2;
      Movsl(0, origin, count);
      Stosw(2 * count, cols);
      scrEnd := scrEnd - origin;
      pos := pos - origin;
      origin := 0;
      rows := Up(rows, 0, lines, 1, cols);
      ConfinedOn(old(trail), old(vmem[..]), lines, cols, ega, origin, vmem[..]);
      trail := trail + [Shot(origin, vmem[..])];
    }

    /** The window has moved one line on, over a line to be blanked. */
    method BlankLast()
      requires Trailed() && cols % 2 == 0 && cols >= 8 && |rows| == lines >= 1 && cols <= origin && ega
      requires scrEnd == Line(origin, lines, cols) <= vmem.Length && Shows(vmem[..], origin - cols, rows, cols)
      modifies `rows, `trail, vmem
      ensures Window() && rows == Up(old(rows), 0, lines, 1, cols)
      ensures KeptOutside(old(vmem[..]), vmem[..], origin, scrEnd)
      ensures Trailed() && trail == old(trail) + [Shot(origin, vmem[..])]
    {
      hide Confined, Shows, Up, Filled, KeptOutside;
      FastUpIs(vmem[..], origin - cols, rows, cols);
      Stosw(scrEnd - cols, cols);
      rows := Up(rows, 0, lines, 1, cols);
      ConfinedOn(old(trail), old(vmem[..]), lines, cols, ega, origin, vmem[..]);
      trail := trail + [Shot(origin, vmem[..])];
    }

    /** scrdown. */
    method ScrDown()
      requires Trailed() && Window() && top < bottom <= lines
      modifies `rows, `trail, vmem
      ensures Window() && rows == Down(old(rows), top, bottom, 1, cols)
      ensures KeptOutside(old(vmem[..]), vmem[..], origin, scrEnd)
      ensures Trailed() && trail == old(trail) + [Shot(origin, vmem[..])]
    {
      hide Confined, Shows, Down, Copied, Filled, KeptOutside, Line;
      PlainDownIs(vmem[..], origin, rows, cols, top, bottom);
      var count := (bottom - top - 1) * cols / 2;
      var end := origin + bottom * cols - 2;
      MovslDown(end, origin + (bottom - 1) * cols - 2, count);
      StoswDown(end - 2 * count + 1, cols);
      rows := Down(rows, top, bottom, 1, cols);
      ConfinedOn(old(trail), old(vmem[..]), lines, cols, ega, origin, vmem[..]);
      trail := trail + [Shot(origin, vmem[..])];
    }

    /** x may equal the number of columns; the arguments are unsigned 32-bit. */
    method GotoXY(newX: int, newY: int)
      requires Valid()
      modifies `x, `y, `pos
      ensures Valid() && View() == Goto(old(View()), newX, newY)
    {
      hide Confined, Shows;
      var x1, y1 := newX % WORD, newY % WORD;
      if x1 > cols || y1 >= lines { return; }
      x := x1;
      y := y1;
      pos := origin + y * cols + x;
    }

    method Lf()
      requires Valid()
      modifies this, vmem
      ensures Valid() && View() == LineFeed(old(View()))
      ensures old(trail) <= trail
    {
      hide Confined, Window, Ok, Up, Line, KeptOutside;
      LineFeedOk(View());
      OkRegion(View());
      if y + 1 < bottom {
        LineStep(origin, y, y + 1, cols);
        y := y + 1;
        pos := pos + cols;
        return;
      }
      ScrUp();
    }

    method Ri()
      requires Valid()
      modifies this, vmem
      ensures Valid() && View() == ReverseFeed(old(View()))
      ensures old(trail) <= trail
    {
      hide Confined, Window, Ok, Down, Line, KeptOutside;
      ReverseOk(View());
      OkRegion(View());
      if y > top {
        LineStep(origin, y - 1, y, cols);
        y := y - 1;
        pos := pos - cols;
        return;
      }
      ScrDown();
    }

    method Cr()
      requires Valid()
      modifies `x, `pos
      ensures Valid() && View() == old(View()).(x := 0)
    {
      hide Confined, Shows;
      pos := pos - x;
      x := 0;
    }

    /** A store of one cell at the cursor. */
    method Put(w: nat)
      requires Valid() && x < cols
      modifies `rows, `trail, vmem
      ensures Valid() && View() == SetCell(old(View()), w) && 0 <= pos < vmem.Length
      ensures KeptOutside(old(vmem[..]), vmem[..], origin, scrEnd)
      ensures old(trail) <= trail
    {
      SetCellShows(vmem[..], origin, rows, cols, y, x, w);
      CellInside(origin, y, lines, cols, x);
      ghost var row := rows[y];
      hide Confined, Shows;
      ghost var was := vmem[..];
      vmem[pos] := w;
      assert vmem[..] == was[pos := w];
      rows := rows[y := row[..x] + [w] + row[x + 1..]];
      ConfinedOn(old(trail), old(vmem[..]), lines, cols, ega, origin, vmem[..]);
      trail := trail + [Shot(origin, vmem[..])];
    }

    method Del()
      requires Valid()
      modifies this, vmem
      ensures Valid() && View() == Rubout(old(View()))
      ensures old(trail) <= trail
    {
      if x > 0 {
        pos := pos - 1;
        x := x - 1;
        Put(ERASE);
      }
    }

    /** A printing character. */
    method PutChar(c: nat)
      requires Valid() && c < 256
      modifies this, vmem
      ensures Valid() && View() == Print(old(View()), c)
      ensures old(trail) <= trail
    {
      hide Confined, LineFeed, Shows;
      LineFeedOk(View().(x := 0));
      if x >= cols {
        x := x - cols;
        pos := pos - cols;
        Lf();
      }
      Put(attr * 256 + c);
      pos := pos + 1;
      x := x + 1;
    }

    method PutTab()
      requires Valid()
      modifies this, vmem
      ensures Valid() && View() == Tab(old(View()))
      ensures old(trail) <= trail
    {
      hide Confined, LineFeed, Shows;
      var c := 8 - x % 8;
      x := x + c;
      pos := pos + c;
      if x > cols {
        x := x - cols;
        pos := pos - cols;
        Lf();
      }
    }

    method CsiEraseDisplay(mode: nat)
      requires Valid()
      modifies `rows, `trail, vmem
      ensures Valid() && View() == EraseDisplay(old(View()), mode)
      ensures KeptOutside(old(vmem[..]), vmem[..], origin, scrEnd)
      ensures old(trail) <= trail
    {
      hide Confined, Shows, Filled, EraseDisplay, KeptOutside;
      var count, start;
      ghost var t := View();
      EraseOk(t, mode);
      DisplayErased(vmem[..], t, origin);
      match mode {
        case 0 => count, start := scrEnd - pos, pos;
        case 1 => count, start := pos - origin, origin;
        case 2 => count, start := cols * lines, origin;
        case _ =>
          NothingErased(vmem[..], t, mode, origin, scrEnd);
          return;
      }
      Stosw(start, count);
      rows := EraseDisplay(t, mode).rows;
      ConfinedOn(old(trail), old(vmem[..]), lines, cols, ega, origin, vmem[..]);
      trail := trail + [Shot(origin, vmem[..])];
      ErasedRows(t, mode);
    }

    method CsiEraseLine(mode: nat)
      requires Valid()
      modifies `rows, `trail, vmem
      ensures Valid() && View() == EraseLine(old(View()), mode)
      ensures KeptOutside(old(vmem[..]), vmem[..], origin, scrEnd)
      ensures old(trail) <= trail
    {
      hide Confined, Shows, Filled, EraseLine, KeptOutside;
      var count, start;
      ghost var t := View();
      EraseOk(t, mode);
      LineErased(vmem[..], t, origin);
      match mode {
        case 0 =>
          if x >= cols {
            NothingErased(vmem[..], t, mode, origin, scrEnd);
            return;
          }
          count, start := cols - x, pos;
        case 1 =>
          start := pos - x;
          count := if x < cols then x else cols;
        case 2 =>
          start := pos - x;
          count := cols;
        case _ =>
          NothingErased(vmem[..], t, mode, origin, scrEnd);
          return;
      }
      Stosw(start, count);
      rows := EraseLine(t, mode).rows;
      ConfinedOn(old(trail), old(vmem[..]), lines, cols, ega, origin, vmem[..]);
      trail := trail + [Shot(origin, vmem[..])];
      ErasedRows(t, mode);
    }

    method CsiColours()
      requires Valid()
      modifies `attr
      ensures Valid() && View() == old(View()).(attr := Colours(old(attr), par[..npar + 1]))
    {
      hide Confined, Window, Line;
      var i := 0;
      while i <= npar
        invariant 0 <= i <= npar + 1 && Colours(attr, par[i..npar + 1]) == Colours(old(attr), par[..npar + 1])
        invariant Valid() && View() == old(View()).(attr := attr)
      {
        assert par[i..npar + 1][0] == par[i] && par[i..npar + 1][1..] == par[i + 1..npar + 1];
        match par[i] {
          case 0 => attr := 0x07;
          case 1 => attr := 0x0f;
          case 4 => attr := 0x0f;
          case 7 => attr := 0x70;
          case 27 => attr := 0x07;
          case _ =>
        }
        i := i + 1;
      }
    }

    /** Everything from the cursor on moves one cell right; the last cell is lost. */
    method InsertChar()
      requires Valid()
      modifies `rows, `trail, vmem
      ensures Valid() && View() == InsertChars(old(View()), 1)
      ensures KeptOutside(old(vmem[..]), vmem[..], origin, scrEnd)
      ensures old(trail) <= trail
    {
      hide Confined, Shows, KeptOutside, InsertChars;
      ghost var t, was := View(), vmem[..];
      CellInside(origin, y, lines, cols, x);
      var i, p, old_ := x, pos, ERASE;
      while i < cols
        invariant x <= i <= cols && p == pos + (i - x) && old_ == (if i == x then ERASE else was[p - 1])
        invariant forall j :: pos < j < p ==> vmem[j] == was[j - 1]
        invariant x < i ==> vmem[pos] == ERASE
        invariant forall j :: 0 <= j < vmem.Length && !(pos <= j < p) ==> vmem[j] == was[j]
        modifies vmem
      {
        var tmp := vmem[p];
        vmem[p] := old_;
        old_ := tmp;
        p := p + 1;
        i := i + 1;
      }
      Shifted(was, vmem[..], t, origin);
      rows := InsertChars(t, 1).rows;
      ConfinedOn(old(trail), old(vmem[..]), lines, cols, ega, origin, vmem[..]);
      trail := trail + [Shot(origin, vmem[..])];
    }

    /** Everything behind the cursor moves one cell left. */
    method DeleteChar()
      requires Valid()
      modifies `rows, `trail, vmem
      ensures Valid() && View() == DeleteChars(old(View()), 1)
      ensures KeptOutside(old(vmem[..]), vmem[..], origin, scrEnd)
      ensures old(trail) <= trail
    {
      hide Confined, Shows, KeptOutside, DeleteChars;
      ghost var t, was := View(), vmem[..];
      CellInside(origin, y, lines, cols, x);
      if x >= cols {
        NothingDeleted(vmem[..], t, origin, scrEnd);
        return;
      }
      var i, p := x, pos;
      i := i + 1;
      while i < cols
        invariant x < i <= cols && p == pos + (i - x) - 1
        invariant forall j :: pos <= j < p ==> vmem[j] == was[j + 1]
        invariant forall j :: 0 <= j < vmem.Length && !(pos <= j < p) ==> vmem[j] == was[j]
        modifies vmem
      {
        vmem[p] := vmem[p + 1];
        p := p + 1;
        i := i + 1;
      }
      vmem[p] := ERASE;
      Closed(was, vmem[..], t, origin);
      rows := DeleteChars(t, 1).rows;
      ConfinedOn(old(trail), old(vmem[..]), lines, cols, ega, origin, vmem[..]);
      trail := trail + [Shot(origin, vmem[..])];
    }

    method InsertLine()
      requires Valid()
      modifies this, vmem
      ensures Valid() && View() == InsertLines(old(View()), 1)
      ensures KeptOutside(old(vmem[..]), vmem[..], origin, scrEnd)
      ensures old(trail) <= trail
    {
      hide Confined, Window, Ok, Down, KeptOutside;
      EditOk(View(), 1);
      OkRegion(View());
      var oldTop, oldBottom := top, bottom;
      top := y;
      bottom := lines;
      ScrDown();
      top := oldTop;
      bottom := oldBottom;
    }

    /** On the first line this is a scroll of the whole screen, fast on an EGA. */
    method DeleteLine()
      requires Valid()
      modifies this, vmem
      ensures Valid() && View() == DeleteLines(old(View()), 1)
      ensures KeptOutside(old(vmem[..]), vmem[..], origin, scrEnd)
      ensures old(trail) <= trail
    {
      hide Confined, Window, Ok, Up, KeptOutside;
      EditOk(View(), 1);
      OkRegion(View());
      var oldTop, oldBottom := top, bottom;
      top := y;
      bottom := lines;
      ScrUp();
      top := oldTop;
      bottom := oldBottom;
    }

    /** How often csi_at, csi_L, csi_P and csi_M go round. */
    method Rounds(nr: nat, most: nat) returns (n: nat)
      ensures n == Times(nr, most)
    {
      n := nr;
      if n > most { n := most; } else if n == 0 { n := 1; }
    }

    method CsiInsertChars(nr: nat)
      requires Valid()
      modifies this, vmem
      ensures Valid() && View() == InsertChars(old(View()), Times(nr, cols))
      ensures old(trail) <= trail
    {
      ghost var t := View();
      var n := Rounds(nr, cols);
      hide Confined, Ok, Shows, InsertChars;
      NoEdit(t);
      ghost var k := 0;
      ghost var all := n;
      while n > 0
        invariant old(trail) <= trail && k + n == all && Valid() && View() == InsertChars(t, k)
      {
        n := n - 1;
        InsertMoreChars(t, k);
        InsertChar();
        k := k + 1;
      }
    }

    method CsiDeleteChars(nr: nat)
      requires Valid()
      modifies this, vmem
      ensures Valid() && View() == DeleteChars(old(View()), Times(nr, cols))
      ensures old(trail) <= trail
    {
      ghost var t := View();
      var n := Rounds(nr, cols);
      hide Confined, Ok, Shows, DeleteChars;
      NoEdit(t);
      ghost var k := 0;
      ghost var all := n;
      while n > 0
        invariant old(trail) <= trail && k + n == all && Valid() && View() == DeleteChars(t, k)
      {
        n := n - 1;
        DeleteMoreChars(t, k);
        DeleteChar();
        k := k + 1;
      }
    }

    method CsiInsertLines(nr: nat)
      requires Valid()
      modifies this, vmem
      ensures Valid() && View() == InsertLines(old(View()), Times(nr, lines))
      ensures old(trail) <= trail
    {
      ghost var t := View();
      var n := Rounds(nr, lines);
      hide Confined, Ok, Shows, InsertLines;
      NoEdit(t);
      ghost var k := 0;
      ghost var all := n;
      while n > 0
        invariant old(trail) <= trail && k + n == all && Valid() && View() == InsertLines(t, k)
      {
        n := n - 1;
        InsertMoreLines(t, k);
        InsertLine();
        k := k + 1;
      }
    }

    method CsiDeleteLines(nr: nat)
      requires Valid()
      modifies this, vmem
      ensures Valid() && View() == DeleteLines(old(View()), Times(nr, lines))
      ensures old(trail) <= trail
    {
      ghost var t := View();
      var n := Rounds(nr, lines);
      hide Confined, Ok, Shows, DeleteLines;
      NoEdit(t);
      ghost var k := 0;
      ghost var all := n;
      while n > 0
        invariant old(trail) <= trail && k + n == all && Valid() && View() == DeleteLines(t, k)
      {
        n := n - 1;
        DeleteMoreLines(t, k);
        DeleteLine();
        k := k + 1;
      }
    }

    /** The last byte of a control sequence. */
    method Csi(c: char)
      requires Valid()
      modifies this, vmem
      ensures Valid() && View() == Control(old(View()), c)
      ensures old(trail) <= trail
    {
      hide Confined, Shows, Goto, EraseDisplay, EraseLine, InsertLines, DeleteLines, InsertChars, DeleteChars, Colours,
           Times, Region;
      var p, q := par[0], par[1];
      match c {
        case 'G' => GotoXY(if p > 0 then p - 1 else p, y);
        case '`' => GotoXY(if p > 0 then p - 1 else p, y);
        case 'A' => GotoXY(x, y - if p == 0 then 1 else p);
        case 'B' => GotoXY(x, y + if p == 0 then 1 else p);
        case 'e' => GotoXY(x, y + if p == 0 then 1 else p);
        case 'C' => GotoXY(x + if p == 0 then 1 else p, y);
        case 'a' => GotoXY(x + if p == 0 then 1 else p, y);
        case 'D' => GotoXY(x - if p == 0 then 1 else p, y);
        case 'E' => GotoXY(0, y + if p == 0 then 1 else p);
        case 'F' => GotoXY(0, y - if p == 0 then 1 else p);
        case 'd' => GotoXY(x, if p > 0 then p - 1 else p);
        case 'H' => GotoXY(if q > 0 then q - 1 else q, if p > 0 then p - 1 else p);
        case 'f' => GotoXY(if q > 0 then q - 1 else q, if p > 0 then p - 1 else p);
        case 'J' => CsiEraseDisplay(p);
        case 'K' => CsiEraseLine(p);
        case 'L' => CsiInsertLines(p);
        case 'M' => CsiDeleteLines(p);
        case 'P' => CsiDeleteChars(p);
        case '@' => CsiInsertChars(p);
        case 'm' => CsiColours();
        case 'r' => SetRegion(if p > 0 then p - 1 else p, if q == 0 then lines else q);
        case 's' => SaveCur();
        case 'u' => GotoXY(savedX, savedY);
        case _ =>
      }
    }

    method SetRegion(first: nat, last: nat)
      requires Valid()
      modifies `top, `bottom
      ensures Valid() && View() == Region(old(View()), first, last)
    {
      hide Confined, Shows;
      if first < last && last <= lines {
        top := first;
        bottom := last;
      }
    }

    method SaveCur()
      requires Valid()
      modifies `savedX, `savedY
      ensures Valid() && View() == old(View()).(savedX := x, savedY := y)
    {
      hide Confined, Shows;
      savedX := x;
      savedY := y;
    }

    /** States 3 and 4 of con_write. */
    method ReadParameter(c: char)
      requires Valid()
      modifies this, vmem
      ensures Valid() && View() == Parameter(old(View()), c)
      ensures old(trail) <= trail
    {
      hide Confined, Shows, Control;
      if c == ';' && npar < NPAR - 1 {
        state := 3;
        npar := npar + 1;
      } else if '0' <= c <= '9' {
        state := 3;
        par := par[npar := (10 * par[npar] + (c as int - '0' as int)) % WORD];
      } else {
        state := 0;
        Csi(c);
      }
    }

    method AfterEscape(c: char)
      requires Valid()
      modifies this, vmem
      ensures Valid() && View() == Escape(old(View()), c)
      ensures old(trail) <= trail
    {
      hide Confined, Shows, LineFeed, ReverseFeed, Goto;
      state := 0;
      if c == '[' {
        state := 2;
      } else if c == 'E' {
        GotoXY(0, y + 1);
      } else if c == 'M' {
        Ri();
      } else if c == 'D' {
        Lf();
      } else if c == 'Z' {
        // respond() queues the answer for the reader; the screen stays.
      } else if x == '7' as int {
        SaveCur();
      } else if x == '8' as int {
        GotoXY(savedX, savedY);
      }
    }

    /** State 0 of con_write. */
    method WriteText(c: nat, erase: nat)
      requires Valid() && c < 256
      modifies this, vmem
      ensures Valid() && View() == Text(old(View()), c, erase)
      ensures old(trail) <= trail
    {
      hide Confined, Shows, LineFeed, Print, Rubout, Tab;
      if 31 < c < 127 {
        PutChar(c);
      } else if c == 27 {
        state := 1;
      } else if c == 10 || c == 11 || c == 12 {
        Lf();
      } else if c == 13 {
        Cr();
      } else if c == erase && c < 128 {
        Del();
      } else if c == 8 {
        if x > 0 {
          x := x - 1;
          pos := pos - 1;
        }
      } else if c == 9 {
        PutTab();
      }
    }

    /** con_write for one character of the queue. */
    method WriteByte(c: nat, erase: nat)
      requires Valid() && c < 256
      modifies this, vmem
      ensures Valid() && View() == Shown(old(View()), c, erase)
      ensures old(trail) <= trail
    {
      hide Confined, Shows, Text, Escape, Parameter;
      match state {
        case 0 => WriteText(c, erase);
        case 1 => AfterEscape(c as char);
        case 2 =>
          par := seq(NPAR, _ => 0);
          npar := 0;
          state := 3;
          if c != '?' as int { ReadParameter(c as char); }
        case _ => ReadParameter(c as char);
      }
    }

    /** con_write.  The result does not depend on the display type, nor on where
        in video memory the window is, and no store misses the window. */
    method ConWrite(s: seq<nat>, erase: nat)
      requires Valid() && forall i :: 0 <= i < |s| ==> s[i] < 256
      modifies this, vmem
      ensures Valid() && View() == Typed(old(View()), s, erase)
      ensures old(trail) <= trail
      ensures old(trail) != [] && old(trail)[|old(trail)| - 1].mem == old(vmem[..])
      ensures Confined(trail[|old(trail)| - 1..], vmem[..], lines, cols, ega)
    {
      hide Confined, Shows, Shown, Window;
      ghost var t, n := View(), |trail|;
      ConfinedLast(trail, vmem[..], lines, cols, ega);
      for i := 0 to |s|
        invariant old(trail) <= trail && Valid() && Ok(View()) && Typed(View(), s[i..], erase) == Typed(t, s, erase)
      {
        assert s[i..][0] == s[i] && s[i..][1..] == s[i + 1..];
        WriteByte(s[i], erase);
      }
      ConfinedFrom(trail, vmem[..], lines, cols, ega, n - 1);
    }
  }

  lemma ScrollSize(v: seq<nat>, org: int, rows: seq<seq<nat>>, cols: nat, top: nat, bottom: nat)
    requires Shows(v, org, rows, cols) && top < bottom <= |rows|
    ensures |Up(rows, top, bottom, 1, cols)| == |Down(rows, top, bottom, 1, cols)| == |rows|
  {
    UpGrid(rows, top, bottom, 1, |rows|, cols);
    DownGrid(rows, top, bottom, 1, |rows|, cols);
  }

  /** What the stores of scrup amount to. */
  lemma PlainUpIs(v: seq<nat>, org: int, rows: seq<seq<nat>>, cols: nat, top: nat, bottom: nat)
    requires Shows(v, org, rows, cols) && top < bottom <= |rows| && 0 <= org && Line(org, |rows|, cols) <= |v|
             && cols % 2 == 0
    ensures var count := (bottom - top - 1) * cols / 2; var dst := org + top * cols; var src := org + (top + 1) * cols;
      && 0 <= count && 0 <= dst <= src && src + 2 * count <= |v| && dst + 2 * count + cols <= |v|
      && var v' := Filled(Copied(v, dst, src, 2 * count), dst + 2 * count, cols);
         Shows(v', org, Up(rows, top, bottom, 1, cols), cols) && KeptOutside(v, v', org, Line(org, |rows|, cols))
    ensures |Up(rows, top, bottom, 1, cols)| == |rows|
  {
    hide Shows, Up, Copied, Filled, KeptOutside;
    ScrollSize(v, org, rows, cols, top, bottom);
    LineOrder(org, top, bottom, |rows|, cols);
    EvenCells(bottom - top - 1, cols);
    PlainUp(v, org, rows, cols, top, bottom);
    ScrolledWindow(v, org, cols, top, bottom, |rows|);
    CopiedFacts(v, org + top * cols, org + (top + 1) * cols, (bottom - top - 1) * cols);
  }

  lemma PlainDownIs(v: seq<nat>, org: int, rows: seq<seq<nat>>, cols: nat, top: nat, bottom: nat)
    requires Shows(v, org, rows, cols) && top < bottom <= |rows| && 0 <= org && Line(org, |rows|, cols) <= |v|
             && cols % 2 == 0 && cols >= 2
    ensures var count := (bottom - top - 1) * cols / 2; var dst := org + bottom * cols - 2;
        var src := org + (bottom - 1) * cols - 2;
      && 0 <= count && src <= dst && dst + 2 <= |v| && 0 <= src + 2 - 2 * count && 0 <= dst - 2 * count + 2 - cols
      && var v' := Filled(Copied(v, dst + 2 - 2 * count, src + 2 - 2 * count, 2 * count),
                          dst - 2 * count + 1 + 1 - cols, cols);
         Shows(v', org, Down(rows, top, bottom, 1, cols), cols) && KeptOutside(v, v', org, Line(org, |rows|, cols))
    ensures |Down(rows, top, bottom, 1, cols)| == |rows|
  {
    hide Shows, Down, Copied, Filled, KeptOutside;
    ScrollSize(v, org, rows, cols, top, bottom);
    LineOrder(org, top, bottom, |rows|, cols);
    EvenCells(bottom - top - 1, cols);
    PlainDown(v, org, rows, cols, top, bottom);
    ScrolledWindow(v, org, cols, top, bottom, |rows|);
    CopiedFacts(v, org + (top + 1) * cols, org + top * cols, (bottom - top - 1) * cols);
  }

  lemma WrapUpIs(v: seq<nat>, org: int, rows: seq<seq<nat>>, cols: nat)
    requires Shows(v, org, rows, cols) && rows != [] && 0 <= org && Line(org, |rows|, cols) <= |v| && cols % 2 == 0
    ensures var count := (|rows| - 1) * cols / 2; var lines := |rows|;
      && 0 <= count && org + cols + 2 * count <= |v| && 2 * count + cols <= |v| && 0 <= Line(0, lines, cols) <= |v|
      && var v' := Filled(Copied(v, 0, org + cols, 2 * count), 2 * count, cols);
         Shows(v', 0, Up(rows, 0, lines, 1, cols), cols) && KeptOutside(v, v', 0, Line(0, lines, cols))
    ensures |Up(rows, 0, |rows|, 1, cols)| == |rows|
  {
    hide Shows, Up, Copied, Filled, KeptOutside;
    ScrollSize(v, org, rows, cols, 0, |rows|);
    LineOrder(org, 0, |rows|, |rows|, cols);
    LineOrder(0, 0, |rows|, |rows|, cols);
    EvenCells(|rows| - 1, cols);
    WrapUp(v, org, rows, cols);
    WrappedWindow(v, org, cols, |rows|);
    CopiedFacts(v, 0, org + cols, (|rows| - 1) * cols);
  }

  lemma FastUpIs(v: seq<nat>, org: int, rows: seq<seq<nat>>, cols: nat)
    requires Shows(v, org, rows, cols) && rows != [] && 0 <= org && Line(org, |rows|, cols) + cols <= |v|
    ensures var end := Line(org + cols, |rows|, cols);
      && 0 <= end - cols && end <= |v|
         && Shows(Filled(v, end - cols, cols), org + cols, Up(rows, 0, |rows|, 1, cols), cols)
      && KeptOutside(v, Filled(v, end - cols, cols), org + cols, end)
    ensures |Up(rows, 0, |rows|, 1, cols)| == |rows|
  {
    hide Shows, Up, Filled, KeptOutside;
    ScrollSize(v, org, rows, cols, 0, |rows|);
    LineOrder(org, 0, |rows|, |rows|, cols);
    LineOrder(org + cols, 0, |rows|, |rows|, cols);
    FastUp(v, org, rows, cols);
    FilledWindow(v, Line(org, |rows|, cols), cols, org + cols, Line(org + cols, |rows|, cols));
  }

  /** Scrolling writes only inside the window. */
  lemma ScrolledWindow(v: seq<nat>, org: int, cols: nat, top: nat, bottom: nat, lines: nat)
    requires top < bottom <= lines && 0 <= org && Line(org, lines, cols) <= |v|
    ensures Line(org, bottom, cols) <= |v|
    ensures KeptOutside(v, ScrolledUp(v, org, cols, top, bottom), org, Line(org, lines, cols))
    ensures KeptOutside(v, ScrolledDown(v, org, cols, top, bottom), org, Line(org, lines, cols))
  {
    LineOrder(org, top, bottom, lines, cols);
    var n := (bottom - top - 1) * cols;
    assert org <= Line(org, top, cols);
    CopiedFacts(v, Line(org, top, cols), Line(org, top + 1, cols), n);
    CopiedFacts(v, Line(org, top + 1, cols), Line(org, top, cols), n);
    FilledFacts(Copied(v, Line(org, top, cols), Line(org, top + 1, cols), n), Line(org, bottom - 1, cols), cols);
    FilledFacts(Copied(v, Line(org, top + 1, cols), Line(org, top, cols), n), Line(org, top, cols), cols);
    hide Copied, Filled;
  }

  lemma WrappedWindow(v: seq<nat>, org: int, cols: nat, lines: nat)
    requires lines >= 1 && 0 <= org && Line(org, lines, cols) <= |v|
    ensures KeptOutside(v, WrappedUp(v, org, cols, lines), 0, Line(0, lines, cols))
  {
    LineOrder(org, 0, lines, lines, cols);
    LineOrder(0, 0, lines, lines, cols);
    CopiedFacts(v, 0, org + cols, (lines - 1) * cols);
    FilledFacts(Copied(v, 0, org + cols, (lines - 1) * cols), (lines - 1) * cols, cols);
    hide Copied, Filled;
  }

  lemma FilledWindow(v: seq<nat>, a: int, n: nat, org: int, end: int)
    requires 0 <= org <= a && a + n <= end <= |v|
    ensures KeptOutside(v, Filled(v, a, n), org, end)
  {
    FilledFacts(v, a, n);
    hide Filled;
  }

  lemma OkRegion(t: Term)
    requires Ok(t)
    ensures t.top < t.bottom <= t.lines && t.y < t.lines && t.x <= t.cols
  { }

  lemma ReverseOk(t: Term)
    requires Ok(t)
    ensures Ok(ReverseFeed(t))
  {
    DownGrid(t.rows, t.top, t.bottom, 1, t.lines, t.cols);
  }

  /** What a store of blanks from start is to memory and screen. */
  ghost predicate Erases(v: seq<nat>, start: int, count: int, org: int, t: Term, rows: seq<seq<nat>>) {
    && 0 <= count && 0 <= org <= start && start + count <= Line(org, t.lines, t.cols) <= |v|
    && Shows(Filled(v, start, count), org, rows, t.cols)
    && KeptOutside(v, Filled(v, start, count), org, Line(org, t.lines, t.cols))
  }

  lemma DisplayErased(v: seq<nat>, t: Term, org: int)
    requires Ok(t) && Shows(v, org, t.rows, t.cols) && 0 <= org && Line(org, t.lines, t.cols) <= |v|
    ensures var pos := Line(org, t.y, t.cols) + t.x;
      && Erases(v, pos, Line(org, t.lines, t.cols) - pos, org, t, EraseDisplay(t, 0).rows)
      && Erases(v, org, pos - org, org, t, EraseDisplay(t, 1).rows)
      && Erases(v, org, t.cols * t.lines, org, t, EraseDisplay(t, 2).rows)
  {
    hide Shows, Filled, KeptOutside;
    CellInside(org, t.y, t.lines, t.cols, t.x);
    FillBelow(v, org, t.rows, t.cols, t.y, t.x);
    FillAbove(v, org, t.rows, t.cols, t.y, t.x);
    FillAll(v, org, t.rows, t.cols);
    var pos := Line(org, t.y, t.cols) + t.x;
    var end := Line(org, t.lines, t.cols);
    assert t.cols * t.lines == end - org;
    FilledWindow(v, pos, end - pos, org, end);
    FilledWindow(v, org, pos - org, org, end);
    FilledWindow(v, org, t.cols * t.lines, org, end);
  }

  lemma LineErased(v: seq<nat>, t: Term, org: int)
    requires Ok(t) && Shows(v, org, t.rows, t.cols) && 0 <= org && Line(org, t.lines, t.cols) <= |v|
    ensures var start := Line(org, t.y, t.cols);
      && Erases(v, start + t.x, t.cols - t.x, org, t, EraseLine(t, 0).rows)
      && Erases(v, start, t.x, org, t, EraseLine(t, 1).rows)
      && Erases(v, start, t.cols, org, t, EraseLine(t, 2).rows)
  {
    hide Shows, Filled, KeptOutside;
    CellInside(org, t.y, t.lines, t.cols, t.x);
    FillLine(v, org, t.rows, t.cols, t.y, t.x, t.cols);
    FillLine(v, org, t.rows, t.cols, t.y, 0, t.x);
    FillLine(v, org, t.rows, t.cols, t.y, 0, t.cols);
    var row := t.rows[t.y];
    assert row[..t.x] + Blanks(t.cols - t.x) + row[t.cols..] == row[..t.x] + Blanks(t.cols - t.x);
    assert row[..0] + Blanks(t.x - 0) + row[t.x..] == Blanks(t.x) + row[t.x..];
    assert row[..0] + Blanks(t.cols - 0) + row[t.cols..] == Blanks(t.cols);
    var start := Line(org, t.y, t.cols);
    var end := Line(org, t.lines, t.cols);
    FilledWindow(v, start + t.x, t.cols - t.x, org, end);
    FilledWindow(v, start, t.x, org, end);
    FilledWindow(v, start, t.cols, org, end);
  }

  lemma NothingErased(v: seq<nat>, t: Term, mode: nat, a: int, b: int)
    requires Ok(t)
    ensures mode > 2 ==> EraseDisplay(t, mode) == t && EraseLine(t, mode) == t
    ensures mode == 0 && t.x == t.cols ==> EraseLine(t, mode) == t
    ensures KeptOutside(v, v, a, b)
  {
    var row := t.rows[t.y];
    assert t.x == t.cols ==> row[..t.x] + Blanks(t.cols - t.x) == row;
    assert t.rows[t.y := row] == t.rows;
  }

  lemma ErasedRows(t: Term, mode: nat)
    requires Ok(t)
    ensures EraseDisplay(t, mode) == t.(rows := EraseDisplay(t, mode).rows)
    ensures EraseLine(t, mode) == t.(rows := EraseLine(t, mode).rows)
  { }

  lemma Shifted(v: seq<nat>, v': seq<nat>, t: Term, org: int)
    requires Ok(t) && Shows(v, org, t.rows, t.cols) && 0 <= org && Line(org, t.lines, t.cols) <= |v| && |v'| == |v|
    requires var pos := Line(org, t.y, t.cols) + t.x; var end := Line(org, t.y, t.cols) + t.cols;
      && 0 <= pos <= end <= |v|
      && (forall j :: pos < j < end ==> v'[j] == v[j - 1])
      && (pos < end ==> v'[pos] == ERASE)
      && forall j :: 0 <= j < |v| && !(pos <= j < end) ==> v'[j] == v[j]
    ensures Ok(InsertChars(t, 1)) && Shows(v', org, InsertChars(t, 1).rows, t.cols)
            && InsertChars(t, 1) == t.(rows := InsertChars(t, 1).rows)
    ensures KeptOutside(v, v', org, Line(org, t.lines, t.cols))
  {
    EditOk(t, 1);
    CellInside(org, t.y, t.lines, t.cols, t.x);
    var start := Line(org, t.y, t.cols);
    var row := t.rows[t.y];
    var row' := InsertChars(t, 1).rows[t.y];
    assert RowAt(v, start, row);
    var now, was := v'[start..start + t.cols], v[start..start + t.cols];
    forall k | 0 <= k < t.cols ensures now[k] == row'[k] {
      assert was[k] == row[k];
      assert k > t.x ==> row'[k] == row[k - 1] == was[k - 1] && now[k] == v[start + k - 1];
    }
    EditRow(v, v', org, t.rows, t.cols, t.y, row');
  }

  lemma Closed(v: seq<nat>, v': seq<nat>, t: Term, org: int)
    requires Ok(t) && t.x < t.cols && Shows(v, org, t.rows, t.cols) && 0 <= org && Line(org, t.lines, t.cols) <= |v|
             && |v'| == |v|
    requires var pos := Line(org, t.y, t.cols) + t.x; var end := Line(org, t.y, t.cols) + t.cols;
      && 0 <= pos < end <= |v|
      && (forall j :: pos <= j < end - 1 ==> v'[j] == v[j + 1])
      && v'[end - 1] == ERASE
      && forall j :: 0 <= j < |v| && !(pos <= j < end) ==> v'[j] == v[j]
    ensures Ok(DeleteChars(t, 1)) && Shows(v', org, DeleteChars(t, 1).rows, t.cols)
            && DeleteChars(t, 1) == t.(rows := DeleteChars(t, 1).rows)
    ensures KeptOutside(v, v', org, Line(org, t.lines, t.cols))
  {
    EditOk(t, 1);
    CellInside(org, t.y, t.lines, t.cols, t.x);
    var start := Line(org, t.y, t.cols);
    var row := t.rows[t.y];
    var row' := DeleteChars(t, 1).rows[t.y];
    assert RowAt(v, start, row);
    var now, was := v'[start..start + t.cols], v[start..start + t.cols];
    forall k | 0 <= k < t.cols ensures now[k] == row'[k] {
      assert was[k] == row[k];
      assert t.x <= k < t.cols - 1 ==> row'[k] == row[k + 1] == was[k + 1] && now[k] == v[start + k + 1];
    }
    EditRow(v, v', org, t.rows, t.cols, t.y, row');
  }

  lemma NothingDeleted(v: seq<nat>, t: Term, a: int, b: int)
    requires Ok(t) && t.x == t.cols
    ensures DeleteChars(t, 1) == t && KeptOutside(v, v, a, b)
  {
    var row := t.rows[t.y];
    assert row[..t.x] + row[t.x + 0..] + Blanks(0) == row;
    assert t.rows[t.y := row] == t.rows;
  }

  lemma NoEdit(t: Term)
    requires Ok(t)
    ensures InsertChars(t, 0) == t && DeleteChars(t, 0) == t && InsertLines(t, 0) == t && DeleteLines(t, 0) == t
  {
    var row := t.rows[t.y];
    assert row[..t.x] + Blanks(0) + row[t.x..t.cols - 0] == row && row[..t.x] + row[t.x + 0..] + Blanks(0) == row;
    assert t.rows[t.y := row] == t.rows;
    assert Down(t.rows, t.y, t.lines, 0, t.cols) == t.rows && Up(t.rows, t.y, t.lines, 0, t.cols) == t.rows;
  }

  lemma InsertMoreChars(t: Term, k: nat)
    requires Ok(t)
    ensures Ok(InsertChars(t, k)) && InsertChars(InsertChars(t, k), 1) == InsertChars(t, k + 1)
  {
    hide InsertChars;
    EditOk(t, k);
    InsertAt(t, k);
    var t1 := InsertChars(t, k);
    InsertAt(t, k + 1);
    InsertAt(t1, 1);
    var one, more := InsertChars(t1, 1).rows[t.y], InsertChars(t, k + 1).rows[t.y];
    forall i | 0 <= i < t.cols ensures one[i] == more[i] { }
    SameRows(InsertChars(t1, 1), InsertChars(t, k + 1), t1, t);
  }

  lemma SameRows(a: Term, b: Term, t1: Term, t: Term)
    requires Ok(t) && Ok(t1) && t1 == t.(rows := t1.rows) && |t1.rows| == |t.rows|
    requires forall r :: 0 <= r < |t.rows| && r != t.y ==> t1.rows[r] == t.rows[r]
    requires a == t.(rows := a.rows) && b == t.(rows := b.rows) && |a.rows| == |b.rows| == |t.rows|
    requires forall r :: 0 <= r < |t.rows| && r != t.y ==> a.rows[r] == t1.rows[r] && b.rows[r] == t.rows[r]
    requires a.rows[t.y] == b.rows[t.y]
    ensures a == b
  {
    assert a.rows == b.rows;
  }

  lemma InsertAt(t: Term, n: nat)
    requires Ok(t)
    ensures var s := InsertChars(t, n); var k := Least(n, t.cols - t.x);
      && s == t.(rows := s.rows) && |s.rows| == |t.rows|
         && (forall r :: 0 <= r < |t.rows| && r != t.y ==> s.rows[r] == t.rows[r])
      && |s.rows[t.y]| == t.cols
      && (forall i :: 0 <= i < t.x ==> s.rows[t.y][i] == t.rows[t.y][i])
      && (forall i :: t.x <= i < t.x + k ==> s.rows[t.y][i] == ERASE)
      && forall i :: t.x + k <= i < t.cols ==> s.rows[t.y][i] == t.rows[t.y][i - k]
  { }

  function Deleted(row: seq<nat>, x: nat, k: nat): seq<nat>
    requires x + k <= |row|
  { row[..x] + row[x + k..] + Blanks(k) }

  lemma DeletedMore(row: seq<nat>, x: nat, n: nat)
    requires x + n <= |row|
    ensures |Deleted(row, x, n)| == |row|
    ensures Deleted(Deleted(row, x, n), x, Least(1, |row| - x)) == Deleted(row, x, Least(n + 1, |row| - x))
  {
    var d := Deleted(row, x, n);
    assert d[..x] == row[..x];
    if x + n < |row| {
      assert d[x + 1..] == row[x + n + 1..] + Blanks(n);
      assert Blanks(n) + Blanks(1) == Blanks(n + 1);
    } else if n > 0 {
      assert d[x + 1..] == Blanks(n - 1);
      assert Blanks(n - 1) + Blanks(1) == Blanks(n);
    }
  }

  lemma DeleteMoreChars(t: Term, k: nat)
    requires Ok(t)
    ensures Ok(DeleteChars(t, k)) && DeleteChars(DeleteChars(t, k), 1) == DeleteChars(t, k + 1)
  {
    EditOk(t, k);
    var row := t.rows[t.y];
    DeletedMore(row, t.x, Least(k, t.cols - t.x));
    hide Blanks;
    var row1 := Deleted(row, t.x, Least(k, t.cols - t.x));
    assert t.rows[t.y := row1][t.y := Deleted(row1, t.x, Least(1, t.cols - t.x))]
           == t.rows[t.y := Deleted(row, t.x, Least(k + 1, t.cols - t.x))];
  }

  lemma InsertMoreLines(t: Term, k: nat)
    requires Ok(t)
    ensures Ok(InsertLines(t, k)) && InsertLines(InsertLines(t, k), 1) == InsertLines(t, k + 1)
  {
    EditOk(t, k);
    DownMore(t.rows, t.y, t.lines, Least(k, t.lines - t.y), t.lines, t.cols);
    hide Down, Ok;
  }

  lemma DeleteMoreLines(t: Term, k: nat)
    requires Ok(t)
    ensures Ok(DeleteLines(t, k)) && DeleteLines(DeleteLines(t, k), 1) == DeleteLines(t, k + 1)
  {
    EditOk(t, k);
    UpMore(t.rows, t.y, t.lines, Least(k, t.lines - t.y), t.lines, t.cols);
    hide Up, Ok;
  }

  lemma DownMore(rows: seq<seq<nat>>, top: nat, bottom: nat, n: nat, lines: nat, cols: nat)
    requires Grid(rows, lines, cols) && n <= bottom - top && top < bottom <= lines
    ensures |Down(rows, top, bottom, n, cols)| == lines
    ensures Down(Down(rows, top, bottom, n, cols), top, bottom, 1, cols)
            == Down(rows, top, bottom, Least(n + 1, bottom - top), cols)
  {
    hide Down;
    DownGrid(rows, top, bottom, n, lines, cols);
    DownGrid(rows, top, bottom, Least(n + 1, bottom - top), lines, cols);
    DownGrid(Down(rows, top, bottom, n, cols), top, bottom, 1, lines, cols);
    var a := Down(Down(rows, top, bottom, n, cols), top, bottom, 1, cols);
    var b := Down(rows, top, bottom, Least(n + 1, bottom - top), cols);
    forall r | 0 <= r < lines ensures a[r] == b[r] { }
  }

  lemma UpMore(rows: seq<seq<nat>>, top: nat, bottom: nat, n: nat, lines: nat, cols: nat)
    requires Grid(rows, lines, cols) && n <= bottom - top && top < bottom <= lines
    ensures |Up(rows, top, bottom, n, cols)| == lines
    ensures Up(Up(rows, top, bottom, n, cols), top, bottom, 1, cols)
            == Up(rows, top, bottom, Least(n + 1, bottom - top), cols)
  {
    hide Up;
    UpGrid(rows, top, bottom, n, lines, cols);
    UpGrid(rows, top, bottom, Least(n + 1, bottom - top), lines, cols);
    UpGrid(Up(rows, top, bottom, n, cols), top, bottom, 1, lines, cols);
    var a := Up(Up(rows, top, bottom, n, cols), top, bottom, 1, cols);
    var b := Up(rows, top, bottom, Least(n + 1, bottom - top), cols);
    forall r | 0 <= r < lines ensures a[r] == b[r] { }
  }

  /** Fast and plain scrolling show the same: two displays that show the same
      screen still do after the same output, whatever their types. */
  method BothShow(fast: Screen, plain: Screen, s: seq<nat>, erase: nat)
    requires fast != plain && fast.vmem != plain.vmem && fast.Valid() && plain.Valid() && fast.View() == plain.View()
    requires forall i :: 0 <= i < |s| ==> s[i] < 256
    modifies fast, fast.vmem, plain, plain.vmem
    ensures fast.Valid() && plain.Valid() && fast.View() == plain.View()
  {
    fast.ConWrite(s, erase);
    plain.ConWrite(s, erase);
  }
}
