/** How a grid of rows lies in video memory, and what filling and copying do to
    it.  Addresses are counted in cells (two bytes) from video_mem_start. */
module VideoMemory {
  import opened Terminal

  ghost predicate RowAt(v: seq<nat>, p: int, row: seq<nat>) { 0 <= p && p + |row| <= |v| && v[p..p + |row|] == row }

  /** The cell where line r of the window starts. */
  function Line(org: int, r: int, cols: int): int { org + r * cols }

  /** The window at org holds the rows. */
  ghost predicate Shows(v: seq<nat>, org: int, rows: seq<seq<nat>>, cols: int) {
    forall r :: 0 <= r < |rows| ==> |rows[r]| == cols && RowAt(v, Line(org, r, cols), rows[r])
  }

  function Filled(v: seq<nat>, a: int, n: nat): seq<nat>
    requires 0 <= a && a + n <= |v|
  { v[..a] + Blanks(n) + v[a + n..] }

  function Copied(v: seq<nat>, dst: int, src: int, n: nat): seq<nat>
    requires 0 <= dst && dst + n <= |v| && 0 <= src && src + n <= |v|
  { v[..dst] + v[src..src + n] + v[dst + n..] }

  lemma LineStep(org: int, r: int, s: int, cols: nat)
    requires r < s
    ensures Line(org, r, cols) + cols == Line(org, r + 1, cols) <= Line(org, s, cols)
    ensures Line(org, s, cols) - Line(org, r, cols) == (s - r) * cols
  {
    LineGap(r, s, cols);
  }

  lemma LineGap(r: int, s: int, cols: nat)
    requires r < s
    ensures r * cols + cols == (r + 1) * cols <= s * cols && s * cols - r * cols == (s - r) * cols
  {
    var gap := s - r - 1;
    assert gap * cols >= 0;
    assert s == r + 1 + gap;
    assert (r + 1 + gap) * cols == r * cols + cols + gap * cols;
    assert (1 + gap) * cols == cols + gap * cols;
  }

  lemma FilledFacts(v: seq<nat>, a: int, n: nat)
    requires 0 <= a && a + n <= |v|
    ensures |Filled(v, a, n)| == |v|
    ensures forall i :: 0 <= i < |v| ==> Filled(v, a, n)[i] == if a <= i < a + n then ERASE else v[i]
  { }

  lemma CopiedFacts(v: seq<nat>, dst: int, src: int, n: nat)
    requires 0 <= dst && dst + n <= |v| && 0 <= src && src + n <= |v|
    ensures |Copied(v, dst, src, n)| == |v|
    ensures var v' := Copied(v, dst, src, n);
      && (forall i :: dst <= i < dst + n ==> v'[i] == v[i + (src - dst)])
      && forall i :: 0 <= i < |v| && !(dst <= i < dst + n) ==> v'[i] == v[i]
  { }

  /** Rows below and above a change stay. */
  lemma Outside(v: seq<nat>, v': seq<nat>, a: int, b: int, p: int, row: seq<nat>)
    requires RowAt(v, p, row) && |v'| == |v| && (p + |row| <= a || b <= p)
    requires forall i :: 0 <= i < |v| && !(a <= i < b) ==> v'[i] == v[i]
    ensures RowAt(v', p, row)
  {
    var now, was := v'[p..p + |row|], v[p..p + |row|];
    forall k | 0 <= k < |row| ensures now[k] == was[k] { }
  }

  /** Copying whole lines from src to dst moves their rows. */
  lemma MovedRow(v: seq<nat>, dst: int, src: int, n: nat, p: int, row: seq<nat>)
    requires 0 <= dst && dst + n <= |v| && 0 <= src && src + n <= |v|
    requires RowAt(v, p, row) && src <= p && p + |row| <= src + n
    ensures RowAt(Copied(v, dst, src, n), p - src + dst, row)
  {
    CopiedFacts(v, dst, src, n);
    var v' := Copied(v, dst, src, n);
    hide Copied;
    var q := p - src + dst;
    var now, was := v'[q..q + |row|], v[p..p + |row|];
    forall k | 0 <= k < |row| ensures now[k] == was[k] { }
  }

  lemma BlankRow(v: seq<nat>, a: int, n: nat, p: int, cols: nat)
    requires 0 <= a && a + n <= |v| && a <= p && p + cols <= a + n
    ensures RowAt(Filled(v, a, n), p, Blanks(cols))
  {
    FilledFacts(v, a, n);
    var v' := Filled(v, a, n);
    hide Filled;
    var now := v'[p..p + cols];
    forall k | 0 <= k < cols ensures now[k] == ERASE { }
  }

  lemma FilledAround(v: seq<nat>, a: int, n: nat, p: int, row: seq<nat>)
    requires 0 <= a && a + n <= |v| && RowAt(v, p, row) && (p + |row| <= a || a + n <= p)
    ensures RowAt(Filled(v, a, n), p, row)
  {
    FilledFacts(v, a, n);
    hide Filled;
    Outside(v, Filled(v, a, n), a, a + n, p, row);
  }

  lemma CopiedAround(v: seq<nat>, dst: int, src: int, n: nat, p: int, row: seq<nat>)
    requires 0 <= dst && dst + n <= |v| && 0 <= src && src + n <= |v| && RowAt(v, p, row)
             && (p + |row| <= dst || dst + n <= p)
    ensures RowAt(Copied(v, dst, src, n), p, row)
  {
    CopiedFacts(v, dst, src, n);
    hide Copied;
    Outside(v, Copied(v, dst, src, n), dst, dst + n, p, row);
  }

  /** The plain scroll: lines top+1 to bottom are copied one line up. */
  lemma PlainUp(v: seq<nat>, org: int, rows: seq<seq<nat>>, cols: nat, top: nat, bottom: nat)
    requires Shows(v, org, rows, cols) && top < bottom <= |rows| && 0 <= org && Line(org, |rows|, cols) <= |v|
    ensures Line(org, bottom, cols) <= |v|
            && Shows(ScrolledUp(v, org, cols, top, bottom), org, Up(rows, top, bottom, 1, cols), cols)
  {
    hide Copied, Filled, Up, RowAt;
    LineOrder(org, top, bottom, |rows|, cols);
    var rows' := Up(rows, top, bottom, 1, cols);
    UpGrid(rows, top, bottom, 1, |rows|, cols);
    forall r | 0 <= r < |rows'|
      ensures |rows'[r]| == cols && RowAt(ScrolledUp(v, org, cols, top, bottom), Line(org, r, cols), rows'[r])
    {
      if top <= r < bottom - 1 {
        assert rows'[r] == rows[r + 1];
        PlainUpInside(v, org, cols, top, bottom, r, rows[r + 1]);
      } else {
        assert rows'[r] == if r == bottom - 1 then Blanks(cols) else rows[r];
        PlainUpOutside(v, org, cols, top, bottom, r, if r == bottom - 1 then Blanks(cols) else rows[r]);
      }
    }
  }

  /** The memory after copying lines top+1 to bottom one line up and blanking the
      last. */
  function ScrolledUp(v: seq<nat>, org: int, cols: nat, top: nat, bottom: nat): seq<nat>
    requires top < bottom && 0 <= org && Line(org, bottom, cols) <= |v|
  {
    LineOrder(org, top, bottom, bottom, cols);
    var n := (bottom - top - 1) * cols;
    Filled(Copied(v, Line(org, top, cols), Line(org, top + 1, cols), n), Line(org, bottom - 1, cols), cols)
  }

  lemma PlainUpInside(v: seq<nat>, org: int, cols: nat, top: nat, bottom: nat, r: nat, row: seq<nat>)
    requires 0 <= org && top <= r < bottom - 1 && Line(org, bottom, cols) <= |v|
             && RowAt(v, Line(org, r + 1, cols), row) && |row| == cols
    ensures RowAt(ScrolledUp(v, org, cols, top, bottom), Line(org, r, cols), row)
  {
    hide Copied, Filled, RowAt;
    var n := (bottom - top - 1) * cols;
    LineOrder(org, top, bottom, bottom, cols);
    LinesInside(org, top, r, bottom, cols);
    CopiedFacts(v, Line(org, top, cols), Line(org, top + 1, cols), n);
    MovedRow(v, Line(org, top, cols), Line(org, top + 1, cols), n, Line(org, r + 1, cols), row);
    FilledAround(Copied(v, Line(org, top, cols), Line(org, top + 1, cols), n), Line(org, bottom - 1, cols), cols,
                 Line(org, r, cols), row);
  }

  lemma PlainUpOutside(v: seq<nat>, org: int, cols: nat, top: nat, bottom: nat, r: nat, row: seq<nat>)
    requires 0 <= org && top < bottom && Line(org, bottom, cols) <= |v| && |row| == cols
    requires if r == bottom - 1 then row == Blanks(cols)
             else (r < top || bottom <= r) && RowAt(v, Line(org, r, cols), row)
    ensures RowAt(ScrolledUp(v, org, cols, top, bottom), Line(org, r, cols), row)
  {
    hide Copied, Filled, RowAt;
    var n := (bottom - top - 1) * cols;
    LineOrder(org, top, bottom, bottom, cols);
    CopiedFacts(v, Line(org, top, cols), Line(org, top + 1, cols), n);
    var v1 := Copied(v, Line(org, top, cols), Line(org, top + 1, cols), n);
    if r == bottom - 1 {
      BlankRow(v1, Line(org, r, cols), cols, Line(org, r, cols), cols);
    } else {
      LinesOutside(org, top, r, bottom, cols);
      CopiedAround(v, Line(org, top, cols), Line(org, top + 1, cols), n, Line(org, r, cols), row);
      FilledAround(v1, Line(org, bottom - 1, cols), cols, Line(org, r, cols), row);
    }
  }

  lemma LineOrder(org: int, top: nat, bottom: nat, lines: nat, cols: nat)
    requires top < bottom <= lines && 0 <= org
    ensures var n := (bottom - top - 1) * cols;
      && 0 <= n && 0 <= Line(org, top, cols) && Line(org, top, cols) + cols == Line(org, top + 1, cols)
      && Line(org, top, cols) + n == Line(org, bottom - 1, cols)
         && Line(org, bottom - 1, cols) + cols == Line(org, bottom, cols)
      && Line(org, bottom, cols) <= Line(org, lines, cols)
  {
    assert top * cols >= 0;
    if top < bottom - 1 { LineStep(org, top, bottom - 1, cols); }
    LineStep(org, bottom - 1, bottom, cols);
    LineStep(org, top, top + 1, cols);
    if bottom < lines { LineStep(org, bottom, lines, cols); }
  }

  lemma LinesInside(org: int, top: nat, r: nat, bottom: nat, cols: nat)
    requires top <= r < bottom - 1
    ensures Line(org, top + 1, cols) <= Line(org, r + 1, cols) == Line(org, r, cols) + cols
    ensures Line(org, r, cols) + cols <= Line(org, bottom - 1, cols)
    ensures Line(org, r + 1, cols) + cols <= Line(org, bottom, cols) == Line(org, bottom - 1, cols) + cols
    ensures Line(org, r + 1, cols) - Line(org, top + 1, cols) + Line(org, top, cols) == Line(org, r, cols)
  {
    LineStep(org, r, bottom - 1, cols);
    LineStep(org, r + 1, bottom, cols);
    LineStep(org, bottom - 1, bottom, cols);
    LineStep(org, top, top + 1, cols);
    if top < r { LineStep(org, top, r, cols); LineStep(org, top + 1, r + 1, cols); }
  }

  lemma LinesOutside(org: int, top: nat, r: nat, bottom: nat, cols: nat)
    requires top < bottom && (r < top || bottom <= r)
    ensures if r < top then Line(org, r, cols) + cols <= Line(org, top, cols) <= Line(org, bottom - 1, cols)
            else Line(org, bottom - 1, cols) + cols == Line(org, bottom, cols) <= Line(org, r, cols)
  {
    LineStep(org, bottom - 1, bottom, cols);
    if top < bottom - 1 { LineStep(org, top, bottom - 1, cols); }
    if r < top { LineStep(org, r, top, cols); } else if bottom < r { LineStep(org, bottom, r, cols); }
  }

  /** The plain scroll down: lines top to bottom-1 are copied one line down. */
  function ScrolledDown(v: seq<nat>, org: int, cols: nat, top: nat, bottom: nat): seq<nat>
    requires top < bottom && 0 <= org && Line(org, bottom, cols) <= |v|
  {
    LineOrder(org, top, bottom, bottom, cols);
    var n := (bottom - top - 1) * cols;
    Filled(Copied(v, Line(org, top + 1, cols), Line(org, top, cols), n), Line(org, top, cols), cols)
  }

  lemma PlainDown(v: seq<nat>, org: int, rows: seq<seq<nat>>, cols: nat, top: nat, bottom: nat)
    requires Shows(v, org, rows, cols) && top < bottom <= |rows| && 0 <= org && Line(org, |rows|, cols) <= |v|
    ensures Line(org, bottom, cols) <= |v|
            && Shows(ScrolledDown(v, org, cols, top, bottom), org, Down(rows, top, bottom, 1, cols), cols)
  {
    hide Copied, Filled, Down, RowAt;
    LineOrder(org, top, bottom, |rows|, cols);
    var rows' := Down(rows, top, bottom, 1, cols);
    DownGrid(rows, top, bottom, 1, |rows|, cols);
    forall r | 0 <= r < |rows'|
      ensures |rows'[r]| == cols && RowAt(ScrolledDown(v, org, cols, top, bottom), Line(org, r, cols), rows'[r])
    {
      if top < r < bottom {
        assert rows'[r] == rows[r - 1];
        PlainDownInside(v, org, cols, top, bottom, r, rows[r - 1]);
      } else {
        assert rows'[r] == if r == top then Blanks(cols) else rows[r];
        PlainDownOutside(v, org, cols, top, bottom, r, if r == top then Blanks(cols) else rows[r]);
      }
    }
  }

  lemma PlainDownInside(v: seq<nat>, org: int, cols: nat, top: nat, bottom: nat, r: nat, row: seq<nat>)
    requires 0 <= org && top < r < bottom && Line(org, bottom, cols) <= |v| && RowAt(v, Line(org, r - 1, cols), row)
             && |row| == cols
    ensures RowAt(ScrolledDown(v, org, cols, top, bottom), Line(org, r, cols), row)
  {
    hide Copied, Filled, RowAt;
    var n := (bottom - top - 1) * cols;
    LineOrder(org, top, bottom, bottom, cols);
    LinesInside(org, top, r - 1, bottom, cols);
    if top < r - 1 { LineStep(org, top, r - 1, cols); }
    CopiedFacts(v, Line(org, top + 1, cols), Line(org, top, cols), n);
    MovedRow(v, Line(org, top + 1, cols), Line(org, top, cols), n, Line(org, r - 1, cols), row);
    FilledAround(Copied(v, Line(org, top + 1, cols), Line(org, top, cols), n), Line(org, top, cols), cols,
                 Line(org, r, cols), row);
  }

  lemma PlainDownOutside(v: seq<nat>, org: int, cols: nat, top: nat, bottom: nat, r: nat, row: seq<nat>)
    requires 0 <= org && top < bottom && Line(org, bottom, cols) <= |v| && |row| == cols
    requires if r == top then row == Blanks(cols) else (r < top || bottom <= r) && RowAt(v, Line(org, r, cols), row)
    ensures RowAt(ScrolledDown(v, org, cols, top, bottom), Line(org, r, cols), row)
  {
    hide Copied, Filled, RowAt;
    var n := (bottom - top - 1) * cols;
    LineOrder(org, top, bottom, bottom, cols);
    CopiedFacts(v, Line(org, top + 1, cols), Line(org, top, cols), n);
    var v1 := Copied(v, Line(org, top + 1, cols), Line(org, top, cols), n);
    if r == top {
      BlankRow(v1, Line(org, r, cols), cols, Line(org, r, cols), cols);
    } else {
      LinesOutside(org, top, r, bottom, cols);
      CopiedAround(v, Line(org, top + 1, cols), Line(org, top, cols), n, Line(org, r, cols), row);
      FilledAround(v1, Line(org, top, cols), cols, Line(org, r, cols), row);
    }
  }

  lemma UpAll(rows: seq<seq<nat>>, cols: nat)
    requires rows != [] && Grid(rows, |rows|, cols)
    ensures Up(rows, 0, |rows|, 1, cols) == rows[1..] + [Blanks(cols)]
  {
    assert BlankRows(1, cols) == [Blanks(cols)];
  }

  /** The fast scroll: the window moves one line on, over a blanked line. */
  lemma FastUp(v: seq<nat>, org: int, rows: seq<seq<nat>>, cols: nat)
    requires Shows(v, org, rows, cols) && rows != [] && 0 <= org && Line(org, |rows|, cols) + cols <= |v|
    ensures 0 <= Line(org, |rows|, cols)
    ensures Shows(Filled(v, Line(org, |rows|, cols), cols), org + cols, Up(rows, 0, |rows|, 1, cols), cols)
  {
    hide Filled, Up, RowAt;
    var lines := |rows|;
    LineOrder(org, 0, lines, lines, cols);
    UpAll(rows, cols);
    var rows' := Up(rows, 0, lines, 1, cols);
    var v' := Filled(v, Line(org, lines, cols), cols);
    forall r | 0 <= r < |rows'| ensures |rows'[r]| == cols && RowAt(v', Line(org + cols, r, cols), rows'[r]) {
      LineStep(org, r, lines, cols);
      assert Line(org + cols, r, cols) == Line(org, r + 1, cols);
      assert rows'[r] == if r == lines - 1 then Blanks(cols) else rows[r + 1];
      if r == lines - 1 {
        BlankRow(v, Line(org, lines, cols), cols, Line(org, r + 1, cols), cols);
      } else {
        LineStep(org, r + 1, lines, cols);
        FilledAround(v, Line(org, lines, cols), cols, Line(org, r + 1, cols), rows[r + 1]);
      }
    }
  }

  /** At the end of video memory the window is copied back to its start. */
  function WrappedUp(v: seq<nat>, org: int, cols: nat, lines: nat): seq<nat>
    requires lines >= 1 && 0 <= org && Line(org, lines, cols) <= |v|
  {
    LineOrder(org, 0, lines, lines, cols);
    LineOrder(0, 0, lines, lines, cols);
    Filled(Copied(v, 0, org + cols, (lines - 1) * cols), (lines - 1) * cols, cols)
  }

  lemma WrapUp(v: seq<nat>, org: int, rows: seq<seq<nat>>, cols: nat)
    requires Shows(v, org, rows, cols) && rows != [] && 0 <= org && Line(org, |rows|, cols) <= |v|
    ensures Shows(WrappedUp(v, org, cols, |rows|), 0, Up(rows, 0, |rows|, 1, cols), cols)
  {
    hide WrappedUp, Up, RowAt;
    UpAll(rows, cols);
    var rows' := Up(rows, 0, |rows|, 1, cols);
    forall r | 0 <= r < |rows'|
      ensures |rows'[r]| == cols && RowAt(WrappedUp(v, org, cols, |rows|), Line(0, r, cols), rows'[r])
    {
      if r == |rows| - 1 {
        WrappedLast(v, org, cols, |rows|);
      } else {
        WrappedRow(v, org, cols, |rows|, r, rows[r + 1]);
      }
    }
  }

  lemma WrappedLast(v: seq<nat>, org: int, cols: nat, lines: nat)
    requires lines >= 1 && 0 <= org && Line(org, lines, cols) <= |v|
    ensures RowAt(WrappedUp(v, org, cols, lines), Line(0, lines - 1, cols), Blanks(cols))
  {
    hide Copied, Filled, RowAt;
    LineOrder(org, 0, lines, lines, cols);
    LineOrder(0, 0, lines, lines, cols);
    CopiedFacts(v, 0, org + cols, (lines - 1) * cols);
    BlankRow(Copied(v, 0, org + cols, (lines - 1) * cols), (lines - 1) * cols, cols, Line(0, lines - 1, cols), cols);
  }

  lemma WrappedRow(v: seq<nat>, org: int, cols: nat, lines: nat, r: nat, row: seq<nat>)
    requires 0 <= org && Line(org, lines, cols) <= |v| && r < lines - 1 && RowAt(v, Line(org, r + 1, cols), row)
             && |row| == cols
    ensures RowAt(WrappedUp(v, org, cols, lines), Line(0, r, cols), row)
  {
    hide Copied, Filled, RowAt;
    LineOrder(org, 0, lines, lines, cols);
    LineOrder(0, 0, lines, lines, cols);
    CopiedFacts(v, 0, org + cols, (lines - 1) * cols);
    LinesInside(org, 0, r, lines, cols);
    LineStep(0, r, lines - 1, cols);
    assert Line(org, r, cols) - org == Line(0, r, cols) && Line(org, lines - 1, cols) == org + (lines - 1) * cols;
    assert 0 <= r * cols;
    MovedRow(v, 0, org + cols, (lines - 1) * cols, Line(org, r + 1, cols), row);
    FilledAround(Copied(v, 0, org + cols, (lines - 1) * cols), (lines - 1) * cols, cols, Line(0, r, cols), row);
  }

  /** A change inside line y. */
  lemma EditRow(v: seq<nat>, v': seq<nat>, org: int, rows: seq<seq<nat>>, cols: nat, y: nat, row: seq<nat>)
    requires Shows(v, org, rows, cols) && y < |rows| && |v'| == |v| && RowAt(v', Line(org, y, cols), row)
             && |row| == cols
    requires forall i :: 0 <= i < |v| && !(Line(org, y, cols) <= i < Line(org, y, cols) + cols) ==> v'[i] == v[i]
    ensures Shows(v', org, rows[y := row], cols)
  {
    hide RowAt;
    forall r | 0 <= r < |rows| ensures RowAt(v', Line(org, r, cols), rows[y := row][r]) {
      if r != y {
        if r < y { LineStep(org, r, y, cols); } else { LineStep(org, y, r, cols); }
        Outside(v, v', Line(org, y, cols), Line(org, y, cols) + cols, Line(org, r, cols), rows[r]);
      }
    }
  }

  /** A fill seen from one row: the cells from lo to hi are blank. */
  lemma FilledRow(v: seq<nat>, a: int, n: nat, p: int, row: seq<nat>, lo: nat, hi: nat)
    requires 0 <= a && a + n <= |v| && RowAt(v, p, row) && lo <= hi <= |row|
    requires lo == a - p || (lo == 0 && a <= p)
    requires hi == a + n - p || (hi == |row| && a + n >= p + |row|)
    ensures RowAt(Filled(v, a, n), p, row[..lo] + Blanks(hi - lo) + row[hi..])
  {
    FilledFacts(v, a, n);
    var v' := Filled(v, a, n);
    hide Filled;
    var row' := row[..lo] + Blanks(hi - lo) + row[hi..];
    var now, was := v'[p..p + |row|], v[p..p + |row|];
    forall k | 0 <= k < |row| ensures now[k] == row'[k] { assert was[k] == row[k]; }
  }

  /** Position x of line y lies in the window. */
  lemma CellInside(org: int, y: nat, lines: nat, cols: nat, x: nat)
    requires y < lines && x <= cols && 0 <= org
    ensures org <= Line(org, y, cols) <= Line(org, y, cols) + x <= Line(org, y, cols) + cols <= Line(org, lines, cols)
  {
    LineOrder(org, y, y + 1, lines, cols);
    LineOrder(org, 0, lines, lines, cols);
    assert y * cols >= 0;
  }

  /** Storing one cell of line y. */
  lemma SetCellShows(v: seq<nat>, org: int, rows: seq<seq<nat>>, cols: nat, y: nat, x: nat, w: nat)
    requires Shows(v, org, rows, cols) && y < |rows| && x < cols
    ensures var p := Line(org, y, cols) + x;
      && 0 <= p < |v|
      && Shows(v[p := w], org, rows[y := rows[y][..x] + [w] + rows[y][x + 1..]], cols)
  {
    var a := Line(org, y, cols);
    var row := rows[y];
    assert RowAt(v, a, row);
    var row' := row[..x] + [w] + row[x + 1..];
    var v' := v[a + x := w];
    var now, was := v'[a..a + cols], v[a..a + cols];
    forall k | 0 <= k < cols ensures now[k] == row'[k] { assert was[k] == row[k]; }
    EditRow(v, v', org, rows, cols, y, row');
  }

  /** Filling cells lo to hi of line y. */
  lemma FillLine(v: seq<nat>, org: int, rows: seq<seq<nat>>, cols: nat, y: nat, lo: nat, hi: nat)
    requires Shows(v, org, rows, cols) && y < |rows| && lo <= hi <= cols
    ensures var a := Line(org, y, cols) + lo;
      && 0 <= a && a + (hi - lo) <= |v|
      && Shows(Filled(v, a, hi - lo), org, rows[y := rows[y][..lo] + Blanks(hi - lo) + rows[y][hi..]], cols)
  {
    var p := Line(org, y, cols);
    assert RowAt(v, p, rows[y]);
    FilledRow(v, p + lo, hi - lo, p, rows[y], lo, hi);
    FilledFacts(v, p + lo, hi - lo);
    EditRow(v, Filled(v, p + lo, hi - lo), org, rows, cols, y, rows[y][..lo] + Blanks(hi - lo) + rows[y][hi..]);
  }

  /** Filling from position x of line y to the end of the window. */
  lemma FillBelow(v: seq<nat>, org: int, rows: seq<seq<nat>>, cols: nat, y: nat, x: nat)
    requires Shows(v, org, rows, cols) && y < |rows| && x <= cols && 0 <= org && Line(org, |rows|, cols) <= |v|
    ensures var a := Line(org, y, cols) + x; var n := Line(org, |rows|, cols) - a;
      && 0 <= a && 0 <= n
      && Shows(Filled(v, a, n), org, rows[..y] + [rows[y][..x] + Blanks(cols - x)] + BlankRows(|rows| - y - 1, cols),
               cols)
  {
    hide Filled, RowAt;
    CellInside(org, y, |rows|, cols, x);
    var a := Line(org, y, cols) + x;
    var n := Line(org, |rows|, cols) - a;
    var rows' := rows[..y] + [rows[y][..x] + Blanks(cols - x)] + BlankRows(|rows| - y - 1, cols);
    forall r | 0 <= r < |rows| ensures |rows'[r]| == cols && RowAt(Filled(v, a, n), Line(org, r, cols), rows'[r]) {
      CellInside(org, r, |rows|, cols, cols);
      if r < y {
        LineStep(org, r, y, cols);
        FilledAround(v, a, n, Line(org, r, cols), rows[r]);
      } else if r == y {
        FilledRow(v, a, n, Line(org, r, cols), rows[r], x, cols);
        assert rows[y][cols..] == [];
        assert rows[y][..x] + Blanks(cols - x) + rows[y][cols..] == rows'[r];
      } else {
        LineStep(org, y, r, cols);
        BlankRow(v, a, n, Line(org, r, cols), cols);
      }
    }
  }

  /** Filling from the start of the window to position x of line y. */
  lemma FillAbove(v: seq<nat>, org: int, rows: seq<seq<nat>>, cols: nat, y: nat, x: nat)
    requires Shows(v, org, rows, cols) && y < |rows| && x <= cols && 0 <= org && Line(org, |rows|, cols) <= |v|
    ensures var n := Line(org, y, cols) + x - org;
      && 0 <= n && org + n <= |v|
      && Shows(Filled(v, org, n), org, BlankRows(y, cols) + [Blanks(x) + rows[y][x..]] + rows[y + 1..], cols)
  {
    hide Filled, RowAt;
    CellInside(org, y, |rows|, cols, x);
    var n := Line(org, y, cols) + x - org;
    var rows' := BlankRows(y, cols) + [Blanks(x) + rows[y][x..]] + rows[y + 1..];
    forall r | 0 <= r < |rows| ensures |rows'[r]| == cols && RowAt(Filled(v, org, n), Line(org, r, cols), rows'[r]) {
      CellInside(org, r, |rows|, cols, cols);
      if r < y {
        LineStep(org, r, y, cols);
        BlankRow(v, org, n, Line(org, r, cols), cols);
      } else if r == y {
        FilledRow(v, org, n, Line(org, r, cols), rows[r], 0, x);
        assert rows[y][..0] + Blanks(x - 0) + rows[y][x..] == rows'[r];
      } else {
        LineStep(org, y, r, cols);
        assert rows'[r] == rows[r];
        FilledAround(v, org, n, Line(org, r, cols), rows[r]);
      }
    }
  }

  lemma FillAll(v: seq<nat>, org: int, rows: seq<seq<nat>>, cols: nat)
    requires Shows(v, org, rows, cols) && 0 <= org && Line(org, |rows|, cols) <= |v|
    ensures 0 <= cols * |rows| && org + cols * |rows| <= |v|
            && Shows(Filled(v, org, cols * |rows|), org, BlankRows(|rows|, cols), cols)
  {
    hide Filled, RowAt;
    assert cols * |rows| == |rows| * cols >= 0;
    forall r | 0 <= r < |rows| ensures RowAt(Filled(v, org, cols * |rows|), Line(org, r, cols), Blanks(cols)) {
      CellInside(org, r, |rows|, cols, cols);
      BlankRow(v, org, cols * |rows|, Line(org, r, cols), cols);
    }
  }
}
