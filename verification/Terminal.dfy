/** What the console of kernel/chr_drv/console.c shows: a grid of character cells,
    a cursor and the escape-sequence state.  Nothing here knows about video memory. */
module Terminal {
  const NPAR: int := 16
  const WORD: int := 0x1_0000_0000

  /** The cell that erasing leaves: a space in the default colours. */
  const ERASE: nat := 0x0720

  /** state is that of con_write: 0 text, 1 after ESC, 2 after ESC [, 3 reading
      parameters. */
  datatype Term = Term(cols: nat, lines: nat, rows: seq<seq<nat>>, x: nat, y: nat, top: nat, bottom: nat,
                       state: nat, npar: nat, par: seq<nat>, attr: nat, savedX: nat, savedY: nat)

  ghost predicate Grid(rows: seq<seq<nat>>, lines: nat, cols: nat) {
    |rows| == lines && forall r :: 0 <= r < lines ==> |rows[r]| == cols
  }

  /** The cursor may stand just behind the last column, and the scrolling region
      is never empty. */
  ghost predicate Ok(t: Term) {
    && t.cols >= 8 && Grid(t.rows, t.lines, t.cols) && t.x <= t.cols && t.y < t.lines && t.top < t.bottom <= t.lines
    && t.state <= 3 && t.npar < NPAR && |t.par| == NPAR && t.lines < 0x8000 && t.cols < 0x8000
    && forall i :: 0 <= i < NPAR ==> t.par[i] < WORD
  }

  function Blanks(n: nat): (r: seq<nat>)
    ensures |r| == n && forall i :: 0 <= i < n ==> r[i] == ERASE
  { seq(n, _ => ERASE) }

  function BlankRows(n: nat, cols: nat): (r: seq<seq<nat>>)
    ensures Grid(r, n, cols) && forall i :: 0 <= i < n ==> r[i] == Blanks(cols)
  { seq(n, _ => Blanks(cols)) }

  /** Rows top to bottom move up by n; blank rows come in. */
  function Up(rows: seq<seq<nat>>, top: nat, bottom: nat, n: nat, cols: nat): seq<seq<nat>>
    requires n <= bottom - top && bottom <= |rows|
  {
    rows[..top] + rows[top + n..bottom] + BlankRows(n, cols) + rows[bottom..]
  }

  function Down(rows: seq<seq<nat>>, top: nat, bottom: nat, n: nat, cols: nat): seq<seq<nat>>
    requires n <= bottom - top && bottom <= |rows|
  {
    rows[..top] + BlankRows(n, cols) + rows[top..bottom - n] + rows[bottom..]
  }

  function Goto(t: Term, x: int, y: int): Term {
    var x, y := x % WORD, y % WORD;
    if x > t.cols || y >= t.lines then t else t.(x := x, y := y)
  }

  /** A line feed scrolls the region whenever it cannot move down inside it. */
  function LineFeed(t: Term): Term
    requires Ok(t)
  {
    if t.y + 1 < t.bottom then t.(y := t.y + 1) else t.(rows := Up(t.rows, t.top, t.bottom, 1, t.cols))
  }

  function ReverseFeed(t: Term): Term
    requires Ok(t)
  {
    if t.y > t.top then t.(y := t.y - 1) else t.(rows := Down(t.rows, t.top, t.bottom, 1, t.cols))
  }

  /** Past the last column the line continues on the next one. */
  function Wrap(t: Term, x: nat): Term
    requires Ok(t) && x <= 2 * t.cols
  {
    if x > t.cols then LineFeed(t.(x := x - t.cols)) else t.(x := x)
  }

  function SetCell(t: Term, cell: nat): Term
    requires Ok(t) && t.x < t.cols
  {
    var row := t.rows[t.y];
    t.(rows := t.rows[t.y := row[..t.x] + [cell] + row[t.x + 1..]])
  }

  function Print(t: Term, c: nat): Term
    requires Ok(t)
  {
    var t1 := if t.x >= t.cols then LineFeed(t.(x := 0)) else t;
    LineFeedOk(t.(x := 0));
    SetCell(t1, t1.attr * 256 + c).(x := t1.x + 1)
  }

  function Tab(t: Term): Term
    requires Ok(t)
  {
    Wrap(t, t.x + 8 - t.x % 8)
  }

  function Rubout(t: Term): Term
    requires Ok(t)
  {
    if t.x > 0 then SetCell(t.(x := t.x - 1), ERASE) else t
  }

  function EraseDisplay(t: Term, mode: nat): Term
    requires Ok(t)
  {
    var row := t.rows[t.y];
    match mode
    case 0 => t.(rows := t.rows[..t.y] + [row[..t.x] + Blanks(t.cols - t.x)] + BlankRows(t.lines - t.y - 1, t.cols))
    case 1 => t.(rows := BlankRows(t.y, t.cols) + [Blanks(t.x) + row[t.x..]] + t.rows[t.y + 1..])
    case 2 => t.(rows := BlankRows(t.lines, t.cols))
    case _ => t
  }

  function SetRow(t: Term, row: seq<nat>): Term
    requires Ok(t)
  {
    t.(rows := t.rows[t.y := row])
  }

  function EraseLine(t: Term, mode: nat): Term
    requires Ok(t)
  {
    var row := t.rows[t.y];
    match mode
    case 0 => SetRow(t, row[..t.x] + Blanks(t.cols - t.x))
    case 1 => SetRow(t, Blanks(t.x) + row[t.x..])
    case 2 => SetRow(t, Blanks(t.cols))
    case _ => t
  }

  /** A count of 0 means 1, and more than there is room for means all of it. */
  function Times(n: nat, most: nat): nat { if n > most then most else if n == 0 then 1 else n }

  function Least(a: nat, b: nat): nat { if a < b then a else b }

  function InsertChars(t: Term, n: nat): Term
    requires Ok(t)
  {
    var row := t.rows[t.y];
    var k := Least(n, t.cols - t.x);
    SetRow(t, row[..t.x] + Blanks(k) + row[t.x..t.cols - k])
  }

  function DeleteChars(t: Term, n: nat): Term
    requires Ok(t)
  {
    var row := t.rows[t.y];
    var k := Least(n, t.cols - t.x);
    SetRow(t, row[..t.x] + row[t.x + k..] + Blanks(k))
  }

  function InsertLines(t: Term, n: nat): Term
    requires Ok(t)
  {
    t.(rows := Down(t.rows, t.y, t.lines, Least(n, t.lines - t.y), t.cols))
  }

  function DeleteLines(t: Term, n: nat): Term
    requires Ok(t)
  {
    t.(rows := Up(t.rows, t.y, t.lines, Least(n, t.lines - t.y), t.cols))
  }

  function Colour(attr: nat, p: nat): nat {
    match p
    case 0 => 0x07
    case 1 => 0x0f
    case 4 => 0x0f
    case 7 => 0x70
    case 27 => 0x07
    case _ => attr
  }

  function Colours(attr: nat, par: seq<nat>): nat
    decreases |par|
  { if par == [] then attr else Colours(Colour(attr, par[0]), par[1..]) }

  function Region(t: Term, top: nat, bottom: nat): Term {
    if top < bottom <= t.lines then t.(top := top, bottom := bottom) else t
  }

  /** 1-based parameters become 0-based; 0 stands for 1. */
  function Less(n: nat): nat { if n > 0 then n - 1 else 0 }

  function AtLeastOne(n: nat): nat { if n == 0 then 1 else n }

  /** The last byte of a control sequence; the parameters are t.par. */
  function Control(t: Term, c: char): Term
    requires Ok(t)
  {
    var p, q := t.par[0], t.par[1];
    var n := AtLeastOne(p);
    match c
    case 'G' => Goto(t, Less(p), t.y)
    case '`' => Goto(t, Less(p), t.y)
    case 'A' => Goto(t, t.x, t.y - n)
    case 'B' => Goto(t, t.x, t.y + n)
    case 'e' => Goto(t, t.x, t.y + n)
    case 'C' => Goto(t, t.x + n, t.y)
    case 'a' => Goto(t, t.x + n, t.y)
    case 'D' => Goto(t, t.x - n, t.y)
    case 'E' => Goto(t, 0, t.y + n)
    case 'F' => Goto(t, 0, t.y - n)
    case 'd' => Goto(t, t.x, Less(p))
    case 'H' => Goto(t, Less(q), Less(p))
    case 'f' => Goto(t, Less(q), Less(p))
    case 'J' => EraseDisplay(t, p)
    case 'K' => EraseLine(t, p)
    case 'L' => InsertLines(t, Times(p, t.lines))
    case 'M' => DeleteLines(t, Times(p, t.lines))
    case 'P' => DeleteChars(t, Times(p, t.cols))
    case '@' => InsertChars(t, Times(p, t.cols))
    case 'm' => t.(attr := Colours(t.attr, t.par[..t.npar + 1]))
    case 'r' => Region(t, Less(p), if q == 0 then t.lines else q)
    case 's' => t.(savedX := t.x, savedY := t.y)
    case 'u' => Goto(t, t.savedX, t.savedY)
    case _ => t
  }

  /** Parameters are 32-bit and wrap around. */
  function Digit(p: nat, c: char): nat
    requires '0' <= c <= '9'
  { (10 * p + (c as int - '0' as int)) % WORD }

  /** A byte while parameters are read. */
  function Parameter(t: Term, c: char): Term
    requires Ok(t)
  {
    if c == ';' && t.npar < NPAR - 1 then t.(state := 3, npar := t.npar + 1)
    else if '0' <= c <= '9' then t.(state := 3, par := t.par[t.npar := Digit(t.par[t.npar], c)])
    else Control(t.(state := 0), c)
  }

  /** The byte after ESC.  What the source means by ESC 7 and ESC 8 it decides by
      the column, not by the byte. */
  function Escape(t: Term, c: char): Term
    requires Ok(t)
  {
    var t := t.(state := 0);
    match c
    case '[' => t.(state := 2)
    case 'E' => Goto(t, 0, t.y + 1)
    case 'M' => ReverseFeed(t)
    case 'D' => LineFeed(t)
    case 'Z' => t
    case _ => if t.x == '7' as int then t.(savedX := t.x, savedY := t.y)
              else if t.x == '8' as int then Goto(t, t.savedX, t.savedY)
              else t
  }

  /** A byte of text; char is signed, so bytes from 128 on are not printed. */
  function Text(t: Term, c: nat, erase: nat): Term
    requires Ok(t) && c < 256
  {
    if 31 < c < 127 then Print(t, c)
    else if c == 27 then t.(state := 1)
    else if c == 10 || c == 11 || c == 12 then LineFeed(t)
    else if c == 13 then t.(x := 0)
    else if c == erase && c < 128 then Rubout(t)
    else if c == 8 then (if t.x > 0 then t.(x := t.x - 1) else t)
    else if c == 9 then Tab(t)
    else t
  }

  /** One byte of output. */
  function Shown(t: Term, c: nat, erase: nat): Term
    requires Ok(t) && c < 256
  {
    match t.state
    case 0 => Text(t, c, erase)
    case 1 => Escape(t, c as char)
    case 2 =>
      var t1 := t.(state := 3, npar := 0, par := seq(NPAR, _ => 0));
      if c == '?' as int then t1 else Parameter(t1, c as char)
    case _ => Parameter(t, c as char)
  }

  lemma LineFeedOk(t: Term)
    requires Ok(t)
    ensures Ok(LineFeed(t)) && LineFeed(t).x == t.x && LineFeed(t).attr == t.attr
  {
    UpGrid(t.rows, t.top, t.bottom, 1, t.lines, t.cols);
  }

  lemma UpGrid(rows: seq<seq<nat>>, top: nat, bottom: nat, n: nat, lines: nat, cols: nat)
    requires Grid(rows, lines, cols) && n <= bottom - top && bottom <= lines
    ensures Grid(Up(rows, top, bottom, n, cols), lines, cols)
    ensures var up := Up(rows, top, bottom, n, cols);
      && (forall r :: top <= r < bottom - n ==> up[r] == rows[r + n])
      && (forall r :: bottom - n <= r < bottom ==> up[r] == Blanks(cols))
      && forall r :: 0 <= r < lines && !(top <= r < bottom) ==> up[r] == rows[r]
  { }

  lemma DownGrid(rows: seq<seq<nat>>, top: nat, bottom: nat, n: nat, lines: nat, cols: nat)
    requires Grid(rows, lines, cols) && n <= bottom - top && bottom <= lines
    ensures Grid(Down(rows, top, bottom, n, cols), lines, cols)
    ensures var down := Down(rows, top, bottom, n, cols);
      && (forall r :: top + n <= r < bottom ==> down[r] == rows[r - n])
      && (forall r :: top <= r < top + n ==> down[r] == Blanks(cols))
      && forall r :: 0 <= r < lines && !(top <= r < bottom) ==> down[r] == rows[r]
  { }

  ghost predicate Same(t: Term, t': Term) { Ok(t') && t'.cols == t.cols && t'.lines == t.lines }

  lemma TextOk(t: Term, c: nat, erase: nat)
    requires Ok(t) && c < 256
    ensures Same(t, Text(t, c, erase))
  {
    LineFeedOk(t);
    LineFeedOk(t.(x := 0));
    var x := t.x + 8 - t.x % 8;
    if x > t.cols { LineFeedOk(t.(x := x - t.cols)); }
    hide LineFeed;
  }

  lemma EscapeOk(t: Term, c: char)
    requires Ok(t)
    ensures Same(t, Escape(t, c))
  {
    LineFeedOk(t.(state := 0));
    DownGrid(t.rows, t.top, t.bottom, 1, t.lines, t.cols);
    hide LineFeed, Down;
  }

  lemma ControlOk(t: Term, c: char)
    requires Ok(t)
    ensures Same(t, Control(t, c))
  {
    hide Ok, Goto, InsertLines, DeleteLines, InsertChars, DeleteChars, EraseDisplay, EraseLine, Region, Colours, Times;
    GotoOk(t);
    EditOk(t, Times(t.par[0], t.lines));
    EditOk(t, Times(t.par[0], t.cols));
    EraseOk(t, t.par[0]);
    PlainOk(t, Colours(t.attr, t.par[..t.npar + 1]), Less(t.par[0]), if t.par[1] == 0 then t.lines else t.par[1]);
  }

  lemma GotoOk(t: Term)
    requires Ok(t)
    ensures |t.par| == NPAR && t.npar < NPAR && forall x, y :: Same(t, Goto(t, x, y))
  { }

  lemma PlainOk(t: Term, attr: nat, top: nat, bottom: nat)
    requires Ok(t)
    ensures Same(t, t) && Same(t, t.(attr := attr)) && Same(t, t.(savedX := t.x, savedY := t.y))
            && Same(t, Region(t, top, bottom))
  { }

  lemma EditOk(t: Term, n: nat)
    requires Ok(t)
    ensures Same(t, InsertLines(t, n)) && Same(t, DeleteLines(t, n)) && Same(t, InsertChars(t, n))
            && Same(t, DeleteChars(t, n))
  {
    DownGrid(t.rows, t.y, t.lines, Least(n, t.lines - t.y), t.lines, t.cols);
    UpGrid(t.rows, t.y, t.lines, Least(n, t.lines - t.y), t.lines, t.cols);
  }

  lemma EraseOk(t: Term, mode: nat)
    requires Ok(t)
    ensures Same(t, EraseDisplay(t, mode)) && Same(t, EraseLine(t, mode))
  { }

  /** The cursor stays on the screen and the region sound for every byte. */
  lemma ShownOk(t: Term, c: nat, erase: nat)
    requires Ok(t) && c < 256
    ensures Same(t, Shown(t, c, erase))
  {
    hide Text, Escape, Control;
    TextOk(t, c, erase);
    EscapeOk(t, c as char);
    ParameterOk(t, c as char);
    ParameterOk(t.(state := 3, npar := 0, par := seq(NPAR, _ => 0)), c as char);
  }

  lemma ParameterOk(t: Term, c: char)
    requires Ok(t)
    ensures Same(t, Parameter(t, c))
  {
    hide Control;
    ControlOk(t.(state := 0), c);
  }

  /** A whole string of output. */
  function Typed(t: Term, s: seq<nat>, erase: nat): Term
    requires Ok(t) && forall i :: 0 <= i < |s| ==> s[i] < 256
    decreases |s|
  {
    if s == [] then t else
      ShownOk(t, s[0], erase);
      Typed(Shown(t, s[0], erase), s[1..], erase)
  }
}
