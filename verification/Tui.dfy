/** The text UI: composition of windows and the refresh that sends only changed rows. */
module Tui {
  import opened Arithmetic
  import opened Terminal

  datatype Cell = Cell(ch: nat, attr: nat)

  const CELLS: nat := 2000

  function BlankCell(): Cell { Cell(SPACE, 0x0F) }

  /** A window: position, size, and its cells row by row. */
  datatype Window = Window(x: int, y: int, w: nat, h: nat, buf: seq<Cell>)

  /** Characters the property speaks of: bytes other than tab and DEL. */
  ghost predicate Clean(c: Cell) { c.ch < 0x100 && c.ch != 0x09 && c.ch != 0x7F && c.attr < 0x100 }

  ghost predicate WindowOk(w: Window) { |w.buf| == w.w * w.h && forall i :: 0 <= i < |w.buf| ==> Clean(w.buf[i]) }

  predicate Covers(w: Window, sx: nat, sy: nat) { w.x <= sx < w.x + w.w && w.y <= sy < w.y + w.h }

  lemma {:induction false} CellIndex(w: Window, row: nat, col: nat)
    requires |w.buf| == w.w * w.h && row < w.h && col < w.w
    ensures row * w.w + col < |w.buf|
  {
    Below(row, w.h, w.w, col);
  }

  function CellAt(w: Window, sx: nat, sy: nat): Cell
    requires WindowOk(w) && Covers(w, sx, sy)
  {
    CellIndex(w, sy - w.y, sx - w.x);
    w.buf[(sy - w.y) * w.w + (sx - w.x)]
  }

  ghost predicate WindowsOk(ws: seq<Window>) { forall i :: 0 <= i < |ws| ==> WindowOk(ws[i]) }

  /** The cell of the topmost of the first `n` windows that covers the place, or a blank. */
  ghost function TopCell(ws: seq<Window>, n: nat, sx: nat, sy: nat): Cell
    requires WindowsOk(ws) && n <= |ws|
  {
    if n == 0 then BlankCell()
    else if Covers(ws[n - 1], sx, sy) then CellAt(ws[n - 1], sx, sy)
    else TopCell(ws, n - 1, sx, sy)
  }

  lemma {:induction false} TopClean(ws: seq<Window>, n: nat, sx: nat, sy: nat)
    requires WindowsOk(ws) && n <= |ws|
    ensures Clean(TopCell(ws, n, sx, sy))
    decreases n
  {
    if n > 0 {
      if Covers(ws[n - 1], sx, sy) { CellIndex(ws[n - 1], sy - ws[n - 1].y, sx - ws[n - 1].x); }
      TopClean(ws, n - 1, sx, sy);
    }
  }

  /** The byte sent for a character: controls, and bytes negative as `char`, become spaces. */
  function Shown(ch: nat): (r: nat)
    ensures ch < 0x100 && ch != 0x7F ==> r >= SPACE && r != 0x7F
  {
    if 0x20 <= ch < 0x80 then ch else SPACE
  }

  function Place(row: nat, col: nat): nat { row * 80 + col }

  lemma {:induction false} PlaceUnique(r: nat, c: nat, r': nat, c': nat)
    requires c < COLS && c' < COLS
    ensures Place(r, c) == Place(r', c') <==> r == r' && c == c'
    ensures r < ROWS ==> Place(r, c) < CELLS
  {
  }

  // ---- composition -------------------------------------------------------------------------------------

  /** One row of a window. */
  method DrawRow(a: array<Cell>, w: Window, row: nat)
    requires a.Length == CELLS && WindowOk(w) && row < w.h
    modifies a
    ensures forall sx: nat, sy: nat :: sx < COLS && sy < ROWS && Place(sy, sx) < CELLS ==>
              a[Place(sy, sx)] ==
              if Covers(w, sx, sy) && sy - w.y == row then CellAt(w, sx, sy) else old(a[Place(sy, sx)])
  {
    var sy := w.y + row;
    if sy < 0 || sy >= ROWS { return; }
    var col := 0;
    while col < w.w
      invariant col <= w.w
      invariant forall sx: nat, y: nat :: sx < COLS && y < ROWS && Place(y, sx) < CELLS ==>
                  a[Place(y, sx)] ==
                  if Covers(w, sx, y) && y == sy && sx - w.x < col then CellAt(w, sx, y) else old(a[Place(y, sx)])
    {
      var sx := w.x + col;
      if 0 <= sx < COLS {
        CellIndex(w, row, col);
        PlaceUnique(sy, sx, sy, sx);
        a[Place(sy, sx)] := w.buf[row * w.w + col];
        forall x: nat, y: nat | x < COLS && y < ROWS ensures Place(y, x) == Place(sy, sx) <==> y == sy && x == sx {
          PlaceUnique(y, x, sy, sx);
        }
      }
      col := col + 1;
    }
  }

  method DrawWindow(a: array<Cell>, w: Window)
    requires a.Length == CELLS && WindowOk(w)
    modifies a
    ensures forall sx: nat, sy: nat :: sx < COLS && sy < ROWS && Place(sy, sx) < CELLS ==>
              a[Place(sy, sx)] == if Covers(w, sx, sy) then CellAt(w, sx, sy) else old(a[Place(sy, sx)])
  {
    hide CellAt;
    for row := 0 to w.h
      invariant forall sx: nat, sy: nat :: sx < COLS && sy < ROWS && Place(sy, sx) < CELLS ==>
                  a[Place(sy, sx)] ==
                  if Covers(w, sx, sy) && sy - w.y < row then CellAt(w, sx, sy) else old(a[Place(sy, sx)])
    {
      DrawRow(a, w, row);
    }
  }

  /** Every place shows the topmost window that covers it. */
  ghost predicate Composed(cells: seq<Cell>, ws: seq<Window>, n: nat)
    requires WindowsOk(ws) && n <= |ws|
  {
    |cells| == CELLS && forall sx: nat, sy: nat :: sx < COLS && sy < ROWS && Place(sy, sx) < CELLS ==>
      cells[Place(sy, sx)] == TopCell(ws, n, sx, sy)
  }

  method Composite(a: array<Cell>, ws: seq<Window>)
    requires a.Length == CELLS && WindowsOk(ws)
    modifies a
    ensures Composed(a[..], ws, |ws|)
  {
    for i := 0 to CELLS
      invariant forall k :: 0 <= k < i ==> a[k] == BlankCell()
    {
      a[i] := BlankCell();
    }
    hide CellAt;
    for n := 0 to |ws|
      invariant Composed(a[..], ws, n)
    {
      DrawWindow(a, ws[n]);
    }
  }

  // ---- refresh ---------------------------------------------------------------------------------------------

  /** Row `row` of the terminal shows the characters of `cells`. */
  ghost predicate RowShown(t: Term, cells: seq<Cell>, row: nat)
    requires Ok(t)
  {
    |cells| == CELLS && row < ROWS && forall c: nat :: c < COLS && Place(row, c) < CELLS ==>
      t.grid[row][c] == Shown(cells[Place(row, c)].ch)
  }

  ghost predicate Shows(t: Term, cells: seq<Cell>) {
    Ok(t) && t.mode == Ground && forall row: nat :: row < ROWS ==> RowShown(t, cells, row)
  }

  ghost predicate AllClean(cells: seq<Cell>) { |cells| == CELLS && forall i :: 0 <= i < CELLS ==> Clean(cells[i]) }

  /** Decimal digits, least significant first into a scratch buffer, then reversed. */
  method FmtInt(n: nat) returns (r: seq<nat>)
    ensures r == Digits(n)
  {
    var m: nat := n / 10;
    r := [0x30 + n % 10];
    while m > 0
      invariant Digits(n) == if m == 0 then r else Digits(m) + r
    {
      ghost var r0 := r;
      r := [0x30 + m % 10] + r;
      assert m >= 10 ==> Digits(m / 10) + [0x30 + m % 10] + r0 == Digits(m / 10) + r;
      m := m / 10;
    }
  }

  /** The terminal `t` has row `row` rewritten up to column `col`; the other rows are those of `t0`. */
  ghost predicate Progress(t: Term, t0: Term, cells: seq<Cell>, row: nat, col: nat) {
    && Ok(t) && Ok(t0) && t.mode == Ground && t.row == row < ROWS && |cells| == CELLS && col <= COLS
    && (forall r :: 0 <= r < ROWS && r != row ==> t.grid[r] == t0.grid[r])
    && (forall c: nat :: c < col && Place(row, c) < CELLS ==> t.grid[row][c] == Shown(cells[Place(row, c)].ch))
    && (col < COLS ==> t.col == col && !t.pending)
  }

  lemma {:induction false} PrintStep(t: Term, t0: Term, cells: seq<Cell>, row: nat, col: nat)
    requires Progress(t, t0, cells, row, col) && col < COLS && AllClean(cells)
    ensures Place(row, col) < CELLS && Progress(Run(t, [Shown(cells[Place(row, col)].ch)]), t0, cells, row, col + 1)
  {
    PlaceUnique(row, col, row, col);
    PrintEffect(t, Shown(cells[Place(row, col)].ch));
    hide Run;
  }

  /** The rest of the row is blank in `cells`. */
  ghost predicate BlankFrom(cells: seq<Cell>, row: nat, col: nat) {
    forall c: nat :: col <= c < COLS && Place(row, c) < |cells| ==> cells[Place(row, c)].ch == SPACE
  }

  lemma {:induction false} EraseStep(t: Term, t0: Term, cells: seq<Cell>, row: nat, col: nat)
    requires Progress(t, t0, cells, row, col) && col < COLS && BlankFrom(cells, row, col)
    ensures Progress(Run(t, EraseLine()), t0, cells, row, COLS)
  {
    EraseEffect(t);
    hide Run, EraseLine;
  }

  /** A finished row is shown, and the others are as they were. */
  lemma {:induction false} RowDone(t: Term, t0: Term, cells: seq<Cell>, before: seq<Cell>, row: nat)
    requires Progress(t, t0, cells, row, COLS) && Shows(t0, before) && |before| == CELLS
    requires forall r: nat, c: nat :: r < ROWS && c < COLS && Place(r, c) < CELLS && r != row ==>
              cells[Place(r, c)] == before[Place(r, c)]
    ensures Shows(t, cells)
  {
    forall r: nat | r < ROWS ensures RowShown(t, cells, r) { assert RowShown(t0, before, r); }
  }

  /** Row `row` of `after` is that of `comp`; the other rows are those of `before`. */
  ghost predicate RowCopied(after: seq<Cell>, before: seq<Cell>, comp: seq<Cell>, row: nat) {
    && |after| == |before| == |comp| == CELLS
    && forall r: nat, c: nat :: r < ROWS && c < COLS && Place(r, c) < CELLS ==>
         after[Place(r, c)] == if r == row then comp[Place(r, c)] else before[Place(r, c)]
  }

  class Screen {
    const composite: array<Cell>
    const phys: array<Cell>
    var windows: seq<Window>
    var output: seq<nat>
    ghost const first: Term
    ghost var term: Term

    /** The terminal is what interpreting everything sent so far makes of the one found at start. */
    ghost predicate Synced()
      reads this`output, this`term
    {
      Ok(first) && term == Run(first, output)
    }

    ghost predicate Valid()
      reads this, composite, phys
    {
      && composite.Length == phys.Length == CELLS && composite != phys
      && WindowsOk(windows) && Synced() && Shows(term, phys[..])
    }

    /** Bytes written to the terminal. */
    method Emit(s: seq<nat>)
      requires Synced()
      modifies this`output, this`term
      ensures Synced() && term == Run(old(term), s)
    {
      RunConcat(first, output, s);
      output := output + s;
      term := Run(term, s);
    }

    method AnsiGoto(row: nat, col: nat)
      requires Synced() && term.mode == Ground && row < ROWS && col < COLS
      modifies this`output, this`term
      ensures Synced() && term == old(term).(row := row, col := col, pending := false)
    {
      var a := FmtInt(row + 1);
      var b := FmtInt(col + 1);
      GotoEffect(term, row, col);
      Emit([ESC, 0x5B] + a + [0x3B] + b + [0x48]);
    }

    method AnsiAttr(fg: nat, bg: nat)
      requires Synced() && term.mode == Ground
      modifies this`output, this`term
      ensures Synced() && term == old(term)
    {
      var a := FmtInt(if fg >= 8 then 90 + fg % 8 else 30 + fg);
      var b := FmtInt(if bg >= 8 then 100 + bg % 8 else 40 + bg);
      AttrEffect(term, fg, bg);
      Emit([ESC, 0x5B] + a + [0x3B] + b + [0x6D]);
    }

    method RowChanged(row: nat) returns (changed: bool)
      requires composite.Length == phys.Length == CELLS && row < ROWS
      ensures !changed <==> RowCopied(phys[..], phys[..], composite[..], row)
    {
      var col := 0;
      while col < COLS
        invariant col <= COLS
        invariant forall c: nat :: c < col && Place(row, c) < CELLS ==> composite[Place(row, c)] == phys[Place(row, c)]
      {
        PlaceUnique(row, col, row, col);
        if composite[Place(row, col)] != phys[Place(row, col)] { return true; }
        col := col + 1;
      }
      changed := false;
    }

    /** One past the last column that is not a space. */
    method TrimRow(row: nat) returns (n: nat)
      requires composite.Length == CELLS && row < ROWS
      ensures n <= COLS && BlankFrom(composite[..], row, n) && (n > 0 ==> !BlankFrom(composite[..], row, n - 1))
    {
      n := COLS;
      while n > 0
        invariant n <= COLS && BlankFrom(composite[..], row, n)
      {
        PlaceUnique(row, n - 1, row, n - 1);
        if composite[Place(row, n - 1)].ch != SPACE { return; }
        n := n - 1;
      }
    }

    method CopyRow(row: nat)
      requires composite.Length == phys.Length == CELLS && composite != phys && row < ROWS
      modifies phys
      ensures RowCopied(phys[..], old(phys[..]), composite[..], row)
    {
      var col := 0;
      while col < COLS
        invariant col <= COLS
        invariant forall r: nat, c: nat :: r < ROWS && c < COLS && Place(r, c) < CELLS ==>
                    phys[Place(r, c)] == if r == row && c < col then composite[Place(r, c)] else old(phys[Place(r, c)])
      {
        PlaceUnique(row, col, row, col);
        phys[Place(row, col)] := composite[Place(row, col)];
        forall r: nat, c: nat | r < ROWS && c < COLS ensures Place(r, c) == Place(row, col) <==> r == row && c == col {
          PlaceUnique(r, c, row, col);
        }
        col := col + 1;
      }
    }

    /** Sends the first `n` cells of a row, each attribute change before its character. */
    method EmitCells(row: nat, n: nat, ghost t0: Term)
      requires composite.Length == CELLS && AllClean(composite[..]) && n <= COLS
      requires Synced() && Progress(term, t0, composite[..], row, 0)
      modifies this`output, this`term
      ensures Synced() && Progress(term, t0, composite[..], row, n)
    {
      var fg, bg, col := -1, -1, 0;
      hide Progress, Run, AllClean, Attr, Ok;
      while col < n
        invariant col <= n && Synced() && Progress(term, t0, composite[..], row, col)
      {
        ProgressFacts(term, t0, composite[..], row, col);
        var cell := composite[Place(row, col)];
        var f, b := cell.attr % 16, cell.attr / 16 % 16;
        if f != fg || b != bg {
          fg, bg := f, b;
          AnsiAttr(f, b);
        }
        PrintStep(term, t0, composite[..], row, col);
        Emit([Shown(cell.ch)]);
        col := col + 1;
      }
    }

    /** Rewrites one row of the terminal. */
    method SendRow(row: nat)
      requires composite.Length == CELLS && AllClean(composite[..]) && Synced() && term.mode == Ground && row < ROWS
      modifies this`output, this`term
      ensures Synced() && Progress(term, old(term), composite[..], row, COLS)
    {
      ghost var t0 := term;
      AnsiGoto(row, 0);
      assert Progress(term, t0, composite[..], row, 0);
      var n := TrimRow(row);
      hide Progress, Run, AllClean, BlankFrom, Ok;
      if n > 0 { EmitCells(row, n, t0); }
      if n < COLS {
        EraseStep(term, t0, composite[..], row, n);
        Emit(EraseLine());
      }
    }

    method RefreshRow(row: nat)
      requires Valid() && AllClean(composite[..]) && row < ROWS
      modifies phys, this`output, this`term
      ensures Valid() && RowCopied(phys[..], old(phys[..]), composite[..], row)
      ensures RowCopied(old(phys[..]), old(phys[..]), composite[..], row) ==> output == old(output)
    {
      var changed := RowChanged(row);
      hide Run, Ok, AllClean;
      if !changed { return; }
      SendRow(row);
      CopyRow(row);
      hide RowShown;
      CopiedProgress(term, old(term), composite[..], phys[..], old(phys[..]), row);
      RowDone(term, old(term), phys[..], old(phys[..]), row);
    }

    /** After a refresh the terminal shows at every place the character of the topmost window that
        covers it. */
    method Refresh()
      requires Valid()
      modifies composite, phys, this`output, this`term
      ensures Valid()
      ensures forall sx: nat, sy: nat :: sx < COLS && sy < ROWS ==>
                term.grid[sy][sx] == Shown(TopCell(windows, |windows|, sx, sy).ch)
    {
      Composite(composite, windows);
      ComposedClean(composite[..], windows);
      ghost var comp := composite[..];
      hide Shows, Run, Ok, AllClean, Composed;
      var row := 0;
      while row < ROWS
        invariant row <= ROWS && Valid() && composite[..] == comp
        invariant forall r: nat, c: nat :: r < row && c < COLS && Place(r, c) < CELLS ==>
                  phys[Place(r, c)] == composite[Place(r, c)]
      {
        RefreshRow(row);
        row := row + 1;
      }
      FinalView(term, phys[..], composite[..], windows);
    }

    /** Any sequence of window arrangements, refreshed one after the other. */
    method RefreshAll(script: seq<seq<Window>>)
      requires Valid() && forall i :: 0 <= i < |script| ==> WindowsOk(script[i])
      modifies this`windows, composite, phys, this`output, this`term
      ensures Valid()
      ensures script != [] ==> forall sx: nat, sy: nat :: sx < COLS && sy < ROWS ==>
                term.grid[sy][sx] == Shown(TopCell(script[|script| - 1], |script[|script| - 1]|, sx, sy).ch)
    {
      hide Shows, Run, WindowsOk, TopCell;
      for i := 0 to |script|
        invariant Valid()
        invariant i > 0 ==> forall sx: nat, sy: nat :: sx < COLS && sy < ROWS ==>
                    term.grid[sy][sx] == Shown(TopCell(script[i - 1], |script[i - 1]|, sx, sy).ch)
      {
        windows := script[i];
        Refresh();
      }
    }

    /** `tui_init`: the screen is cleared and recorded as blank, one cell marked so that the first refresh
        rewrites it. */
    constructor (t: Term)
      requires Ok(t) && t.mode == Ground
      ensures Valid() && windows == [] && output == Start() && first == t
    {
      composite := new Cell[CELLS](_ => BlankCell());
      phys := new Cell[CELLS](i => if i == 0 then Cell(0, 0x0F) else BlankCell());
      windows, output, first := [], Start(), t;
      term := Run(t, Start());
      new;
      StartEffect(t);
      hide Run, Start;
    }
  }

  lemma {:induction false} ComposedClean(cells: seq<Cell>, ws: seq<Window>)
    requires WindowsOk(ws) && Composed(cells, ws, |ws|)
    ensures AllClean(cells)
  {
    hide TopCell;
    forall i: nat | i < CELLS ensures Clean(cells[i]) {
      assert Place(i / 80, i % 80) == i && i / 80 < ROWS;
      TopClean(ws, |ws|, i % 80, i / 80);
    }
  }

  lemma {:induction false} FinalView(t: Term, phys: seq<Cell>, comp: seq<Cell>, ws: seq<Window>)
    requires Shows(t, phys) && WindowsOk(ws) && Composed(comp, ws, |ws|) && |phys| == CELLS
    requires forall r: nat, c: nat :: r < ROWS && c < COLS && Place(r, c) < CELLS ==>
              phys[Place(r, c)] == comp[Place(r, c)]
    ensures forall sx: nat, sy: nat :: sx < COLS && sy < ROWS ==> t.grid[sy][sx] == Shown(TopCell(ws, |ws|, sx, sy).ch)
  {
    hide TopCell;
    forall sx: nat, sy: nat | sx < COLS && sy < ROWS ensures t.grid[sy][sx] == Shown(TopCell(ws, |ws|, sx, sy).ch) {
      PlaceUnique(sy, sx, sy, sx);
      assert RowShown(t, phys, sy);
    }
  }

  lemma {:induction false} CopiedProgress(t: Term, t0: Term, comp: seq<Cell>, after: seq<Cell>, before: seq<Cell>,
                                          row: nat)
    requires Progress(t, t0, comp, row, COLS) && RowCopied(after, before, comp, row)
    ensures Progress(t, t0, after, row, COLS)
  {
  }

  lemma {:induction false} ProgressFacts(t: Term, t0: Term, cells: seq<Cell>, row: nat, col: nat)
    requires Progress(t, t0, cells, row, col) && col < COLS
    ensures Ok(t) && t.mode == Ground && row < ROWS && Place(row, col) < CELLS
  {
    PlaceUnique(row, col, row, col);
  }
}
