/** The character grid of a curses window and the curses window primitives
    that the column folder calls. Curses is foreign code: each primitive is
    given here the semantics the folder relies on (X/Open curses with
    scrollok enabled on every sub-window), on a grid of cells and a window
    cursor. These definitions are the model's assumptions about curses. */
module Grid {

  /** One screen cell: an opaque curses character value (a byte or an
      alternate-character-set glyph) and the attribute bits it was written with. */
  datatype Cell = Cell(ch: int, attr: bv32)

  /** The space byte, used by curses to blank cells and by the erase handlers. */
  const Space: int := 32

  /** The cell curses writes when it clears or scrolls in a line. */
  const Blank: Cell := Cell(Space, 0)

  type Row = seq<Cell>
  type Grid = seq<Row>

  function BlankRow(width: nat): (r: Row)
    ensures |r| == width
    ensures forall i :: 0 <= i < width ==> r[i] == Blank
  {
    seq(width, _ => Blank)
  }

  predicate IsGrid(g: Grid, height: nat, width: nat)
  {
    |g| == height && forall r :: 0 <= r < |g| ==> |g[r]| == width
  }

  function BlankGrid(height: nat, width: nat): (g: Grid)
    ensures IsGrid(g, height, width)
    ensures forall r :: 0 <= r < height ==> g[r] == BlankRow(width)
  {
    seq(height, _ => BlankRow(width))
  }

  // ---------------------------------------------------------------------
  // Edits of one row, shared by the window primitives and the logical screen

  /** winsch on one row: the cells from x on move right by one, the last
      cell falls off, and c takes column x. */
  function RowInsert(row: Row, x: nat, c: Cell): (r: Row)
    requires x < |row|
    ensures |r| == |row|
    ensures forall i :: 0 <= i < x ==> r[i] == row[i]
    ensures r[x] == c
    ensures forall i :: x < i < |row| ==> r[i] == row[i - 1]
  {
    row[..x] + [c] + row[x..|row| - 1]
  }

  /** wdelch on one row: the cells right of x move left by one and a blank
      enters at the right margin. */
  function RowDelete(row: Row, x: nat): (r: Row)
    requires x < |row|
    ensures |r| == |row|
    ensures forall i :: 0 <= i < x ==> r[i] == row[i]
    ensures forall i :: x <= i < |row| - 1 ==> r[i] == row[i + 1]
    ensures r[|row| - 1] == Blank
  {
    row[..x] + row[x + 1..] + [Blank]
  }

  /** wclrtoeol on one row: the cells from x to the right margin are blanked. */
  function RowClearFrom(row: Row, x: nat): (r: Row)
    requires x <= |row|
    ensures |r| == |row|
    ensures forall i :: 0 <= i < x ==> r[i] == row[i]
    ensures forall i :: x <= i < |row| ==> r[i] == Blank
  {
    row[..x] + BlankRow(|row| - x)
  }

  /** Inserting at the last column overwrites that column: this is why the
      folder copies the last cell of a line with insch rather than addch
      (addch at the bottom-right corner of a scrolling window scrolls it). */
  lemma {:induction false} RowInsertAtLastColumn(row: Row, c: Cell)
    requires |row| > 0
    ensures RowInsert(row, |row| - 1, c) == row[|row| - 1 := c]
  {
    var r := RowInsert(row, |row| - 1, c);
    forall i | 0 <= i < |row|
      ensures r[i] == row[|row| - 1 := c][i]
    {
      if i < |row| - 1 {
        assert r[i] == row[i];
      } else {
        assert r[i] == c;
      }
    }
  }

  /** The first x cells of a, the rest of b: a row part-way through being
      copied from a over b, one cell at a time. */
  function Splice(a: Row, b: Row, x: nat): (r: Row)
    requires |a| == |b| && x <= |a|
    ensures |r| == |a|
    ensures forall i :: 0 <= i < x ==> r[i] == a[i]
    ensures forall i :: x <= i < |a| ==> r[i] == b[i]
  {
    a[..x] + b[x..]
  }

  /** Copying one more cell. */
  lemma {:induction false} SpliceStep(a: Row, b: Row, x: nat)
    requires |a| == |b| && x < |a|
    ensures Splice(a, b, x)[x := a[x]] == Splice(a, b, x + 1)
  {
    var l := Splice(a, b, x)[x := a[x]];
    var r := Splice(a, b, x + 1);
    forall i | 0 <= i < |a| ensures l[i] == r[i] {
      if i < x { assert l[i] == a[i]; }
      else if i > x { assert l[i] == b[i]; }
    }
  }

  /** A row copied to the end is the source row. */
  lemma SpliceAll(a: Row, b: Row)
    requires |a| == |b|
    ensures Splice(a, b, |a|) == a
  {
  }

  /** Nothing copied yet is the target row. */
  lemma SpliceNone(a: Row, b: Row)
    requires |a| == |b|
    ensures Splice(a, b, 0) == b
  {
  }

  /** Replacing the last element of a + [b]. */
  lemma LastReplaced<T>(a: seq<T>, b: T, c: T)
    ensures (a + [b])[|a| := c] == a + [c]
  {
    assert (a + [b])[|a| := c][..|a|] == a;
  }

  /** Replacing the first element of [b] + a. */
  lemma FirstReplaced<T>(a: seq<T>, b: T, c: T)
    ensures ([b] + a)[0 := c] == [c] + a
  {
    assert ([b] + a)[0 := c][1..] == a;
  }

  // ---------------------------------------------------------------------
  // A curses window: its cells and its own cursor

  datatype Win = Win(cells: Grid, cy: int, cx: int)

  /** The window is height x width and its cursor lies inside it. */
  predicate Shaped(w: Win, height: nat, width: nat)
  {
    IsGrid(w.cells, height, width) && 0 <= w.cy < height && 0 <= w.cx < width
  }

  /** The cells of a sequence of windows, window by window. */
  function CellsOf(ws: seq<Win>): (gs: seq<Grid>)
    ensures |gs| == |ws|
    ensures forall i :: 0 <= i < |ws| ==> gs[i] == ws[i].cells
  {
    seq(|ws|, i requires 0 <= i < |ws| => ws[i].cells)
  }

  /** Replacing one window replaces its cells and nothing else. */
  lemma CellsOfUpdate(ws: seq<Win>, k: nat, w: Win)
    requires k < |ws|
    ensures CellsOf(ws[k := w]) == CellsOf(ws)[k := w.cells]
  {
  }

  /** wmove. */
  function WMove(w: Win, height: nat, width: nat, y: int, x: int): (r: Win)
    requires Shaped(w, height, width) && 0 <= y < height && 0 <= x < width
    ensures Shaped(r, height, width) && r.cells == w.cells && r.cy == y && r.cx == x
  {
    Win(w.cells, y, x)
  }

  /** Writes c at the cursor of a window without moving anything else. */
  function Put(g: Grid, y: nat, x: nat, c: Cell): Grid
    requires y < |g| && x < |g[y]|
  {
    g[y := g[y][x := c]]
  }

  /** waddch with scrollok: write c at the cursor and advance it; past the
      right margin the cursor wraps to the next line, and on the bottom line
      the window scrolls up by one line. */
  function WAddCh(w: Win, height: nat, width: nat, c: Cell): (r: Win)
    requires Shaped(w, height, width)
    ensures Shaped(r, height, width)
  {
    var cells := Put(w.cells, w.cy, w.cx, c);
    if w.cx + 1 < width then Win(cells, w.cy, w.cx + 1)
    else if w.cy + 1 < height then Win(cells, w.cy + 1, 0)
    else Win(cells[1..] + [BlankRow(width)], w.cy, 0)
  }

  /** winsch: insert c at the cursor; the cursor does not move. */
  function WInsCh(w: Win, height: nat, width: nat, c: Cell): (r: Win)
    requires Shaped(w, height, width)
    ensures Shaped(r, height, width) && r.cy == w.cy && r.cx == w.cx
  {
    Win(w.cells[w.cy := RowInsert(w.cells[w.cy], w.cx, c)], w.cy, w.cx)
  }

  /** wdelch: delete the cell at the cursor; the cursor does not move. */
  function WDelCh(w: Win, height: nat, width: nat): (r: Win)
    requires Shaped(w, height, width)
    ensures Shaped(r, height, width) && r.cy == w.cy && r.cx == w.cx
  {
    Win(w.cells[w.cy := RowDelete(w.cells[w.cy], w.cx)], w.cy, w.cx)
  }

  /** wclrtoeol: blank from the cursor to the right margin. */
  function WClrToEol(w: Win, height: nat, width: nat): (r: Win)
    requires Shaped(w, height, width)
    ensures Shaped(r, height, width) && r.cy == w.cy && r.cx == w.cx
  {
    Win(w.cells[w.cy := RowClearFrom(w.cells[w.cy], w.cx)], w.cy, w.cx)
  }

  /** wclrtobot: blank from the cursor to the end of its line and every line below. */
  function WClrToBot(w: Win, height: nat, width: nat): (r: Win)
    requires Shaped(w, height, width)
    ensures Shaped(r, height, width) && r.cy == w.cy && r.cx == w.cx
  {
    var cells := w.cells[..w.cy] + [RowClearFrom(w.cells[w.cy], w.cx)]
                 + BlankGrid(height - w.cy - 1, width);
    assert forall r :: 0 <= r < |cells| ==> |cells[r]| == width by {
      forall r | 0 <= r < |cells| ensures |cells[r]| == width {
        if r < w.cy { assert cells[r] == w.cells[r]; }
        else if r > w.cy { assert cells[r] == BlankGrid(height - w.cy - 1, width)[r - w.cy - 1]; }
      }
    }
    Win(cells, w.cy, w.cx)
  }

  /** wclear: blank the whole window and home its cursor. */
  function WClear(w: Win, height: nat, width: nat): (r: Win)
    requires Shaped(w, height, width)
    ensures Shaped(r, height, width)
  {
    Win(BlankGrid(height, width), 0, 0)
  }

  /** wscrl(1): every line moves up by one, a blank line enters at the
      bottom; the cursor does not move. */
  function WScroll(w: Win, height: nat, width: nat): (r: Win)
    requires Shaped(w, height, width)
    ensures Shaped(r, height, width) && r.cy == w.cy && r.cx == w.cx
  {
    Win(w.cells[1..] + [BlankRow(width)], w.cy, w.cx)
  }

  /** wscrl(-1): every line moves down by one, a blank line enters at the
      top; the cursor does not move. */
  function WScrollDown(w: Win, height: nat, width: nat): (r: Win)
    requires Shaped(w, height, width)
    ensures Shaped(r, height, width) && r.cy == w.cy && r.cx == w.cx
  {
    Win([BlankRow(width)] + w.cells[..height - 1], w.cy, w.cx)
  }

  /** winsertln: a blank line is inserted at the cursor line and the lines
      below it move down, the bottom line is lost; the cursor does not move. */
  function WInsertLn(w: Win, height: nat, width: nat): (r: Win)
    requires Shaped(w, height, width)
    ensures Shaped(r, height, width) && r.cy == w.cy && r.cx == w.cx
  {
    Win(w.cells[..w.cy] + [BlankRow(width)] + w.cells[w.cy..height - 1], w.cy, w.cx)
  }

  /** wdeleteln: the cursor line is removed, the lines below move up and a
      blank line enters at the bottom; the cursor does not move. */
  function WDeleteLn(w: Win, height: nat, width: nat): (r: Win)
    requires Shaped(w, height, width)
    ensures Shaped(r, height, width) && r.cy == w.cy && r.cx == w.cx
  {
    Win(w.cells[..w.cy] + w.cells[w.cy + 1..] + [BlankRow(width)], w.cy, w.cx)
  }
}
