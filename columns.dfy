/** The column folder (tcvt.py, class Columns): numcolumns curses
    sub-windows side by side, presented to the emulator as one window of
    height * numcolumns rows. Each method is proved to act on the logical
    screen Abs() exactly as the matching Logical operation does. */
module ColumnWindows {
  import opened Wrappers
  import opened Grid
  import opened Layout
  import opened Logical
  import opened Folding
  import opened Attributes

  /** Window j's grid once Columns.scroll_up has run on windows start,
      ..., i - 1 of the grids g, in that order. */
  ghost function PartlyScrolled(g: seq<Grid>, height: nat, width: nat, start: nat, i: nat, j: nat): Grid
    requires Uniform(g, height, width) && height >= 1 && 1 <= start <= i <= |g| && j < |g|
  {
    if j == start - 1 && start < i then g[j][height - 1 := g[start][0]]
    else if start <= j < i - 1 then g[j][1..] + [g[j + 1][0]]
    else if start <= j == i - 1 then g[j][1..] + [BlankRow(width)]
    else g[j]
  }

  /** Every window's grid, as PartlyScrolled gives it. */
  ghost function PartlyScrolledAll(g: seq<Grid>, height: nat, width: nat, start: nat, i: nat): (r: seq<Grid>)
    requires Uniform(g, height, width) && height >= 1 && 1 <= start <= i <= |g|
    ensures |r| == |g|
    ensures forall j :: 0 <= j < |g| ==> r[j] == PartlyScrolled(g, height, width, start, i, j)
  {
    seq(|g|, j requires 0 <= j < |g| => PartlyScrolled(g, height, width, start, i, j))
  }

  /** Before any scroll_up call, every window has its grid from g. */
  lemma PartlyScrolledStart(g: seq<Grid>, height: nat, width: nat, start: nat)
    requires Uniform(g, height, width) && height >= 1 && 1 <= start <= |g|
    ensures PartlyScrolledAll(g, height, width, start, start) == g
  {
  }

  /** One more scroll_up(i) call, on the windows PartlyScrolled describes:
      window i - 1 takes the first row window i still has, window i
      scrolls up, and no other window changes. */
  lemma PartlyScrolledStep(g: seq<Grid>, height: nat, width: nat, start: nat, i: nat, a: seq<Grid>)
    requires Uniform(g, height, width) && height >= 1 && 1 <= start <= i < |g|
    requires a == PartlyScrolledAll(g, height, width, start, i)
    ensures |a| == |g| && |a[i - 1]| == height && a[i] == g[i]
    ensures PartlyScrolledAll(g, height, width, start, i + 1)
         == a[i - 1 := a[i - 1][height - 1 := a[i][0]]][i := a[i][1..] + [BlankRow(width)]]
  {
    assert IsGrid(g[i - 1], height, width);
    if i > start {
      LastReplaced(g[i - 1][1..], BlankRow(width), g[i][0]);
    }
  }

  /** Scrolling window 0 and then running the scroll_up loop from window 1
      gives ScrolledWindows. */
  lemma ScrollIsPartly(g: seq<Grid>, g1: seq<Grid>, height: nat, width: nat)
    requires Uniform(g, height, width) && height >= 1 && |g| >= 1
    requires g1 == g[0 := g[0][1..] + [BlankRow(width)]] && Uniform(g1, height, width)
    ensures NonEmpty(g)
    ensures ScrolledWindows(g, width) == PartlyScrolledAll(g1, height, width, 1, |g|)
  {
    PartlyScrolledDone(g, height, width, 1);
    var d, p := ScrolledWindows(g, width), PartlyScrolledAll(g1, height, width, 1, |g|);
    forall j | 0 <= j < |g| ensures d[j] == p[j] {
      ScrolledWindowsAt(g, width, j);
      if j == 0 && |g| > 1 {
        assert IsGrid(g[0], height, width);
        LastReplaced(g[0][1..], BlankRow(width), g[1][0]);
      }
    }
  }

  /** Deleting row r of window i and then running the scroll_up loop from
      window i + 1 deletes row y of the logical screen. */
  lemma DeleteLnIsPartly(gs: seq<Grid>, g1: seq<Grid>, height: nat, width: nat, y: nat, i: nat, r: nat)
    requires Uniform(gs, height, width) && height >= 1 && i < |gs| && r < height && y == i * height + r
    requires g1 == gs[i := gs[i][..r] + gs[i][r + 1..] + [BlankRow(width)]] && Uniform(g1, height, width)
    ensures y < |Concat(gs)|
    ensures Concat(PartlyScrolledAll(g1, height, width, i + 1, |g1|)) == DeleteRow(Concat(gs), y, width)
  {
    PartlyScrolledDone(g1, height, width, i + 1);
    DeleteLnRefines(gs, g1, PartlyScrolledAll(g1, height, width, i + 1, |g1|), height, width, y, i, r);
  }

  /** PartlyScrolled once every window from start on has been scrolled up. */
  lemma PartlyScrolledDone(g: seq<Grid>, height: nat, width: nat, start: nat)
    requires Uniform(g, height, width) && height >= 1 && 1 <= start <= |g|
    ensures NonEmpty(g)
    ensures forall j :: 0 <= j < start - 1 ==> PartlyScrolled(g, height, width, start, |g|, j) == g[j]
    ensures start < |g| ==> PartlyScrolled(g, height, width, start, |g|, start - 1) == g[start - 1][height - 1 := g[start][0]]
    ensures start == |g| ==> PartlyScrolled(g, height, width, start, |g|, start - 1) == g[start - 1]
    ensures forall j :: start <= j < |g| ==>
              PartlyScrolled(g, height, width, start, |g|, j) == g[j][1..] + [NextTop(g, j, width)]
  {
    assert NonEmpty(g) by {
      forall j | 0 <= j < |g| ensures |g[j]| > 0 {
        assert IsGrid(g[j], height, width);
      }
    }
  }

  class Columns {
    const height: nat
    const numcolumns: nat
    const columnwidth: nat
    /** The sub-windows, left to right; the value of each is its grid and cursor. */
    var windows: seq<Win>
    var ypos: int
    var xpos: int
    var attrs: bv32

    function Geometry(): Geom
    {
      Geom(height, numcolumns, columnwidth)
    }

    /** The windows and the logical cursor are in shape; the cursors of the
        windows themselves are arbitrary. */
    ghost predicate Framed()
      reads this
    {
      && ValidGeom(Geometry())
      && |windows| == numcolumns
      && (forall i :: 0 <= i < |windows| ==> Shaped(windows[i], height, columnwidth))
      && 0 <= ypos < Lines(Geometry())
      && 0 <= xpos < columnwidth
    }

    /** Framed, and the current window's cursor sits at the logical cursor
        (what fix_cursor establishes and every public method keeps). */
    ghost predicate Valid()
      reads this
    {
      && Framed()
      && 0 <= ypos / height < |windows|
      && windows[ypos / height].cy == ypos % height
      && windows[ypos / height].cx == xpos
    }

    /** The logical screen: the windows' rows one after the other. */
    ghost function Abs(): (s: Screen)
      reads this
      requires Framed()
      ensures Wf(s)
    {
      ConcatShape(CellsOf(windows), height, columnwidth);
      Screen(Geometry(), Concat(CellsOf(windows)), ypos, xpos, attrs)
    }

    /** Columns.__init__ once the width is known to fit: every window is
        blank with its cursor at the origin, the logical cursor is at the
        origin and no attribute is set. */
    constructor Init(h: nat, width: int, n: int)
      requires MakeGeom(h, width, n).Some? && h >= 1
      ensures Valid()
      ensures Geometry() == MakeGeom(h, width, n).value
      ensures Abs() == Screen(Geometry(), BlankGrid(Lines(Geometry()), columnwidth), 0, 0, 0)
    {
      ColumnWidthIsLargest(h, width, n);
      height := h;
      numcolumns := n;
      columnwidth := ColumnWidth(width, n);
      new;
      windows := [];
      var i := 0;
      while i < numcolumns
        invariant 0 <= i <= numcolumns
        invariant |windows| == i
        invariant forall j :: 0 <= j < i ==> windows[j] == Win(BlankGrid(height, columnwidth), 0, 0)
      {
        windows := windows + [Win(BlankGrid(height, columnwidth), 0, 0)];
        i := i + 1;
      }
      ypos, xpos := 0, 0;
      attrs := 0;
      ConcatBlank(numcolumns, height, columnwidth);
      assert CellsOf(windows) == seq(numcolumns, _ => BlankGrid(height, columnwidth));
    }

    /** Columns(curseswindow, numcolumns) on a screen of h x width: BadWidth
        (None) exactly when MakeGeom rejects the width, otherwise a blank
        folder of that geometry. */
    static method Create(h: nat, width: int, n: int) returns (r: Option<Columns>)
      requires h >= 1
      ensures r.None? <==> MakeGeom(h, width, n).None?
      ensures r.Some? ==> fresh(r.value) && r.value.Valid()
                          && r.value.Geometry() == MakeGeom(h, width, n).value
                          && r.value.Abs().rows == BlankGrid(Lines(r.value.Geometry()), r.value.columnwidth)
                          && r.value.Abs().y == 0 && r.value.Abs().x == 0 && r.value.Abs().attrs == 0
    {
      if MakeGeom(h, width, n).None? {
        r := None;
      } else {
        var c := new Columns.Init(h, width, n);
        r := Some(c);
      }
    }

    /** Columns.getmaxyx: the logical screen has this many rows of this many cells. */
    function MaxYX(): (r: (nat, nat))
      reads this
      requires Framed()
      ensures r.0 == |Abs().rows| && r.0 >= 1
      ensures r.1 >= 1 && forall k :: 0 <= k < r.0 ==> |Abs().rows[k]| == r.1
    {
      (height * numcolumns, columnwidth)
    }

    /** Columns.getyx. */
    function GetYX(): (r: (int, int))
      reads this
      requires Framed()
      ensures 0 <= r.0 < |Abs().rows| && 0 <= r.1 < |Abs().rows[r.0]|
      ensures r == (Abs().y, Abs().x)
    {
      (ypos, xpos)
    }

    /** Columns.curwin (as an index into windows). */
    function CurWin(): (k: int)
      reads this
      requires Framed()
      ensures 0 <= k < |windows|
      ensures k * height <= ypos < k * height + height
    {
      AddressInRange(Geometry(), ypos);
      ypos / height
    }

    /** Columns.curypos: the logical cursor row lives at this row of the
        current window. */
    function CurYPos(): (r: int)
      reads this
      requires Framed()
      ensures 0 <= r < height && CurWin() * height + r == ypos
      ensures windows[CurWin()].cells[r] == Abs().rows[ypos]
    {
      RowAddress(CellsOf(windows), Geometry(), ypos);
      ypos % height
    }

    /** Columns.fix_cursor: moves the current window's cursor to the logical cursor. */
    method FixCursor()
      requires Framed()
      modifies this
      ensures Valid()
      ensures CellsOf(windows) == CellsOf(old(windows))
      ensures ypos == old(ypos) && xpos == old(xpos) && attrs == old(attrs)
    {
      AddressInRange(Geometry(), ypos);
      var k := ypos / height;
      windows := windows[k := WMove(windows[k], height, columnwidth, ypos % height, xpos)];
    }

    /** Columns.move. */
    method Move(y: int, x: int)
      requires Framed()
      modifies this
      ensures Valid() && Abs() == MoveTo(old(Abs()), y, x)
    {
      ypos := Clamp(y, 0, height * numcolumns - 1);
      xpos := Clamp(x, 0, columnwidth - 1);
      FixCursor();
    }

    /** Columns.relmove. */
    method RelMove(dy: int, dx: int)
      requires Framed()
      modifies this
      ensures Valid() && Abs() == Logical.RelMove(old(Abs()), dy, dx)
    {
      Move(ypos + dy, xpos + dx);
    }

    /** The copy loop of Columns.scroll_up: the cursor of previous goes to
        the start of its last row, then addch copies every cell but the last
        of the first row of source (read with inch), and insch the last. */
    method CopyTopToBottom(previous: Win, source: Win) returns (p: Win, s: Win)
      requires ValidGeom(Geometry())
      requires Shaped(previous, height, columnwidth) && Shaped(source, height, columnwidth)
      ensures Shaped(p, height, columnwidth) && Shaped(s, height, columnwidth)
      ensures p.cells == previous.cells[height - 1 := source.cells[0]]
      ensures s.cells == source.cells
    {
      p := WMove(previous, height, columnwidth, height - 1, 0);
      s := source;
      ghost var top := source.cells[0];
      ghost var bottom := p.cells[height - 1];
      SpliceNone(top, bottom);
      var x := 0;
      while x < columnwidth - 1
        invariant 0 <= x <= columnwidth - 1
        invariant Shaped(p, height, columnwidth) && p.cy == height - 1 && p.cx == x
        invariant Shaped(s, height, columnwidth) && s.cells == source.cells
        invariant p.cells == previous.cells[height - 1 := Splice(top, bottom, x)]
      {
        s := WMove(s, height, columnwidth, 0, x);
        var c := s.cells[0][x];
        p := WAddCh(p, height, columnwidth, c);
        SpliceStep(top, bottom, x);
        x := x + 1;
      }
      s := WMove(s, height, columnwidth, 0, columnwidth - 1);
      var c := s.cells[0][columnwidth - 1];
      RowInsertAtLastColumn(p.cells[height - 1], c);
      p := WInsCh(p, height, columnwidth, c);
      SpliceStep(top, bottom, columnwidth - 1);
      SpliceAll(top, bottom);
    }

    /** Columns.scroll_up: the last line of window index - 1 becomes a copy
        of the first line of window index, and window index scrolls up. */
    method ScrollUp(index: nat)
      requires Valid() && 0 < index < numcolumns
      modifies this
      ensures Valid() && ypos == old(ypos) && xpos == old(xpos) && attrs == old(attrs)
      ensures CellsOf(windows) == CellsOf(old(windows))
                [index - 1 := CellsOf(old(windows))[index - 1][height - 1 := CellsOf(old(windows))[index][0]]]
                [index := CellsOf(old(windows))[index][1..] + [BlankRow(columnwidth)]]
    {
      ghost var g := CellsOf(windows);
      var previous, source := CopyTopToBottom(windows[index - 1], windows[index]);
      CellsOfUpdate(windows, index - 1, previous);
      CellsOfUpdate(windows[index - 1 := previous], index, source);
      windows := windows[index - 1 := previous][index := source];
      ghost var g1 := g[index - 1 := previous.cells][index := source.cells];
      assert CellsOf(windows) == g1;
      FixCursor();
      var scrolled := WScroll(windows[index], height, columnwidth);
      assert scrolled.cells == g[index][1..] + [BlankRow(columnwidth)];
      CellsOfUpdate(windows, index, scrolled);
      windows := windows[index := scrolled];
      assert g1[index := scrolled.cells] == g[index - 1 := previous.cells][index := scrolled.cells];
    }

    /** The copy loop of Columns.scroll_down: current (already scrolled
        down) has its cursor moved to the origin, then addch copies every
        cell but the last of the last row of previous, and insch the last. */
    method CopyBottomToTop(current: Win, previous: Win) returns (c: Win, p: Win)
      requires ValidGeom(Geometry())
      requires Shaped(current, height, columnwidth) && Shaped(previous, height, columnwidth)
      ensures Shaped(c, height, columnwidth) && Shaped(p, height, columnwidth)
      ensures c.cells == current.cells[0 := previous.cells[height - 1]]
      ensures p.cells == previous.cells
    {
      c := WMove(current, height, columnwidth, 0, 0);
      p := previous;
      ghost var bottom := previous.cells[height - 1];
      ghost var top := c.cells[0];
      SpliceNone(bottom, top);
      var x := 0;
      while x < columnwidth - 1
        invariant 0 <= x <= columnwidth - 1
        invariant Shaped(c, height, columnwidth) && c.cy == 0 && c.cx == x
        invariant Shaped(p, height, columnwidth) && p.cells == previous.cells
        invariant c.cells == current.cells[0 := Splice(bottom, top, x)]
      {
        p := WMove(p, height, columnwidth, height - 1, x);
        var ch := p.cells[height - 1][x];
        c := WAddCh(c, height, columnwidth, ch);
        SpliceStep(bottom, top, x);
        x := x + 1;
      }
      p := WMove(p, height, columnwidth, height - 1, columnwidth - 1);
      var ch := p.cells[height - 1][columnwidth - 1];
      RowInsertAtLastColumn(c.cells[0], ch);
      c := WInsCh(c, height, columnwidth, ch);
      SpliceStep(bottom, top, columnwidth - 1);
      SpliceAll(bottom, top);
    }

    /** Columns.scroll_down: window index scrolls down and its first line
        becomes a copy of the last line of window index - 1. */
    method ScrollDown(index: nat)
      requires Valid() && 0 < index < numcolumns
      modifies this
      ensures Valid() && ypos == old(ypos) && xpos == old(xpos) && attrs == old(attrs)
      ensures |windows| == |old(windows)|
      ensures forall j :: 0 <= j < |windows| && j != index ==> windows[j].cells == old(windows[j].cells)
      ensures windows[index].cells
           == [old(windows[index - 1].cells[height - 1])] + old(windows[index].cells)[..height - 1]
    {
      var scrolled := WScrollDown(windows[index], height, columnwidth);
      var current, previous := CopyBottomToTop(scrolled, windows[index - 1]);
      FirstReplaced(old(windows[index].cells)[..height - 1], BlankRow(columnwidth), old(windows[index - 1].cells[height - 1]));
      windows := windows[index - 1 := previous][index := current];
      FixCursor();
    }

    /** The scroll_up(i) calls for i from start up to numcolumns - 1, the
        loop shared by Columns.scroll and Columns.deleteln: window start - 1
        takes the first row of window start as its last row, and every later
        window scrolls up and takes in the first row of the window after it. */
    method ScrollUpFrom(start: nat, ghost g: seq<Grid>)
      requires Valid() && 1 <= start <= numcolumns
      requires g == CellsOf(windows) && Uniform(g, height, columnwidth)
      modifies this
      ensures Valid() && ypos == old(ypos) && xpos == old(xpos) && attrs == old(attrs)
      ensures CellsOf(windows) == PartlyScrolledAll(g, height, columnwidth, start, |g|)
    {
      PartlyScrolledStart(g, height, columnwidth, start);
      var i := start;
      while i < numcolumns
        invariant start <= i <= numcolumns
        invariant Valid() && ypos == old(ypos) && xpos == old(xpos) && attrs == old(attrs)
        invariant CellsOf(windows) == PartlyScrolledAll(g, height, columnwidth, start, i)
      {
        PartlyScrolledStep(g, height, columnwidth, start, i, CellsOf(windows));
        ScrollUp(i);
        i := i + 1;
      }
    }

    /** The windows are all of the folder's shape. */
    lemma WindowsUniform()
      requires Framed()
      ensures Uniform(CellsOf(windows), height, columnwidth)
    {
      forall j | 0 <= j < numcolumns ensures IsGrid(CellsOf(windows)[j], height, columnwidth) {
        assert Shaped(windows[j], height, columnwidth);
      }
    }

    /** Columns.scroll: the logical screen scrolls up by one row. */
    method Scroll()
      requires Valid()
      modifies this
      ensures Valid() && Abs() == Logical.Scroll(old(Abs()))
    {
      ghost var g := CellsOf(windows);
      WindowsUniform();
      var first := WScroll(windows[0], height, columnwidth);
      CellsOfUpdate(windows, 0, first);
      windows := windows[0 := first];
      WindowsUniform();
      ScrollUpFrom(1, CellsOf(windows));
      ScrollIsPartly(g, CellsOf(old(windows))[0 := first.cells], height, columnwidth);
      ScrollRefines(g, height, columnwidth);
    }

    /** Columns.deleteln: the cursor row is deleted from the logical screen. */
    method DeleteLn()
      requires Valid()
      modifies this
      ensures Valid() && Abs() == DeleteLine(old(Abs()))
    {
      AddressInRange(Geometry(), ypos);
      var index := ypos / height;
      ghost var r := ypos % height;
      ghost var g := CellsOf(windows);
      WindowsUniform();
      var deleted := WDeleteLn(windows[index], height, columnwidth);
      CellsOfUpdate(windows, index, deleted);
      windows := windows[index := deleted];
      ghost var g1 := CellsOf(windows);
      WindowsUniform();
      ScrollUpFrom(index + 1, g1);
      DeleteLnIsPartly(g, g1, height, columnwidth, ypos, index, r);
      assert Abs().rows == DeleteRow(old(Abs()).rows, ypos, columnwidth);
    }

    /** The scroll_down(i) calls of Columns.insertln, for i from
        numcolumns - 1 down to index + 1: every window after index scrolls
        down and takes in the last row the window before it had. */
    method ScrollDownAfter(index: nat, ghost g: seq<Grid>)
      requires Valid() && index < numcolumns && g == CellsOf(windows)
      modifies this
      ensures Valid() && ypos == old(ypos) && xpos == old(xpos) && attrs == old(attrs)
      ensures |windows| == |g|
      ensures forall j :: 0 <= j <= index ==> windows[j].cells == g[j]
      ensures forall j :: index < j < numcolumns ==> windows[j].cells == [g[j - 1][height - 1]] + g[j][..height - 1]
    {
      var i := numcolumns - 1;
      while i > index
        invariant index <= i <= numcolumns - 1
        invariant Valid() && ypos == old(ypos) && xpos == old(xpos) && attrs == old(attrs)
        invariant |windows| == |g|
        invariant forall j :: 0 <= j <= i ==> windows[j].cells == g[j]
        invariant forall j :: i < j < numcolumns ==> windows[j].cells == [g[j - 1][height - 1]] + g[j][..height - 1]
      {
        ScrollDown(i);
        i := i - 1;
      }
    }

    /** Columns.insertln: a blank row is inserted at the cursor row of the
        logical screen. */
    method InsertLn()
      requires Valid()
      modifies this
      ensures Valid() && Abs() == InsertLine(old(Abs()))
    {
      AddressInRange(Geometry(), ypos);
      var index := ypos / height;
      ghost var r := ypos % height;
      ghost var g := CellsOf(windows);
      ScrollDownAfter(index, g);
      ghost var g1 := CellsOf(windows);
      windows := windows[index := WInsertLn(windows[index], height, columnwidth)];
      InsertLnRefines(g, g1, CellsOf(windows), height, columnwidth, ypos, index, r);
      assert Abs().rows == InsertRow(old(Abs()).rows, ypos, columnwidth);
    }

    /** The clear() calls of Columns.clrtobot: every window from start on
        is blanked. */
    method ClearFrom(start: nat)
      requires Valid() && ypos / height < start <= numcolumns
      modifies this
      ensures Valid() && ypos == old(ypos) && xpos == old(xpos) && attrs == old(attrs)
      ensures |windows| == |old(windows)|
      ensures forall j :: 0 <= j < start ==> windows[j] == old(windows[j])
      ensures forall j :: start <= j < numcolumns ==> windows[j].cells == BlankGrid(height, columnwidth)
    {
      var i := start;
      while i < numcolumns
        invariant start <= i <= numcolumns
        invariant Framed() && ypos == old(ypos) && xpos == old(xpos) && attrs == old(attrs)
        invariant |windows| == |old(windows)|
        invariant forall j :: 0 <= j < numcolumns && (j < start || i <= j) ==> windows[j] == old(windows[j])
        invariant forall j :: start <= j < i ==> windows[j].cells == BlankGrid(height, columnwidth)
      {
        windows := windows[i := WClear(windows[i], height, columnwidth)];
        i := i + 1;
      }
    }

    /** Columns.clrtobot: the logical screen is cleared from the cursor on. */
    method ClrToBot()
      requires Valid()
      modifies this
      ensures Valid() && Abs() == ClearToBottom(old(Abs()))
    {
      AddressInRange(Geometry(), ypos);
      var index := ypos / height;
      ghost var r := ypos % height;
      ghost var g := CellsOf(windows);
      ClearFrom(index + 1);
      windows := windows[index := WClrToBot(windows[index], height, columnwidth)];
      ClrToBotRefines(g, CellsOf(windows), height, columnwidth, ypos, xpos, index, r);
      assert Abs().rows == ClearBelow(old(Abs()).rows, ypos, xpos, columnwidth);
    }

    /** Replaces the row of the current window that holds the cursor and
        leaves that window's cursor at (cy, cx). */
    method SetCursorRow(row: Row, cy: int, cx: int)
      requires Framed() && |row| == columnwidth
      requires cy == ypos % height && 0 <= cx < columnwidth
      modifies this
      ensures Framed() && Abs() == WithCursorRow(old(Abs()), row)
      ensures 0 <= ypos / height < |windows|
      ensures windows[ypos / height].cy == cy && windows[ypos / height].cx == cx
    {
      AddressInRange(Geometry(), ypos);
      var k := ypos / height;
      ghost var g := CellsOf(windows);
      windows := windows[k := Win(windows[k].cells[cy := row], cy, cx)];
      assert CellsOf(windows) == g[k := g[k][cy := row]];
      CursorRowRefines(g, Geometry(), ypos, row);
    }

    /** The branch of Columns.addch before the last column: the current
        window's addch writes the cell and the logical cursor advances. */
    method WAddChInside(c: int)
      requires Valid() && xpos < columnwidth - 1
      modifies this
      ensures Valid() && Abs() == WriteAtCursor(old(Abs()), c).(x := old(xpos) + 1)
    {
      AddressInRange(Geometry(), ypos);
      var k, r := ypos / height, ypos % height;
      var cell := Cell(c, attrs);
      var w := WAddCh(WMove(windows[k], height, columnwidth, r, xpos), height, columnwidth, cell);
      RowAddress(CellsOf(windows), Geometry(), ypos);
      assert w.cells[r] == Abs().rows[ypos][xpos := cell];
      SetCursorRow(w.cells[r], r, xpos + 1);
      ghost var s := Abs();
      xpos := xpos + 1;
      assert Abs() == s.(x := xpos);
    }

    /** Columns.addch, with the scroll test at the last logical row. */
    method AddCh(c: int)
      requires Valid()
      modifies this
      ensures Valid() && Abs() == AddChar(old(Abs()), c)
    {
      if xpos == columnwidth - 1 {
        InsertAtLastColumnWrites(Abs(), c);
        InsCh(c);
        if ypos + 1 == height * numcolumns {
          Scroll();
          Move(ypos, 0);
        } else {
          Move(ypos + 1, 0);
        }
      } else {
        WAddChInside(c);
      }
    }

    /** Columns.addch as the source writes it: the scroll test compares
        the cursor row with 2 * height. */
    method AddChAsWritten(c: int)
      requires Valid()
      modifies this
      ensures Valid() && Abs() == AddCharAsWritten(old(Abs()), c)
    {
      if xpos == columnwidth - 1 {
        InsertAtLastColumnWrites(Abs(), c);
        InsCh(c);
        if ypos + 1 == 2 * height {
          Scroll();
          Move(ypos, 0);
        } else {
          Move(ypos + 1, 0);
        }
      } else {
        WAddChInside(c);
      }
    }

    /** Columns.clrtoeol. */
    method ClrToEol()
      requires Valid()
      modifies this
      ensures Valid() && Abs() == ClearToEol(old(Abs()))
    {
      AddressInRange(Geometry(), ypos);
      var k := ypos / height;
      var w := WClrToEol(windows[k], height, columnwidth);
      RowAddress(CellsOf(windows), Geometry(), ypos);
      SetCursorRow(w.cells[w.cy], w.cy, w.cx);
    }

    /** Columns.delch. */
    method DelCh()
      requires Valid()
      modifies this
      ensures Valid() && Abs() == DeleteChar(old(Abs()))
    {
      AddressInRange(Geometry(), ypos);
      var k, r := ypos / height, ypos % height;
      var w := WDelCh(WMove(windows[k], height, columnwidth, r, xpos), height, columnwidth);
      RowAddress(CellsOf(windows), Geometry(), ypos);
      SetCursorRow(w.cells[r], r, xpos);
    }

    /** Columns.insch. */
    method InsCh(c: int)
      requires Valid()
      modifies this
      ensures Valid() && Abs() == InsertChar(old(Abs()), c)
    {
      AddressInRange(Geometry(), ypos);
      var k, r := ypos / height, ypos % height;
      var w := WInsCh(WMove(windows[k], height, columnwidth, r, xpos), height, columnwidth, Cell(c, attrs));
      RowAddress(CellsOf(windows), Geometry(), ypos);
      SetCursorRow(w.cells[r], r, xpos);
    }

    /** Columns.inch: the cell under the logical cursor. */
    method Inch() returns (c: Cell)
      requires Valid()
      modifies this
      ensures Valid() && Abs() == old(Abs())
      ensures c == Abs().rows[ypos][xpos]
    {
      AddressInRange(Geometry(), ypos);
      var k, r := ypos / height, ypos % height;
      RowAddress(CellsOf(windows), Geometry(), ypos);
      windows := windows[k := WMove(windows[k], height, columnwidth, r, xpos)];
      assert CellsOf(windows) == CellsOf(old(windows));
      c := windows[k].cells[r][xpos];
    }

    /** Columns.attron as written: the bits are ORed in. */
    method AttrOnAsWritten(a: bv32)
      requires Valid()
      modifies this
      ensures Valid() && Abs() == Logical.AttrOnAsWritten(old(Abs()), a)
    {
      attrs := attrs | a;
    }

    /** Columns.attron as intended: a colour pair replaces the current one. */
    method AttrOn(a: bv32)
      requires Valid()
      modifies this
      ensures Valid() && Abs() == Logical.AttrOn(old(Abs()), a)
    {
      attrs := Combine(attrs, a);
    }

    /** Columns.attrset. */
    method AttrSet(a: bv32)
      requires Valid()
      modifies this
      ensures Valid() && Abs() == Logical.AttrSet(old(Abs()), a)
    {
      attrs := a;
    }
  }
}
