/** The logical screen the child process sees: one tall grid of
    Lines(geom) rows of columnwidth cells, a cursor and the current
    attribute bits. Each operation of the column folder (tcvt.py, class
    Columns) is specified here on plain logical rows; ColumnWindows proves
    that the folder's per-window code computes exactly these. */
module Logical {
  import opened Grid
  import opened Layout
  import opened Attributes

  datatype Screen = Screen(geom: Geom, rows: seq<Row>, y: int, x: int, attrs: bv32)

  predicate Wf(s: Screen)
  {
    && ValidGeom(s.geom)
    && IsGrid(s.rows, Lines(s.geom), s.geom.columnwidth)
    && 0 <= s.y < Lines(s.geom)
    && 0 <= s.x < s.geom.columnwidth
  }

  // ---------------------------------------------------------------------
  // Whole-row shifts of the logical screen

  /** Scroll up by one: every row takes the content of the row below it and
      the last row is blank. */
  function ShiftUp(rows: seq<Row>, width: nat): (r: seq<Row>)
    requires |rows| > 0
    ensures |r| == |rows|
    ensures forall k :: 0 <= k < |rows| - 1 ==> r[k] == rows[k + 1]
    ensures r[|rows| - 1] == BlankRow(width)
  {
    rows[1..] + [BlankRow(width)]
  }

  /** Delete row y: rows above y stay, rows below move up, the last row is blank. */
  function DeleteRow(rows: seq<Row>, y: nat, width: nat): (r: seq<Row>)
    requires y < |rows|
    ensures |r| == |rows|
    ensures forall k :: 0 <= k < y ==> r[k] == rows[k]
    ensures forall k :: y <= k < |rows| - 1 ==> r[k] == rows[k + 1]
    ensures r[|rows| - 1] == BlankRow(width)
  {
    rows[..y] + rows[y + 1..] + [BlankRow(width)]
  }

  /** Insert a blank row at y: rows above y stay, rows from y on move down,
      the old last row is lost. */
  function InsertRow(rows: seq<Row>, y: nat, width: nat): (r: seq<Row>)
    requires y < |rows|
    ensures |r| == |rows|
    ensures forall k :: 0 <= k < y ==> r[k] == rows[k]
    ensures r[y] == BlankRow(width)
    ensures forall k :: y < k < |rows| ==> r[k] == rows[k - 1]
  {
    rows[..y] + [BlankRow(width)] + rows[y..|rows| - 1]
  }

  /** Clear from cell (y, x) to the end of the screen. */
  function ClearBelow(rows: seq<Row>, y: nat, x: nat, width: nat): (r: seq<Row>)
    requires y < |rows| && x <= |rows[y]| == width
    ensures |r| == |rows|
    ensures forall k :: 0 <= k < y ==> r[k] == rows[k]
    ensures r[y] == RowClearFrom(rows[y], x)
    ensures forall k :: y < k < |rows| ==> r[k] == BlankRow(width)
  {
    rows[..y] + [RowClearFrom(rows[y], x)] + BlankGrid(|rows| - y - 1, width)
  }

  /** Deleting the row just inserted gives back the old rows, less the one
      the insertion pushed off the bottom. */
  lemma {:induction false} DeleteUndoesInsert(rows: seq<Row>, y: nat, width: nat)
    requires y < |rows|
    ensures DeleteRow(InsertRow(rows, y, width), y, width)
         == rows[..|rows| - 1] + [BlankRow(width)]
  {
    var d := DeleteRow(InsertRow(rows, y, width), y, width);
    var e := rows[..|rows| - 1] + [BlankRow(width)];
    assert |d| == |e|;
    forall k | 0 <= k < |d| ensures d[k] == e[k] {
      if k < |rows| - 1 {
        assert e[k] == rows[k];
      }
    }
  }

  /** Inserting a row where one was just deleted blanks that row and keeps
      every other row. */
  lemma {:induction false} InsertUndoesDelete(rows: seq<Row>, y: nat, width: nat)
    requires y < |rows|
    ensures InsertRow(DeleteRow(rows, y, width), y, width) == rows[y := BlankRow(width)]
  {
    var d := InsertRow(DeleteRow(rows, y, width), y, width);
    var e := rows[y := BlankRow(width)];
    assert |d| == |e|;
    forall k | 0 <= k < |d| ensures d[k] == e[k] {
      if k > y {
        assert d[k] == DeleteRow(rows, y, width)[k - 1];
      }
    }
  }

  /** k scrolls in a row. */
  function ShiftUpTimes(rows: seq<Row>, width: nat, k: nat): (r: seq<Row>)
    requires |rows| > 0
    ensures |r| == |rows|
  {
    if k == 0 then rows else ShiftUp(ShiftUpTimes(rows, width, k - 1), width)
  }

  /** After k <= |rows| scrolls the rows have moved up by k and k blank rows
      have entered at the bottom. */
  lemma {:induction false} ShiftUpTimesMovesUp(rows: seq<Row>, width: nat, k: nat)
    requires 0 < |rows| && k <= |rows|
    ensures ShiftUpTimes(rows, width, k) == rows[k..] + BlankGrid(k, width)
  {
    if k > 0 {
      ShiftUpTimesMovesUp(rows, width, k - 1);
      var p := ShiftUpTimes(rows, width, k - 1);
      var r := ShiftUpTimes(rows, width, k);
      var e := rows[k..] + BlankGrid(k, width);
      assert r == ShiftUp(p, width);
      forall j | 0 <= j < |rows| ensures r[j] == e[j] {
        if j < |rows| - 1 {
          assert r[j] == p[j + 1];
        }
      }
    }
  }

  /** Scrolling as many times as there are logical rows blanks the screen. */
  lemma ScrollingEveryRowClears(rows: seq<Row>, width: nat)
    requires 0 < |rows|
    ensures ShiftUpTimes(rows, width, |rows|) == BlankGrid(|rows|, width)
  {
    ShiftUpTimesMovesUp(rows, width, |rows|);
    assert rows[|rows|..] == [];
  }

  // ---------------------------------------------------------------------
  // Operations of the column folder on the logical screen

  function Clamp(v: int, lo: int, hi: int): (r: int)
    requires lo <= hi
    ensures lo <= r <= hi
    ensures lo <= v <= hi ==> r == v
    ensures v < lo ==> r == lo
    ensures v > hi ==> r == hi
  {
    if v < lo then lo else if v > hi then hi else v
  }

  /** Columns.move: the cursor goes to (y, x) clamped into the screen. */
  function MoveTo(s: Screen, y: int, x: int): (r: Screen)
    requires Wf(s)
    ensures Wf(r) && r.geom == s.geom && r.rows == s.rows && r.attrs == s.attrs
    ensures r.y == Clamp(y, 0, Lines(s.geom) - 1)
    ensures r.x == Clamp(x, 0, s.geom.columnwidth - 1)
  {
    s.(y := Clamp(y, 0, Lines(s.geom) - 1), x := Clamp(x, 0, s.geom.columnwidth - 1))
  }

  /** Columns.relmove: the cursor moves by (dy, dx), stopping at the edges
      of the logical screen; a move that stays inside is exact. */
  function RelMove(s: Screen, dy: int, dx: int): (r: Screen)
    requires Wf(s)
    ensures Wf(r) && r.geom == s.geom && r.rows == s.rows && r.attrs == s.attrs
    ensures r.y == Clamp(s.y + dy, 0, Lines(s.geom) - 1)
    ensures r.x == Clamp(s.x + dx, 0, s.geom.columnwidth - 1)
    ensures (0 <= s.y + dy < Lines(s.geom) && 0 <= s.x + dx < s.geom.columnwidth) ==>
              r.y == s.y + dy && r.x == s.x + dx
  {
    MoveTo(s, s.y + dy, s.x + dx)
  }

  /** Moving is idempotent and forgets where the cursor was: moving twice to
      the same place is moving once, and a move inside the screen is exact. */
  lemma MoveProperties(s: Screen, t: Screen, y: int, x: int)
    requires Wf(s) && Wf(t) && s.geom == t.geom && s.rows == t.rows && s.attrs == t.attrs
    ensures MoveTo(MoveTo(s, y, x), y, x) == MoveTo(s, y, x)
    ensures MoveTo(s, y, x) == MoveTo(t, y, x)
    ensures (0 <= y < Lines(s.geom) && 0 <= x < s.geom.columnwidth)
        <==> (MoveTo(s, y, x).y == y && MoveTo(s, y, x).x == x)
  {
  }

  /** Columns.scroll. */
  function Scroll(s: Screen): (r: Screen)
    requires Wf(s)
    ensures Wf(r) && r.geom == s.geom && r.y == s.y && r.x == s.x && r.attrs == s.attrs
    ensures r.rows == ShiftUp(s.rows, s.geom.columnwidth)
  {
    s.(rows := ShiftUp(s.rows, s.geom.columnwidth))
  }

  /** Columns.deleteln. */
  function DeleteLine(s: Screen): (r: Screen)
    requires Wf(s)
    ensures Wf(r) && r.geom == s.geom && r.y == s.y && r.x == s.x && r.attrs == s.attrs
    ensures r.rows == DeleteRow(s.rows, s.y, s.geom.columnwidth)
  {
    s.(rows := DeleteRow(s.rows, s.y, s.geom.columnwidth))
  }

  /** Columns.insertln. */
  function InsertLine(s: Screen): (r: Screen)
    requires Wf(s)
    ensures Wf(r) && r.geom == s.geom && r.y == s.y && r.x == s.x && r.attrs == s.attrs
    ensures r.rows == InsertRow(s.rows, s.y, s.geom.columnwidth)
  {
    s.(rows := InsertRow(s.rows, s.y, s.geom.columnwidth))
  }

  /** Columns.clrtobot. */
  function ClearToBottom(s: Screen): (r: Screen)
    requires Wf(s)
    ensures Wf(r) && r.geom == s.geom && r.y == s.y && r.x == s.x && r.attrs == s.attrs
    ensures r.rows == ClearBelow(s.rows, s.y, s.x, s.geom.columnwidth)
  {
    var r := s.(rows := ClearBelow(s.rows, s.y, s.x, s.geom.columnwidth));
    assert IsGrid(r.rows, Lines(s.geom), s.geom.columnwidth) by {
      forall k | 0 <= k < |r.rows| ensures |r.rows[k]| == s.geom.columnwidth {
        if k < s.y { assert r.rows[k] == s.rows[k]; }
      }
    }
    r
  }

  /** Replaces the cursor row of s. */
  function WithCursorRow(s: Screen, row: Row): (r: Screen)
    requires Wf(s) && |row| == s.geom.columnwidth
    ensures Wf(r) && r.geom == s.geom && r.y == s.y && r.x == s.x && r.attrs == s.attrs
    ensures r.rows == s.rows[s.y := row]
  {
    s.(rows := s.rows[s.y := row])
  }

  /** Columns.clrtoeol. */
  function ClearToEol(s: Screen): (r: Screen)
    requires Wf(s)
    ensures Wf(r)
    ensures r.geom == s.geom && r.y == s.y && r.x == s.x && r.attrs == s.attrs
    ensures forall j :: 0 <= j < |s.rows| && j != s.y ==> r.rows[j] == s.rows[j]
  {
    WithCursorRow(s, RowClearFrom(s.rows[s.y], s.x))
  }

  /** Columns.delch. */
  function DeleteChar(s: Screen): (r: Screen)
    requires Wf(s)
    ensures Wf(r)
    ensures r.geom == s.geom && r.y == s.y && r.x == s.x && r.attrs == s.attrs
    ensures forall j :: 0 <= j < |s.rows| && j != s.y ==> r.rows[j] == s.rows[j]
  {
    WithCursorRow(s, RowDelete(s.rows[s.y], s.x))
  }

  /** Columns.insch: insert c, with the current attributes, at the cursor. */
  function InsertChar(s: Screen, c: int): (r: Screen)
    requires Wf(s)
    ensures Wf(r)
    ensures r.geom == s.geom && r.y == s.y && r.x == s.x && r.attrs == s.attrs
    ensures forall j :: 0 <= j < |s.rows| && j != s.y ==> r.rows[j] == s.rows[j]
  {
    WithCursorRow(s, RowInsert(s.rows[s.y], s.x, Cell(c, s.attrs)))
  }

  /** At the last column, inserting a character overwrites the cursor
      cell: what addch relies on there. */
  lemma InsertAtLastColumnWrites(s: Screen, c: int)
    requires Wf(s) && s.x == s.geom.columnwidth - 1
    ensures InsertChar(s, c) == WriteAtCursor(s, c)
  {
    RowInsertAtLastColumn(s.rows[s.y], Cell(c, s.attrs));
  }

  /** Columns.attron as written: the attribute bits are ORed in
      (Colors.CombineAsWritten). */
  function AttrOnAsWritten(s: Screen, a: bv32): (r: Screen)
    ensures r.attrs == CombineAsWritten(s.attrs, a)
    ensures r.geom == s.geom && r.rows == s.rows && r.y == s.y && r.x == s.x
  {
    s.(attrs := s.attrs | a)
  }

  /** Columns.attron as intended: a colour pair replaces the current one
      (Colors.Combine). */
  function AttrOn(s: Screen, a: bv32): (r: Screen)
    ensures r.attrs == Combine(s.attrs, a)
    ensures r.geom == s.geom && r.rows == s.rows && r.y == s.y && r.x == s.x
  {
    s.(attrs := Combine(s.attrs, a))
  }

  /** Columns.attrset. */
  function AttrSet(s: Screen, a: bv32): (r: Screen)
    ensures r.attrs == a
    ensures r.geom == s.geom && r.rows == s.rows && r.y == s.y && r.x == s.x
  {
    s.(attrs := a)
  }

  /** Writes c with the current attributes at the cursor cell. */
  function WriteAtCursor(s: Screen, c: int): (r: Screen)
    requires Wf(s)
    ensures Wf(r)
  {
    WithCursorRow(s, s.rows[s.y][s.x := Cell(c, s.attrs)])
  }

  /** Columns.addch as intended: write c at the cursor; before the last
      column the cursor advances; at the last column it wraps to the start
      of the next row, or, on the last logical row, the screen scrolls and
      the cursor goes to the start of that row. */
  function AddChar(s: Screen, c: int): (r: Screen)
    requires Wf(s)
    ensures Wf(r)
  {
    var w := WriteAtCursor(s, c);
    if s.x == s.geom.columnwidth - 1 then
      if s.y + 1 == Lines(s.geom) then MoveTo(Scroll(w), s.y, 0)
      else MoveTo(w, s.y + 1, 0)
    else w.(x := s.x + 1)
  }

  /** Columns.addch as the source writes it: the scroll test compares with
      twice the window height whatever the number of columns. */
  function AddCharAsWritten(s: Screen, c: int): (r: Screen)
    requires Wf(s)
    ensures Wf(r)
  {
    var w := WriteAtCursor(s, c);
    if s.x == s.geom.columnwidth - 1 then
      if s.y + 1 == 2 * s.geom.height then MoveTo(Scroll(w), s.y, 0)
      else MoveTo(w, s.y + 1, 0)
    else w.(x := s.x + 1)
  }

  /** Writing before the last column puts c with the current attributes at
      the cursor, changes no other cell, and advances the cursor by one. */
  lemma AddCharBeforeLastColumn(s: Screen, c: int)
    requires Wf(s) && s.x < s.geom.columnwidth - 1
    ensures var r := AddChar(s, c);
      && r.rows[s.y][s.x] == Cell(c, s.attrs)
      && (forall k, j :: 0 <= k < |s.rows| && 0 <= j < s.geom.columnwidth && (k, j) != (s.y, s.x)
            ==> r.rows[k][j] == s.rows[k][j])
      && r.y == s.y && r.x == s.x + 1 && r.attrs == s.attrs
  {
  }

  /** Writing at the last column of a row other than the last puts c there,
      changes no other cell, and moves the cursor to the start of the next row. */
  lemma AddCharWraps(s: Screen, c: int)
    requires Wf(s) && s.x == s.geom.columnwidth - 1 && s.y + 1 < Lines(s.geom)
    ensures var r := AddChar(s, c);
      && r.rows == s.rows[s.y := s.rows[s.y][s.x := Cell(c, s.attrs)]]
      && r.y == s.y + 1 && r.x == 0 && r.attrs == s.attrs
  {
  }

  /** Writing at the last cell of the screen puts c there and scrolls: the
      written row ends on the row above, a blank row enters at the bottom,
      and the cursor goes to the start of the last row. */
  lemma AddCharScrollsAtBottom(s: Screen, c: int)
    requires Wf(s) && s.x == s.geom.columnwidth - 1 && s.y + 1 == Lines(s.geom)
    ensures var r := AddChar(s, c);
      && (s.y > 0 ==> r.rows[s.y - 1] == s.rows[s.y][s.x := Cell(c, s.attrs)])
      && (forall k :: 0 <= k < s.y - 1 ==> r.rows[k] == s.rows[k + 1])
      && r.rows[s.y] == BlankRow(s.geom.columnwidth)
      && r.y == s.y && r.x == 0 && r.attrs == s.attrs
  {
  }

  /** With the default two columns the source's test agrees with the intended one. */
  lemma AddCharAsWrittenAgreesOnTwoColumns(s: Screen, c: int)
    requires Wf(s) && s.geom.numcolumns == 2
    ensures AddCharAsWritten(s, c) == AddChar(s, c)
  {
  }

  /** With three or more columns, a character written at the last cell of
      the second window scrolls the whole screen and keeps the cursor on
      that row, although further windows lie below; the intended behaviour
      moves to the start of the next logical row without scrolling. */
  lemma AddCharAsWrittenScrollsBeforeLastWindow(s: Screen, c: int)
    requires Wf(s) && s.geom.numcolumns >= 3
    requires s.y + 1 == 2 * s.geom.height && s.x == s.geom.columnwidth - 1
    ensures AddCharAsWritten(s, c) == MoveTo(Scroll(WriteAtCursor(s, c)), s.y, 0)
    ensures AddChar(s, c) == MoveTo(WriteAtCursor(s, c), s.y + 1, 0)
    ensures AddChar(s, c).y == s.y + 1 && AddChar(s, c).rows == WriteAtCursor(s, c).rows
  {
    assert s.y + 1 < Lines(s.geom);
  }

  /** With one column, a character written at the last cell of the screen
      does not scroll: the rows are those after the write, the cursor goes
      to the start of the last row, and the next character overwrites the
      first cell of that row; the intended behaviour scrolls. */
  lemma AddCharAsWrittenOneColumnOverwrites(s: Screen, c: int, d: int)
    requires Wf(s) && s.geom.numcolumns == 1
    requires s.y + 1 == Lines(s.geom) && s.x == s.geom.columnwidth - 1
    ensures AddCharAsWritten(s, c).rows == WriteAtCursor(s, c).rows
    ensures AddCharAsWritten(s, c).y == s.y && AddCharAsWritten(s, c).x == 0
    ensures AddCharAsWritten(AddCharAsWritten(s, c), d).rows[s.y][0] == Cell(d, s.attrs)
    ensures AddChar(s, c) == MoveTo(Scroll(WriteAtCursor(s, c)), s.y, 0)
  {
    assert s.y + 1 != 2 * s.geom.height;
  }

  /** With three columns of one row, a character written at the end of the
      second row scrolls the screen and stays on that row, although a third
      row lies below it; the intended behaviour wraps into the third column. */
  lemma AddCharAsWrittenScrollsEarly()
    ensures var s := Screen(Geom(1, 3, 1), BlankGrid(3, 1), 1, 0, 0);
      && Wf(s)
      && AddCharAsWritten(s, 65).y == 1
      && AddCharAsWritten(s, 65).rows[0] == [Cell(65, 0)]
      && AddChar(s, 65).y == 2
      && AddChar(s, 65).rows[1] == [Cell(65, 0)]
  {
    var s := Screen(Geom(1, 3, 1), BlankGrid(3, 1), 1, 0, 0);
    assert Lines(s.geom) == 3;
    assert Wf(s);
    var w := WriteAtCursor(s, 65);
    assert w.rows[1] == [Cell(65, 0)];
    assert ShiftUp(w.rows, 1)[0] == w.rows[1];
  }

  /** With one column, a character written at the last cell of the screen
      does not scroll: the cursor stays at the start of the last row, so the
      next line of output overwrites it. */
  lemma AddCharAsWrittenNeverScrollsOneColumn()
    ensures var s := Screen(Geom(2, 1, 1), BlankGrid(2, 1), 1, 0, 0);
      && Wf(s)
      && AddCharAsWritten(s, 65).rows[1] == [Cell(65, 0)]
      && AddCharAsWritten(s, 65).y == 1
      && AddChar(s, 65).rows[0] == [Cell(65, 0)]
      && AddChar(s, 65).rows[1] == BlankRow(1)
  {
    var s := Screen(Geom(2, 1, 1), BlankGrid(2, 1), 1, 0, 0);
    assert Lines(s.geom) == 2;
    assert Wf(s);
    var w := WriteAtCursor(s, 65);
    assert w.rows[1] == [Cell(65, 0)];
    assert ShiftUp(w.rows, 1)[0] == w.rows[1];
  }
}
