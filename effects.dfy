/** What the interpreter's screen commands do to the logical screen
    (tcvt.py, the do_* handlers of class Terminal and the calls
    feed_esc_opbr_next makes on the screen directly). The handlers that
    loop n times are the n-fold repetition of one Columns operation; each
    repetition is given a closed form here. The screen is the column
    folder as intended (Logical.AddChar and Logical.AttrOn). */
module Effects {
  import opened Grid
  import opened Layout
  import opened Attributes
  import opened Parser
  import opened Colors
  import L = Logical

  function Min(a: int, b: int): int
  {
    if a < b then a else b
  }

  // ---------------------------------------------------------------------
  // The repeated handlers

  /** do_dch: delch n times. */
  function DeleteCharTimes(s: L.Screen, n: nat): (r: L.Screen)
    requires L.Wf(s)
    ensures L.Wf(r) && r.geom == s.geom && r.y == s.y && r.x == s.x && r.attrs == s.attrs
  {
    if n == 0 then s else L.DeleteChar(DeleteCharTimes(s, n - 1))
  }

  /** do_dl: deleteln n times. */
  function DeleteLineTimes(s: L.Screen, n: nat): (r: L.Screen)
    requires L.Wf(s)
    ensures L.Wf(r) && r.geom == s.geom && r.y == s.y && r.x == s.x && r.attrs == s.attrs
  {
    if n == 0 then s else L.DeleteLine(DeleteLineTimes(s, n - 1))
  }

  /** do_il: insertln n times. */
  function InsertLineTimes(s: L.Screen, n: nat): (r: L.Screen)
    requires L.Wf(s)
    ensures L.Wf(r) && r.geom == s.geom && r.y == s.y && r.x == s.x && r.attrs == s.attrs
  {
    if n == 0 then s else L.InsertLine(InsertLineTimes(s, n - 1))
  }

  /** do_ich: insch of a space n times. */
  function InsertCharTimes(s: L.Screen, n: nat): (r: L.Screen)
    requires L.Wf(s)
    ensures L.Wf(r) && r.geom == s.geom && r.y == s.y && r.x == s.x && r.attrs == s.attrs
  {
    if n == 0 then s else L.InsertChar(InsertCharTimes(s, n - 1), Space)
  }

  /** addch of c n times: do_ech (c a space) and ESC [ n b (c lastchar). */
  function AddCharTimes(s: L.Screen, n: nat, c: int): (r: L.Screen)
    requires L.Wf(s)
    ensures L.Wf(r) && r.geom == s.geom && r.attrs == s.attrs
  {
    if n == 0 then s else L.AddChar(AddCharTimes(s, n - 1, c), c)
  }

  /** do_el1: back to the start of the row, then a space written over
      every cell left of where the cursor was. */
  function EraseLineToCursor(s: L.Screen): (r: L.Screen)
    requires L.Wf(s)
    ensures L.Wf(r) && r.geom == s.geom && r.attrs == s.attrs
  {
    AddCharTimes(L.MoveTo(s, s.y, 0), s.x, Space)
  }

  /** do_ht: the cursor advances to the next multiple of 8, but no further
      than the last column. */
  function TabForward(s: L.Screen): (r: L.Screen)
    requires L.Wf(s)
    ensures L.Wf(r) && r.geom == s.geom && r.rows == s.rows && r.attrs == s.attrs
  {
    L.MoveTo(s, s.y, Min(s.x + 8 - s.x % 8, s.geom.columnwidth - 1))
  }

  /** do_ind: the start of the next row; on the last row the screen
      scrolls and the cursor goes to the start of that row. */
  function LineFeed(s: L.Screen): (r: L.Screen)
    requires L.Wf(s)
    ensures L.Wf(r) && r.geom == s.geom && r.attrs == s.attrs
  {
    if s.y + 1 == Lines(s.geom) then L.MoveTo(L.Scroll(s), s.y, 0)
    else L.MoveTo(s, s.y + 1, 0)
  }

  // ---------------------------------------------------------------------
  // Commands

  /** One screen command. */
  function Exec(s: L.Screen, cmd: Command): (r: L.Screen)
    requires L.Wf(s)
    ensures L.Wf(r) && r.geom == s.geom
  {
    match cmd
    case Bell => s
    case AddCh(c) => L.AddChar(s, c)
    case RelMove(dy, dx) => L.RelMove(s, dy, dx)
    case MoveTo(y, x) => L.MoveTo(s, y, x)
    case ClearToBottom => L.ClearToBottom(s)
    case ClearToEol => L.ClearToEol(s)
    case InsertLines(n) => InsertLineTimes(s, n)
    case DeleteLines(n) => DeleteLineTimes(s, n)
    case DeleteChars(n) => DeleteCharTimes(s, n)
    case EraseChars(n) => AddCharTimes(s, n, Space)
    case InsertChars(n) => InsertCharTimes(s, n)
    case EraseToCursor => EraseLineToCursor(s)
    case Tab => TabForward(s)
    case Index => LineFeed(s)
    case AttrOn(a) => L.AttrOn(s, a)
    case AttrSet(a) => L.AttrSet(s, a)
    case RowAbs(y) => L.MoveTo(s, y, s.x)
    case ColAbs(x) => L.MoveTo(s, s.y, x)
    case Repeat(n, c) => AddCharTimes(s, n, c)
  }

  /** A sequence of commands, first to last. */
  function Run(s: L.Screen, cmds: seq<Command>): (r: L.Screen)
    requires L.Wf(s)
    ensures L.Wf(r) && r.geom == s.geom
    decreases |cmds|
  {
    if cmds == [] then s else Run(Exec(s, cmds[0]), cmds[1..])
  }

  /** Running a then b is running a + b. */
  lemma {:induction false} RunAppend(s: L.Screen, a: seq<Command>, b: seq<Command>)
    requires L.Wf(s)
    ensures Run(s, a + b) == Run(Run(s, a), b)
    decreases |a|
  {
    if a == [] {
      assert a + b == b;
    } else {
      assert (a + b)[0] == a[0];
      assert (a + b)[1..] == a[1..] + b;
      RunAppend(Exec(s, a[0]), a[1..], b);
    }
  }

  /** One command run alone. */
  lemma RunOne(s: L.Screen, c: Command)
    requires L.Wf(s)
    ensures Run(s, [c]) == Exec(s, c)
  {
    assert [c][1..] == [];
  }

  // ---------------------------------------------------------------------
  // Closed forms of the repetitions

  /** n deletions at the cursor: the cells right of the cursor move left
      by k = min(n, cells from the cursor to the margin) and k blanks
      enter at the right; nothing else changes. */
  lemma DeleteCharTimesShifts(s: L.Screen, n: nat)
    requires L.Wf(s)
    ensures CharsDeleted(s, DeleteCharTimes(s, n).rows, Min(n, s.geom.columnwidth - s.x))
  {
    if n > 0 {
      DeleteCharTimesRow(s, n);
      var row, k := s.rows[s.y], Min(n, s.geom.columnwidth - s.x);
      var a := RowDeleteTimes(row, s.x, n);
      forall i | 0 <= i < |a| ensures a[i] == RowDeletedAt(row, s.x, k, i) {
        RowDeleteTimesAt(row, s.x, n, i);
      }
      DeletedScreenCases(s, DeleteCharTimes(s, n).rows, a, k);
    }
  }

  /** rs is the rows of s after k deletions at the cursor: the cells right
      of the cursor move left by k and k blanks enter at the right margin;
      the other rows and the cells left of the cursor are as they were. */
  ghost predicate CharsDeleted(s: L.Screen, rs: seq<Row>, k: nat)
    requires L.Wf(s)
  {
    var w := s.geom.columnwidth;
    && s.x + k <= w && |rs| == |s.rows| && |rs[s.y]| == w
    && (forall j :: 0 <= j < |s.rows| && j != s.y ==> rs[j] == s.rows[j])
    && (forall i :: 0 <= i < s.x ==> rs[s.y][i] == s.rows[s.y][i])
    && (forall i :: s.x <= i < w - k ==> rs[s.y][i] == s.rows[s.y][i + k])
    && (forall i :: w - k <= i < w ==> rs[s.y][i] == Blank)
  }

  /** The rows of a screen whose cursor row had k cells deleted. */
  lemma DeletedScreenCases(s: L.Screen, rs: seq<Row>, a: Row, k: nat)
    requires L.Wf(s) && s.x + k <= s.geom.columnwidth
    requires rs == s.rows[s.y := a] && |a| == s.geom.columnwidth
    requires forall i :: 0 <= i < |a| ==> a[i] == RowDeletedAt(s.rows[s.y], s.x, k, i)
    ensures CharsDeleted(s, rs, k)
  {
    assert rs[s.y] == a;
  }

  /** delch n times at the cursor: only the cursor row changes. */
  lemma {:induction false} DeleteCharTimesRow(s: L.Screen, n: nat)
    requires L.Wf(s)
    ensures DeleteCharTimes(s, n).rows == s.rows[s.y := RowDeleteTimes(s.rows[s.y], s.x, n)]
  {
    if n == 0 {
      assert s.rows[s.y := s.rows[s.y]] == s.rows;
    } else {
      DeleteCharTimesRow(s, n - 1);
      DeleteCharStep(DeleteCharTimes(s, n - 1), s.rows, RowDeleteTimes(s.rows[s.y], s.x, n - 1));
    }
  }

  /** One more delch on a screen whose cursor row alone differs from rows. */
  lemma DeleteCharStep(p: L.Screen, rows: seq<Row>, a: Row)
    requires L.Wf(p) && p.y < |rows| && p.rows == rows[p.y := a]
    ensures p.x < |a|
    ensures L.DeleteChar(p).rows == rows[p.y := RowDelete(a, p.x)]
  {
    assert p.rows[p.y] == a;
  }

  /** wdelch n times on one row. */
  function RowDeleteTimes(row: Row, x: nat, n: nat): (r: Row)
    requires x < |row|
    ensures |r| == |row|
  {
    if n == 0 then row else RowDelete(RowDeleteTimes(row, x, n - 1), x)
  }

  /** The cell at i after k deletions at x. */
  function RowDeletedAt(row: Row, x: nat, k: nat, i: nat): Cell
    requires x + k <= |row| && i < |row|
  {
    if i < x then row[i] else if i < |row| - k then row[i + k] else Blank
  }

  lemma {:induction false} RowDeleteTimesAt(row: Row, x: nat, n: nat, i: nat)
    requires x < |row| && i < |row|
    ensures RowDeleteTimes(row, x, n)[i] == RowDeletedAt(row, x, Min(n, |row| - x), i)
  {
    if n > 0 {
      var q := RowDeleteTimes(row, x, n - 1);
      assert RowDeleteTimes(row, x, n) == RowDelete(q, x);
      if i < x {
        RowDeleteTimesAt(row, x, n - 1, i);
      } else if i < |row| - 1 {
        RowDeleteTimesAt(row, x, n - 1, i + 1);
      }
    }
  }

  /** n deletions of the cursor row: the rows below it move up by
      k = min(n, rows from the cursor to the bottom) and k blank rows enter
      at the bottom; the rows above do not change. */
  lemma DeleteLineTimesShifts(s: L.Screen, n: nat)
    requires L.Wf(s)
    ensures LinesDeleted(s.rows, DeleteLineTimes(s, n).rows, s.y, s.geom.columnwidth, Min(n, |s.rows| - s.y))
  {
    var rows, w, k := s.rows, s.geom.columnwidth, Min(n, |s.rows| - s.y);
    DeleteLineTimesRows(s, n);
    var rs := DeleteRowTimes(rows, s.y, w, n);
    forall j | 0 <= j < |rs| ensures rs[j] == RowsDeletedAt(rows, s.y, w, k, j) {
      DeleteRowTimesAt(rows, s.y, w, n, j);
    }
    LinesDeletedCases(rows, rs, s.y, w, k);
  }

  /** deleteln n times at the cursor row. */
  function DeleteRowTimes(rows: seq<Row>, y: nat, width: nat, n: nat): (r: seq<Row>)
    requires y < |rows|
    ensures |r| == |rows|
  {
    if n == 0 then rows else L.DeleteRow(DeleteRowTimes(rows, y, width, n - 1), y, width)
  }

  /** deleteln n times changes only the rows, as DeleteRowTimes says. */
  lemma {:induction false} DeleteLineTimesRows(s: L.Screen, n: nat)
    requires L.Wf(s)
    ensures DeleteLineTimes(s, n).rows == DeleteRowTimes(s.rows, s.y, s.geom.columnwidth, n)
  {
    if n > 0 {
      DeleteLineTimesRows(s, n - 1);
    }
  }

  /** rs is rows after k deletions of row y: the rows below y move up by
      k and k blank rows enter at the bottom; the rows above y stay. */
  ghost predicate LinesDeleted(rows: seq<Row>, rs: seq<Row>, y: nat, width: nat, k: nat)
  {
    && y + k <= |rows| && |rs| == |rows|
    && (forall j :: 0 <= j < y ==> rs[j] == rows[j])
    && (forall j :: y <= j < |rows| - k ==> rs[j] == rows[j + k])
    && (forall j :: |rows| - k <= j < |rows| ==> rs[j] == BlankRow(width))
  }

  /** Row j after k deletions of row y. */
  function RowsDeletedAt(rows: seq<Row>, y: nat, width: nat, k: nat, j: nat): Row
    requires y + k <= |rows| && j < |rows|
  {
    if j < y then rows[j] else if j < |rows| - k then rows[j + k] else BlankRow(width)
  }

  lemma {:induction false} DeleteRowTimesAt(rows: seq<Row>, y: nat, width: nat, n: nat, j: nat)
    requires y < |rows| && j < |rows|
    ensures DeleteRowTimes(rows, y, width, n)[j] == RowsDeletedAt(rows, y, width, Min(n, |rows| - y), j)
  {
    if n > 0 && j < y {
      DeleteRowTimesAt(rows, y, width, n - 1, j);
    } else if n > 0 && j < |rows| - 1 {
      DeleteRowTimesAt(rows, y, width, n - 1, j + 1);
    }
  }

  lemma LinesDeletedCases(rows: seq<Row>, rs: seq<Row>, y: nat, width: nat, k: nat)
    requires y + k <= |rows| && |rs| == |rows|
    requires forall j :: 0 <= j < |rows| ==> rs[j] == RowsDeletedAt(rows, y, width, k, j)
    ensures LinesDeleted(rows, rs, y, width, k)
  { }

  /** insertln n times at the cursor row. */
  function InsertRowTimes(rows: seq<Row>, y: nat, width: nat, n: nat): (r: seq<Row>)
    requires y < |rows|
    ensures |r| == |rows|
  {
    if n == 0 then rows else L.InsertRow(InsertRowTimes(rows, y, width, n - 1), y, width)
  }

  /** insertln n times changes only the rows, as InsertRowTimes says. */
  lemma {:induction false} InsertLineTimesRows(s: L.Screen, n: nat)
    requires L.Wf(s)
    ensures InsertLineTimes(s, n).rows == InsertRowTimes(s.rows, s.y, s.geom.columnwidth, n)
  {
    if n > 0 {
      InsertLineTimesRows(s, n - 1);
    }
  }

  /** n insertions at the cursor row: k = min(n, rows from the cursor to
      the bottom) blank rows appear there, the rows from the cursor on move
      down by k, the last k rows are lost; the rows above do not change. */
  lemma InsertRowTimesShifts(rows: seq<Row>, y: nat, width: nat, n: nat)
    requires y < |rows|
    ensures LinesInserted(rows, InsertRowTimes(rows, y, width, n), y, width, Min(n, |rows| - y))
  {
    var rs, k := InsertRowTimes(rows, y, width, n), Min(n, |rows| - y);
    forall j | 0 <= j < |rs| ensures rs[j] == RowsInsertedAt(rows, y, width, k, j) {
      InsertRowTimesAt(rows, y, width, n, j);
    }
    LinesInsertedCases(rows, rs, y, width, k);
  }

  /** rs is rows after k insertions at row y: k blank rows appear at y,
      the rows from y on move down by k and the last k are lost; the rows
      above y stay. */
  ghost predicate LinesInserted(rows: seq<Row>, rs: seq<Row>, y: nat, width: nat, k: nat)
  {
    && y + k <= |rows| && |rs| == |rows|
    && (forall j :: 0 <= j < y ==> rs[j] == rows[j])
    && (forall j :: y <= j < y + k ==> rs[j] == BlankRow(width))
    && (forall j :: y + k <= j < |rows| ==> rs[j] == rows[j - k])
  }

  /** Row j after k insertions at row y. */
  function RowsInsertedAt(rows: seq<Row>, y: nat, width: nat, k: nat, j: nat): Row
    requires y + k <= |rows| && j < |rows|
  {
    if j < y then rows[j] else if j < y + k then BlankRow(width) else rows[j - k]
  }

  lemma {:induction false} InsertRowTimesAt(rows: seq<Row>, y: nat, width: nat, n: nat, j: nat)
    requires y < |rows| && j < |rows|
    ensures InsertRowTimes(rows, y, width, n)[j] == RowsInsertedAt(rows, y, width, Min(n, |rows| - y), j)
  {
    if n > 0 && y < j {
      InsertRowTimesAt(rows, y, width, n - 1, j - 1);
    } else if n > 0 && j < y {
      InsertRowTimesAt(rows, y, width, n - 1, j);
    }
  }

  lemma LinesInsertedCases(rows: seq<Row>, rs: seq<Row>, y: nat, width: nat, k: nat)
    requires y + k <= |rows| && |rs| == |rows|
    requires forall j :: 0 <= j < |rows| ==> rs[j] == RowsInsertedAt(rows, y, width, k, j)
    ensures LinesInserted(rows, rs, y, width, k)
  { }

  /** n space insertions at the cursor: k = min(n, cells from the cursor to
      the margin) spaces with the current attributes appear at the cursor,
      the cells from the cursor on move right by k, the last k are lost. */
  lemma InsertCharTimesShifts(s: L.Screen, n: nat)
    requires L.Wf(s)
    ensures CharsInserted(s, InsertCharTimes(s, n).rows, Min(n, s.geom.columnwidth - s.x))
  {
    if n > 0 {
      InsertCharTimesRow(s, n);
      var row, c, k := s.rows[s.y], Cell(Space, s.attrs), Min(n, s.geom.columnwidth - s.x);
      var a := RowInsertTimes(row, s.x, c, n);
      forall i | 0 <= i < |a| ensures a[i] == RowInsertedAt(row, s.x, c, k, i) {
        RowInsertTimesAt(row, s.x, c, n, i);
      }
      InsertedScreenCases(s, InsertCharTimes(s, n).rows, a, k);
    }
  }

  /** rs is the rows of s after k space insertions at the cursor: k spaces
      with the current attributes appear at the cursor, the cells from the
      cursor on move right by k and the last k are lost; the other rows and
      the cells left of the cursor are as they were. */
  ghost predicate CharsInserted(s: L.Screen, rs: seq<Row>, k: nat)
    requires L.Wf(s)
  {
    var w := s.geom.columnwidth;
    && s.x + k <= w && |rs| == |s.rows| && |rs[s.y]| == w
    && (forall j :: 0 <= j < |s.rows| && j != s.y ==> rs[j] == s.rows[j])
    && (forall i :: 0 <= i < s.x ==> rs[s.y][i] == s.rows[s.y][i])
    && (forall i :: s.x <= i < s.x + k ==> rs[s.y][i] == Cell(Space, s.attrs))
    && (forall i :: s.x + k <= i < w ==> rs[s.y][i] == s.rows[s.y][i - k])
  }

  /** The rows of a screen whose cursor row had k spaces inserted. */
  lemma InsertedScreenCases(s: L.Screen, rs: seq<Row>, a: Row, k: nat)
    requires L.Wf(s) && s.x + k <= s.geom.columnwidth
    requires rs == s.rows[s.y := a] && |a| == s.geom.columnwidth
    requires forall i :: 0 <= i < |a| ==> a[i] == RowInsertedAt(s.rows[s.y], s.x, Cell(Space, s.attrs), k, i)
    ensures CharsInserted(s, rs, k)
  {
    assert rs[s.y] == a;
  }

  /** insch n times at the cursor: only the cursor row changes. */
  lemma {:induction false} InsertCharTimesRow(s: L.Screen, n: nat)
    requires L.Wf(s)
    ensures InsertCharTimes(s, n).rows == s.rows[s.y := RowInsertTimes(s.rows[s.y], s.x, Cell(Space, s.attrs), n)]
  {
    if n == 0 {
      assert s.rows[s.y := s.rows[s.y]] == s.rows;
    } else {
      InsertCharTimesRow(s, n - 1);
      InsertCharStep(InsertCharTimes(s, n - 1), s.rows, RowInsertTimes(s.rows[s.y], s.x, Cell(Space, s.attrs), n - 1));
    }
  }

  /** One more insch of a space on a screen whose cursor row alone differs
      from rows. */
  lemma InsertCharStep(p: L.Screen, rows: seq<Row>, a: Row)
    requires L.Wf(p) && p.y < |rows| && p.rows == rows[p.y := a]
    ensures p.x < |a|
    ensures L.InsertChar(p, Space).rows == rows[p.y := RowInsert(a, p.x, Cell(Space, p.attrs))]
  {
    assert p.rows[p.y] == a;
  }

  /** winsch of c n times on one row. */
  function RowInsertTimes(row: Row, x: nat, c: Cell, n: nat): (r: Row)
    requires x < |row|
    ensures |r| == |row|
  {
    if n == 0 then row else RowInsert(RowInsertTimes(row, x, c, n - 1), x, c)
  }

  /** The cell at i after k insertions of c at x. */
  function RowInsertedAt(row: Row, x: nat, c: Cell, k: nat, i: nat): Cell
    requires x + k <= |row| && i < |row|
  {
    if i < x then row[i] else if i < x + k then c else row[i - k]
  }

  lemma {:induction false} RowInsertTimesAt(row: Row, x: nat, c: Cell, n: nat, i: nat)
    requires x < |row| && i < |row|
    ensures RowInsertTimes(row, x, c, n)[i] == RowInsertedAt(row, x, c, Min(n, |row| - x), i)
  {
    if n > 0 && x < i {
      RowInsertTimesAt(row, x, c, n - 1, i - 1);
    } else if n > 0 && i < x {
      RowInsertTimesAt(row, x, c, n - 1, i);
    }
  }

  /** n writes of c that stay left of the last column put n copies of c
      with the current attributes from the cursor on and advance the cursor
      by n; nothing else changes. */
  lemma {:induction false} AddCharTimesWrites(s: L.Screen, n: nat, c: int)
    requires L.Wf(s) && s.x + n < s.geom.columnwidth
    ensures var r := AddCharTimes(s, n, c);
      && r.y == s.y && r.x == s.x + n && |r.rows| == |s.rows|
      && (forall j :: 0 <= j < |s.rows| && j != s.y ==> r.rows[j] == s.rows[j])
      && (forall i :: 0 <= i < s.x ==> r.rows[s.y][i] == s.rows[s.y][i])
      && (forall i :: s.x <= i < s.x + n ==> r.rows[s.y][i] == Cell(c, s.attrs))
      && (forall i :: s.x + n <= i < s.geom.columnwidth ==> r.rows[s.y][i] == s.rows[s.y][i])
  {
    if n > 0 {
      AddCharTimesWrites(s, n - 1, c);
      L.AddCharBeforeLastColumn(AddCharTimes(s, n - 1, c), c);
    }
  }

  /** do_el1 blanks the cells left of the cursor with spaces in the current
      attributes and leaves the cursor, the cursor cell and the cells right
      of it where they were. */
  lemma EraseLineToCursorBlanks(s: L.Screen)
    requires L.Wf(s)
    ensures var r := EraseLineToCursor(s);
      && r.y == s.y && r.x == s.x
      && (forall j :: 0 <= j < |s.rows| && j != s.y ==> r.rows[j] == s.rows[j])
      && (forall i :: 0 <= i < s.x ==> r.rows[s.y][i] == Cell(Space, s.attrs))
      && (forall i :: s.x <= i < s.geom.columnwidth ==> r.rows[s.y][i] == s.rows[s.y][i])
  {
    AddCharTimesWrites(L.MoveTo(s, s.y, 0), s.x, Space);
  }

  /** The tab stop: the cursor moves right to the next multiple of 8, or to
      the last column when that lies beyond it; a cursor already at the
      last column stays. */
  lemma TabStop(s: L.Screen)
    requires L.Wf(s)
    ensures var r := TabForward(s);
      && r.y == s.y
      && (r.x % 8 == 0 || r.x == s.geom.columnwidth - 1)
      && s.x <= r.x <= s.x + 8
      && (s.x < s.geom.columnwidth - 1 ==> s.x < r.x)
      && (forall t :: s.x < t < r.x ==> t % 8 != 0)
  {
    var t := s.x + 8 - s.x % 8;
    assert t % 8 == 0 && s.x < t <= s.x + 8;
    forall u | s.x < u < t ensures u % 8 != 0 {
      assert u / 8 == s.x / 8;
    }
  }

  /** The line feed: outside the last row the cursor goes to the start of
      the next row and the screen is unchanged; on the last row the screen
      scrolls up and the cursor goes to the start of the last row. */
  lemma LineFeedMoves(s: L.Screen)
    requires L.Wf(s)
    ensures var r := LineFeed(s);
      && r.x == 0
      && (s.y + 1 < Lines(s.geom) ==> r.y == s.y + 1 && r.rows == s.rows)
      && (s.y + 1 == Lines(s.geom) ==> r.y == s.y && r.rows == L.ShiftUp(s.rows, s.geom.columnwidth))
  {
  }
  /** An SGR colour code (30-37, 39, 40-47, 49) sets one of the two
      colours and leaves the other, and the command it issues leaves the
      colour pair get_color selects for the new colours in the screen's
      colour field, with the text and the cursor untouched. When that pair is
      0 (white on black, after 39 on a black background or 49 with a white
      foreground), the attron changes nothing and the previous pair stays. */
  lemma ColorCodeSelectsPair(s: L.Screen, p: PState, code: int)
    requires L.Wf(s) && WellFormed(p)
    requires 30 <= code <= 37 || code == 39 || 40 <= code <= 47 || code == 49
    ensures var o := FeedColor(p, code);
      var n := GetColor(o.state.fg, o.state.bg);
      var r := Run(s, o.cmds);
      && o.ok && 0 <= n < 64
      && (30 <= code <= 37 ==> o.state.fg == code - 30 && o.state.bg == p.bg)
      && (code == 39 ==> o.state.fg == 7 && o.state.bg == p.bg)
      && (40 <= code <= 47 ==> o.state.fg == p.fg && o.state.bg == code - 40)
      && (code == 49 ==> o.state.fg == p.fg && o.state.bg == 0)
      && r.rows == s.rows && r.y == s.y && r.x == s.x
      && (n != 0 ==> (r.attrs & 0xff00) >> 8 == n as bv32)
      && (n == 0 ==> r.attrs == s.attrs)
  {
    var o := FeedColor(p, code);
    ColorCodeCommand(p, code);
    ColorPairOnScreen(s, o.state.fg, o.state.bg);
  }

  /** The attron of get_color's pair on the screen. */
  lemma ColorPairOnScreen(s: L.Screen, fg: int, bg: int)
    requires L.Wf(s) && 0 <= bg < 8
    ensures var n := GetColor(fg, bg);
      var r := Run(s, [AttrOn(ColorPair(n))]);
      && r.rows == s.rows && r.y == s.y && r.x == s.x
      && (n != 0 ==> (r.attrs & 0xff00) >> 8 == n as bv32)
      && (n == 0 ==> r.attrs == s.attrs)
  {
    RunOne(s, AttrOn(ColorPair(GetColor(fg, bg))));
    CombineSelectsPair(s.attrs, fg, bg);
  }

  /** The state and the one command of an SGR colour code. */
  lemma ColorCodeCommand(p: PState, code: int)
    requires 30 <= code <= 37 || code == 39 || 40 <= code <= 47 || code == 49
    ensures var o := FeedColor(p, code);
      && o.ok && o.cmds == [AttrOn(ColorPair(GetColor(o.state.fg, o.state.bg)))]
      && (30 <= code <= 37 ==> o.state.fg == code - 30 && o.state.bg == p.bg)
      && (code == 39 ==> o.state.fg == 7 && o.state.bg == p.bg)
      && (40 <= code <= 47 ==> o.state.fg == p.fg && o.state.bg == code - 40)
      && (code == 49 ==> o.state.fg == p.fg && o.state.bg == 0)
  { }
  // ---------------------------------------------------------------------
  // Text through the screen

  /** Printable text that stays left of the last column is written from
      the cursor on, one cell per character in the current attributes,
      and the cursor ends just after it; no other cell changes. */
  lemma {:induction false} RunWritesInRow(s: L.Screen, text: seq<int>)
    requires L.Wf(s) && s.x + |text| < s.geom.columnwidth
    ensures var r := Run(s, Writes(text));
      && r.y == s.y && r.x == s.x + |text| && r.attrs == s.attrs && |r.rows| == |s.rows|
      && (forall j :: 0 <= j < |s.rows| && j != s.y ==> r.rows[j] == s.rows[j])
      && (forall i :: 0 <= i < s.x ==> r.rows[s.y][i] == s.rows[s.y][i])
      && (forall i :: 0 <= i < |text| ==> r.rows[s.y][s.x + i] == Cell(text[i], s.attrs))
      && (forall i :: s.x + |text| <= i < s.geom.columnwidth ==> r.rows[s.y][i] == s.rows[s.y][i])
    decreases |text|
  {
    if |text| > 0 {
      var init, last := text[..|text| - 1], text[|text| - 1];
      RunWritesInRow(s, init);
      WritesAppend(init, last);
      assert init + [last] == text;
      RunAppend(s, Writes(init), [AddCh(last)]);
      var q := Run(s, Writes(init));
      RunOne(q, AddCh(last));
      L.AddCharBeforeLastColumn(q, last);
    }
  }

  /** Text that reaches the last column of a row other than the last fills
      the row from the cursor to the margin and leaves the cursor at the
      start of the next row; no other cell changes. */
  lemma RunWritesToRowEnd(s: L.Screen, text: seq<int>)
    requires L.Wf(s) && |text| > 0 && s.x + |text| == s.geom.columnwidth
    requires s.y + 1 < Lines(s.geom)
    ensures var r := Run(s, Writes(text));
      && r.y == s.y + 1 && r.x == 0 && r.attrs == s.attrs && |r.rows| == |s.rows|
      && (forall j :: 0 <= j < |s.rows| && j != s.y ==> r.rows[j] == s.rows[j])
      && (forall i :: 0 <= i < s.x ==> r.rows[s.y][i] == s.rows[s.y][i])
      && (forall i :: 0 <= i < |text| ==> r.rows[s.y][s.x + i] == Cell(text[i], s.attrs))
  {
    var init, last := text[..|text| - 1], text[|text| - 1];
    RunWritesInRow(s, init);
    WritesAppend(init, last);
    assert init + [last] == text;
    RunAppend(s, Writes(init), [AddCh(last)]);
    var q := Run(s, Writes(init));
    RunOne(q, AddCh(last));
    L.AddCharWraps(q, last);
  }

  /** Text that runs past the end of a row wraps: the part a that reaches
      the margin fills the cursor row, and the rest b continues at the start
      of the next row, with the cursor just after it. */
  lemma RunWritesWrap(s: L.Screen, a: seq<int>, b: seq<int>)
    requires L.Wf(s) && |a| > 0 && s.x + |a| == s.geom.columnwidth
    requires s.y + 1 < Lines(s.geom) && |b| < s.geom.columnwidth
    ensures var r := Run(s, Writes(a + b));
      && r.y == s.y + 1 && r.x == |b| && r.attrs == s.attrs && |r.rows| == |s.rows|
      && (forall j :: 0 <= j < |s.rows| && j != s.y && j != s.y + 1 ==> r.rows[j] == s.rows[j])
      && (forall i :: 0 <= i < |a| ==> r.rows[s.y][s.x + i] == Cell(a[i], s.attrs))
      && (forall i :: 0 <= i < |b| ==> r.rows[s.y + 1][i] == Cell(b[i], s.attrs))
      && (forall j, i :: j == s.y + 1 && |b| <= i < s.geom.columnwidth ==> r.rows[j][i] == s.rows[j][i])
  {
    WritesConcat(a, b);
    RunAppend(s, Writes(a), Writes(b));
    RunWritesToRowEnd(s, a);
    var q := Run(s, Writes(a));
    RunWritesInRow(q, b);
  }
  /** Simple text fed through the driver loop in simple mode and run on
      the screen reads back from the cursor row at the cursor-advancing
      positions, when it stays left of the last column. */
  lemma PlainTextOnScreen(t: Tables, p: PState, s: L.Screen, text: seq<int>)
    requires p.mode.Simple? && |text| > 0
    requires forall i :: 0 <= i < |text| ==> IsSimpleChar(text[i])
    requires L.Wf(s) && s.x + |text| < s.geom.columnwidth
    ensures var r := Run(s, Interpret(t, p, text).1);
      && r.y == s.y && r.x == s.x + |text|
      && (forall j :: 0 <= j < |s.rows| && j != s.y ==> r.rows[j] == s.rows[j])
      && (forall i :: 0 <= i < |text| ==> r.rows[s.y][s.x + i] == Cell(text[i], s.attrs))
  {
    PlainText(t, p, text);
    RunWritesInRow(s, text);
  }
}
