/** The folding of the logical screen into windows. The logical screen is
    the windows' rows concatenated, window after window (tcvt.py,
    Columns.curwin and curypos). For each whole-screen operation of class
    Columns this module names the per-window result its copy loops produce
    and proves that, concatenated, it is the single logical shift that
    Logical specifies. */
module Folding {
  import opened Grid
  import opened Layout
  import opened Logical

  /** The logical rows held by a sequence of window grids. */
  function Concat(gs: seq<Grid>): seq<Row>
  {
    if gs == [] then [] else gs[0] + Concat(gs[1..])
  }

  /** Every window is height x width. */
  predicate Uniform(gs: seq<Grid>, height: nat, width: nat)
  {
    forall i :: 0 <= i < |gs| ==> IsGrid(gs[i], height, width)
  }

  /** The windows after the first are uniform too, and the first is
      height rows tall. */
  lemma UniformTail(gs: seq<Grid>, height: nat, width: nat)
    requires Uniform(gs, height, width) && |gs| > 0
    ensures Uniform(gs[1..], height, width) && |gs[0]| == height
    ensures gs == [gs[0]] + gs[1..]
  {
    assert IsGrid(gs[0], height, width);
    forall k | 0 <= k < |gs| - 1 ensures IsGrid(gs[1..][k], height, width) {
      assert gs[1..][k] == gs[k + 1];
    }
  }

  /** i windows of height rows are one window and i - 1 more. */
  lemma MulPred(i: nat, height: nat)
    requires i > 0
    ensures i * height == height + (i - 1) * height
  {
  }

  lemma {:induction false} ConcatShape(gs: seq<Grid>, height: nat, width: nat)
    requires Uniform(gs, height, width)
    ensures IsGrid(Concat(gs), |gs| * height, width)
  {
    if gs != [] {
      ConcatShape(gs[1..], height, width);
      MulPred(|gs|, height);
      var c := Concat(gs);
      assert c == gs[0] + Concat(gs[1..]);
      forall k | 0 <= k < |c| ensures |c[k]| == width {
        if k < height { assert c[k] == gs[0][k]; }
        else { assert c[k] == Concat(gs[1..])[k - height]; }
      }
    }
  }

  /** Row r of window i is logical row i * height + r. */
  lemma {:induction false} ConcatIndex(gs: seq<Grid>, height: nat, width: nat, i: nat, r: nat)
    requires Uniform(gs, height, width) && i < |gs| && r < height
    ensures i * height + r < |Concat(gs)|
    ensures Concat(gs)[i * height + r] == gs[i][r]
  {
    ConcatShape(gs, height, width);
    ConcatShape(gs[1..], height, width);
    if i > 0 {
      ConcatIndex(gs[1..], height, width, i - 1, r);
      MulPred(i, height);
    }
  }

  /** Logical row y lives in window y / height at row y % height. */
  lemma RowAddress(gs: seq<Grid>, g: Geom, y: int)
    requires ValidGeom(g) && |gs| == g.numcolumns
    requires Uniform(gs, g.height, g.columnwidth)
    requires 0 <= y < Lines(g)
    ensures 0 <= y / g.height < |gs| && y / g.height * g.height + y % g.height == y
    ensures y < |Concat(gs)|
    ensures Concat(gs)[y] == gs[y / g.height][y % g.height]
  {
    AddressInRange(g, y);
    ConcatIndex(gs, g.height, g.columnwidth, y / g.height, y % g.height);
  }

  /** Replacing row r of window i replaces logical row i * height + r. */
  lemma {:induction false} ConcatUpdate(gs: seq<Grid>, height: nat, width: nat, i: nat, r: nat, row: Row)
    requires Uniform(gs, height, width) && i < |gs| && r < height
    ensures i * height + r < |Concat(gs)|
    ensures Concat(gs[i := gs[i][r := row]]) == Concat(gs)[i * height + r := row]
  {
    ConcatIndex(gs, height, width, i, r);
    var u := gs[i := gs[i][r := row]];
    if i == 0 {
      assert u[1..] == gs[1..];
    } else {
      assert u[1..] == gs[1..][i - 1 := gs[1..][i - 1][r := row]];
      ConcatUpdate(gs[1..], height, width, i - 1, r, row);
      MulPred(i, height);
    }
  }

  /** Replacing logical row y inside its window is replacing it in the
      logical rows. */
  lemma CursorRowRefines(gs: seq<Grid>, g: Geom, y: int, row: Row)
    requires ValidGeom(g) && |gs| == g.numcolumns
    requires Uniform(gs, g.height, g.columnwidth)
    requires 0 <= y < Lines(g)
    ensures 0 <= y / g.height < |gs| && y % g.height < |gs[y / g.height]|
    ensures y < |Concat(gs)|
    ensures Concat(gs[y / g.height := gs[y / g.height][y % g.height := row]]) == Concat(gs)[y := row]
  {
    AddressInRange(g, y);
    ConcatUpdate(gs, g.height, g.columnwidth, y / g.height, y % g.height, row);
  }

  /** Concatenating windows one at a time. */
  lemma ConcatCons(g: Grid, gs: seq<Grid>)
    ensures Concat([g] + gs) == g + Concat(gs)
  {
    assert ([g] + gs)[1..] == gs;
  }

  /** Every window has at least one row. */
  predicate NonEmpty(gs: seq<Grid>)
  {
    forall i :: 0 <= i < |gs| ==> |gs[i]| > 0
  }

  // ---------------------------------------------------------------------
  // Scroll: Columns.scroll = windows[0].scroll() then scroll_up(i) for i >= 1

  /** The row that enters window j at its bottom when the screen moves up:
      the first row of the next window, or a blank row after the last one. */
  function NextTop(gs: seq<Grid>, j: nat, width: nat): Row
    requires j < |gs| && NonEmpty(gs)
  {
    if j + 1 < |gs| then gs[j + 1][0] else BlankRow(width)
  }

  /** What Columns.scroll leaves in the windows: each window scrolled up by
      one, with the first row of the next window copied into its last row. */
  function ScrolledWindows(gs: seq<Grid>, width: nat): (d: seq<Grid>)
    requires NonEmpty(gs)
    ensures |d| == |gs|
  {
    if gs == [] then []
    else [gs[0][1..] + [NextTop(gs, 0, width)]] + ScrolledWindows(gs[1..], width)
  }

  lemma {:induction false} ScrolledWindowsAt(gs: seq<Grid>, width: nat, j: nat)
    requires NonEmpty(gs) && j < |gs|
    ensures ScrolledWindows(gs, width)[j] == gs[j][1..] + [NextTop(gs, j, width)]
  {
    if j > 0 {
      ScrolledWindowsAt(gs[1..], width, j - 1);
      assert NextTop(gs[1..], j - 1, width) == NextTop(gs, j, width);
    }
  }

  /** Scrolling a block a followed by rows c: a scrolls and takes in the
      first row of c, and c scrolls. */
  lemma ShiftUpSplit(a: seq<Row>, c: seq<Row>, width: nat)
    requires |a| > 0 && |c| > 0
    ensures ShiftUp(a + c, width) == (a[1..] + [c[0]]) + ShiftUp(c, width)
  {
    var lhs := ShiftUp(a + c, width);
    var rhs := (a[1..] + [c[0]]) + ShiftUp(c, width);
    assert |lhs| == |rhs|;
    forall k | 0 <= k < |lhs| ensures lhs[k] == rhs[k] {
      if k < |a| - 1 {
        assert rhs[k] == a[k + 1];
      } else if k == |a| - 1 {
        assert rhs[k] == c[0];
      } else {
        assert rhs[k] == ShiftUp(c, width)[k - |a|];
      }
    }
  }

  /** The scroll refinement: the windows' copy-and-scroll is one logical scroll. */
  lemma {:induction false} ScrollRefines(gs: seq<Grid>, height: nat, width: nat)
    requires Uniform(gs, height, width) && height >= 1 && |gs| >= 1
    ensures Concat(ScrolledWindows(gs, width)) == ShiftUp(Concat(gs), width)
  {
    var rest := gs[1..];
    var top := gs[0][1..] + [NextTop(gs, 0, width)];
    ConcatCons(top, ScrolledWindows(rest, width));
    ConcatCons(gs[0], rest);
    assert gs == [gs[0]] + rest;
    if |gs| == 1 {
      assert rest == [];
    } else {
      ScrollRefines(rest, height, width);
      ConcatIndex(rest, height, width, 0, 0);
      ShiftUpSplit(gs[0], Concat(rest), width);
    }
  }

  // ---------------------------------------------------------------------
  // Delete line: windows[index].deleteln() then scroll_up(i) for i > index

  /** What Columns.deleteln leaves in the windows when the cursor is at row
      r of window i: windows before i unchanged; window i loses row r and
      takes in the first row of the next window; every later window scrolls
      up and takes in the first row of the window after it. */
  function DeletedWindows(gs: seq<Grid>, width: nat, i: nat, r: nat): (d: seq<Grid>)
    requires NonEmpty(gs) && i < |gs| && r < |gs[i]|
    ensures |d| == |gs|
  {
    if i == 0 then
      [gs[0][..r] + gs[0][r + 1..] + [NextTop(gs, 0, width)]] + ScrolledWindows(gs[1..], width)
    else [gs[0]] + DeletedWindows(gs[1..], width, i - 1, r)
  }

  lemma {:induction false} DeletedWindowsAt(gs: seq<Grid>, width: nat, i: nat, r: nat, j: nat)
    requires NonEmpty(gs) && i < |gs| && r < |gs[i]| && j < |gs|
    ensures DeletedWindows(gs, width, i, r)[j]
         == if j < i then gs[j]
            else if j == i then gs[i][..r] + gs[i][r + 1..] + [NextTop(gs, i, width)]
            else gs[j][1..] + [NextTop(gs, j, width)]
  {
    if i == 0 {
      if j > 0 {
        ScrolledWindowsAt(gs[1..], width, j - 1);
        assert NextTop(gs[1..], j - 1, width) == NextTop(gs, j, width);
      }
    } else if j > 0 {
      DeletedWindowsAt(gs[1..], width, i - 1, r, j - 1);
      if j >= i {
        assert NextTop(gs[1..], j - 1, width) == NextTop(gs, j, width);
      }
    }
  }

  /** The states window j passes through in Columns.deleteln: first its
      own shift with a blank last row, then the last row filled in from the
      next window (a blank row is already right for the last window). */
  lemma DeletedWindowsPartial(gs: seq<Grid>, height: nat, width: nat, i: nat, r: nat, j: nat)
    requires Uniform(gs, height, width) && height >= 1 && i <= j < |gs| && r < height
    ensures |DeletedWindows(gs, width, i, r)[j]| == height
    ensures j == i ==> DeletedWindows(gs, width, i, r)[j][height - 1 := BlankRow(width)]
                       == gs[i][..r] + gs[i][r + 1..] + [BlankRow(width)]
    ensures j > i ==> DeletedWindows(gs, width, i, r)[j][height - 1 := BlankRow(width)]
                      == gs[j][1..] + [BlankRow(width)]
    ensures j + 1 < |gs| ==> DeletedWindows(gs, width, i, r)[j][height - 1 := BlankRow(width)][height - 1 := gs[j + 1][0]]
                             == DeletedWindows(gs, width, i, r)[j]
    ensures j + 1 == |gs| ==> DeletedWindows(gs, width, i, r)[j][height - 1 := BlankRow(width)]
                              == DeletedWindows(gs, width, i, r)[j]
  {
    DeletedWindowsAt(gs, width, i, r, j);
    var head := if j == i then gs[i][..r] + gs[i][r + 1..] else gs[j][1..];
    assert |head| == height - 1;
    assert DeletedWindows(gs, width, i, r)[j] == head + [NextTop(gs, j, width)];
    LastReplaced(head, NextTop(gs, j, width), BlankRow(width));
    LastReplaced(head, BlankRow(width), NextTop(gs, j, width));
  }

  /** Columns.deleteln in two steps: g1 is the windows after the current
      window's own deleteln, and out the windows after the scroll_up loop
      from window i + 1. Together they give DeletedWindows. */
  lemma DeletedWindowsFromSteps(gs: seq<Grid>, g1: seq<Grid>, out: seq<Grid>,
                                height: nat, width: nat, i: nat, r: nat)
    requires Uniform(gs, height, width) && height >= 1 && i < |gs| && r < height
    requires |g1| == |gs| && g1[i] == gs[i][..r] + gs[i][r + 1..] + [BlankRow(width)]
    requires forall j :: 0 <= j < |gs| && j != i ==> g1[j] == gs[j]
    requires |out| == |gs|
    requires forall j :: 0 <= j < i ==> out[j] == g1[j]
    requires i + 1 < |gs| ==> out[i] == g1[i][height - 1 := g1[i + 1][0]]
    requires i + 1 == |gs| ==> out[i] == g1[i]
    requires NonEmpty(g1)
    requires forall j :: i < j < |gs| ==> out[j] == g1[j][1..] + [NextTop(g1, j, width)]
    ensures out == DeletedWindows(gs, width, i, r)
  {
    var d := DeletedWindows(gs, width, i, r);
    forall j | 0 <= j < |gs| ensures out[j] == d[j] {
      DeletedWindowsAt(gs, width, i, r, j);
      if j == i {
        DeletedWindowsPartial(gs, height, width, i, r, i);
      } else if j > i {
        assert NextTop(g1, j, width) == NextTop(gs, j, width);
      }
    }
  }

  /** Deleting row r of a block a followed by rows c: a closes up and
      takes in the first row of c, and c scrolls up. */
  lemma DeleteRowSplit(a: seq<Row>, c: seq<Row>, r: nat, width: nat)
    requires r < |a| && |c| > 0
    ensures DeleteRow(a + c, r, width) == (a[..r] + a[r + 1..] + [c[0]]) + ShiftUp(c, width)
  {
    var lhs := DeleteRow(a + c, r, width);
    var rhs := (a[..r] + a[r + 1..] + [c[0]]) + ShiftUp(c, width);
    assert |lhs| == |rhs|;
    forall k | 0 <= k < |lhs| ensures lhs[k] == rhs[k] {
      if k < r {
        assert rhs[k] == a[k];
      } else if k < |a| - 1 {
        assert rhs[k] == a[k + 1];
      } else if k == |a| - 1 {
        assert rhs[k] == c[0];
      } else {
        assert rhs[k] == ShiftUp(c, width)[k - |a|];
      }
    }
  }

  /** Deleting a row below a prefix leaves the prefix alone. */
  lemma DeleteRowAfterPrefix(a: seq<Row>, c: seq<Row>, y: nat, width: nat)
    requires y < |c|
    ensures DeleteRow(a + c, |a| + y, width) == a + DeleteRow(c, y, width)
  {
    var lhs := DeleteRow(a + c, |a| + y, width);
    var rhs := a + DeleteRow(c, y, width);
    assert |lhs| == |rhs|;
    forall k | 0 <= k < |lhs| ensures lhs[k] == rhs[k] {
      if k >= |a| {
        assert rhs[k] == DeleteRow(c, y, width)[k - |a|];
      }
    }
  }

  /** The delete-line refinement: deleting window row r of window i and
      shifting the later windows is deleting logical row i * height + r. */
  lemma {:induction false} DeleteRefines(gs: seq<Grid>, height: nat, width: nat, i: nat, r: nat)
    requires Uniform(gs, height, width) && i < |gs| && r < height
    ensures i * height + r < |Concat(gs)|
    ensures Concat(DeletedWindows(gs, width, i, r)) == DeleteRow(Concat(gs), i * height + r, width)
  {
    if i == 0 {
      DeleteRefinesFirst(gs, height, width, r);
    } else {
      var rest := gs[1..];
      UniformTail(gs, height, width);
      DeleteRefines(rest, height, width, i - 1, r);
      MulPred(i, height);
      DeleteRefinesStep(gs[0], rest, DeletedWindows(rest, width, i - 1, r), height, width, (i - 1) * height + r);
    }
  }

  /** The base case of DeleteRefines: the row is in the first window. */
  lemma DeleteRefinesFirst(gs: seq<Grid>, height: nat, width: nat, r: nat)
    requires Uniform(gs, height, width) && 0 < |gs| && r < height
    ensures r < |Concat(gs)|
    ensures Concat(DeletedWindows(gs, width, 0, r)) == DeleteRow(Concat(gs), r, width)
  {
    ConcatIndex(gs, height, width, 0, r);
    var rest := gs[1..];
    UniformTail(gs, height, width);
    ConcatCons(gs[0], rest);
    var top := gs[0][..r] + gs[0][r + 1..] + [NextTop(gs, 0, width)];
    ConcatCons(top, ScrolledWindows(rest, width));
    if |gs| == 1 {
      assert rest == [];
      assert gs[0] + [] == gs[0];
    } else {
      ScrollRefines(rest, height, width);
      ConcatIndex(rest, height, width, 0, 0);
      DeleteRowSplit(gs[0], Concat(rest), r, width);
    }
  }

  /** The recursive case of DeleteRefines: a window in front of the one
      holding the row stays as it is. */
  lemma DeleteRefinesStep(g0: Grid, rest: seq<Grid>, deleted: seq<Grid>, height: nat, width: nat, y: nat)
    requires |g0| == height && y < |Concat(rest)|
    requires Concat(deleted) == DeleteRow(Concat(rest), y, width)
    ensures height + y < |Concat([g0] + rest)|
    ensures Concat([g0] + deleted) == DeleteRow(Concat([g0] + rest), height + y, width)
  {
    ConcatCons(g0, deleted);
    ConcatCons(g0, rest);
    DeleteRowAfterPrefix(g0, Concat(rest), y, width);
  }

  /** Columns.deleteln on the logical screen: with the cursor on logical
      row y, at row r of window i, the two steps delete row y. */
  lemma DeleteLnRefines(gs: seq<Grid>, g1: seq<Grid>, out: seq<Grid>, height: nat, width: nat, y: nat, i: nat, r: nat)
    requires Uniform(gs, height, width) && height >= 1 && i < |gs| && r < height && y == i * height + r
    requires |g1| == |gs| && g1[i] == gs[i][..r] + gs[i][r + 1..] + [BlankRow(width)]
    requires forall j :: 0 <= j < |gs| && j != i ==> g1[j] == gs[j]
    requires |out| == |gs|
    requires forall j :: 0 <= j < i ==> out[j] == g1[j]
    requires i + 1 < |gs| ==> out[i] == g1[i][height - 1 := g1[i + 1][0]]
    requires i + 1 == |gs| ==> out[i] == g1[i]
    requires NonEmpty(g1)
    requires forall j :: i < j < |gs| ==> out[j] == g1[j][1..] + [NextTop(g1, j, width)]
    ensures y < |Concat(gs)|
    ensures Concat(out) == DeleteRow(Concat(gs), y, width)
  {
    DeleteRefines(gs, height, width, i, r);
    DeletedWindowsFromSteps(gs, g1, out, height, width, i, r);
  }

  // ---------------------------------------------------------------------
  // Insert line: scroll_down(i) for i > index, last window first, then
  // curwin.insertln()

  /** Every window scrolled down by one, the first taking in top and each
      later one the last row of the window before it. */
  function CarriedDown(gs: seq<Grid>, top: Row): (d: seq<Grid>)
    requires NonEmpty(gs)
    ensures |d| == |gs|
  {
    if gs == [] then []
    else [[top] + gs[0][..|gs[0]| - 1]] + CarriedDown(gs[1..], gs[0][|gs[0]| - 1])
  }

  /** The row that enters window j at its top when the screen moves down:
      the last row of the window before it. */
  function PrevBottom(gs: seq<Grid>, j: nat): Row
    requires 0 < j < |gs| && NonEmpty(gs)
  {
    gs[j - 1][|gs[j - 1]| - 1]
  }

  lemma {:induction false} CarriedDownAt(gs: seq<Grid>, top: Row, j: nat)
    requires NonEmpty(gs) && j < |gs|
    ensures CarriedDown(gs, top)[j]
         == [if j == 0 then top else PrevBottom(gs, j)] + gs[j][..|gs[j]| - 1]
  {
    if j > 0 {
      CarriedDownAt(gs[1..], gs[0][|gs[0]| - 1], j - 1);
    }
  }

  /** What Columns.insertln leaves in the windows when the cursor is at row
      r of window i: windows before i unchanged; window i takes a blank row
      at r and loses its last row; every later window scrolls down and takes
      in the last row of the window before it (as it was before the call). */
  function InsertedWindows(gs: seq<Grid>, width: nat, i: nat, r: nat): (d: seq<Grid>)
    requires NonEmpty(gs) && i < |gs| && r < |gs[i]|
    ensures |d| == |gs|
  {
    if i == 0 then
      [gs[0][..r] + [BlankRow(width)] + gs[0][r..|gs[0]| - 1]] + CarriedDown(gs[1..], gs[0][|gs[0]| - 1])
    else [gs[0]] + InsertedWindows(gs[1..], width, i - 1, r)
  }

  lemma {:induction false} InsertedWindowsAt(gs: seq<Grid>, width: nat, i: nat, r: nat, j: nat)
    requires NonEmpty(gs) && i < |gs| && r < |gs[i]| && j < |gs|
    ensures InsertedWindows(gs, width, i, r)[j]
         == if j < i then gs[j]
            else if j == i then gs[i][..r] + [BlankRow(width)] + gs[i][r..|gs[i]| - 1]
            else [PrevBottom(gs, j)] + gs[j][..|gs[j]| - 1]
  {
    if j > 0 {
      var t := gs[1..];
      TailNonEmpty(gs);
      assert t[j - 1] == gs[j];
      if i == 0 {
        CarriedDownAt(t, gs[0][|gs[0]| - 1], j - 1);
      } else {
        assert t[i - 1] == gs[i];
        InsertedWindowsAt(t, width, i - 1, r, j - 1);
      }
      if j > 1 {
        TailPrevBottom(gs, j);
      }
    }
  }

  lemma TailNonEmpty(gs: seq<Grid>)
    requires NonEmpty(gs) && |gs| > 0
    ensures NonEmpty(gs[1..])
  {
    forall k | 0 <= k < |gs| - 1 ensures |gs[1..][k]| > 0 {
      assert gs[1..][k] == gs[k + 1];
    }
  }

  /** The row entering window j is the one entering window j - 1 of the
      windows after the first. */
  lemma TailPrevBottom(gs: seq<Grid>, j: nat)
    requires NonEmpty(gs) && 1 < j < |gs|
    ensures NonEmpty(gs[1..]) && PrevBottom(gs[1..], j - 1) == PrevBottom(gs, j)
  {
    TailNonEmpty(gs);
    assert gs[1..][j - 2] == gs[j - 1];
  }

  /** Columns.insertln in two steps: g1 is the windows after the
      scroll_down loop over the windows after i, out the windows after the
      current window's own insertln. Together they give InsertedWindows. */
  lemma InsertedWindowsFromSteps(gs: seq<Grid>, g1: seq<Grid>, out: seq<Grid>,
                                 height: nat, width: nat, i: nat, r: nat)
    requires Uniform(gs, height, width) && height >= 1 && i < |gs| && r < height
    requires |g1| == |gs| && forall j :: 0 <= j <= i ==> g1[j] == gs[j]
    requires forall j :: i < j < |gs| ==> g1[j] == [gs[j - 1][height - 1]] + gs[j][..height - 1]
    requires |out| == |gs| && forall j :: 0 <= j < |gs| && j != i ==> out[j] == g1[j]
    requires out[i] == gs[i][..r] + [BlankRow(width)] + gs[i][r..height - 1]
    ensures out == InsertedWindows(gs, width, i, r)
  {
    var d := InsertedWindows(gs, width, i, r);
    forall j | 0 <= j < |gs| ensures out[j] == d[j] {
      InsertedWindowsAt(gs, width, i, r, j);
    }
  }

  /** Carrying a row down through the windows shifts the logical rows down
      by one: top enters first, the last row falls off. */
  lemma {:induction false} CarryDownShifts(gs: seq<Grid>, height: nat, width: nat, top: Row)
    requires Uniform(gs, height, width) && height >= 1
    ensures |Concat(gs)| == |gs| * height
    ensures Concat(CarriedDown(gs, top)) == ([top] + Concat(gs))[..|gs| * height]
  {
    ConcatShape(gs, height, width);
    if gs != [] {
      var rest := gs[1..];
      var last := gs[0][height - 1];
      var first := [top] + gs[0][..height - 1];
      CarryDownShifts(rest, height, width, last);
      ConcatCons(first, CarriedDown(rest, last));
      ConcatCons(gs[0], rest);
      assert gs == [gs[0]] + rest;
      var c := Concat(rest);
      assert gs[0] == gs[0][..height - 1] + [last];
      assert |c| == |rest| * height;
      MulPred(|gs|, height);
      calc {
        ([top] + Concat(gs))[..|gs| * height];
        ([top] + gs[0][..height - 1] + [last] + c)[..height + |c|];
        first + ([last] + c)[..|c|];
      }
    }
  }

  /** Inserting at row r of a block a followed by rows c: a opens a blank
      row at r and its last row moves to the head of c, and c loses its last row. */
  lemma InsertRowSplit(a: seq<Row>, c: seq<Row>, r: nat, width: nat)
    requires r < |a|
    ensures InsertRow(a + c, r, width)
         == (a[..r] + [BlankRow(width)] + a[r..|a| - 1]) + ([a[|a| - 1]] + c)[..|c|]
  {
    var lhs := InsertRow(a + c, r, width);
    var rhs := (a[..r] + [BlankRow(width)] + a[r..|a| - 1]) + ([a[|a| - 1]] + c)[..|c|];
    assert |lhs| == |rhs|;
    forall k | 0 <= k < |lhs| ensures lhs[k] == rhs[k] {
      if k < r {
        assert rhs[k] == a[k];
      } else if k == r {
        assert rhs[k] == BlankRow(width);
      } else if k < |a| {
        assert rhs[k] == a[k - 1];
      } else {
        assert rhs[k] == ([a[|a| - 1]] + c)[k - |a|];
      }
    }
  }

  /** Inserting a row below a prefix leaves the prefix alone. */
  lemma InsertRowAfterPrefix(a: seq<Row>, c: seq<Row>, y: nat, width: nat)
    requires y < |c|
    ensures InsertRow(a + c, |a| + y, width) == a + InsertRow(c, y, width)
  {
    var lhs := InsertRow(a + c, |a| + y, width);
    var rhs := a + InsertRow(c, y, width);
    assert |lhs| == |rhs|;
    forall k | 0 <= k < |lhs| ensures lhs[k] == rhs[k] {
      if k >= |a| {
        assert rhs[k] == InsertRow(c, y, width)[k - |a|];
      }
    }
  }

  /** The insert-line refinement: the windows' scroll-down-and-copy, done
      from the last window back, is inserting a blank logical row at i * height + r. */
  /** InsertRefines when the row lies in the first window. */
  lemma InsertRefinesFirst(gs: seq<Grid>, height: nat, width: nat, r: nat)
    requires Uniform(gs, height, width) && 0 < |gs| && r < height
    ensures r < |Concat(gs)|
    ensures Concat(InsertedWindows(gs, width, 0, r)) == InsertRow(Concat(gs), r, width)
  {
    ConcatIndex(gs, height, width, 0, r);
    var rest := gs[1..];
    assert gs == [gs[0]] + rest;
    ConcatCons(gs[0], rest);
    var last := gs[0][height - 1];
    var top := gs[0][..r] + [BlankRow(width)] + gs[0][r..height - 1];
    ConcatCons(top, CarriedDown(rest, last));
    CarryDownShifts(rest, height, width, last);
    InsertRowSplit(gs[0], Concat(rest), r, width);
  }

  lemma {:induction false} InsertRefines(gs: seq<Grid>, height: nat, width: nat, i: nat, r: nat)
    requires Uniform(gs, height, width) && i < |gs| && r < height
    ensures i * height + r < |Concat(gs)|
    ensures Concat(InsertedWindows(gs, width, i, r)) == InsertRow(Concat(gs), i * height + r, width)
  {
    if i == 0 {
      InsertRefinesFirst(gs, height, width, r);
    } else {
      var rest := gs[1..];
      UniformTail(gs, height, width);
      InsertRefines(rest, height, width, i - 1, r);
      MulPred(i, height);
      InsertRefinesStep(gs[0], rest, InsertedWindows(rest, width, i - 1, r), height, width, (i - 1) * height + r);
    }
  }

  /** The recursive case of InsertRefines: a window in front of the one
      holding the row stays as it is. */
  lemma InsertRefinesStep(g0: Grid, rest: seq<Grid>, inserted: seq<Grid>, height: nat, width: nat, y: nat)
    requires |g0| == height && y < |Concat(rest)|
    requires Concat(inserted) == InsertRow(Concat(rest), y, width)
    ensures height + y < |Concat([g0] + rest)|
    ensures Concat([g0] + inserted) == InsertRow(Concat([g0] + rest), height + y, width)
  {
    ConcatCons(g0, inserted);
    ConcatCons(g0, rest);
    InsertRowAfterPrefix(g0, Concat(rest), y, width);
  }

  lemma InsertLnRefines(gs: seq<Grid>, g1: seq<Grid>, out: seq<Grid>, height: nat, width: nat, y: nat, i: nat, r: nat)
    requires Uniform(gs, height, width) && height >= 1 && i < |gs| && r < height && y == i * height + r
    requires |g1| == |gs| && forall j :: 0 <= j <= i ==> g1[j] == gs[j]
    requires forall j :: i < j < |gs| ==> g1[j] == [gs[j - 1][height - 1]] + gs[j][..height - 1]
    requires |out| == |gs| && forall j :: 0 <= j < |gs| && j != i ==> out[j] == g1[j]
    requires out[i] == gs[i][..r] + [BlankRow(width)] + gs[i][r..height - 1]
    ensures y < |Concat(gs)|
    ensures Concat(out) == InsertRow(Concat(gs), y, width)
  {
    InsertRefines(gs, height, width, i, r);
    InsertedWindowsFromSteps(gs, g1, out, height, width, i, r);
  }

  // ---------------------------------------------------------------------
  // Clear to bottom: windows[i].clear() for i > index, then
  // windows[index].clrtobot()

  /** What Columns.clrtobot leaves in the windows when the cursor is at
      cell (r, x) of window i: the windows before i unchanged, window i
      cleared from (r, x), and every later window blank. */
  function ClearedWindows(gs: seq<Grid>, height: nat, width: nat, i: nat, r: nat, x: nat): (d: seq<Grid>)
    requires Uniform(gs, height, width) && i < |gs| && r < height && x <= width
    ensures |d| == |gs|
  {
    if i == 0 then [ClearBelow(gs[0], r, x, width)] + seq(|gs| - 1, _ => BlankGrid(height, width))
    else [gs[0]] + ClearedWindows(gs[1..], height, width, i - 1, r, x)
  }

  lemma {:induction false} ClearedWindowsAt(gs: seq<Grid>, height: nat, width: nat, i: nat, r: nat, x: nat, j: nat)
    requires Uniform(gs, height, width) && i < |gs| && r < height && x <= width && j < |gs|
    ensures ClearedWindows(gs, height, width, i, r, x)[j]
         == if j < i then gs[j]
            else if j == i then ClearBelow(gs[i], r, x, width)
            else BlankGrid(height, width)
  {
    if i > 0 && j > 0 {
      ClearedWindowsAt(gs[1..], height, width, i - 1, r, x, j - 1);
    }
  }

  /** Columns.clrtobot in two steps: out is the windows after the later
      windows were cleared and the current one cleared from (r, x).
      Together they give ClearedWindows. */
  lemma ClearedWindowsFromSteps(gs: seq<Grid>, out: seq<Grid>, height: nat, width: nat, i: nat, r: nat, x: nat)
    requires Uniform(gs, height, width) && i < |gs| && r < height && x <= width
    requires |out| == |gs|
    requires forall j :: 0 <= j < i ==> out[j] == gs[j]
    requires out[i] == ClearBelow(gs[i], r, x, width)
    requires forall j :: i < j < |gs| ==> out[j] == BlankGrid(height, width)
    ensures out == ClearedWindows(gs, height, width, i, r, x)
  {
    var d := ClearedWindows(gs, height, width, i, r, x);
    forall j | 0 <= j < |gs| ensures out[j] == d[j] {
      ClearedWindowsAt(gs, height, width, i, r, x, j);
    }
  }

  /** Columns.clrtobot on the logical screen: with the cursor at (y, x),
      on row r of window i, the two steps clear from (y, x) on. */
  lemma ClrToBotRefines(gs: seq<Grid>, out: seq<Grid>, height: nat, width: nat, y: nat, x: nat, i: nat, r: nat)
    requires Uniform(gs, height, width) && i < |gs| && r < height && x <= width && y == i * height + r
    requires |out| == |gs|
    requires forall j :: 0 <= j < i ==> out[j] == gs[j]
    requires out[i] == ClearBelow(gs[i], r, x, width)
    requires forall j :: i < j < |gs| ==> out[j] == BlankGrid(height, width)
    ensures IsGrid(Concat(gs), |gs| * height, width) && y < |Concat(gs)|
    ensures Concat(out) == ClearBelow(Concat(gs), y, x, width)
  {
    ClearRefines(gs, height, width, i, r, x);
    ClearedWindowsFromSteps(gs, out, height, width, i, r, x);
  }

  lemma {:induction false} ConcatBlank(n: nat, height: nat, width: nat)
    ensures Concat(seq(n, _ => BlankGrid(height, width))) == BlankGrid(n * height, width)
  {
    var bs := seq(n, _ => BlankGrid(height, width));
    if n > 0 {
      assert bs[1..] == seq(n - 1, _ => BlankGrid(height, width));
      ConcatBlank(n - 1, height, width);
      MulPred(n, height);
      assert BlankGrid(n * height, width) == BlankGrid(height, width) + BlankGrid((n - 1) * height, width);
    }
  }

  /** Clearing a block a from (r, x), with the rows c after it blanked. */
  lemma ClearBelowSplit(a: seq<Row>, c: seq<Row>, r: nat, x: nat, width: nat)
    requires r < |a| && x <= |a[r]| == width
    ensures ClearBelow(a + c, r, x, width) == ClearBelow(a, r, x, width) + BlankGrid(|c|, width)
  {
    var lhs := ClearBelow(a + c, r, x, width);
    var rhs := ClearBelow(a, r, x, width) + BlankGrid(|c|, width);
    assert |lhs| == |rhs|;
    forall k | 0 <= k < |lhs| ensures lhs[k] == rhs[k] {
      if k < |a| {
        assert rhs[k] == ClearBelow(a, r, x, width)[k];
      } else {
        assert rhs[k] == BlankGrid(|c|, width)[k - |a|];
      }
    }
  }

  /** Clearing below a prefix leaves the prefix alone. */
  lemma ClearBelowAfterPrefix(a: seq<Row>, c: seq<Row>, y: nat, x: nat, width: nat)
    requires y < |c| && x <= |c[y]| == width
    ensures ClearBelow(a + c, |a| + y, x, width) == a + ClearBelow(c, y, x, width)
  {
    var lhs := ClearBelow(a + c, |a| + y, x, width);
    var rhs := a + ClearBelow(c, y, x, width);
    assert |lhs| == |rhs|;
    forall k | 0 <= k < |lhs| ensures lhs[k] == rhs[k] {
      if k >= |a| {
        assert rhs[k] == ClearBelow(c, y, x, width)[k - |a|];
      }
    }
  }

  /** The clear-to-bottom refinement: clearing the later windows and the
      current one from the cursor is clearing the logical screen from (i * height + r, x). */
  lemma {:induction false} ClearRefines(gs: seq<Grid>, height: nat, width: nat, i: nat, r: nat, x: nat)
    requires Uniform(gs, height, width) && i < |gs| && r < height && x <= width
    ensures IsGrid(Concat(gs), |gs| * height, width) && i * height + r < |Concat(gs)|
    ensures Concat(ClearedWindows(gs, height, width, i, r, x))
         == ClearBelow(Concat(gs), i * height + r, x, width)
  {
    ConcatShape(gs, height, width);
    ConcatShape(gs[1..], height, width);
    ConcatIndex(gs, height, width, i, r);
    var rest := gs[1..];
    assert gs == [gs[0]] + rest;
    ConcatCons(gs[0], rest);
    if i == 0 {
      var blanks := seq(|rest|, _ => BlankGrid(height, width));
      ConcatCons(ClearBelow(gs[0], r, x, width), blanks);
      ConcatBlank(|rest|, height, width);
      ClearBelowSplit(gs[0], Concat(rest), r, x, width);
    } else {
      ConcatCons(gs[0], ClearedWindows(rest, height, width, i - 1, r, x));
      ClearRefines(rest, height, width, i - 1, r, x);
      var y := (i - 1) * height + r;
      MulPred(i, height);
      assert |gs[0]| == height;
      ClearBelowAfterPrefix(gs[0], Concat(rest), y, x, width);
    }
  }
}
