/** Geometry of the column folder: how the physical screen is cut into
    columns (tcvt.py, Columns.__init__) and how a logical row is addressed
    inside them (Columns.curwin, curypos, getmaxyx). */
module Layout {
  import opened Wrappers

  /** The folder's dimensions: each of numcolumns windows is height rows
      tall and columnwidth cells wide. */
  datatype Geom = Geom(height: nat, numcolumns: nat, columnwidth: nat)

  predicate ValidGeom(g: Geom)
  {
    g.height >= 1 && g.numcolumns >= 1 && g.columnwidth >= 1
  }

  /** The number of logical rows: the first half of Columns.getmaxyx(). */
  function Lines(g: Geom): nat
  {
    g.height * g.numcolumns
  }

  /** The column width Columns.__init__ computes; Python's floor division
      agrees with Dafny's for the positive divisor used here. */
  function ColumnWidth(width: int, numcolumns: int): int
    requires numcolumns >= 1
  {
    (width - (numcolumns - 1)) / numcolumns
  }

  /** Columns.__init__ on a screen of height x width: None stands for the
      BadWidth exception. */
  function MakeGeom(height: nat, width: int, numcolumns: int): Option<Geom>
  {
    if numcolumns < 1 then None
    else if ColumnWidth(width, numcolumns) <= 0 then None
    else Some(Geom(height, numcolumns, ColumnWidth(width, numcolumns)))
  }

  /** BadWidth is raised exactly when there are no columns or the width
      cannot hold numcolumns columns of one cell with a separator between
      each two of them. */
  lemma BadWidthIff(height: nat, width: int, numcolumns: int)
    ensures MakeGeom(height, width, numcolumns).None?
        <==> numcolumns < 1 || width < 2 * numcolumns - 1
  {
    if numcolumns >= 1 {
      var q := ColumnWidth(width, numcolumns);
      var m := (width - (numcolumns - 1)) % numcolumns;
      assert width - (numcolumns - 1) == numcolumns * q + m;
      if q <= 0 {
        MulMonotone(q, 0, numcolumns);
      } else {
        MulMonotone(1, q, numcolumns);
      }
    }
  }

  /** The column width is the largest that fits: numcolumns columns and
      numcolumns - 1 separators fit in width, one more cell per column does not. */
  lemma ColumnWidthIsLargest(height: nat, width: int, numcolumns: int)
    requires height >= 1
    requires MakeGeom(height, width, numcolumns).Some?
    ensures var g := MakeGeom(height, width, numcolumns).value;
      && ValidGeom(g) && g.height == height && g.numcolumns == numcolumns
      && numcolumns * g.columnwidth + (numcolumns - 1) <= width
      && width < numcolumns * (g.columnwidth + 1) + (numcolumns - 1)
  {
    var q := ColumnWidth(width, numcolumns);
    var m := (width - (numcolumns - 1)) % numcolumns;
    assert width - (numcolumns - 1) == numcolumns * q + m;
    assert numcolumns * (q + 1) == numcolumns * q + numcolumns;
  }

  lemma {:induction false} MulMonotone(a: int, b: int, c: nat)
    requires a <= b
    ensures a * c <= b * c
  {
    if c > 0 {
      MulMonotone(a, b, c - 1);
      assert a * c == a * (c - 1) + a;
      assert b * c == b * (c - 1) + b;
    }
  }

  /** x-offset of window i on the physical screen (the derwin call). */
  function WindowOffset(g: Geom, i: nat): int
  {
    i * (g.columnwidth + 1)
  }

  /** Column of the vertical line drawn left of window i, for 1 <= i. */
  function SeparatorColumn(g: Geom, i: nat): int
  {
    i * (g.columnwidth + 1) - 1
  }

  /** Window i lies inside the screen; the separator left of it is the
      single column between the end of window i - 1 and the start of window i. */
  lemma WindowsTileWidth(height: nat, width: int, numcolumns: int, i: nat)
    requires height >= 1
    requires MakeGeom(height, width, numcolumns).Some?
    requires i < numcolumns
    ensures var g := MakeGeom(height, width, numcolumns).value;
      && 0 <= WindowOffset(g, i)
      && WindowOffset(g, i) + g.columnwidth <= width
      && (i >= 1 ==> WindowOffset(g, i - 1) + g.columnwidth == SeparatorColumn(g, i)
                     && SeparatorColumn(g, i) + 1 == WindowOffset(g, i))
  {
    var g := MakeGeom(height, width, numcolumns).value;
    ColumnWidthIsLargest(height, width, numcolumns);
    MulMonotone(i, numcolumns - 1, g.columnwidth + 1);
    assert (numcolumns - 1) * (g.columnwidth + 1) + g.columnwidth
        == numcolumns * g.columnwidth + (numcolumns - 1);
    if i >= 1 {
      assert WindowOffset(g, i - 1) == WindowOffset(g, i) - (g.columnwidth + 1);
    }
  }

  /** Index of the window holding logical row y (Columns.curwin). */
  function Pane(g: Geom, y: int): int
    requires g.height >= 1
  {
    y / g.height
  }

  /** Row of logical row y inside its window (Columns.curypos). */
  function PaneRow(g: Geom, y: int): int
    requires g.height >= 1
  {
    y % g.height
  }

  /** Every logical row lies in exactly one window row: the address is in
      range and recombines to the logical row. */
  lemma AddressInRange(g: Geom, y: int)
    requires ValidGeom(g) && 0 <= y < Lines(g)
    ensures 0 <= Pane(g, y) < g.numcolumns
    ensures 0 <= PaneRow(g, y) < g.height
    ensures Pane(g, y) * g.height + PaneRow(g, y) == y
  {
    var k, r := Pane(g, y), PaneRow(g, y);
    assert y == g.height * k + r;
    if k >= g.numcolumns {
      MulMonotone(g.numcolumns, k, g.height);
      assert false;
    }
    if k < 0 {
      MulMonotone(k, -1, g.height);
      assert false;
    }
  }

  /** A row r of window k is logical row k * height + r. */
  lemma AddressOfWindowRow(g: Geom, k: int, r: int)
    requires ValidGeom(g) && 0 <= k < g.numcolumns && 0 <= r < g.height
    ensures 0 <= k * g.height + r < Lines(g)
    ensures Pane(g, k * g.height + r) == k && PaneRow(g, k * g.height + r) == r
  {
    MulMonotone(k, g.numcolumns - 1, g.height);
    assert (g.numcolumns - 1) * g.height + g.height == Lines(g);
    DivModUnique(k * g.height + r, g.height, k, r);
  }

  lemma DivModUnique(y: int, h: int, k: int, r: int)
    requires h >= 1 && 0 <= r < h && y == k * h + r
    ensures y / h == k && y % h == r
  {
    var k', r' := y / h, y % h;
    assert y == h * k' + r';
    if k' > k {
      MulMonotone(k + 1, k', h);
      assert false;
    } else if k' < k {
      MulMonotone(k' + 1, k, h);
      assert false;
    }
  }

  /** Physical screen column of logical cell (y, x) (window offset plus x). */
  function PhysicalColumn(g: Geom, y: int, x: int): int
    requires g.height >= 1
  {
    var p := Pane(g, y);
    if p < 0 then x else WindowOffset(g, p) + x
  }

  /** The pane mapping sends every logical cell to a physical cell inside
      the screen that is not a separator column. */
  lemma PhysicalCellInScreen(height: nat, width: int, numcolumns: int, y: int, x: int)
    requires height >= 1
    requires MakeGeom(height, width, numcolumns).Some?
    requires var g := MakeGeom(height, width, numcolumns).value;
      0 <= y < Lines(g) && 0 <= x < g.columnwidth
    ensures var g := MakeGeom(height, width, numcolumns).value;
      && 0 <= PaneRow(g, y) < height
      && 0 <= PhysicalColumn(g, y, x) < width
      && forall i :: 1 <= i < numcolumns ==> PhysicalColumn(g, y, x) != SeparatorColumn(g, i)
  {
    var g := MakeGeom(height, width, numcolumns).value;
    ColumnWidthIsLargest(height, width, numcolumns);
    AddressInRange(g, y);
    var p := Pane(g, y);
    WindowsTileWidth(height, width, numcolumns, p);
    forall i | 1 <= i < numcolumns
      ensures PhysicalColumn(g, y, x) != SeparatorColumn(g, i)
    {
      if i <= p {
        MulMonotone(i, p, g.columnwidth + 1);
      } else {
        MulMonotone(p + 1, i, g.columnwidth + 1);
      }
    }
  }
}
