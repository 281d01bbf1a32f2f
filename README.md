# tcvt: the column folder and the escape-sequence interpreter

tcvt shows a tall, narrow virtual terminal as several columns side by side on
one wide curses screen. A child program writes to a terminal of
`height * numcolumns` rows by `columnwidth` cells. tcvt reads its output one
byte at a time and interprets the escape sequences. It then draws the result
into `numcolumns` curses sub-windows, each `height` rows tall and split by a
vertical line.

This project models the two cooperating parts of `tcvt.py` and proves them
against specifications.

- **The column folder** (class `Columns`) is the class `ColumnWindows.Columns`.
  - Its fields are the window array, the logical cursor and the current attributes.
  - Each window is a grid of cells plus its own cursor.
  - The ghost function `Abs()` joins the windows' rows, window after window, into one logical screen (module `Logical`).
  - Every method that stands for an operation of the source's `Columns` interface is proved to change `Abs()` exactly as the matching operation on the logical screen does.
  - The inner helpers (`CopyTopToBottom`, `CopyBottomToTop`, `ScrollUp`, `ScrollDown`, `ScrollUpFrom`, `ScrollDownAfter`, `ClearFrom`) and `Inch` are proved about the windows and the cursor they change, not about `Abs()`; the interface methods built from them carry the `Abs()` contracts.
  - The per-window copy loops of `scroll_up`, `scroll_down`, `scroll`, `insertln`, `deleteln` and `clrtobot` are proved, in module `Folding`, to equal one shift of the logical rows.
  - The curses window primitives the folder calls (`scroll`, `insch`, `delch`, `insertln`, `deleteln`, `clrtobot`, `clear`, `addch`, `move`) are foreign code. Module `Grid` defines them on a grid and a window cursor, with curses' documented behaviour, `scrollok` on. These definitions are the model's assumptions about curses.
- **The escape-sequence interpreter** (class `Terminal`).
  - Module `Parser` is a pure state machine. One byte and the interpreter state (mode, `fg`, `bg`, `graphics_font`, `lastchar`) give three things: the next state, the screen commands the byte issues, and whether it was accepted. A byte is rejected wherever the source raises `ValueError`.
  - Module `Effects` says what each command does to the logical screen, and gives closed forms for the handlers that loop.
  - The class `Emulator.Terminal` holds the same fields as the source and drives a `Columns`. Each of its `feed_*` methods is proved to leave the state `Parser` computes, and to act on the screen as that step's commands do.
  - The driver loop of `main` (feed every byte, and `feed_reset` after a `ValueError`) is `Terminal.FeedAll`, proved against `Parser.Interpret`.
- **Small pure pieces.**
  - Module `Layout` models the geometry of `Columns.__init__` and the row addressing.
  - Module `Colors` models `init_color_pairs` and `get_color`.
  - Module `Attributes` models the attribute bits and `attron`.
  - Module `Dicts` models `compose_dicts`.

Numbers are unbounded integers. The only widths that matter are the curses
attribute bits, which are `bv32` with the ncurses layout. A character is an
opaque integer: a byte, or a glyph from the alternate character set.

Choices about what the code does:

- Terminal emulators commonly ignore an escape sequence they do not know. This code raises `ValueError` instead, and the driver loop calls `feed_reset`. The model follows the code: it rejects the byte, keeps the state it had when the error was raised, and then resets.
- `do_ind` (tcvt.py:447-454) scrolls only at the last logical row, so a character written at the last logical cell should scroll too. `Columns.addch` compares the cursor row with `2 * height` instead (tcvt.py:169); see Findings.
- For the two Findings, the folder's as-written operations are modelled and proved (`Logical.AddCharAsWritten`, `Logical.AttrOnAsWritten`, `Columns.AddChAsWritten`, `Columns.AttrOnAsWritten`). The interpreter (`Effects.Exec`, `Terminal.Perform`, `Terminal.AddCh` and so `Terminal.FeedAll`) drives the intended `AddChar` and `AttrOn`. `FeedAll` therefore describes the corrected program, not tcvt.py, in two cases: with a number of columns other than two, when a character is written at the end of a window's last row; and after two colour SGR codes in a row, such as ESC [ 31 m ESC [ 33 m.
- Two colour behaviours are kept as written. SGR 39 with a black background, and SGR 49 with a white foreground, select pair 0. Its attron changes nothing, so the previous pair stays: ESC [ 31 m ESC [ 39 m leaves the text red (`Effects.ColorCodeSelectsPair`). SGR 0 sets the foreground to 0, ANSI black, where SGR 39 sets 7, white, so ESC [ 0 m ESC [ 40 m selects pair 8, black on black (`Parser.SgrZeroForegroundIsBlack`).

## Model

| member | source | states |
|---|---|---|
| Layout.ColumnWidth | tcvt.py:124 | `(width - (numcolumns-1)) // numcolumns`; that it is the largest width that fits is stated by ColumnWidthIsLargest |
| Layout.MakeGeom | tcvt.py:121-126 | Columns.__init__'s geometry, or None for BadWidth; when it fails is stated by BadWidthIff, and what it gives by ColumnWidthIsLargest |
| Layout.BadWidthIff | tcvt.py:121-126 | BadWidth is raised exactly when numcolumns < 1 or the width cannot hold numcolumns one-cell columns with a separator between each two, that is `(width - (numcolumns-1)) // numcolumns <= 0` |
| Layout.ColumnWidthIsLargest | tcvt.py:123-126 | the column width is the largest that fits: numcolumns columns plus numcolumns-1 separators fit in the width, and one more cell per column would not |
| Layout.WindowsTileWidth | tcvt.py:128-136 | window i starts at x-offset `i*(columnwidth+1)` and ends inside the screen; the separator at `i*(columnwidth+1)-1` is the one column between windows i-1 and i |
| Layout.AddressInRange | tcvt.py:139-145 | a logical row y lies in window `y // height` at row `y % height`, both in range, and they recombine to y |
| Layout.AddressOfWindowRow | tcvt.py:139-145 | row r of window k is logical row `k*height + r`, and curwin/curypos send it back to (k, r) |
| Layout.WindowOffset | tcvt.py:129-130 | the x-offset `i*(columnwidth+1)` derwin gives window i; WindowsTileWidth states that each window then lies inside the screen and starts one column after the separator left of it |
| Layout.SeparatorColumn | tcvt.py:134-136 | the column `i*(columnwidth+1)-1` of the vertical line drawn left of window i; WindowsTileWidth states that it is the single column between windows i-1 and i, and PhysicalCellInScreen that no logical cell maps onto it |
| Layout.Pane | tcvt.py:139-141 | curwin: the window `ypos // height` of a logical row; AddressInRange states it is a valid window index and AddressOfWindowRow that it inverts `k*height + r` |
| Layout.PaneRow | tcvt.py:143-145 | curypos: the row `ypos % height` inside that window; AddressInRange states it is a valid window row and recombines with Pane to ypos |
| Layout.PhysicalCellInScreen | tcvt.py:128-145 | every logical cell maps to a physical cell inside the screen that is never a separator column |
| Colors.PairIndexBijective | tcvt.py:44-54 | the pair numbers `fi*8+bi` of the 8 x 8 colour choices are exactly 0..63, each reached by exactly one choice |
| Colors.PairIndex | tcvt.py:54 | the pair number `fi*8+bi` init_pair receives; for indices 0..7 it lies in 0..63, and PairIndexBijective states that it is a bijection onto 0..63 |
| Colors.AnsiOrder | tcvt.py:45-48 | the background tuple enumerated as bi: black, red, green, yellow, blue, magenta, cyan, white; InitColorPairs states that pair `fi*8+bi` has background `AnsiOrder[bi]` |
| Colors.ForegroundOrder | tcvt.py:49-52 | the foreground tuple enumerated as fi: white, black, red, green, yellow, blue, magenta, cyan; InitColorPairs states that pair `fi*8+bi` has foreground `ForegroundOrder[fi]` |
| Colors.InitColorPairs | tcvt.py:44-54 | the pairs defined are exactly 1..63; pair `fi*8+bi` has the fi-th colour of the foreground order on the bi-th colour of the background order |
| Colors.GetColor | tcvt.py:56-57 | for an ANSI background the pair number lies in 0..63 |
| Colors.GetColorSelectsPair | tcvt.py:44-57 | for ANSI colours fg and bg, get_color gives pair 0 exactly for white on black; otherwise it gives a pair init_color_pairs defined, with exactly those colours |
| Colors.GetColorInjective | tcvt.py:56-57 | distinct colour choices give distinct pairs |
| Attributes.ColorPair | tcvt.py:57 | curses.color_pair sets only the colour-pair bits, and of the pair numbers below 256 only pair 0 gives no bits |
| Attributes.ColorPairRecovers | tcvt.py:57 | a pair number below 256 is recovered from the colour field |
| Colors.CombineSelectsPair | tcvt.py:56-57 | for an ANSI background, after the intended attron of get_color's pair the colour field holds that pair number, whatever pair was there before; pair 0 leaves the attributes unchanged |
| Attributes.CombineAsWritten | tcvt.py:224-225 | attron as written: every bit is ORed in, so the new colour-pair field is the OR of the old pair and the new one |
| Attributes.Combine | tcvt.py:224-225 | attron as intended: the non-colour bits are ORed in, and an attribute that carries a colour pair replaces the current pair; otherwise the pair is kept |
| Attributes.CombineAgreesWithoutTwoPairs | tcvt.py:224-225 | the two agree unless both the current attributes and the new one carry a colour pair |
| Colors.CombineAsWrittenMixesPairs | tcvt.py:551-553 | SGR 31 then SGR 33 selects the magenta pair as written; as intended it selects yellow |
| Dicts.ComposeDicts | tcvt.py:291-298 | the result's keys are exactly the keys k of d1 with d1[k] a key of d2, and each maps to d2[d1[k]] |
| Dicts.ComposeWithIdentity | tcvt.py:291-298 | composing with the identity on d1's values gives d1 back |
| Grid.BlankRow | tcvt.py:198 | a blank line of the window width: every cell is blank |
| Grid.BlankGrid | tcvt.py:221 | a cleared window: every row blank |
| Grid.RowInsert | tcvt.py:243 | winsch on a row: cells left of x stay, c takes x, the cells from x on move right by one, the last is lost |
| Grid.RowDelete | tcvt.py:231 | wdelch on a row: cells left of x stay, the cells right of x move left by one, a blank enters at the margin |
| Grid.RowClearFrom | tcvt.py:228 | wclrtoeol on a row: cells left of x stay, the rest are blank |
| Grid.RowInsertAtLastColumn | tcvt.py:168 | inserting at the last column overwrites that column, which is why addch and the copy loops use insch there |
| Grid.Splice | tcvt.py:194-196 | a row part-way through the cell-by-cell copy: the first x cells from the source, the rest from the target |
| Grid.SpliceStep | tcvt.py:194-195 | copying one more cell advances the splice by one |
| Grid.CellsOfUpdate | tcvt.py:192-198 | replacing one window replaces its cells and no other window's |
| Grid.WMove | tcvt.py:161 | wmove, as fix_cursor calls it (and scroll_up at 193, scroll_down at 207): only the cursor changes, to the given in-range position |
| Grid.WAddCh | tcvt.py:175 | waddch with scrollok, as addch calls it (and the copy loops at 195 and 209): c goes at the cursor, which advances, wraps to the next line at the margin, and on the bottom line scrolls the window; the window keeps its shape |
| Grid.WInsCh | tcvt.py:168 | winsch, as addch calls it at the last column (and 196, 210, 243): the cursor row becomes RowInsert of c at the cursor, the cursor stays, other rows stay |
| Grid.WDelCh | tcvt.py:231 | wdelch: the cursor row becomes RowDelete at the cursor, the cursor stays, other rows stay |
| Grid.WClrToEol | tcvt.py:228 | wclrtoeol: the cursor row becomes RowClearFrom the cursor, the cursor stays, other rows stay |
| Grid.WClrToBot | tcvt.py:222 | wclrtobot: rows above the cursor stay, the cursor row is cleared from the cursor, every row below is blank; the cursor stays |
| Grid.WClear | tcvt.py:221 | wclear: every row of the window is blank and the cursor is at (0, 0) |
| Grid.WScroll | tcvt.py:198 | wscrl(1), as scroll_up calls it (and scroll at 214): every row moves up by one, a blank row enters at the bottom, the cursor stays |
| Grid.WScrollDown | tcvt.py:206 | wscrl(-1): every row moves down by one, a blank row enters at the top and the bottom row is lost, the cursor stays |
| Grid.WInsertLn | tcvt.py:240 | winsertln: a blank row is inserted at the cursor row, the rows below move down and the bottom row is lost, the cursor stays |
| Grid.WDeleteLn | tcvt.py:247 | wdeleteln: the cursor row is removed, the rows below move up and a blank row enters at the bottom, the cursor stays |
| Logical.ShiftUp | tcvt.py:213-216 | scroll on the logical screen: row k takes old row k+1 for every k below the last, and the last row is blank |
| Logical.DeleteRow | tcvt.py:245-249 | deleteln on the logical screen at row y: rows above y stay, rows below move up by one, the last row is blank |
| Logical.InsertRow | tcvt.py:236-240 | insertln on the logical screen at row y: rows above y stay, row y is blank, rows from y on move down by one, the old last row is lost |
| Logical.ClearBelow | tcvt.py:218-222 | clrtobot on the logical screen: rows above y stay, row y is cleared from x, every row below is blank |
| Logical.DeleteUndoesInsert | tcvt.py:236-249 | deleteln after insertln at the same row gives the old rows back, less the row pushed off the bottom, with a blank row at the end |
| Logical.InsertUndoesDelete | tcvt.py:236-249 | insertln after deleteln at the same row blanks that row and restores every other row |
| Logical.ShiftUpTimesMovesUp | tcvt.py:213-216 | k <= rows scrolls move the rows up by k and bring in k blank rows |
| Logical.ScrollingEveryRowClears | tcvt.py:213-216 | scrolling once per logical row blanks the screen |
| Logical.Clamp | tcvt.py:156-157 | `max(lo, min(hi, v))`: inside [lo, hi], v itself inside, the nearer bound outside |
| Logical.MoveTo | tcvt.py:154-158 | move clamps the cursor into rows 0..height*numcolumns-1 and columns 0..columnwidth-1 and changes nothing else |
| Logical.RelMove | tcvt.py:163-164 | the cursor moves by (dy, dx), clamped to the rows and columns of the logical screen, exactly when the target is inside; the cells and attributes stay |
| Logical.MoveProperties | tcvt.py:154-158 | move is idempotent, forgets the old cursor, and hits (y, x) exactly when (y, x) is inside the screen |
| Logical.Scroll | tcvt.py:213-216 | scroll shifts the logical rows up and leaves the cursor and attributes alone |
| Logical.DeleteLine | tcvt.py:245-249 | deleteln deletes the cursor row and leaves the cursor and attributes alone |
| Logical.InsertLine | tcvt.py:236-240 | insertln inserts a blank row at the cursor row and leaves the cursor and attributes alone |
| Logical.ClearToBottom | tcvt.py:218-222 | clrtobot clears from the cursor to the end of the screen and leaves the cursor and attributes alone |
| Logical.WithCursorRow | tcvt.py:228-243 | the one-row operations change only the cursor row |
| Logical.ClearToEol | tcvt.py:227-228 | clrtoeol keeps the cursor, the attributes and every row but the cursor row; the cursor row is cleared from x as Grid.RowClearFrom states (through WithCursorRow) |
| Logical.DeleteChar | tcvt.py:230-231 | delch keeps the cursor, the attributes and every row but the cursor row; the cursor row loses the cell at x as Grid.RowDelete states |
| Logical.InsertChar | tcvt.py:242-243 | insch keeps the cursor, the attributes and every row but the cursor row; the cursor row takes c in the current attributes at x as Grid.RowInsert states |
| Logical.InsertAtLastColumnWrites | tcvt.py:167-168 | at the last column, insch with the current attributes is a plain write of the cursor cell |
| Logical.AttrOnAsWritten | tcvt.py:224-225 | attron as written ORs the bits in and changes nothing else |
| Logical.AttrOn | tcvt.py:224-225 | attron as intended combines the bits as Combine says and changes nothing else |
| Logical.AttrSet | tcvt.py:233-234 | attrset replaces the attributes and changes nothing else |
| Logical.AddChar | tcvt.py:166-176 | addch as intended, with the scroll at the last logical row: the screen stays well formed; its three cases are stated by AddCharBeforeLastColumn, AddCharWraps and AddCharScrollsAtBottom |
| Logical.AddCharAsWritten | tcvt.py:166-176 | addch as written, with the `2 * height` test: the screen stays well formed; it is compared with AddChar by the AddCharAsWritten lemmas below |
| Logical.AddCharBeforeLastColumn | tcvt.py:174-176 | before the last column addch writes c with the current attributes at the cursor, changes no other cell and advances xpos by one |
| Logical.AddCharWraps | tcvt.py:167-173 | at the last column of a row other than the last, addch writes c there and moves the cursor to (ypos+1, 0) |
| Logical.AddCharScrollsAtBottom | tcvt.py:167-171 | at the last cell of the screen addch writes c, scrolls the screen up and leaves the cursor at the start of the last row |
| Logical.AddCharAsWrittenAgreesOnTwoColumns | tcvt.py:169 | with two columns the `2 * height` test is the last-row test |
| Logical.AddCharAsWrittenScrollsBeforeLastWindow | tcvt.py:169 | with three or more columns, a character at the last cell of the second window (logical row `2*height-1`) makes addch as written scroll the screen and return to the start of the same row, while the intended addch moves to the start of the next row and leaves the rows as written |
| Logical.AddCharAsWrittenScrollsEarly | tcvt.py:169 | the exhibit for the geometry Geom(1, 3, 1) only: a character written at (1, 0) scrolls, so the character ends on row 0 and the cursor stays on row 1; intended, the character stays on row 1 and the cursor moves to row 2 |
| Logical.AddCharAsWrittenOneColumnOverwrites | tcvt.py:169 | with one column, a character at the last cell of the screen makes addch as written keep the rows as written and put the cursor at the start of the last row, so the next character overwrites that row's first cell; the intended addch scrolls |
| Logical.AddCharAsWrittenNeverScrollsOneColumn | tcvt.py:169 | the exhibit for the geometry Geom(2, 1, 1) only: a character written at (1, 0) stays on row 1 as written, while intended it scrolls up to row 0 and row 1 becomes blank |
| Folding.ConcatShape | tcvt.py:151-152 | numcolumns windows of height x columnwidth form a logical grid of height*numcolumns rows of columnwidth cells |
| Folding.ConcatIndex | tcvt.py:139-145 | row r of window i is logical row i*height + r |
| Folding.RowAddress | tcvt.py:139-145 | logical row y is row y % height of window y // height |
| Folding.ConcatUpdate | tcvt.py:228-243 | replacing row r of window i replaces logical row i*height + r and nothing else |
| Folding.CursorRowRefines | tcvt.py:228-243 | changing the cursor row inside the current window is changing logical row ypos |
| Folding.ScrolledWindowsAt | tcvt.py:188-216 | after scroll each window has moved up by one and taken in the first row of the next window, or a blank row for the last window |
| Folding.ScrollRefines | tcvt.py:188-216 | the windows' copy-and-scroll, joined, is one logical scroll |
| Folding.DeletedWindowsAt | tcvt.py:245-249 | with scroll_up (tcvt.py:188-198): after deleteln the windows before the current one are unchanged; the current one loses the cursor row and takes in the next window's first row; every later window scrolls up the same way |
| Folding.DeletedWindowsFromSteps | tcvt.py:245-249 | the current window's deleteln followed by the scroll_up loop gives those windows |
| Folding.DeleteRefines | tcvt.py:245-249 | those windows, joined, are the logical rows with row i*height + r deleted |
| Folding.DeleteLnRefines | tcvt.py:245-249 | the two steps of deleteln delete the cursor row of the logical screen |
| Folding.CarriedDownAt | tcvt.py:200-211 | carried down, each window moves down by one and takes in the last row of the window before it |
| Folding.CarryDownShifts | tcvt.py:200-211 | carrying a row down through the windows shifts the logical rows down by one: that row enters first and the last row falls off |
| Folding.InsertedWindowsAt | tcvt.py:236-240 | with scroll_down (tcvt.py:200-211): after insertln the windows before the current one are unchanged; the current one opens a blank row at the cursor row and loses its last row; every later window moves down and takes in the old last row of the window before it |
| Folding.InsertedWindowsFromSteps | tcvt.py:236-240 | the scroll_down loop from the last window back, then the current window's insertln, gives those windows |
| Folding.InsertRefines | tcvt.py:236-240 | those windows, joined, are the logical rows with a blank row inserted at i*height + r |
| Folding.InsertLnRefines | tcvt.py:236-240 | the two steps of insertln insert a blank row at the cursor row of the logical screen |
| Folding.ClearedWindowsAt | tcvt.py:218-222 | after clrtobot the windows before the current one are unchanged, the current one is cleared from the cursor, and every later one is blank |
| Folding.ClearedWindowsFromSteps | tcvt.py:218-222 | clearing the later windows, then the current one from the cursor, gives those windows |
| Folding.ClearRefines | tcvt.py:218-222 | those windows, joined, are the logical screen cleared from (i*height + r, x) |
| Folding.ClrToBotRefines | tcvt.py:218-222 | the steps of clrtobot clear the logical screen from the cursor |
| ColumnWindows.PartlyScrolledStep | tcvt.py:188-198 | one more scroll_up(i) call: window i-1 takes window i's first row as its last, window i scrolls up, no other window changes |
| ColumnWindows.ScrollIsPartly | tcvt.py:213-216 | scrolling window 0 and then running the scroll_up loop gives the scrolled windows |
| ColumnWindows.DeleteLnIsPartly | tcvt.py:245-249 | the current window's deleteln, then the scroll_up loop from the next window, deletes the cursor row |
| ColumnWindows.PartlyScrolledDone | tcvt.py:215-216 | the loop shared with deleteln (tcvt.py:248-249): once the loop has run, every window before start-1 is unchanged, window start-1 took the next window's first row, and every later window scrolled up |
| ColumnWindows.Columns.Init | tcvt.py:117-137 | a folder of the geometry __init__ computes: every window blank, the logical cursor at the origin, no attribute set |
| ColumnWindows.Columns.Create | tcvt.py:117-137 | construction fails (BadWidth) exactly when the geometry is rejected; otherwise it gives a fresh blank folder of that geometry |
| ColumnWindows.Columns.MaxYX | tcvt.py:151-152 | getmaxyx is the logical screen's number of rows and of cells per row |
| ColumnWindows.Columns.GetYX | tcvt.py:185-186 | getyx is the logical cursor, which lies on the screen |
| ColumnWindows.Columns.CurWin | tcvt.py:139-141 | curwin is the window whose rows include ypos |
| ColumnWindows.Columns.CurYPos | tcvt.py:143-145 | curypos is the row of the current window holding logical row ypos |
| ColumnWindows.Columns.FixCursor | tcvt.py:160-161 | fix_cursor puts the current window's cursor at the logical cursor and changes no cell |
| ColumnWindows.Columns.Move | tcvt.py:154-158 | move changes the logical screen as MoveTo does |
| ColumnWindows.Columns.RelMove | tcvt.py:163-164 | relmove changes the logical screen as RelMove does |
| ColumnWindows.Columns.CopyTopToBottom | tcvt.py:193-196 | the copy loop of scroll_up makes the last row of the previous window a copy of the first row of the given window |
| ColumnWindows.Columns.ScrollUp | tcvt.py:188-198 | scroll_up(index): window index-1's last row becomes window index's first row, window index scrolls up, nothing else changes |
| ColumnWindows.Columns.CopyBottomToTop | tcvt.py:207-210 | the copy loop of scroll_down makes the first row of the given window a copy of the previous window's last row |
| ColumnWindows.Columns.ScrollDown | tcvt.py:200-211 | scroll_down(index): window index moves down by one and its first row becomes window index-1's last row; no other window changes |
| ColumnWindows.Columns.ScrollUpFrom | tcvt.py:215-216 | the loop shared with deleteln (tcvt.py:248-249): the scroll_up loop from start to the last window leaves the windows PartlyScrolledAll describes |
| ColumnWindows.Columns.ScrollDownAfter | tcvt.py:238-239 | the reversed scroll_down loop: every window after index moves down and takes in the old last row of the window before it |
| ColumnWindows.Columns.ClearFrom | tcvt.py:220-221 | the clear loop of clrtobot blanks every window from start on and keeps the others |
| ColumnWindows.Columns.Scroll | tcvt.py:213-216 | scroll changes the logical screen as Scroll does: one logical scroll |
| ColumnWindows.Columns.DeleteLn | tcvt.py:245-249 | deleteln changes the logical screen as DeleteLine does |
| ColumnWindows.Columns.InsertLn | tcvt.py:236-240 | insertln changes the logical screen as InsertLine does |
| ColumnWindows.Columns.ClrToBot | tcvt.py:218-222 | clrtobot changes the logical screen as ClearToBottom does |
| ColumnWindows.Columns.SetCursorRow | tcvt.py:228-243 | a change of the current window's cursor row is a change of the logical cursor row |
| ColumnWindows.Columns.WAddChInside | tcvt.py:174-176 | waddch before the last column writes the cursor cell and advances xpos |
| ColumnWindows.Columns.AddCh | tcvt.py:166-176 | addch as intended changes the logical screen as AddChar does |
| ColumnWindows.Columns.AddChAsWritten | tcvt.py:166-176 | addch as written changes the logical screen as AddCharAsWritten does |
| ColumnWindows.Columns.ClrToEol | tcvt.py:227-228 | clrtoeol blanks the logical cursor row from the cursor |
| ColumnWindows.Columns.DelCh | tcvt.py:230-231 | delch deletes the cell at the logical cursor |
| ColumnWindows.Columns.InsCh | tcvt.py:242-243 | insch inserts the cell at the logical cursor |
| ColumnWindows.Columns.Inch | tcvt.py:251-252 | inch returns the cell at the logical cursor and changes no cell |
| ColumnWindows.Columns.AttrOnAsWritten | tcvt.py:224-225 | attron as written ORs the bits into attrs |
| ColumnWindows.Columns.AttrOn | tcvt.py:224-225 | attron as intended, Combine |
| ColumnWindows.Columns.AttrSet | tcvt.py:233-234 | attrset replaces attrs |
| Effects.DeleteCharTimes | tcvt.py:393-395 | do_dch's loop of n delch calls keeps the cursor and attributes; its closed form is DeleteCharTimesShifts |
| Effects.DeleteLineTimes | tcvt.py:400-402 | do_dl's loop of n deleteln calls; its closed form is DeleteLineTimesShifts |
| Effects.InsertLineTimes | tcvt.py:440-442 | do_il's loop of n insertln calls; its closed form is InsertRowTimesShifts |
| Effects.InsertCharTimes | tcvt.py:436-438 | do_ich's loop of n insch calls; its closed form is InsertCharTimesShifts |
| Effects.AddCharTimes | tcvt.py:407-409 | do_ech's loop of n addch calls, also the ESC [ n b loop; its closed form inside the row is AddCharTimesWrites |
| Effects.DeleteCharTimesShifts | tcvt.py:393-395 | do_dch(n): with k = min(n, cells from the cursor to the margin), the cells right of the cursor move left by k and k blanks enter at the right; nothing else changes |
| Effects.RowDeleteTimesAt | tcvt.py:393-395 | cell i of the cursor row after n deletions, in closed form |
| Effects.DeleteLineTimesShifts | tcvt.py:400-402 | do_dl(n): with k = min(n, rows from the cursor down), the rows below the cursor row move up by k and k blank rows enter at the bottom; the rows above stay |
| Effects.DeleteLineTimesRows | tcvt.py:400-402 | do_dl changes only the rows |
| Effects.InsertRowTimesShifts | tcvt.py:440-442 | do_il(n): with k = min(n, rows from the cursor down), k blank rows appear at the cursor row, the rows below move down by k and the last k are lost; the rows above stay |
| Effects.InsertLineTimesRows | tcvt.py:440-442 | do_il changes only the rows |
| Effects.InsertCharTimesShifts | tcvt.py:436-438 | do_ich(n): with k = min(n, cells from the cursor to the margin), k spaces in the current attributes appear at the cursor, the cells from the cursor on move right by k, the last k are lost; nothing else changes |
| Effects.RowInsertTimesAt | tcvt.py:436-438 | cell i of the cursor row after n insertions, in closed form |
| Effects.AddCharTimesWrites | tcvt.py:407-409 | for do_ech and the ESC [ n b loop (tcvt.py:597-599): n addch calls that stay inside the row write c in the current attributes at the n cells from the cursor, move the cursor n right and change nothing else |
| Effects.EraseLineToCursor | tcvt.py:417-421 | do_el1 keeps the screen well formed and its geometry; its effect is stated by EraseLineToCursorBlanks |
| Effects.EraseLineToCursorBlanks | tcvt.py:417-421 | do_el1 blanks the cells left of the cursor with spaces in the current attributes and leaves the cursor and the other cells alone |
| Effects.TabForward | tcvt.py:430-434 | do_ht keeps the screen well formed and its geometry; where it moves is stated by TabStop |
| Effects.TabStop | tcvt.py:430-434 | do_ht moves to the next multiple of 8, or to the last column when that lies beyond it; it never passes a tab stop and stays on the row |
| Effects.LineFeed | tcvt.py:447-454 | do_ind keeps the screen well formed and its geometry; where it moves and when it scrolls is stated by LineFeedMoves |
| Effects.LineFeedMoves | tcvt.py:447-454 | do_ind moves to the start of the next row; on the last row it scrolls the screen and goes to the start of that row |
| Effects.Exec | tcvt.py:357-464 | each command the interpreter issues runs its do_* handler or screen call, keeping the screen well formed and its geometry; each handler's effect is stated by the lemmas in this table |
| Effects.ColorCodeSelectsPair | tcvt.py:551-562 | an SGR colour code (30-37, 39, 40-47, 49) sets one colour, keeps the other, leaves the pair get_color selects in the colour field when it is not 0 and changes nothing when it is 0; the text and cursor stay |
| Effects.RunWritesInRow | tcvt.py:166-176 | the write commands of a text that stays left of the last column put each character, in the current attributes, at the cursor-advancing cells of the cursor row, leave the cursor just after it and change no other cell |
| Effects.RunWritesToRowEnd | tcvt.py:166-176 | a text that reaches the last column of a row other than the last fills that row from the cursor and leaves the cursor at the start of the next row |
| Effects.RunWritesWrap | tcvt.py:166-176 | a text that runs past the margin wraps: its first part fills the cursor row to the margin and the rest is written from the start of the next row, with the cursor just after it |
| Effects.PlainTextOnScreen | tcvt.py:475-486 | simple text fed through the driver loop (tcvt.py:712-719) and run on the screen reads back from the cursor row at the cursor-advancing positions |
| Effects.RunAppend | tcvt.py:712-719 | running the commands of a and then of b is running a + b |
| Parser.Split | tcvt.py:584 | bytes.split gives at least one piece; JoinSplit, SplitPiecesFree and SplitJoin state that it is the inverse of join |
| Parser.IsSimpleChar | tcvt.py:300-303 | simple_characters: the letters, digits, listed punctuation and eleven Latin-1 bytes; none is a control byte or DEL; SimpleModeRejects and SimpleCharIsWritten state what feed_simple does with them |
| Parser.IsDigits | tcvt.py:579 | `prev.isdigit()`, as the counted-command test uses it (and the d, b and G tests at 595, 597 and 600): the buffer is non-empty and all decimal digits; CountedSequence states the effect |
| Parser.ParseInt | tcvt.py:585 | int() on a parameter: the value of a digit string, an error on the empty string; used by SgrZero and CursorPosition |
| Parser.JoinSplit | tcvt.py:584 | bytes.split loses nothing: joining the pieces gives the parameter bytes back |
| Parser.SplitPiecesFree | tcvt.py:584 | no piece contains a ';' |
| Parser.SplitJoin | tcvt.py:584 | splitting the join of ';'-free pieces gives the pieces back |
| Parser.Reset | tcvt.py:466-470 | feed_reset: the text mode of the current font; FinalByteResets, RejectedByteRecovers and Terminal.FeedReset state it |
| Parser.TextMode | tcvt.py:467-470 | the mode feed_reset chooses: graphics when graphics_font is set, otherwise simple; FeedColorPreserves, SgrPreserves and the Step lemmas state that every step ending in a text mode ends in this one |
| Parser.PlainFinal | tcvt.py:510-521 | the final bytes feed_esc_opbr dispatches without a parameter; ControlSequenceRejects states which they are and that each issues its one command |
| Parser.CountedFinal | tcvt.py:568-578 | the final bytes feed_esc_opbr_next dispatches with a count; CountedSequence states their effect |
| Parser.CountedSequence | tcvt.py:568-580 | after a decimal parameter n each of A, B, C, D, L, M, P, X and @ resets and issues its command with count n; with a parameter that is not a plain number (in a well-formed state, one holding ;) the byte goes on to the later branches |
| Parser.DriveStep | tcvt.py:716-719 | one byte of the driver loop, feed_reset after a ValueError; RejectedByteRecovers and StepPreservesWellFormed state what it leaves |
| Parser.FeedSimple | tcvt.py:475-490 | feed_simple: a rejected byte changes nothing; the colours and the font stay; at most one command, and lastchar changes only to a character that byte writes |
| Parser.FeedGraphics | tcvt.py:492-500 | feed_graphics: the same four facts |
| Parser.FeedEsc | tcvt.py:502-506 | feed_esc accepts exactly '[', entering the control-sequence state, issues no command, and a rejected byte changes nothing |
| Parser.FeedEscOpbr | tcvt.py:508-529 | feed_esc_opbr never touches lastchar, and a rejected byte leaves exactly the reset state |
| Parser.FeedColor | tcvt.py:531-564 | feed_color accepts exactly the codes 0, 1, 4, 5, 7, 8, 10, 11, 30-37, 39, 40-47 and 49; a rejected code changes nothing; at most one command; lastchar stays |
| Parser.ColorAttr | tcvt.py:551-562 | the value `get_color(fg, bg)` passed to attron by the colour codes 30-37, 39, 40-47 and 49, on the updated fg and bg; Effects.ColorCodeSelectsPair states which pair then lands in the screen attributes |
| Parser.Sgr | tcvt.py:583-586 | the SGR loop never touches lastchar and issues at most one command per parameter |
| Parser.SgrRound | tcvt.py:585-586 | one round of the loop adds at most one command and keeps lastchar |
| Parser.FeedEscOpbrNext | tcvt.py:566-605 | feed_esc_opbr_next never touches lastchar, and a rejected byte other than 'm' leaves the text mode of the font |
| Parser.FinalWithParams | tcvt.py:587-605 | the final bytes after SGR leave the reset state as it is, issue at most two commands, and accept only H, J, d, b, G and K |
| Parser.Step | tcvt.py:472-473 | feed: lastchar changes only when the byte issues exactly the write of the new lastchar |
| Parser.Interpret | tcvt.py:712-719 | the driver loop, one byte after another with the reset after each rejection; InterpretWellFormed, PlainText and Terminal.FeedAll state what it computes |
| Parser.SgrZeroForegroundIsBlack | tcvt.py:540-559 | SGR 0 sets the foreground to ANSI black, so a following SGR 40 selects pair 8, black on black; after SGR 39 it selects pair 0, the default |
| Parser.InitialWellFormed | tcvt.py:305-314 | the state __init__ sets up is well formed |
| Parser.Initial | tcvt.py:306-314 | the state Terminal.__init__ sets: simple mode, fg = bg = 0, graphics_font off, lastchar a space; InitialWellFormed states that it is well formed and Terminal.constructor that a new terminal starts in it |
| Parser.FeedColorPreserves | tcvt.py:531-564 | feed_color keeps the state well formed, keeps the text mode that matches the font, and never touches lastchar |
| Parser.SgrPreserves | tcvt.py:583-586 | the SGR loop does the same |
| Parser.StepPreservesWellFormed | tcvt.py:466-605 | every byte keeps the state well formed, accepted or rejected, and so does the driver's reset after a rejection (tcvt.py:716-719) |
| Parser.EscOpbrPreserves | tcvt.py:508-529 | feed_esc_opbr keeps the state well formed |
| Parser.EscOpbrNextPreserves | tcvt.py:566-605 | feed_esc_opbr_next keeps the state well formed |
| Parser.InterpretWellFormed | tcvt.py:712-719 | after any run of bytes from a well-formed state the state is well formed |
| Parser.EscapeSequenceStart | tcvt.py:487-506 | ESC enters the escape state from simple or graphics mode; '[' then enters the control sequence state; any other byte after ESC is rejected and changes nothing |
| Parser.ParameterBytesAccumulate | tcvt.py:581-582 | in the parameter state a digit or ';' is appended to the buffer and nothing else happens; a digit after ESC [ starts the buffer (tcvt.py:526-527) |
| Parser.FinalByteResets | tcvt.py:566-567 | every final byte calls feed_reset (tcvt.py:466-470, 508-509) and so returns to graphics mode if graphics_font is set and to simple mode otherwise; only SGR can change the font |
| Parser.RejectedByteRecovers | tcvt.py:716-719 | after a rejected byte the driver's reset leaves the text mode of the current font |
| Parser.SimpleModeRejects | tcvt.py:475-490 | simple mode rejects exactly the bytes that are not BEL, BS, HT, LF, CR, ESC or simple characters, and a rejected byte changes nothing |
| Parser.SimpleCharIsWritten | tcvt.py:485-486 | in simple mode a simple character is written and becomes lastchar (Terminal.addch, tcvt.py:337-339) |
| Parser.GraphicsModeRejects | tcvt.py:492-500 | graphics mode rejects exactly the bytes that are not ESC, keys of the alternate-character map or 'q'; a mapped byte writes its glyph, and 'q' writes ACS_HLINE; the glyph becomes lastchar |
| Parser.ControlSequenceRejects | tcvt.py:508-529 | after ESC [ exactly the ten final bytes, 'm' and the digits are accepted; each final byte issues its one command after the reset |
| Parser.SgrZero | tcvt.py:540-542 | SGR 0 sets fg and bg to 0 and clears the attributes |
| Parser.BareSgrResets | tcvt.py:524-525 | ESC [ m is SGR 0 |
| Parser.SgrStopsAtError | tcvt.py:585-586 | a parameter that raises ends the SGR loop; later parameters are not looked at |
| Parser.SgrAppend | tcvt.py:585-586 | SGR with parameters a ; b runs the codes of a and then those of b, with the commands in that order |
| Parser.SgrRoundPrefix | tcvt.py:585-586 | a round of the SGR loop depends on the earlier rounds only through their state and verdict |
| Parser.CursorPosition | tcvt.py:587-591 | ESC [ y ; x H with two decimal parameters moves to (y-1, x-1), one-based as in section 8.3.21 of ECMA-48 |
| Parser.CursorPositionArity | tcvt.py:588-590 | ESC [ … H with other than two parameters is rejected |
| Parser.PlainText | tcvt.py:475-486 | fed through the driver loop (tcvt.py:712-719), a run of simple characters in simple mode writes each character in order, and lastchar is the last of them |
| Emulator.Terminal.constructor | tcvt.py:305-314 | the interpreter starts in simple mode with colours 0, no graphics font and lastchar a space, on the folder it is given |
| Emulator.Terminal.DoDch | tcvt.py:393-395 | do_dch changes the screen as DeleteCharTimes does |
| Emulator.Terminal.DoDl | tcvt.py:400-402 | do_dl changes the screen as DeleteLineTimes does |
| Emulator.Terminal.DoIl | tcvt.py:440-442 | do_il changes the screen as InsertLineTimes does |
| Emulator.Terminal.DoIch | tcvt.py:436-438 | do_ich changes the screen as InsertCharTimes does |
| Emulator.Terminal.AddChTimes | tcvt.py:407-409 | do_ech, and the ESC [ n b loop (tcvt.py:597-599), change the screen as AddCharTimes does |
| Emulator.Terminal.DoEl1 | tcvt.py:417-421 | do_el1 changes the screen as EraseLineToCursor does |
| Emulator.Terminal.DoHt | tcvt.py:430-434 | do_ht changes the screen as TabForward does |
| Emulator.Terminal.DoInd | tcvt.py:447-454 | do_ind changes the screen as LineFeed does |
| Emulator.Terminal.DoVpa | tcvt.py:462-464 | do_vpa moves to row n in the same column, clamped |
| Emulator.Terminal.DoHpa | tcvt.py:426-428 | do_hpa moves to column n on the same row, clamped |
| Emulator.Terminal.Perform | tcvt.py:357-464 | each screen command runs its do_* handler or screen call, with the effect Exec gives |
| Emulator.Terminal.FeedReset | tcvt.py:466-470 | feed_reset selects the text mode of the current font |
| Emulator.Terminal.AddCh | tcvt.py:337-339 | Terminal.addch remembers the character as lastchar and writes it |
| Emulator.Terminal.FeedSimple | tcvt.py:475-490 | feed_simple leaves the state Parser.FeedSimple gives, runs its commands, and fails exactly where it raises |
| Emulator.Terminal.FeedGraphics | tcvt.py:492-500 | feed_graphics, likewise against Parser.FeedGraphics |
| Emulator.Terminal.FeedEsc | tcvt.py:502-506 | feed_esc, likewise against Parser.FeedEsc; it issues no command |
| Emulator.Terminal.FeedEscOpbr | tcvt.py:508-529 | feed_esc_opbr, likewise against Parser.FeedEscOpbr |
| Emulator.Terminal.FeedColor | tcvt.py:531-564 | feed_color, likewise against Parser.FeedColor |
| Emulator.Terminal.FeedSgr | tcvt.py:583-586 | the SGR loop, likewise against Parser.Sgr |
| Emulator.Terminal.FeedCup | tcvt.py:587-591 | the H branch, likewise against FinalWithParams |
| Emulator.Terminal.ClearScreen | tcvt.py:592-594 | ESC [ 2 J homes the cursor and clears to the bottom |
| Emulator.Terminal.FeedFinal | tcvt.py:592-605 | the 2J, d, b, G and 1K branches and the error, likewise against FinalWithParams |
| Emulator.Terminal.FeedEscOpbrNext | tcvt.py:566-605 | feed_esc_opbr_next, likewise against Parser.FeedEscOpbrNext |
| Emulator.Terminal.Feed | tcvt.py:472-473 | feed hands the byte to the method the mode names: the state, commands and verdict of Parser.Step |
| Emulator.Terminal.FeedAll | tcvt.py:712-719 | the driver loop ends in the state Parser.Interpret computes, the screen shows every command it collects in order, and a well-formed state stays well formed |

## Left out

- `main` (tcvt.py:646-729): the pty fork, `execvp`, the error pipe, the `select` loop, reading and writing the pty, EINTR handling and the refresh timer. These are operating-system I/O and timing. Only its byte loop is modelled (`Terminal.FeedAll`), as a sequence of bytes given as a parameter.
- The `TCVT_DEVEL` branch of the byte loop: it lets `ValueError` escape and end the program.
- `Terminal.start`, `stop`, `resized`, `switchmode`, `resizepty`: curses start-up, raw mode and the window-size ioctl. The `Terminal` constructor takes the folder that `start` would create, and the composed alternate-character map `start` builds is a parameter (`Parser.Tables`).
- `compute_keymap`, `acs_map` and the curses constants: their values come from terminfo and curses. Characters are opaque integers, and the glyph for `q` and the map are parameters. The attribute constants take the ncurses values.
- The class `Simple` (tcvt.py:59-112): a pass-through wrapper over one curses window, used only when the folder is switched off.
- `Columns.refresh`, the display effect of `fix_cursor`, the vertical separator lines and `curses.beep`. These are display side effects; the bell is a command with no effect on the screen. The positions of the separators are modelled (`Layout.SeparatorColumn`).
- `Columns.curxpos` (tcvt.py:147-149) is `xpos` itself and has no member of its own.
- The one-line handlers `do_cr`, `do_cub`, `do_cud`, `do_cuf`, `do_cuu`, their 1-variants, `do_home`, `do_ed`, `do_el`, `do_bold`, `do_smul`, `do_blink`, `do_invis` and `do_bel` are single screen calls. They appear as commands of `Parser.Command`, and `Terminal.Perform` runs them.
- `Columns.inch` and the `inch` calls of the copy loops are modelled as curses' `mvwinch`, which also moves that window's cursor; `scroll_up` and `scroll_down` put the cursor back with `fix_cursor`, as the source does.
- The model of the curses primitives (`Grid`) is an assumption: it states curses' documented behaviour and is not derived from curses' code.
- Python's `int()` accepts signs, spaces and underscores. The parameter buffer only ever holds digits and `;`, as `Parser.WellFormed` proves, so only digit strings and the empty string are modelled.
- Emulator.Terminal.constructor: it takes an existing folder rather than building one from a curses screen, because the screen comes from `start`.
- ColumnWindows.Columns.Create: it requires a screen at least one row tall. With zero rows the source builds windows that can hold no cursor, and curses does not report such a screen.
- Effects.AddCharTimesWrites: it states the closed form only for runs that stay inside the cursor row. Longer runs are defined by `Effects.AddCharTimes`, which repeats `Logical.AddChar`, whose three cases are proved separately.
- The terminal drives the folder as intended (`Columns.AddCh`, `Columns.AttrOn`); the as-written versions are modelled and proved beside them (see Findings).

## Findings

| source | as written | input that shows it | evidently intended | confidence | as-written member | corrected member |
|---|---|---|---|---|---|---|
| tcvt.py:169 | `addch` at the last column scrolls when `ypos + 1 == 2 * height`, whatever the number of columns | numcolumns = 3, height = 1, cursor at (1, columnwidth-1): the screen scrolls and the cursor stays on row 1, though row 2 exists; with numcolumns = 1 the last row never scrolls | scroll when `ypos + 1 == height * numcolumns`, the last logical row | not executed | Logical.AddCharAsWrittenScrollsEarly | Logical.AddCharScrollsAtBottom |
| tcvt.py:224-225 | `attron` ORs the new attribute into `attrs`, so a colour pair is ORed into the previous pair | SGR 31 (pair 16) then SGR 33 (pair 32) gives pair 48, which is magenta on black | a colour pair replaces the current pair, as curses' own `wattron` does | not executed | Colors.CombineAsWrittenMixesPairs | Attributes.Combine |
