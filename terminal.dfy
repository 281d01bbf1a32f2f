/** class Terminal of tcvt.py: the escape-sequence interpreter driving
    the column folder. Every feed method is proved to leave the
    interpreter state that Parser's pure state machine computes, and to
    act on the folder's logical screen as the commands that machine
    issues do (Effects.Run); the do_* handlers that loop are proved
    against the repetitions in module Effects. */
module Emulator {
  import opened Grid
  import opened Layout
  import opened Attributes
  import opened Colors
  import opened ColumnWindows
  import P = Parser
  import E = Effects
  import L = Logical

  class Terminal {
    /** The feed method the next byte goes to, with its extra argument. */
    var mode: P.Mode
    var fg: int
    var bg: int
    var graphicsFont: bool
    var lastchar: int
    /** graphics_chars after start, and curses.ACS_HLINE. */
    const tables: P.Tables
    /** The screen start creates: the column folder. */
    const screen: Columns

    function State(): P.PState
      reads this
    {
      P.PState(mode, fg, bg, graphicsFont, lastchar)
    }

    ghost predicate Valid()
      reads this, screen
    {
      screen.Valid()
    }

    /** Terminal.__init__ followed by start: the interpreter state of
        __init__, on a folder start has created. */
    constructor (t: P.Tables, s: Columns)
      requires s.Valid()
      ensures Valid() && State() == P.Initial
      ensures tables == t && screen == s && screen.Abs() == old(s.Abs())
    {
      mode := P.Simple;
      fg, bg := 0, 0;
      graphicsFont := false;
      lastchar := Space;
      tables := t;
      screen := s;
    }

    // -------------------------------------------------------------------
    // The handlers that loop or compute

    /** do_dch. */
    method DoDch(n: nat)
      requires Valid()
      modifies screen
      ensures Valid() && screen.Abs() == E.DeleteCharTimes(old(screen.Abs()), n)
    {
      ghost var s0 := screen.Abs();
      var i := 0;
      while i < n
        invariant 0 <= i <= n && screen.Valid()
        invariant screen.Abs() == E.DeleteCharTimes(s0, i)
      {
        screen.DelCh();
        i := i + 1;
      }
    }

    /** do_dl. */
    method DoDl(n: nat)
      requires Valid()
      modifies screen
      ensures Valid() && screen.Abs() == E.DeleteLineTimes(old(screen.Abs()), n)
    {
      ghost var s0 := screen.Abs();
      var i := 0;
      while i < n
        invariant 0 <= i <= n && screen.Valid()
        invariant screen.Abs() == E.DeleteLineTimes(s0, i)
      {
        screen.DeleteLn();
        i := i + 1;
      }
    }

    /** do_il. */
    method DoIl(n: nat)
      requires Valid()
      modifies screen
      ensures Valid() && screen.Abs() == E.InsertLineTimes(old(screen.Abs()), n)
    {
      ghost var s0 := screen.Abs();
      var i := 0;
      while i < n
        invariant 0 <= i <= n && screen.Valid()
        invariant screen.Abs() == E.InsertLineTimes(s0, i)
      {
        screen.InsertLn();
        i := i + 1;
      }
    }

    /** do_ich. */
    method DoIch(n: nat)
      requires Valid()
      modifies screen
      ensures Valid() && screen.Abs() == E.InsertCharTimes(old(screen.Abs()), n)
    {
      ghost var s0 := screen.Abs();
      var i := 0;
      while i < n
        invariant 0 <= i <= n && screen.Valid()
        invariant screen.Abs() == E.InsertCharTimes(s0, i)
      {
        screen.InsCh(Space);
        i := i + 1;
      }
    }

    /** addch of c, n times, on the screen directly: do_ech (c a space)
        and the loop of ESC [ n b (c lastchar). */
    method AddChTimes(n: nat, c: int)
      requires Valid()
      modifies screen
      ensures Valid() && screen.Abs() == E.AddCharTimes(old(screen.Abs()), n, c)
    {
      ghost var s0 := screen.Abs();
      var i := 0;
      while i < n
        invariant 0 <= i <= n && screen.Valid()
        invariant screen.Abs() == E.AddCharTimes(s0, i, c)
      {
        screen.AddCh(c);
        i := i + 1;
      }
    }

    /** do_el1. */
    method DoEl1()
      requires Valid()
      modifies screen
      ensures Valid() && screen.Abs() == E.EraseLineToCursor(old(screen.Abs()))
    {
      var y, x := screen.ypos, screen.xpos;
      screen.Move(y, 0);
      AddChTimes(x, Space);
    }

    /** do_ht. */
    method DoHt()
      requires Valid()
      modifies screen
      ensures Valid() && screen.Abs() == E.TabForward(old(screen.Abs()))
    {
      var y, x := screen.ypos, screen.xpos;
      var xm := screen.columnwidth;
      x := E.Min(x + 8 - x % 8, xm - 1);
      screen.Move(y, x);
    }

    /** do_ind. */
    method DoInd()
      requires Valid()
      modifies screen
      ensures Valid() && screen.Abs() == E.LineFeed(old(screen.Abs()))
    {
      var y := screen.ypos;
      var ym := screen.height * screen.numcolumns;
      if y + 1 == ym {
        screen.Scroll();
        screen.Move(y, 0);
      } else {
        screen.Move(y + 1, 0);
      }
    }

    /** do_vpa. */
    method DoVpa(n: int)
      requires Valid()
      modifies screen
      ensures Valid() && screen.Abs() == L.MoveTo(old(screen.Abs()), n, old(screen.Abs()).x)
    {
      var x := screen.xpos;
      screen.Move(n, x);
    }

    /** do_hpa. */
    method DoHpa(n: int)
      requires Valid()
      modifies screen
      ensures Valid() && screen.Abs() == L.MoveTo(old(screen.Abs()), old(screen.Abs()).y, n)
    {
      var y := screen.ypos;
      screen.Move(y, n);
    }

    /** The handler a dispatch table names, called: each screen command
        goes to its do_* handler or to the screen call it stands for. */
    method Perform(cmd: P.Command)
      requires Valid()
      modifies screen
      ensures Valid() && screen.Abs() == E.Exec(old(screen.Abs()), cmd)
    {
      if cmd.RelMove? || cmd.MoveTo? || cmd.Tab? || cmd.Index? || cmd.RowAbs? || cmd.ColAbs? {
        PerformMove(cmd);
      } else if cmd.InsertLines? || cmd.DeleteLines? || cmd.DeleteChars? || cmd.InsertChars? {
        PerformEdit(cmd);
      } else {
        PerformWrite(cmd);
      }
    }

    /** The commands that only move the cursor (or scroll, for do_ind). */
    method PerformMove(cmd: P.Command)
      requires Valid()
      requires cmd.RelMove? || cmd.MoveTo? || cmd.Tab? || cmd.Index? || cmd.RowAbs? || cmd.ColAbs?
      modifies screen
      ensures Valid() && screen.Abs() == E.Exec(old(screen.Abs()), cmd)
    {
      match cmd
      case RelMove(dy, dx) => screen.RelMove(dy, dx);
      case MoveTo(y, x) => screen.Move(y, x);
      case Tab => DoHt();
      case Index => DoInd();
      case RowAbs(y) => DoVpa(y);
      case ColAbs(x) => DoHpa(x);
    }

    /** The commands that insert or delete rows or cells. */
    method PerformEdit(cmd: P.Command)
      requires Valid()
      requires cmd.InsertLines? || cmd.DeleteLines? || cmd.DeleteChars? || cmd.InsertChars?
      modifies screen
      ensures Valid() && screen.Abs() == E.Exec(old(screen.Abs()), cmd)
    {
      match cmd
      case InsertLines(n) => DoIl(n);
      case DeleteLines(n) => DoDl(n);
      case DeleteChars(n) => DoDch(n);
      case InsertChars(n) => DoIch(n);
    }

    /** The commands that write, clear or change the attributes. */
    method PerformWrite(cmd: P.Command)
      requires Valid()
      requires !(cmd.RelMove? || cmd.MoveTo? || cmd.Tab? || cmd.Index? || cmd.RowAbs? || cmd.ColAbs?)
      requires !(cmd.InsertLines? || cmd.DeleteLines? || cmd.DeleteChars? || cmd.InsertChars?)
      modifies screen
      ensures Valid() && screen.Abs() == E.Exec(old(screen.Abs()), cmd)
    {
      match cmd
      case Bell =>
      case AddCh(c) => screen.AddCh(c);
      case ClearToBottom => screen.ClrToBot();
      case ClearToEol => screen.ClrToEol();
      case EraseChars(n) => AddChTimes(n, Space);
      case EraseToCursor => DoEl1();
      case AttrOn(a) => screen.AttrOn(a);
      case AttrSet(a) => screen.AttrSet(a);
      case Repeat(n, c) => AddChTimes(n, c);
    }

    // -------------------------------------------------------------------
    // The state machine

    /** feed_reset. */
    method FeedReset()
      modifies this
      ensures State() == P.Reset(old(State()))
    {
      if graphicsFont {
        mode := P.Graphics;
      } else {
        mode := P.Simple;
      }
    }

    /** Terminal.addch: remember the character, then write it. */
    method AddCh(c: int)
      requires Valid()
      modifies this, screen
      ensures Valid() && State() == old(State()).(lastchar := c)
      ensures screen.Abs() == L.AddChar(old(screen.Abs()), c)
    {
      lastchar := c;
      screen.AddCh(c);
    }

    /** feed_simple; ok is false where it raises ValueError. */
    method FeedSimple(ch: int) returns (ok: bool)
      requires Valid()
      modifies this, screen
      ensures Valid() && State() == P.FeedSimple(old(State()), ch).state
      ensures screen.Abs() == E.Run(old(screen.Abs()), P.FeedSimple(old(State()), ch).cmds)
      ensures ok == P.FeedSimple(old(State()), ch).ok
    {
      Single(screen.Abs(), P.FeedSimple(State(), ch).cmds);
      ok := true;
      if ch == 7 {
      } else if ch == 8 {
        Perform(P.RelMove(0, -1));
      } else if ch == 10 {
        Perform(P.Index);
      } else if ch == 13 {
        Perform(P.RelMove(0, -9999));
      } else if ch == 9 {
        Perform(P.Tab);
      } else if P.IsSimpleChar(ch) {
        AddCh(ch);
      } else if ch == P.Escape {
        mode := P.Esc;
      } else {
        ok := false;
      }
    }

    /** feed_graphics. */
    method FeedGraphics(ch: int) returns (ok: bool)
      requires Valid()
      modifies this, screen
      ensures Valid() && State() == P.FeedGraphics(tables, old(State()), ch).state
      ensures screen.Abs() == E.Run(old(screen.Abs()), P.FeedGraphics(tables, old(State()), ch).cmds)
      ensures ok == P.FeedGraphics(tables, old(State()), ch).ok
    {
      Single(screen.Abs(), P.FeedGraphics(tables, State(), ch).cmds);
      ok := true;
      if ch == P.Escape {
        mode := P.Esc;
      } else if ch in tables.graphicsChars {
        AddCh(tables.graphicsChars[ch]);
      } else if ch == 'q' as int {
        AddCh(tables.hline);
      } else {
        ok := false;
      }
    }

    /** feed_esc. */
    method FeedEsc(ch: int) returns (ok: bool)
      modifies this
      ensures State() == P.FeedEsc(old(State()), ch).state
      ensures P.FeedEsc(old(State()), ch).cmds == []
      ensures ok == P.FeedEsc(old(State()), ch).ok
    {
      if ch == '[' as int {
        mode := P.EscOpbr;
        ok := true;
      } else {
        ok := false;
      }
    }

    /** feed_esc_opbr. */
    method FeedEscOpbr(ch: int) returns (ok: bool)
      requires Valid()
      modifies this, screen
      ensures Valid() && State() == P.FeedEscOpbr(old(State()), ch).state
      ensures screen.Abs() == E.Run(old(screen.Abs()), P.FeedEscOpbr(old(State()), ch).cmds)
      ensures ok == P.FeedEscOpbr(old(State()), ch).ok
    {
      FeedReset();
      var f := P.PlainFinal(ch);
      if f.Some? {
        E.RunOne(screen.Abs(), f.value);
        Perform(f.value);
        ok := true;
      } else if ch == 'm' as int {
        ok := FeedEscOpbrNext(ch, ['0' as int]);
      } else if P.IsDigit(ch) {
        mode := P.EscOpbrNext([ch]);
        ok := true;
      } else {
        ok := false;
      }
    }

    /** feed_color. */
    method FeedColor(code: int) returns (ok: bool)
      requires Valid()
      modifies this, screen
      ensures Valid() && State() == P.FeedColor(old(State()), code).state
      ensures screen.Abs() == E.Run(old(screen.Abs()), P.FeedColor(old(State()), code).cmds)
      ensures ok == P.FeedColor(old(State()), code).ok
    {
      if code !in {0, 1, 4, 5, 7, 8, 10, 11} {
        ok := FeedColorPair(code);
        return;
      }
      Single(screen.Abs(), P.FeedColor(State(), code).cmds);
      ok := true;
      if code == 1 {
        Perform(P.AttrOn(A_Bold));
      } else if code == 4 {
        Perform(P.AttrOn(A_Underline));
      } else if code == 5 {
        Perform(P.AttrOn(A_Blink));
      } else if code == 8 {
        Perform(P.AttrOn(A_Invis));
      } else if code == 0 {
        fg, bg := 0, 0;
        Perform(P.AttrSet(0));
      } else if code == 7 {
        Perform(P.AttrOn(A_Reverse));
      } else if code == 10 {
        graphicsFont := false;
        FeedReset();
      } else {
        graphicsFont := true;
        FeedReset();
      }
    }

    /** The colour branches of feed_color, and its error. */
    method FeedColorPair(code: int) returns (ok: bool)
      requires Valid() && code !in {0, 1, 4, 5, 7, 8, 10, 11}
      modifies this, screen
      ensures Valid() && State() == P.FeedColor(old(State()), code).state
      ensures screen.Abs() == E.Run(old(screen.Abs()), P.FeedColor(old(State()), code).cmds)
      ensures ok == P.FeedColor(old(State()), code).ok
    {
      Single(screen.Abs(), P.FeedColor(State(), code).cmds);
      ok := true;
      if 30 <= code <= 37 {
        fg := code - 30;
      } else if code == 39 {
        fg := 7;
      } else if 40 <= code <= 47 {
        bg := code - 40;
      } else if code == 49 {
        bg := 0;
      } else {
        ok := false;
        return;
      }
      Perform(P.AttrOn(ColorPair(GetColor(fg, bg))));
    }

    /** The SGR loop of feed_esc_opbr_next: int() and feed_color on each
        parameter in turn, stopping at the first that raises. */
    method FeedSgr(parts: seq<seq<int>>) returns (ok: bool)
      requires Valid()
      modifies this, screen
      ensures Valid() && State() == P.Sgr(old(State()), parts).state
      ensures screen.Abs() == E.Run(old(screen.Abs()), P.Sgr(old(State()), parts).cmds)
      ensures ok == P.Sgr(old(State()), parts).ok
    {
      ghost var r := State();
      ghost var s0 := screen.Abs();
      var i := 0;
      ok := true;
      assert parts[..0] == [];
      while i < |parts| && ok
        invariant 0 <= i <= |parts| && Valid()
        invariant State() == P.Sgr(r, parts[..i]).state
        invariant screen.Abs() == E.Run(s0, P.Sgr(r, parts[..i]).cmds)
        invariant ok == P.Sgr(r, parts[..i]).ok
      {
        ghost var before := P.Sgr(r, parts[..i]);
        assert parts[..i + 1][..i] == parts[..i];
        assert P.Sgr(r, parts[..i + 1]) == P.SgrRound(before, parts[i]);
        var v := P.ParseInt(parts[i]);
        if v.None? {
          ok := false;
        } else {
          ghost var c := P.FeedColor(State(), v.value);
          ok := FeedColor(v.value);
          E.RunAppend(s0, before.cmds, c.cmds);
        }
        i := i + 1;
      }
      if i < |parts| {
        P.SgrStopsAtError(r, parts[..i], parts[i..]);
        assert parts[..i] + parts[i..] == parts;
      } else {
        assert parts[..i] == parts;
      }
    }

    /** feed_esc_opbr_next. */
    method FeedEscOpbrNext(ch: int, prev: seq<int>) returns (ok: bool)
      requires Valid()
      modifies this, screen
      ensures Valid() && State() == P.FeedEscOpbrNext(old(State()), ch, prev).state
      ensures screen.Abs() == E.Run(old(screen.Abs()), P.FeedEscOpbrNext(old(State()), ch, prev).cmds)
      ensures ok == P.FeedEscOpbrNext(old(State()), ch, prev).ok
    {
      FeedReset();
      ok := true;
      var f := P.CountedFinal(ch, 0);
      if f.Some? && P.IsDigits(prev) {
        var cmd := P.CountedFinal(ch, P.Decimal(prev)).value;
        E.RunOne(screen.Abs(), cmd);
        Perform(cmd);
      } else if P.IsDigit(ch) || ch == ';' as int {
        mode := P.EscOpbrNext(prev + [ch]);
      } else if ch == 'm' as int {
        ok := FeedSgr(P.Split(prev, ';' as int));
      } else if ch == 'H' as int {
        ok := FeedCup(prev);
      } else {
        ok := FeedFinal(ch, prev);
      }
    }

    /** The 'H' branch of feed_esc_opbr_next: exactly two parameters, each
        one-based. */
    method FeedCup(prev: seq<int>) returns (ok: bool)
      requires Valid()
      modifies screen
      ensures Valid()
      ensures screen.Abs() == E.Run(old(screen.Abs()), P.FinalWithParams(State(), 'H' as int, prev).cmds)
      ensures ok == P.FinalWithParams(State(), 'H' as int, prev).ok
    {
      Single(screen.Abs(), P.FinalWithParams(State(), 'H' as int, prev).cmds);
      var parts := P.Split(prev, ';' as int);
      if |parts| != 2 {
        ok := false;
      } else if P.IsDigits(parts[0]) && P.IsDigits(parts[1]) {
        Perform(P.MoveTo(P.Decimal(parts[0]) - 1, P.Decimal(parts[1]) - 1));
        ok := true;
      } else {
        ok := false;
      }
    }

    /** ESC [ 2 J: home, then clear to the bottom. */
    method ClearScreen()
      requires Valid()
      modifies screen
      ensures Valid() && screen.Abs() == E.Run(old(screen.Abs()), [P.MoveTo(0, 0), P.ClearToBottom])
    {
      ghost var s0 := screen.Abs();
      screen.Move(0, 0);
      ghost var s1 := screen.Abs();
      screen.ClrToBot();
      E.RunAppend(s0, [P.MoveTo(0, 0)], [P.ClearToBottom]);
      E.RunOne(s0, P.MoveTo(0, 0));
      E.RunOne(s1, P.ClearToBottom);
      assert [P.MoveTo(0, 0)] + [P.ClearToBottom] == [P.MoveTo(0, 0), P.ClearToBottom];
    }

    /** The remaining final bytes of feed_esc_opbr_next: 2J, vpa, repeat,
        hpa and 1K. */
    method FeedFinal(ch: int, prev: seq<int>) returns (ok: bool)
      requires Valid() && ch != 'H' as int
      modifies screen
      ensures Valid()
      ensures screen.Abs() == E.Run(old(screen.Abs()), P.FinalWithParams(State(), ch, prev).cmds)
      ensures ok == P.FinalWithParams(State(), ch, prev).ok
    {
      ok := true;
      if prev == ['2' as int] && ch == 'J' as int {
        ClearScreen();
        return;
      }
      Single(screen.Abs(), P.FinalWithParams(State(), ch, prev).cmds);
      if ch == 'd' as int && P.IsDigits(prev) {
        Perform(P.RowAbs(P.Decimal(prev) - 1));
      } else if ch == 'b' as int && P.IsDigits(prev) {
        Perform(P.Repeat(P.Decimal(prev), lastchar));
      } else if ch == 'G' as int && P.IsDigits(prev) {
        Perform(P.ColAbs(P.Decimal(prev) - 1));
      } else if ch == 'K' as int && prev == ['1' as int] {
        Perform(P.EraseToCursor);
      } else {
        ok := false;
      }
    }

    /** Terminal.feed: the byte goes to the method the mode names. */
    method Feed(ch: int) returns (ok: bool)
      requires Valid()
      modifies this, screen
      ensures Valid() && State() == P.Step(tables, old(State()), ch).state
      ensures screen.Abs() == E.Run(old(screen.Abs()), P.Step(tables, old(State()), ch).cmds)
      ensures ok == P.Step(tables, old(State()), ch).ok
    {
      match mode
      case Simple => ok := FeedSimple(ch);
      case Graphics => ok := FeedGraphics(ch);
      case Esc => ok := FeedEsc(ch);
      case EscOpbr => ok := FeedEscOpbr(ch);
      case EscOpbrNext(prev) => ok := FeedEscOpbrNext(ch, prev);
    }

    /** The byte loop of main: feed every byte, and feed_reset after a
        byte that raised ValueError. The interpreter ends in the state
        Parser.Interpret computes, the screen shows the commands it
        collects, and a well-formed state stays well formed. */
    method FeedAll(data: seq<int>)
      requires Valid()
      modifies this, screen
      ensures Valid() && State() == P.Interpret(tables, old(State()), data).0
      ensures screen.Abs() == E.Run(old(screen.Abs()), P.Interpret(tables, old(State()), data).1)
      ensures P.WellFormed(old(State())) ==> P.WellFormed(State())
    {
      ghost var p0 := State();
      ghost var s0 := screen.Abs();
      var i := 0;
      assert data[..0] == [];
      while i < |data|
        invariant 0 <= i <= |data| && Valid()
        invariant State() == P.Interpret(tables, p0, data[..i]).0
        invariant screen.Abs() == E.Run(s0, P.Interpret(tables, p0, data[..i]).1)
      {
        ghost var before := P.Interpret(tables, p0, data[..i]);
        ghost var o := P.DriveStep(tables, State(), data[i]);
        assert data[..i + 1][..i] == data[..i];
        var ok := Feed(data[i]);
        if !ok {
          FeedReset();
        }
        E.RunAppend(s0, before.1, o.cmds);
        i := i + 1;
      }
      assert data[..i] == data;
      if P.WellFormed(p0) {
        P.InterpretWellFormed(tables, p0, data);
      }
    }
  }

  /** What Run does on no command or on one. */
  lemma Single(s: L.Screen, cmds: seq<P.Command>)
    requires L.Wf(s) && |cmds| <= 1
    ensures |cmds| == 0 ==> E.Run(s, cmds) == s
    ensures |cmds| == 1 ==> E.Run(s, cmds) == E.Exec(s, cmds[0])
  {
    if |cmds| == 1 {
      E.RunOne(s, cmds[0]);
      assert cmds == [cmds[0]];
    }
  }
}
