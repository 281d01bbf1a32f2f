/** The escape-sequence interpreter of class Terminal (tcvt.py, feed_reset,
    feed_simple, feed_graphics, feed_esc, feed_esc_opbr, feed_color and
    feed_esc_opbr_next) as a pure state machine. One byte and the
    interpreter state give the next state, the screen commands the byte
    issues, in order, and whether the byte was accepted: ok is false where
    the source raises ValueError, and the state and commands are then those
    in effect when it raised. What the commands do to the screen is
    module Effects. */
module Parser {
  import opened Wrappers
  import opened Colors
  import opened Attributes

  /** Which feed_* method receives the next byte; EscOpbrNext carries the
      parameter bytes read so far (the prev argument). */
  datatype Mode = Simple | Graphics | Esc | EscOpbr | EscOpbrNext(prev: seq<int>)

  /** The interpreter's own state: the mode and the side state fg, bg,
      graphics_font and lastchar. */
  datatype PState = PState(mode: Mode, fg: int, bg: int, graphicsFont: bool, lastchar: int)

  /** Terminal.__init__: simple mode, colours 0, no graphics font, lastchar a space. */
  const Initial: PState := PState(Simple, 0, 0, false, 32)

  /** The foreign lookups the interpreter uses: the composed
      alternate-character mapping (graphics_chars after start) and the
      glyph curses.ACS_HLINE. */
  datatype Tables = Tables(graphicsChars: map<int, int>, hline: int)

  /** The screen calls the interpreter makes, one per do_* handler or
      direct call on the screen. */
  datatype Command =
    | Bell                      // do_bel
    | AddCh(c: int)             // screen.addch
    | RelMove(dy: int, dx: int) // do_cuu, do_cud, do_cuf, do_cub and their 1-variants, do_cr
    | MoveTo(y: int, x: int)    // screen.move, do_home
    | ClearToBottom             // do_ed
    | ClearToEol                // do_el
    | InsertLines(n: nat)       // do_il
    | DeleteLines(n: nat)       // do_dl
    | DeleteChars(n: nat)       // do_dch
    | EraseChars(n: nat)        // do_ech
    | InsertChars(n: nat)       // do_ich
    | EraseToCursor             // do_el1
    | Tab                       // do_ht
    | Index                     // do_ind
    | AttrOn(a: bv32)           // screen.attron
    | AttrSet(a: bv32)          // screen.attrset
    | RowAbs(y: int)            // do_vpa
    | ColAbs(x: int)            // do_hpa
    | Repeat(n: nat, c: int)    // ESC [ n b

  /** What a byte does: the state after it, the commands it issued, and
      whether it was accepted. */
  datatype Outcome = Outcome(state: PState, cmds: seq<Command>, ok: bool)

  function Accept(p: PState, cmds: seq<Command>): Outcome
  {
    Outcome(p, cmds, true)
  }

  function Reject(p: PState): Outcome
  {
    Outcome(p, [], false)
  }

  const Escape: int := 0x1b

  // ---------------------------------------------------------------------
  // Bytes

  /** simple_characters: letters, digits, the printable punctuation
      @:~$ .#!/_(),[]=-+*'"|<>%&\?;`^{} and eleven Latin-1 letters and signs.
      None of them is a control byte or DEL. */
  predicate IsSimpleChar(b: int): (r: bool)
    ensures r ==> 32 <= b <= 0xfc && b != 127
  {
    || 'a' as int <= b <= 'z' as int
    || 'A' as int <= b <= 'Z' as int
    || '0' as int <= b <= '9' as int
    || b in {64, 58, 126, 36, 32, 46, 35, 33, 47, 95, 40, 41, 44, 91, 93, 61, 45,
             43, 42, 39, 34, 124, 60, 62, 37, 38, 92, 63, 59, 96, 94, 123, 125}
    || b in {0xb4, 0xb6, 0xb7, 0xc3, 0xc4, 0xd6, 0xdc, 0xe4, 0xe9, 0xfc, 0xf6}
  }

  predicate IsDigit(b: int)
  {
    '0' as int <= b <= '9' as int
  }

  /** bytes.isdigit: non-empty and only digits. */
  predicate IsDigits(s: seq<int>)
  {
    |s| > 0 && forall i :: 0 <= i < |s| ==> IsDigit(s[i])
  }

  /** The value of a string of decimal digits. */
  function Decimal(s: seq<int>): nat
    requires forall i :: 0 <= i < |s| ==> IsDigit(s[i])
  {
    if s == [] then 0
    else
      assert IsDigit(s[|s| - 1]);
      Decimal(s[..|s| - 1]) * 10 + (s[|s| - 1] - '0' as int)
  }

  /** int() on one parameter: defined on digit strings and an error on the
      empty string. (The buffer holds only digits and ';', see WellFormed,
      so the other forms Python's int accepts never reach it.) */
  function ParseInt(s: seq<int>): Option<nat>
  {
    if IsDigits(s) then Some(Decimal(s)) else None
  }

  /** bytes.split(d): the pieces between the occurrences of d, with an
      empty piece before a leading, after a trailing and between two
      adjacent occurrences. */
  function Split(s: seq<int>, d: int): (parts: seq<seq<int>>)
    ensures |parts| >= 1
  {
    if s == [] then [[]]
    else
      var rest := Split(s[1..], d);
      if s[0] == d then [[]] + rest else [[s[0]] + rest[0]] + rest[1..]
  }

  /** bytes.join. */
  function Join(parts: seq<seq<int>>, d: int): seq<int>
    requires |parts| >= 1
  {
    if |parts| == 1 then parts[0] else parts[0] + [d] + Join(parts[1..], d)
  }

  /** Splitting loses nothing: joining the pieces gives the string back. */
  lemma {:induction false} JoinSplit(s: seq<int>, d: int)
    ensures Join(Split(s, d), d) == s
  {
    if s != [] {
      var rest := Split(s[1..], d);
      JoinSplit(s[1..], d);
      if s[0] == d {
        assert Split(s, d)[1..] == rest;
      } else {
        var parts := [[s[0]] + rest[0]] + rest[1..];
        if |rest| == 1 {
          assert s == [s[0]] + s[1..];
        } else {
          assert parts[1..] == rest[1..];
          assert Join(rest, d) == rest[0] + [d] + Join(rest[1..], d);
          assert s == [s[0]] + s[1..];
        }
      }
    }
  }

  /** The pieces never contain the separator. */
  lemma {:induction false} SplitPiecesFree(s: seq<int>, d: int)
    ensures forall k, i :: 0 <= k < |Split(s, d)| && 0 <= i < |Split(s, d)[k]| ==> Split(s, d)[k][i] != d
  {
    if s != [] {
      SplitPiecesFree(s[1..], d);
      var rest := Split(s[1..], d);
      if s[0] != d {
        var parts := Split(s, d);
        forall k, i | 0 <= k < |parts| && 0 <= i < |parts[k]| ensures parts[k][i] != d {
          if k == 0 {
            if i > 0 { assert parts[0][i] == rest[0][i - 1]; }
          } else {
            assert parts[k] == rest[k];
          }
        }
      }
    }
  }

  /** Joining separator-free pieces and splitting gives the pieces back. */
  lemma {:induction false} SplitJoin(parts: seq<seq<int>>, d: int)
    requires |parts| >= 1
    requires forall k, i :: 0 <= k < |parts| && 0 <= i < |parts[k]| ==> parts[k][i] != d
    ensures Split(Join(parts, d), d) == parts
  {
    if |parts| == 1 {
      SplitFree(parts[0], d);
    } else {
      SplitJoin(parts[1..], d);
      SplitPrefix(parts[0], Join(parts[1..], d), d);
    }
  }

  /** A separator-free string is one piece. */
  lemma {:induction false} SplitFree(s: seq<int>, d: int)
    requires forall i :: 0 <= i < |s| ==> s[i] != d
    ensures Split(s, d) == [s]
  {
    if s != [] {
      SplitFree(s[1..], d);
      assert s == [s[0]] + s[1..];
    }
  }

  /** A separator-free prefix a before a separator becomes the first piece. */
  lemma {:induction false} SplitPrefix(a: seq<int>, b: seq<int>, d: int)
    requires forall i :: 0 <= i < |a| ==> a[i] != d
    ensures Split(a + [d] + b, d) == [a] + Split(b, d)
  {
    if a == [] {
      assert ([] + [d] + b)[1..] == b;
    } else {
      SplitPrefix(a[1..], b, d);
      assert (a + [d] + b)[1..] == a[1..] + [d] + b;
      assert a == [a[0]] + a[1..];
    }
  }

  // ---------------------------------------------------------------------
  // The state machine

  /** The text mode the current font selects. */
  function TextMode(graphicsFont: bool): Mode
  {
    if graphicsFont then Graphics else Simple
  }

  /** feed_reset. */
  function Reset(p: PState): PState
  {
    p.(mode := TextMode(p.graphicsFont))
  }

  /** feed_simple: a control byte, a printable byte, ESC, or the error.
      Only a written character changes lastchar, to that character; the
      colours and the font stay. */
  function FeedSimple(p: PState, ch: int): (o: Outcome)
    ensures !o.ok ==> o == Reject(p)
    ensures o.state.fg == p.fg && o.state.bg == p.bg && o.state.graphicsFont == p.graphicsFont
    ensures o.state.lastchar == p.lastchar || o.cmds == [AddCh(o.state.lastchar)]
    ensures |o.cmds| <= 1
  {
    if ch == 7 then Accept(p, [Bell])
    else if ch == 8 then Accept(p, [RelMove(0, -1)])
    else if ch == 10 then Accept(p, [Index])
    else if ch == 13 then Accept(p, [RelMove(0, -9999)])
    else if ch == 9 then Accept(p, [Tab])
    else if IsSimpleChar(ch) then Accept(p.(lastchar := ch), [AddCh(ch)])
    else if ch == Escape then Accept(p.(mode := Esc), [])
    else Reject(p)
  }

  /** feed_graphics: ESC, a mapped line-drawing byte, or the error. Only a
      written character changes lastchar, to that character; the colours
      and the font stay. */
  function FeedGraphics(t: Tables, p: PState, ch: int): (o: Outcome)
    ensures !o.ok ==> o == Reject(p)
    ensures o.state.fg == p.fg && o.state.bg == p.bg && o.state.graphicsFont == p.graphicsFont
    ensures o.state.lastchar == p.lastchar || o.cmds == [AddCh(o.state.lastchar)]
    ensures |o.cmds| <= 1
  {
    if ch == Escape then Accept(p.(mode := Esc), [])
    else if ch in t.graphicsChars then
      Accept(p.(lastchar := t.graphicsChars[ch]), [AddCh(t.graphicsChars[ch])])
    else if ch == 'q' as int then Accept(p.(lastchar := t.hline), [AddCh(t.hline)])
    else Reject(p)
  }

  /** feed_esc: only '[' continues the sequence; it issues nothing. */
  function FeedEsc(p: PState, ch: int): (o: Outcome)
    ensures o.cmds == []
    ensures o.ok <==> ch == '[' as int
    ensures o.ok ==> o.state == p.(mode := EscOpbr)
    ensures !o.ok ==> o == Reject(p)
  {
    if ch == '[' as int then Accept(p.(mode := EscOpbr), []) else Reject(p)
  }

  /** The final bytes feed_esc_opbr dispatches without parameters. */
  function PlainFinal(ch: int): Option<Command>
  {
    if ch == 'A' as int then Some(RelMove(-1, 0))
    else if ch == 'B' as int then Some(RelMove(1, 0))
    else if ch == 'C' as int then Some(RelMove(0, 1))
    else if ch == 'D' as int then Some(RelMove(0, -1))
    else if ch == 'H' as int then Some(MoveTo(0, 0))
    else if ch == 'J' as int then Some(ClearToBottom)
    else if ch == 'L' as int then Some(InsertLines(1))
    else if ch == 'M' as int then Some(DeleteLines(1))
    else if ch == 'K' as int then Some(ClearToEol)
    else if ch == 'P' as int then Some(DeleteChars(1))
    else None
  }

  /** The final bytes feed_esc_opbr_next dispatches with one count n. */
  function CountedFinal(ch: int, n: nat): Option<Command>
  {
    if ch == 'A' as int then Some(RelMove(-(n as int), 0))
    else if ch == 'B' as int then Some(RelMove(n, 0))
    else if ch == 'C' as int then Some(RelMove(0, n))
    else if ch == 'D' as int then Some(RelMove(0, -(n as int)))
    else if ch == 'L' as int then Some(InsertLines(n))
    else if ch == 'M' as int then Some(DeleteLines(n))
    else if ch == 'P' as int then Some(DeleteChars(n))
    else if ch == 'X' as int then Some(EraseChars(n))
    else if ch == '@' as int then Some(InsertChars(n))
    else None
  }

  /** feed_esc_opbr: reset first, then a final byte, SGR 0 for 'm', or
      the first parameter digit. */
  function FeedEscOpbr(p: PState, ch: int): (o: Outcome)
    ensures o.state.lastchar == p.lastchar
    ensures !o.ok ==> o == Reject(Reset(p))
  {
    var r := Reset(p);
    match PlainFinal(ch)
    case Some(c) => Accept(r, [c])
    case None =>
      if ch == 'm' as int then
        SgrZero(Reset(r));
        FeedEscOpbrNext(r, ch, ['0' as int])
      else if IsDigit(ch) then Accept(r.(mode := EscOpbrNext([ch])), [])
      else Reject(r)
  }

  /** The colour pair attribute for the current colours. */
  function ColorAttr(p: PState): bv32
  {
    ColorPair(GetColor(p.fg, p.bg))
  }

  /** feed_color: one SGR code. The codes it knows are exactly 0, 1, 4,
      5, 7, 8, 10, 11, 30-37, 39, 40-47 and 49; each issues at most one
      command and none touches lastchar. */
  function FeedColor(p: PState, code: int): (o: Outcome)
    ensures o.ok <==> code in {0, 1, 4, 5, 7, 8, 10, 11, 39, 49} || 30 <= code <= 37 || 40 <= code <= 47
    ensures !o.ok ==> o == Reject(p)
    ensures o.state.lastchar == p.lastchar
    ensures |o.cmds| <= 1
  {
    if code == 1 then Accept(p, [AttrOn(A_Bold)])
    else if code == 4 then Accept(p, [AttrOn(A_Underline)])
    else if code == 5 then Accept(p, [AttrOn(A_Blink)])
    else if code == 8 then Accept(p, [AttrOn(A_Invis)])
    else if code == 0 then Accept(p.(fg := 0, bg := 0), [AttrSet(0)])
    else if code == 7 then Accept(p, [AttrOn(A_Reverse)])
    else if code == 10 then Accept(Reset(p.(graphicsFont := false)), [])
    else if code == 11 then Accept(Reset(p.(graphicsFont := true)), [])
    else if 30 <= code <= 37 then
      var q := p.(fg := code - 30); Accept(q, [AttrOn(ColorAttr(q))])
    else if code == 39 then
      var q := p.(fg := 7); Accept(q, [AttrOn(ColorAttr(q))])
    else if 40 <= code <= 47 then
      var q := p.(bg := code - 40); Accept(q, [AttrOn(ColorAttr(q))])
    else if code == 49 then
      var q := p.(bg := 0); Accept(q, [AttrOn(ColorAttr(q))])
    else Reject(p)
  }

  /** The loop over the SGR parameters: int() then feed_color for each,
      left to right, stopping at the first that raises; what the earlier
      ones did stays done. */
  function Sgr(p: PState, parts: seq<seq<int>>): (o: Outcome)
    ensures o.state.lastchar == p.lastchar
    ensures |o.cmds| <= |parts|
    decreases |parts|
  {
    if parts == [] then Accept(p, [])
    else SgrRound(Sgr(p, parts[..|parts| - 1]), parts[|parts| - 1])
  }

  /** One round of the SGR loop after the rounds that gave o. */
  function SgrRound(o: Outcome, part: seq<int>): (q: Outcome)
    ensures q.state.lastchar == o.state.lastchar
    ensures |o.cmds| <= |q.cmds| <= |o.cmds| + 1
  {
    if !o.ok then o
    else match ParseInt(part)
      case None => Outcome(o.state, o.cmds, false)
      case Some(code) =>
        var c := FeedColor(o.state, code);
        Outcome(c.state, o.cmds + c.cmds, c.ok)
  }

  /** feed_esc_opbr_next: reset first; a counted final byte with a
      numeric parameter; a parameter byte; SGR; cursor position; 2J; vpa,
      repeat, hpa; 1K. */
  function FeedEscOpbrNext(p: PState, ch: int, prev: seq<int>): (o: Outcome)
    ensures o.state.lastchar == p.lastchar
    ensures !o.ok ==> o.state.mode == TextMode(p.graphicsFont) || ch == 'm' as int
  {
    var r := Reset(p);
    if CountedFinal(ch, 0).Some? && IsDigits(prev) then
      Accept(r, [CountedFinal(ch, Decimal(prev)).value])
    else if IsDigit(ch) || ch == ';' as int then Accept(r.(mode := EscOpbrNext(prev + [ch])), [])
    else if ch == 'm' as int then Sgr(r, Split(prev, ';' as int))
    else FinalWithParams(r, ch, prev)
  }

  /** The final bytes of feed_esc_opbr_next after SGR, from the reset
      state r: cursor position, 2J, vpa, repeat, hpa, 1K, or the error. */
  function FinalWithParams(r: PState, ch: int, prev: seq<int>): (o: Outcome)
    ensures o.state == r
    ensures |o.cmds| <= 2
    ensures o.ok ==> ch in {'H' as int, 'J' as int, 'd' as int, 'b' as int, 'G' as int, 'K' as int}
  {
    if ch == 'H' as int then
      var parts := Split(prev, ';' as int);
      if |parts| != 2 then Reject(r)
      else if IsDigits(parts[0]) && IsDigits(parts[1]) then
        Accept(r, [MoveTo(Decimal(parts[0]) - 1, Decimal(parts[1]) - 1)])
      else Reject(r)
    else if prev == ['2' as int] && ch == 'J' as int then Accept(r, [MoveTo(0, 0), ClearToBottom])
    else if ch == 'd' as int && IsDigits(prev) then Accept(r, [RowAbs(Decimal(prev) - 1)])
    else if ch == 'b' as int && IsDigits(prev) then Accept(r, [Repeat(Decimal(prev), r.lastchar)])
    else if ch == 'G' as int && IsDigits(prev) then Accept(r, [ColAbs(Decimal(prev) - 1)])
    else if ch == 'K' as int && prev == ['1' as int] then Accept(r, [EraseToCursor])
    else Reject(r)
  }

  /** Terminal.feed: the byte goes to the method the mode names. */
  function Step(t: Tables, p: PState, ch: int): (o: Outcome)
    ensures o.state.lastchar == p.lastchar || o.cmds == [AddCh(o.state.lastchar)]
  {
    match p.mode
    case Simple => FeedSimple(p, ch)
    case Graphics => FeedGraphics(t, p, ch)
    case Esc => FeedEsc(p, ch)
    case EscOpbr => FeedEscOpbr(p, ch)
    case EscOpbrNext(prev) => FeedEscOpbrNext(p, ch, prev)
  }

  /** One byte in the driver loop of main: feed, and feed_reset when it
      raised ValueError. */
  function DriveStep(t: Tables, p: PState, ch: int): Outcome
  {
    var o := Step(t, p, ch);
    if o.ok then o else Outcome(Reset(o.state), o.cmds, false)
  }

  /** The driver loop over a run of bytes: the final state and every
      command issued, in order. */
  function Interpret(t: Tables, p: PState, data: seq<int>): (PState, seq<Command>)
    decreases |data|
  {
    if data == [] then (p, [])
    else
      var (q, cmds) := Interpret(t, p, data[..|data| - 1]);
      var o := DriveStep(t, q, data[|data| - 1]);
      (o.state, cmds + o.cmds)
  }

  // ---------------------------------------------------------------------
  // Properties

  /** The states the interpreter can be in: the text mode agrees with the
      font, the parameter buffer starts with a digit and holds only digits
      and ';', and the colours are ANSI colour numbers. */
  predicate WellFormed(p: PState)
  {
    && (p.mode.Simple? ==> !p.graphicsFont)
    && (p.mode.Graphics? ==> p.graphicsFont)
    && (p.mode.EscOpbrNext? ==> ParamBuffer(p.mode.prev))
    && 0 <= p.fg < 8 && 0 <= p.bg < 8
  }

  predicate ParamBuffer(prev: seq<int>)
  {
    |prev| > 0 && IsDigit(prev[0]) && forall i :: 0 <= i < |prev| ==> IsDigit(prev[i]) || prev[i] == ';' as int
  }

  lemma InitialWellFormed()
    ensures WellFormed(Initial)
  {
  }

  lemma FeedColorPreserves(p: PState, code: int)
    requires WellFormed(p) && p.mode == TextMode(p.graphicsFont)
    ensures WellFormed(FeedColor(p, code).state)
    ensures FeedColor(p, code).state.mode == TextMode(FeedColor(p, code).state.graphicsFont)
    ensures FeedColor(p, code).state.lastchar == p.lastchar
  {
  }

  /** The SGR loop keeps the state well formed and in the text mode of
      its (possibly changed) font, and never touches lastchar. */
  lemma {:induction false} SgrPreserves(p: PState, parts: seq<seq<int>>)
    requires WellFormed(p) && p.mode == TextMode(p.graphicsFont)
    ensures WellFormed(Sgr(p, parts).state)
    ensures Sgr(p, parts).state.mode == TextMode(Sgr(p, parts).state.graphicsFont)
    ensures Sgr(p, parts).state.lastchar == p.lastchar
    decreases |parts|
  {
    if parts != [] {
      SgrPreserves(p, parts[..|parts| - 1]);
      var o := Sgr(p, parts[..|parts| - 1]);
      if o.ok {
        match ParseInt(parts[|parts| - 1])
        case None =>
        case Some(code) => FeedColorPreserves(o.state, code);
      }
    }
  }

  /** Every byte keeps the interpreter state well formed, whether it is
      accepted or not, and so does the driver's reset after a rejected byte. */
  lemma StepPreservesWellFormed(t: Tables, p: PState, ch: int)
    requires WellFormed(p)
    ensures WellFormed(Step(t, p, ch).state)
    ensures WellFormed(DriveStep(t, p, ch).state)
  {
    match p.mode
    case Simple =>
    case Graphics =>
    case Esc =>
    case EscOpbr => EscOpbrPreserves(p, ch);
    case EscOpbrNext(prev) => EscOpbrNextPreserves(p, ch, prev);
  }

  lemma EscOpbrPreserves(p: PState, ch: int)
    requires WellFormed(p)
    ensures WellFormed(FeedEscOpbr(p, ch).state)
  {
    if PlainFinal(ch).None? && ch == 'm' as int {
      SgrPreserves(Reset(p), Split(['0' as int], ';' as int));
    }
  }

  lemma EscOpbrNextPreserves(p: PState, ch: int, prev: seq<int>)
    requires WellFormed(p) && p.mode == EscOpbrNext(prev)
    ensures WellFormed(FeedEscOpbrNext(p, ch, prev).state)
  {
    var r := Reset(p);
    if !(CountedFinal(ch, 0).Some? && IsDigits(prev)) && !(IsDigit(ch) || ch == ';' as int) {
      if ch == 'm' as int {
        SgrPreserves(r, Split(prev, ';' as int));
      }
    }
  }

  /** The interpreter state after any run of bytes from a well-formed
      state is well formed. */
  lemma {:induction false} InterpretWellFormed(t: Tables, p: PState, data: seq<int>)
    requires WellFormed(p)
    ensures WellFormed(Interpret(t, p, data).0)
    decreases |data|
  {
    if data != [] {
      InterpretWellFormed(t, p, data[..|data| - 1]);
      StepPreservesWellFormed(t, Interpret(t, p, data[..|data| - 1]).0, data[|data| - 1]);
    }
  }

  /** ESC enters the escape state from either text mode, and '[' then
      enters the control sequence state; in the escape state every other
      byte is rejected and changes nothing. */
  lemma EscapeSequenceStart(t: Tables, p: PState, ch: int)
    ensures (p.mode.Simple? || p.mode.Graphics?) ==> Step(t, p, Escape) == Accept(p.(mode := Esc), [])
    ensures p.mode.Esc? ==> Step(t, p, '[' as int) == Accept(p.(mode := EscOpbr), [])
    ensures p.mode.Esc? && ch != '[' as int ==> Step(t, p, ch) == Reject(p)
  {
  }

  /** In the parameter state a digit or ';' is appended to the buffer and
      nothing else happens; from the bare control sequence state a digit
      starts the buffer. */
  lemma ParameterBytesAccumulate(t: Tables, p: PState, ch: int)
    requires IsDigit(ch) || ch == ';' as int
    ensures p.mode.EscOpbrNext? ==>
              Step(t, p, ch) == Accept(p.(mode := EscOpbrNext(p.mode.prev + [ch])), [])
    ensures p.mode.EscOpbr? && IsDigit(ch) ==> Step(t, p, ch) == Accept(p.(mode := EscOpbrNext([ch])), [])
  {
  }

  /** A final byte (anything but a parameter byte) ends the control
      sequence: the interpreter is back in the text mode of its font, and
      only SGR ('m') can have changed the font. */
  lemma FinalByteResets(t: Tables, p: PState, ch: int)
    requires WellFormed(p)
    requires (p.mode.EscOpbr? && !IsDigit(ch)) || (p.mode.EscOpbrNext? && !IsDigit(ch) && ch != ';' as int)
    ensures Step(t, p, ch).state.mode == TextMode(Step(t, p, ch).state.graphicsFont)
    ensures ch != 'm' as int ==> Step(t, p, ch).state.graphicsFont == p.graphicsFont
  {
    var r := Reset(p);
    if ch == 'm' as int {
      if p.mode.EscOpbr? {
        SgrPreserves(r, Split(['0' as int], ';' as int));
      } else {
        SgrPreserves(r, Split(p.mode.prev, ';' as int));
      }
    }
  }

  /** Whatever the state and the byte, after the driver's step the
      interpreter is in the text mode of its font or in one of the escape
      states, and a rejected byte always leads back to the text mode. */
  lemma RejectedByteRecovers(t: Tables, p: PState, ch: int)
    ensures !DriveStep(t, p, ch).ok ==>
              DriveStep(t, p, ch).state.mode == TextMode(DriveStep(t, p, ch).state.graphicsFont)
  {
  }

  /** The bytes simple mode rejects: everything but BEL, BS, HT, LF, CR,
      ESC and simple_characters. A rejected byte changes nothing. */
  lemma SimpleModeRejects(t: Tables, p: PState, ch: int)
    requires p.mode.Simple?
    ensures !Step(t, p, ch).ok <==> !(ch in {7, 8, 9, 10, 13, Escape} || IsSimpleChar(ch))
    ensures !Step(t, p, ch).ok ==> Step(t, p, ch) == Reject(p)
  {
  }

  /** In simple mode a simple character is written and remembered as lastchar. */
  lemma SimpleCharIsWritten(t: Tables, p: PState, ch: int)
    requires p.mode.Simple? && IsSimpleChar(ch)
    ensures Step(t, p, ch) == Accept(p.(lastchar := ch), [AddCh(ch)])
  {
  }

  /** The bytes graphics mode rejects: all but ESC, the keys of the
      alternate-character mapping and 'q'. Accepted bytes other than ESC
      write their glyph and remember it as lastchar. */
  lemma GraphicsModeRejects(t: Tables, p: PState, ch: int)
    requires p.mode.Graphics?
    ensures !Step(t, p, ch).ok <==> ch != Escape && ch !in t.graphicsChars && ch != 'q' as int
    ensures ch != Escape && ch in t.graphicsChars ==>
              Step(t, p, ch) == Accept(p.(lastchar := t.graphicsChars[ch]), [AddCh(t.graphicsChars[ch])])
    ensures ch != Escape && ch !in t.graphicsChars && ch == 'q' as int ==>
              Step(t, p, ch) == Accept(p.(lastchar := t.hline), [AddCh(t.hline)])
  {
  }

  /** The bytes the bare control sequence state rejects: all but its ten
      final bytes, 'm' and the digits. */
  lemma ControlSequenceRejects(t: Tables, p: PState, ch: int)
    requires p.mode.EscOpbr?
    ensures !Step(t, p, ch).ok <==> PlainFinal(ch).None? && ch != 'm' as int && !IsDigit(ch)
    ensures PlainFinal(ch).Some? ==> Step(t, p, ch) == Accept(Reset(p), [PlainFinal(ch).value])
  {
    if PlainFinal(ch).None? && ch == 'm' as int {
      SgrZero(Reset(p));
    }
  }

  /** The SGR loop on the single parameter "0". */
  lemma SgrZero(p: PState)
    ensures Sgr(p, Split(['0' as int], ';' as int)) == Accept(p.(fg := 0, bg := 0), [AttrSet(0)])
  {
    var z := ['0' as int];
    assert z[1..] == [];
    assert Split(z[1..], ';' as int) == [[]];
    assert [z[0]] + [] == z;
    var parts := Split(z, ';' as int);
    assert parts == [z];
    assert parts[..0] == [];
    assert Decimal(z[..0]) == 0;
    assert Decimal(z) == 0;
    assert ParseInt(z) == Some(0);
  }

  /** ESC [ m is SGR 0: colours back to 0 and attributes cleared. */
  lemma BareSgrResets(t: Tables, p: PState)
    requires p.mode.EscOpbr?
    ensures Step(t, p, 'm' as int) == Accept(Reset(p).(fg := 0, bg := 0), [AttrSet(0)])
  {
    SgrZero(Reset(p));
  }

  /** SGR 0 resets the foreground to ANSI colour 0, black, where SGR 39
      resets it to 7, white: after SGR 0 a black background (SGR 40)
      selects pair 8, black on black, while after SGR 39 it selects pair 0,
      the default pair. */
  lemma SgrZeroForegroundIsBlack(p: PState)
    ensures var q := FeedColor(FeedColor(p, 0).state, 40).state;
      q.fg == 0 && q.bg == 0 && AnsiOrder[q.fg] == Black && GetColor(q.fg, q.bg) == 8
    ensures var q := FeedColor(FeedColor(p, 39).state, 40).state;
      q.fg == 7 && q.bg == 0 && AnsiOrder[q.fg] == White && GetColor(q.fg, q.bg) == 0
  {
  }

  /** A failed parameter stops the SGR loop for good: whatever follows it
      is not looked at. */
  lemma {:induction false} SgrStopsAtError(p: PState, a: seq<seq<int>>, b: seq<seq<int>>)
    requires !Sgr(p, a).ok
    ensures Sgr(p, a + b) == Sgr(p, a)
    decreases |b|
  {
    if b != [] {
      SgrStopsAtError(p, a, b[..|b| - 1]);
      assert (a + b)[..|a + b| - 1] == a + b[..|b| - 1];
      var o := Sgr(p, a + b[..|b| - 1]);
      assert !o.ok;
      assert Sgr(p, a + b) == o;
    } else {
      assert a + b == a;
    }
  }

  /** SGR with parameters a ; c runs the codes of a and then those of c,
      and the commands are issued in that order. */
  lemma {:induction false} SgrAppend(p: PState, a: seq<seq<int>>, b: seq<seq<int>>)
    requires Sgr(p, a).ok
    ensures Sgr(p, a + b).state == Sgr(Sgr(p, a).state, b).state
    ensures Sgr(p, a + b).cmds == Sgr(p, a).cmds + Sgr(Sgr(p, a).state, b).cmds
    ensures Sgr(p, a + b).ok == Sgr(Sgr(p, a).state, b).ok
    decreases |b|
  {
    if b == [] {
      assert a + b == a;
    } else {
      var init, last := b[..|b| - 1], b[|b| - 1];
      SgrAppend(p, a, init);
      assert (a + b)[..|a + b| - 1] == a + init;
      assert (a + b)[|a + b| - 1] == last;
      SgrRoundPrefix(Sgr(p, a + init), Sgr(Sgr(p, a).state, init), Sgr(p, a).cmds, last);
    }
  }

  /** A round depends on the earlier rounds only through their state and
      verdict; their commands stay in front. */
  lemma SgrRoundPrefix(o1: Outcome, o2: Outcome, pre: seq<Command>, part: seq<int>)
    requires o1.state == o2.state && o1.ok == o2.ok && o1.cmds == pre + o2.cmds
    ensures SgrRound(o1, part).state == SgrRound(o2, part).state
    ensures SgrRound(o1, part).ok == SgrRound(o2, part).ok
    ensures SgrRound(o1, part).cmds == pre + SgrRound(o2, part).cmds
  {
    if o1.ok {
      match ParseInt(part)
      case None =>
      case Some(code) =>
        var c := FeedColor(o1.state, code);
        assert o1.cmds + c.cmds == pre + (o2.cmds + c.cmds);
    }
  }

  /** CUP: ESC [ y ; x H with two decimal parameters moves to (y - 1, x - 1),
      the one-based position of ECMA-48 section 8.3.21. */
  lemma CursorPosition(t: Tables, p: PState, y: seq<int>, x: seq<int>)
    requires IsDigits(y) && IsDigits(x)
    requires p.mode == EscOpbrNext(y + [';' as int] + x)
    ensures Step(t, p, 'H' as int) == Accept(Reset(p), [MoveTo(Decimal(y) - 1, Decimal(x) - 1)])
  {
    var prev := y + [';' as int] + x;
    assert !IsDigits(prev) by { assert !IsDigit(prev[|y|]); }
    StepFinal(t, p, 'H' as int, prev);
    SplitFree(x, ';' as int);
    SplitPrefix(y, x, ';' as int);
    FinalCup(Reset(p), prev, y, x);
  }

  /** The H branch of FinalWithParams on two decimal pieces. */
  lemma FinalCup(r: PState, prev: seq<int>, y: seq<int>, x: seq<int>)
    requires Split(prev, ';' as int) == [y, x] && IsDigits(y) && IsDigits(x)
    ensures FinalWithParams(r, 'H' as int, prev) == Accept(r, [MoveTo(Decimal(y) - 1, Decimal(x) - 1)])
  { }

  /** A final byte other than a counted one, a parameter byte or m goes to
      FinalWithParams. */
  lemma StepFinal(t: Tables, p: PState, ch: int, prev: seq<int>)
    requires p.mode == EscOpbrNext(prev) && CountedFinal(ch, 0).None?
    requires !IsDigit(ch) && ch != ';' as int && ch != 'm' as int
    ensures Step(t, p, ch) == FinalWithParams(Reset(p), ch, prev)
  { }

  /** The counted final bytes: after a decimal parameter n each of
      A, B, C, D, L, M, P, X and @ resets and issues its one command with
      count n; with a parameter that is not a plain number (one holding a
      ';') none of them is a counted command. */
  lemma CountedSequence(t: Tables, p: PState, ch: int)
    requires p.mode.EscOpbrNext?
    requires ch in {'A' as int, 'B' as int, 'C' as int, 'D' as int, 'L' as int, 'M' as int, 'P' as int, 'X' as int, '@' as int}
    ensures CountedFinal(ch, 0).Some?
    ensures IsDigits(p.mode.prev) ==>
              Step(t, p, ch) == Accept(Reset(p), [CountedFinal(ch, Decimal(p.mode.prev)).value])
    ensures !IsDigits(p.mode.prev) ==> Step(t, p, ch) == FinalWithParams(Reset(p), ch, p.mode.prev)
  { }

  /** CUP with other than two parameters is rejected. */
  lemma CursorPositionArity(t: Tables, p: PState)
    requires p.mode.EscOpbrNext? && |Split(p.mode.prev, ';' as int)| != 2
    ensures Step(t, p, 'H' as int) == Reject(Reset(p))
  {
  }

  /** The commands that write the characters of text, in order. */
  function Writes(text: seq<int>): (cmds: seq<Command>)
    ensures |cmds| == |text|
    ensures forall i :: 0 <= i < |text| ==> cmds[i] == AddCh(text[i])
  {
    seq(|text|, i requires 0 <= i < |text| => AddCh(text[i]))
  }

  /** A run of simple characters in simple mode writes each of them in
      order, and lastchar is the last of them. */
  lemma {:induction false} PlainText(t: Tables, p: PState, text: seq<int>)
    requires p.mode.Simple? && |text| > 0
    requires forall i :: 0 <= i < |text| ==> IsSimpleChar(text[i])
    ensures Interpret(t, p, text).0 == p.(lastchar := text[|text| - 1])
    ensures Interpret(t, p, text).1 == Writes(text)
    decreases |text|
  {
    var init, last := text[..|text| - 1], text[|text| - 1];
    var before := Interpret(t, p, init);
    if |init| > 0 {
      PlainText(t, p, init);
    } else {
      assert before == (p, []);
    }
    assert before.0 == p.(lastchar := before.0.lastchar);
    PlainTextStep(t, before.0, last);
    InterpretLast(t, p, text);
    WritesAppend(init, last);
    assert init + [last] == text;
  }

  /** One simple character through the driver loop's step. */
  lemma PlainTextStep(t: Tables, q: PState, ch: int)
    requires q.mode.Simple? && IsSimpleChar(ch)
    ensures DriveStep(t, q, ch) == Accept(q.(lastchar := ch), [AddCh(ch)])
  {
    SimpleCharIsWritten(t, q, ch);
  }

  /** The driver loop's last byte, unfolded once. */
  lemma InterpretLast(t: Tables, p: PState, data: seq<int>)
    requires |data| > 0
    ensures var before := Interpret(t, p, data[..|data| - 1]);
      var o := DriveStep(t, before.0, data[|data| - 1]);
      Interpret(t, p, data) == (o.state, before.1 + o.cmds)
  { }

  /** Writing a and then b is writing a + b. */
  lemma WritesConcat(a: seq<int>, b: seq<int>)
    ensures Writes(a) + Writes(b) == Writes(a + b)
  { }

  /** Writing init and then last is writing init + [last]. */
  lemma WritesAppend(init: seq<int>, last: int)
    ensures Writes(init) + [AddCh(last)] == Writes(init + [last])
  {
    assert Writes([]) == [];
  }
}
