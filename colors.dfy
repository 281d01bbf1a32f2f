/** Character attributes and colour pairs (tcvt.py: init_color_pairs,
    get_color, and the curses attribute constants the escape interpreter
    switches on). */
module Colors {
  import opened Attributes

  /** The eight curses colours. */
  datatype Color = Black | Red | Green | Yellow | Blue | Magenta | Cyan | White

  /** The colours in the order of the ANSI SGR codes 30-37 and 40-47, which
      is also the background order of init_color_pairs (bi). */
  const AnsiOrder: seq<Color> := [Black, Red, Green, Yellow, Blue, Magenta, Cyan, White]

  /** The foreground order of init_color_pairs (fi): white first, so that
      pair 0, which curses reserves for the default colours, would be white
      on black. */
  const ForegroundOrder: seq<Color> := [White, Black, Red, Green, Yellow, Blue, Magenta, Cyan]

  /** The pair number init_color_pairs gives foreground index fi and
      background index bi. */
  function PairIndex(fi: int, bi: int): (n: int)
    ensures 0 <= fi < 8 && 0 <= bi < 8 ==> 0 <= n < 64
  {
    fi * 8 + bi
  }

  /** Pair indices of the 8 x 8 colour choices are exactly 0 .. 63, each
      reached by exactly one choice. */
  lemma PairIndexBijective(fi: int, bi: int, n: int)
    ensures 0 <= fi < 8 && 0 <= bi < 8 ==> 0 <= PairIndex(fi, bi) < 64
    ensures 0 <= bi < 8 && n == PairIndex(fi, bi) ==> n / 8 == fi && n % 8 == bi
    ensures 0 <= n < 64 ==> 0 <= n / 8 < 8 && 0 <= n % 8 < 8 && PairIndex(n / 8, n % 8) == n
  {
  }

  /** init_color_pairs: for every background index bi and foreground index
      fi except (0, 0), pair fi * 8 + bi gets foreground ForegroundOrder[fi]
      on background AnsiOrder[bi]. The curses colour table is returned as a map. */
  method InitColorPairs() returns (pairs: map<int, (Color, Color)>)
    ensures forall n :: n in pairs <==> 1 <= n < 64
    ensures forall fi, bi :: 0 <= fi < 8 && 0 <= bi < 8 && PairIndex(fi, bi) != 0
              ==> pairs[PairIndex(fi, bi)] == (ForegroundOrder[fi], AnsiOrder[bi])
  {
    pairs := map[];
    var bi := 0;
    while bi < 8
      invariant 0 <= bi <= 8
      invariant forall n :: n in pairs ==> 1 <= n < 64 && n % 8 < bi
      invariant forall f, b :: 0 <= f < 8 && 0 <= b < bi && PairIndex(f, b) != 0
                  ==> PairIndex(f, b) in pairs
                      && pairs[PairIndex(f, b)] == (ForegroundOrder[f], AnsiOrder[b])
    {
      var fi := 0;
      while fi < 8
        invariant 0 <= fi <= 8
        invariant forall n :: n in pairs ==> 1 <= n < 64 && (n % 8 < bi || (n % 8 == bi && n / 8 < fi))
        invariant forall f, b :: 0 <= f < 8 && 0 <= b < bi && PairIndex(f, b) != 0
                    ==> PairIndex(f, b) in pairs
                        && pairs[PairIndex(f, b)] == (ForegroundOrder[f], AnsiOrder[b])
        invariant forall f :: 0 <= f < fi && PairIndex(f, bi) != 0
                    ==> PairIndex(f, bi) in pairs
                        && pairs[PairIndex(f, bi)] == (ForegroundOrder[f], AnsiOrder[bi])
      {
        if fi != 0 || bi != 0 {
          PairIndexBijective(fi, bi, PairIndex(fi, bi));
          pairs := pairs[PairIndex(fi, bi) := (ForegroundOrder[fi], AnsiOrder[bi])];
          forall f, b | 0 <= f < 8 && 0 <= b < 8 && PairIndex(f, b) == PairIndex(fi, bi)
            ensures f == fi && b == bi
          {
            PairIndexBijective(f, b, PairIndex(fi, bi));
          }
        }
        fi := fi + 1;
      }
      bi := bi + 1;
    }
    forall n | 1 <= n < 64 ensures n in pairs {
      PairIndexBijective(n / 8, n % 8, n);
    }
  }

  /** get_color: the colour pair for ANSI foreground fg and background bg.
      Python's % agrees with Dafny's for the positive divisor. */
  function GetColor(fg: int, bg: int): (n: int)
    ensures 0 <= bg < 8 ==> 0 <= n < 64
  {
    PairIndex((fg + 1) % 8, bg)
  }

  /** The pair get_color selects has the requested colours: for every ANSI
      foreground and background other than white on black it is a pair that
      init_color_pairs defined, with foreground AnsiOrder[fg] and background
      AnsiOrder[bg]; white on black is pair 0, the default pair. */
  lemma GetColorSelectsPair(pairs: map<int, (Color, Color)>, fg: int, bg: int)
    requires forall n :: n in pairs <==> 1 <= n < 64
    requires forall fi, bi :: 0 <= fi < 8 && 0 <= bi < 8 && PairIndex(fi, bi) != 0
               ==> pairs[PairIndex(fi, bi)] == (ForegroundOrder[fi], AnsiOrder[bi])
    requires 0 <= fg < 8 && 0 <= bg < 8
    ensures GetColor(fg, bg) == 0 <==> fg == 7 && bg == 0
    ensures GetColor(fg, bg) != 0 ==>
              GetColor(fg, bg) in pairs && pairs[GetColor(fg, bg)] == (AnsiOrder[fg], AnsiOrder[bg])
  {
    var fi := (fg + 1) % 8;
    assert ForegroundOrder[fi] == AnsiOrder[fg];
  }

  /** Distinct colour choices select distinct pairs. */
  lemma GetColorInjective(fg: int, bg: int, fg': int, bg': int)
    requires 0 <= fg < 8 && 0 <= bg < 8 && 0 <= fg' < 8 && 0 <= bg' < 8
    requires GetColor(fg, bg) == GetColor(fg', bg')
    ensures fg == fg' && bg == bg'
  {
    var n := GetColor(fg, bg);
    assert (fg + 1) % 8 == if fg == 7 then 0 else fg + 1;
    assert (fg' + 1) % 8 == if fg' == 7 then 0 else fg' + 1;
    PairIndexBijective((fg + 1) % 8, bg, n);
    PairIndexBijective((fg' + 1) % 8, bg', n);
  }

  /** The pair get_color selects is the pair the intended attron leaves in
      the colour field, whatever pair was there before; pair 0 (white on
      black) carries no colour bits, so its attron leaves the attributes as
      they were. */
  lemma CombineSelectsPair(cur: bv32, fg: int, bg: int)
    requires 0 <= bg < 8
    ensures GetColor(fg, bg) != 0 ==>
              (Combine(cur, ColorPair(GetColor(fg, bg))) & 0xff00) >> 8 == GetColor(fg, bg) as bv32
    ensures GetColor(fg, bg) == 0 ==> Combine(cur, ColorPair(GetColor(fg, bg))) == cur
  {
    var a := ColorPair(GetColor(fg, bg));
    if GetColor(fg, bg) != 0 {
      ColorPairRecovers(GetColor(fg, bg));
      assert a & 0xff00 == a;
      assert Combine(cur, a) & 0xff00 == a;
    }
  }

  /** As written, red foreground (SGR 31, pair GetColor(1, 0) = 16) followed
      by yellow foreground (SGR 33, pair 32) selects pair 48, which is
      magenta; the intended attron selects yellow. */
  lemma CombineAsWrittenMixesPairs()
    ensures CombineAsWritten(ColorPair(GetColor(1, 0)), ColorPair(GetColor(3, 0))) == ColorPair(GetColor(5, 0))
    ensures Combine(ColorPair(GetColor(1, 0)), ColorPair(GetColor(3, 0))) == ColorPair(GetColor(3, 0))
    ensures GetColor(5, 0) != GetColor(3, 0)
  {
    assert GetColor(1, 0) == 16 && GetColor(3, 0) == 32 && GetColor(5, 0) == 48;
    PairBits();
    assert CombineAsWritten(0x1000, 0x2000) == 0x3000;
    assert Combine(0x1000, 0x2000) == 0x2000;
  }

  lemma PairBits()
    ensures ColorPair(16) == 0x1000 && ColorPair(32) == 0x2000 && ColorPair(48) == 0x3000
  {
    assert (16 % 256) as bv32 == 0x10;
    assert (32 % 256) as bv32 == 0x20;
    assert (48 % 256) as bv32 == 0x30;
  }
}
