/** The curses attribute bits the column folder and the escape
    interpreter use. The values are those of ncurses with a 32-bit chtype;
    the model takes them as given. In the contracts below the colour-pair
    field A_Color is written out as the literal 0xff00. */
module Attributes {
  const A_Color: bv32 := 0xff00
  const A_Underline: bv32 := 0x2_0000
  const A_Reverse: bv32 := 0x4_0000
  const A_Blink: bv32 := 0x8_0000
  const A_Bold: bv32 := 0x20_0000
  const A_Invis: bv32 := 0x80_0000

  /** curses.color_pair: the pair number in the colour bits; only pair 0
      (of the numbers below 256) gives no colour bits at all. */
  function ColorPair(n: int): (a: bv32)
    ensures a & A_Color == a
    ensures 0 <= n < 256 ==> (a == 0 <==> n == 0)
  {
    ((n % 256) as bv32) << 8
  }

  /** A pair number below 256 is recovered from the colour field. */
  lemma ColorPairRecovers(n: int)
    requires 0 <= n < 256
    ensures ColorPair(n) >> 8 == n as bv32
  { }

  /** attron as written in class Columns: every bit of a is ORed into the
      current attributes, so the colour-pair field becomes the bitwise OR
      of the old pair number and the new one. */
  function CombineAsWritten(cur: bv32, a: bv32): (r: bv32)
    ensures r & !0xff00 == (cur | a) & !0xff00
    ensures r & 0xff00 == (cur & 0xff00) | (a & 0xff00)
  {
    cur | a
  }

  /** attron as intended, and as curses' own wattron behaves: an attribute
      that carries a colour pair replaces the current pair; every other bit
      is ORed in. */
  function Combine(cur: bv32, a: bv32): (r: bv32)
    ensures r & !0xff00 == (cur | a) & !0xff00
    ensures a & 0xff00 != 0 ==> r & 0xff00 == a & 0xff00
    ensures a & 0xff00 == 0 ==> r & 0xff00 == cur & 0xff00
  {
    if a & 0xff00 != 0 then
      ReplacePair(cur, a);
      (cur & !0xff00) | a
    else
      KeepPair(cur, a);
      cur | a
  }

  /** The bit algebra of Combine when a carries a colour pair. */
  lemma ReplacePair(cur: bv32, a: bv32)
    ensures ((cur & !0xff00) | a) & !0xff00 == (cur | a) & !0xff00
    ensures ((cur & !0xff00) | a) & 0xff00 == a & 0xff00
  { }

  /** The bit algebra of Combine when a carries no colour pair. */
  lemma KeepPair(cur: bv32, a: bv32)
    requires a & 0xff00 == 0
    ensures (cur | a) & 0xff00 == cur & 0xff00
  { }

  /** The two agree unless both the current attributes and a carry a
      colour pair. */
  lemma CombineAgreesWithoutTwoPairs(cur: bv32, a: bv32)
    requires a & 0xff00 == 0 || cur & 0xff00 == 0
    ensures Combine(cur, a) == CombineAsWritten(cur, a)
  {
  }
}
