/**
 * The bit-set encoding of cell constraints (Dawg.toMask / maskContains). A mask is a Java `int`
 * used only through `|`, `&` and `1 << n`; it is modelled as the set of its set bit positions
 * (each below 32), so `|` is union and `(toMask(ch) & mask) != 0` is membership of ch's bit.
 * Letters 'a'..'z' use bits 0..25; the four flag characters that follow 'z' use bits 26..29.
 */
module Masks {
  import opened Letters

  type Mask = set<nat>

  /** 'z' + 1: the hand holds a blank; also the character a blank tile is recorded as. */
  const BlankChar: char := '{'
  /** 'z' + 2: a play through this cell is connected to the board. */
  const AnchorChar: char := '|'
  /** 'z' + 3: the cell may stay empty, so a word may end just before it. */
  const EmptyChar: char := '}'
  /** 'z' + 4: the cell already holds a tile. */
  const StaticChar: char := '~'

  /**
   * The shift count `ch - 'a'` of toMask. Java uses only the low five bits of an int shift
   * count; Euclidean `% 32` is that operation, so negative differences wrap as in Java.
   */
  function BitOf(ch: char): (b: nat)
    ensures b < 32
    ensures 'a' <= ch <= '~' ==> b == ch as int - 'a' as int
  {
    (ch as int - 'a' as int) % 32
  }

  /** `1 << (ch - 'a')`: the mask whose only bit is ch's. */
  function ToMask(ch: char): (m: Mask)
    ensures forall b :: b in m <==> b == BitOf(ch)
  {
    {BitOf(ch)}
  }

  /** `(toMask(ch) & mask) != 0`: the mask holds ch's bit. */
  predicate MaskContains(mask: Mask, ch: char)
    ensures MaskContains(mask, ch) <==> BitOf(ch) in mask
  {
    assert ToMask(ch) * mask == if BitOf(ch) in mask then {BitOf(ch)} else {};
    ToMask(ch) * mask != {}
  }

  /** The i-th character after 'a': the letters for i < 26, and BlankChar for i == 26. */
  function Letter(i: nat): (c: char)
    requires i < 27
    ensures BitOf(c) == i
    ensures i < 26 ==> IsLower(c)
    ensures i == 26 ==> c == BlankChar
  {
    (i + 'a' as int) as char
  }

  /** Two characters share a bit exactly when they are equal, among 'a'..'~'. */
  lemma BitOfInjective(c: char, d: char)
    requires 'a' <= c <= '~' && 'a' <= d <= '~'
    ensures BitOf(c) == BitOf(d) <==> c == d
  {
  }
}
