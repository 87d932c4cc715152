/**
 * What Dawg.getRows and Dawg.getCols leave in `rows[30][15]`, as functions of the board, the
 * hand's letter mask `subset` and the word tree. `rows[x + 15][y]` constrains square (row x,
 * column y) for a horizontal play; `rows[x][y]` constrains square (row y, column x) for a
 * vertical play. The functions follow the code as written, including three of its defects:
 * the cross-check word drops the first letter of the run after the square (Splice), getCols
 * reads that run below square (row x, column y) instead of right of square (row y, column x),
 * and getCols ORs its cross-check letters into rows[x + 15][y] instead of rows[x][y] (ColCross).
 */
module Grid {
  import opened Letters
  import opened Masks
  import opened Board
  import opened Trie

  /** The anchor forced on the centre square, :151 and :191. */
  function Centre(a: int, b: int): Mask {
    if a == 7 && b == 7 then ToMask(AnchorChar) else {}
  }

  /** `toMask(ch) | toMask(ANCHOR) | toMask(STATIC)`: the mask of a square holding tile ch. */
  function TileMask(ch: char): Mask {
    ToMask(ch) + ToMask(AnchorChar) + ToMask(StaticChar)
  }

  /** The letter loop tries `letter` when the hand holds it or holds a blank. */
  predicate Tried(subset: Mask, letter: char) {
    MaskContains(subset, letter) || MaskContains(subset, BlankChar)
  }

  /**
   * The word the letter loop hands to verify for `letter`: `word` starts as before + after and
   * each pass sets `word.substring(0, mx) + letter + word.substring(mx + 1)`, which overwrites
   * the first letter of `after` rather than inserting before it.
   */
  function Splice(before: string, after: string, letter: char): (w: string)
    ensures |w| == |before| + (if |after| > 0 then |after| else 1)
    ensures w[..|before|] == before && w[|before|] == letter
    ensures forall k :: |before| < k < |w| ==> w[k] == after[k - |before|]
  {
    if |after| > 0 then before + [letter] + after[1..] else before + [letter]
  }

  /** The letter bits OR-ed in by the first n passes of the letter loop ('a' .. n-th letter). */
  function CrossUpto(nodes: seq<Vertex>, subset: Mask, before: string, after: string, n: nat): (m: Mask)
    requires n <= 26
    ensures forall b: nat :: b in m <==> b < n && Tried(subset, Letter(b)) && Accepts(nodes, Splice(before, after, Letter(b)))
  {
    if n == 0 then {}
    else
      var letter := Letter(n - 1);
      CrossUpto(nodes, subset, before, after, n - 1)
        + (if Tried(subset, letter) && Accepts(nodes, Splice(before, after, letter)) then ToMask(letter) else {})
  }

  /** The tiles directly above square (row, col), top to bottom. */
  function Above(board: Board, row: int, col: int): string
    requires OnBoard(row, col)
  {
    var n := TilesUp(board, row - 1, col);
    ColumnSlice(board, col, row - n, n)
  }

  /** The tiles directly below square (row, col), top to bottom. */
  function Below(board: Board, row: int, col: int): string
    requires OnBoard(row, col)
  {
    ColumnSlice(board, col, row + 1, TilesDown(board, row + 1, col))
  }

  /** The tiles directly left of square (row, col), left to right. */
  function LeftOf(board: Board, row: int, col: int): string
    requires OnBoard(row, col)
  {
    var n := TilesLeft(board, row, col - 1);
    RowSlice(board, row, col - n, n)
  }

  /** rows[x + 15][y] as getRows writes it, before the centre anchor: square (row x, column y). */
  function RowEntry(board: Board, subset: Mask, nodes: seq<Vertex>, x: int, y: int): (e: Mask)
    requires OnBoard(x, y)
    ensures !Vacant(board, x, y) ==> BitOf(board[x][y]) in e && BitOf(AnchorChar) in e && BitOf(StaticChar) in e
    ensures Vacant(board, x, y) ==> BitOf(EmptyChar) in e
    ensures Vacant(board, x, y) && HandBits(subset) ==> BitOf(StaticChar) !in e
    ensures Vacant(board, x, y) && HandBits(subset) ==>
      (BitOf(AnchorChar) in e <==> !(Vacant(board, x - 1, y) && Vacant(board, x + 1, y)))
  {
    if !Vacant(board, x, y) then TileMask(board[x][y])
    else if Vacant(board, x - 1, y) && Vacant(board, x + 1, y) then ToMask(EmptyChar) + subset
    else ToMask(EmptyChar) + ToMask(AnchorChar) + CrossUpto(nodes, subset, Above(board, x, y), Below(board, x, y), 26)
  }

  /** rows[x][y] as getCols writes it, before the centre anchor: square (row y, column x). */
  function ColEntry(board: Board, subset: Mask, x: int, y: int): (e: Mask)
    requires OnBoard(y, x)
    ensures !Vacant(board, y, x) ==> BitOf(board[y][x]) in e && BitOf(AnchorChar) in e && BitOf(StaticChar) in e
    ensures Vacant(board, y, x) ==> BitOf(EmptyChar) in e
    ensures Vacant(board, y, x) && HandBits(subset) ==>
      (BitOf(AnchorChar) in e <==> !(Vacant(board, y, x - 1) && Vacant(board, y, x + 1)))
    ensures Vacant(board, y, x) && !(Vacant(board, y, x - 1) && Vacant(board, y, x + 1)) ==>
      forall b :: b in e ==> b == BitOf(EmptyChar) || b == BitOf(AnchorChar)
  {
    if !Vacant(board, y, x) then TileMask(board[y][x])
    else if Vacant(board, y, x - 1) && Vacant(board, y, x + 1) then ToMask(EmptyChar) + subset
    else ToMask(EmptyChar) + ToMask(AnchorChar)
  }

  /**
   * The letter bits getCols ORs into rows[x + 15][y] while it handles square (row y, column x):
   * the run left of that square, spliced with the run below square (row x, column y).
   */
  function ColCross(board: Board, subset: Mask, nodes: seq<Vertex>, x: int, y: int): (c: Mask)
    requires OnBoard(y, x)
    ensures forall b :: b in c ==> b < 26 && Tried(subset, Letter(b))
    ensures !Vacant(board, y, x) || (Vacant(board, y, x - 1) && Vacant(board, y, x + 1)) ==> c == {}
  {
    if !Vacant(board, y, x) || (Vacant(board, y, x - 1) && Vacant(board, y, x + 1)) then {}
    else CrossUpto(nodes, subset, LeftOf(board, y, x), Below(board, x, y), 26)
  }

  /** rows[i][j] after getRows and then getCols, as findAllMoves calls them. */
  function Entry(board: Board, subset: Mask, nodes: seq<Vertex>, i: int, j: int): Mask
    requires 0 <= i < 30 && 0 <= j < 15
  {
    if i < 15 then ColEntry(board, subset, i, j) + Centre(i, j)
    else RowEntry(board, subset, nodes, i - 15, j) + Centre(i - 15, j) + ColCross(board, subset, nodes, i - 15, j)
  }

  /** The whole constraint grid rows[30][15]. */
  function Grid(board: Board, subset: Mask, nodes: seq<Vertex>): (g: seq<seq<Mask>>)
    ensures |g| == 30
    ensures forall i :: 0 <= i < 30 ==> |g[i]| == 15
    ensures forall i, j :: 0 <= i < 30 && 0 <= j < 15 ==> g[i][j] == Entry(board, subset, nodes, i, j)
  {
    seq(30, i requires 0 <= i < 30 => seq(15, j requires 0 <= j < 15 => Entry(board, subset, nodes, i, j)))
  }

  /** The hand's mask holds only letter bits and the BLANK bit. */
  ghost predicate HandBits(subset: Mask) {
    forall b :: b in subset ==> b <= 26
  }

  /**
   * getRows gives an occupied square exactly its letter's bit, ANCHOR and STATIC; for a
   * lower-case tile that is its own letter alone among the letters, and no EMPTY.
   */
  lemma OccupiedRowEntry(board: Board, subset: Mask, nodes: seq<Vertex>, x: int, y: int)
    requires OnBoard(x, y) && !Vacant(board, x, y)
    ensures RowEntry(board, subset, nodes, x, y) == {BitOf(board[x][y]), BitOf(AnchorChar), BitOf(StaticChar)}
    ensures IsLower(board[x][y]) ==>
      var e := RowEntry(board, subset, nodes, x, y);
      && MaskContains(e, AnchorChar) && MaskContains(e, StaticChar) && !MaskContains(e, EmptyChar)
      && forall i :: 0 <= i < 26 ==> (MaskContains(e, Letter(i)) <==> Letter(i) == board[x][y])
  {
  }

  /** getCols gives an occupied square exactly its letter's bit, ANCHOR and STATIC. */
  lemma OccupiedColEntry(board: Board, subset: Mask, x: int, y: int)
    requires OnBoard(y, x) && !Vacant(board, y, x)
    ensures ColEntry(board, subset, x, y) == {BitOf(board[y][x]), BitOf(AnchorChar), BitOf(StaticChar)}
    ensures IsLower(board[y][x]) ==>
      var e := ColEntry(board, subset, x, y);
      && MaskContains(e, AnchorChar) && MaskContains(e, StaticChar) && !MaskContains(e, EmptyChar)
      && forall i :: 0 <= i < 26 ==> (MaskContains(e, Letter(i)) <==> Letter(i) == board[y][x])
  {
  }

  /** Every square without a tile may end a word, in both passes; no such square is STATIC. */
  lemma VacantMayEnd(board: Board, subset: Mask, nodes: seq<Vertex>, x: int, y: int)
    requires OnBoard(x, y) && Vacant(board, x, y) && HandBits(subset)
    ensures MaskContains(RowEntry(board, subset, nodes, x, y), EmptyChar)
    ensures !MaskContains(RowEntry(board, subset, nodes, x, y), StaticChar)
    ensures MaskContains(ColEntry(board, subset, y, x), EmptyChar)
    ensures !MaskContains(ColEntry(board, subset, y, x), StaticChar)
  {
  }

  /**
   * A square with no tile above or below it gets EMPTY and the hand's mask in getRows, and no
   * ANCHOR anywhere in the final horizontal grid unless it is the centre.
   */
  lemma UnconstrainedRowEntry(board: Board, subset: Mask, nodes: seq<Vertex>, x: int, y: int)
    requires OnBoard(x, y) && Vacant(board, x, y) && Vacant(board, x - 1, y) && Vacant(board, x + 1, y)
    requires HandBits(subset)
    ensures forall b :: b in RowEntry(board, subset, nodes, x, y) <==> b == BitOf(EmptyChar) || b in subset
    ensures !(x == 7 && y == 7) ==> !MaskContains(Entry(board, subset, nodes, x + 15, y), AnchorChar)
  {
  }

  /**
   * A square with a tile above or below it is an anchor in getRows, and holds a letter exactly
   * when the hand holds that letter or a blank and the spliced word is in the tree.
   */
  lemma ConstrainedRowEntry(board: Board, subset: Mask, nodes: seq<Vertex>, x: int, y: int)
    requires OnBoard(x, y) && Vacant(board, x, y) && !(Vacant(board, x - 1, y) && Vacant(board, x + 1, y))
    ensures var e := RowEntry(board, subset, nodes, x, y);
      && MaskContains(e, AnchorChar) && MaskContains(e, EmptyChar) && !MaskContains(e, StaticChar)
      && forall i :: 0 <= i < 26 ==>
           (MaskContains(e, Letter(i)) <==>
              Tried(subset, Letter(i)) && Accepts(nodes, Splice(Above(board, x, y), Below(board, x, y), Letter(i))))
  {
  }

  /**
   * A square with a tile left or right of it gets only EMPTY and ANCHOR in the vertical grid:
   * no letter at all, so no vertical play can put a tile there. Its cross-check letters land
   * in the horizontal entry rows[x + 15][y] instead.
   */
  lemma ConstrainedColEntry(board: Board, subset: Mask, nodes: seq<Vertex>, x: int, y: int)
    requires OnBoard(y, x) && Vacant(board, y, x) && !(Vacant(board, y, x - 1) && Vacant(board, y, x + 1))
    ensures var e := Entry(board, subset, nodes, x, y);
      && MaskContains(e, AnchorChar) && MaskContains(e, EmptyChar) && !MaskContains(e, StaticChar)
      && forall i :: 0 <= i < 26 ==> !MaskContains(e, Letter(i))
    ensures forall i :: 0 <= i < 26 ==>
      (MaskContains(ColCross(board, subset, nodes, x, y), Letter(i)) <==>
         Tried(subset, Letter(i)) && Accepts(nodes, Splice(LeftOf(board, y, x), Below(board, x, y), Letter(i))))
    ensures ColCross(board, subset, nodes, x, y) <= Entry(board, subset, nodes, x + 15, y)
  {
  }

  /**
   * getCols ORs its cross-check letters into rows[x + 15][y] whether or not that horizontal
   * square holds a tile: when square (row x, column y) is occupied it keeps STATIC and also
   * gains every letter, its own or not, that the cross-check of square (row y, column x) accepts.
   */
  lemma StrayBitsOnTile(board: Board, subset: Mask, nodes: seq<Vertex>, x: int, y: int)
    requires OnBoard(y, x) && Vacant(board, y, x) && !(Vacant(board, y, x - 1) && Vacant(board, y, x + 1))
    requires !Vacant(board, x, y)
    ensures var e := Entry(board, subset, nodes, x + 15, y);
      && MaskContains(e, StaticChar)
      && forall i :: 0 <= i < 26 && Tried(subset, Letter(i))
                     && Accepts(nodes, Splice(LeftOf(board, y, x), Below(board, x, y), Letter(i)))
                     ==> MaskContains(e, Letter(i))
  {
  }

  /** A square with no tile left or right of it gets EMPTY and the hand's mask in getCols. */
  lemma UnconstrainedColEntry(board: Board, subset: Mask, x: int, y: int)
    requires OnBoard(y, x) && Vacant(board, y, x) && Vacant(board, y, x - 1) && Vacant(board, y, x + 1)
    ensures forall b :: b in ColEntry(board, subset, x, y) <==> b == BitOf(EmptyChar) || b in subset
  {
  }

  /** The centre square is an anchor in both grids, whatever the board. */
  lemma CentreIsAnchor(board: Board, subset: Mask, nodes: seq<Vertex>)
    ensures MaskContains(Entry(board, subset, nodes, 7, 7), AnchorChar)
    ensures MaskContains(Entry(board, subset, nodes, 7 + 15, 7), AnchorChar)
  {
  }

  /**
   * The spliced word is the run before the square, the letter, and the run after it without
   * that run's first letter; so whenever a run follows the square, the word tested is not the
   * word the play would form.
   */
  lemma SpliceDropsLetter(before: string, after: string, letter: char)
    requires |after| > 0
    ensures Splice(before, after, letter) == before + [letter] + after[1..]
    ensures Splice(before, after, letter) != before + [letter] + after
  {
    assert |Splice(before, after, letter)| < |before + [letter] + after|;
  }

  /** With "c" above and "t" below a square, the letter 'a' is checked as "ca", not "cat". */
  lemma CatIsCheckedAsCa()
    ensures Splice("c", "t", 'a') == "ca"
  {
  }
}
