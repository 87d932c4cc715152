/**
 * The Dawg object and the player around it: the word tree, the constraint grid rows[30][15]
 * that getRows and getCols fill in place, findAllMoves, which walks every square in both
 * directions and then adds the blank spellings, and chooseMove, which keeps the best legal
 * move. The game (the board, the hand, legality and scoring) is passed in as values.
 */
module Engine {
  import opened Wrappers
  import opened Letters
  import opened Masks
  import opened Board
  import opened Trie
  import opened Grid
  import opened Enumerator
  import opened Permutator
  import opened Selector

  // ---------------------------------------------------------------- the hand

  /**
   * The characters findAllMoves can count: the blank ' ', or a character no later than BLANK
   * (anything later indexes past letters[26]).
   */
  predicate TileChars(hand: seq<char>) {
    forall k :: 0 <= k < |hand| ==> hand[k] == ' ' || hand[k] <= BlankChar
  }

  /** A hand of real tiles: blanks and lower-case letters. */
  predicate PlainTiles(hand: seq<char>) {
    forall k :: 0 <= k < |hand| ==> hand[k] == ' ' || IsLower(hand[k])
  }

  /** `subset` as findAllMoves builds it: BLANK for a blank tile, the tile's own bit otherwise. */
  function SubsetOf(hand: seq<char>): Mask {
    if hand == [] then {}
    else
      var last := hand[|hand| - 1];
      SubsetOf(hand[..|hand| - 1]) + (if last == ' ' then ToMask(BlankChar) else ToMask(last))
  }

  /** `letters[27]` as findAllMoves counts it: blanks in slot 26, a letter ch in slot ch - 'a'. */
  function Tally(hand: seq<char>): (t: Hand)
    requires TileChars(hand)
    ensures forall i :: 0 <= i < 27 ==> t[i] <= |hand|
  {
    if hand == [] then seq(27, _ => 0)
    else
      var h := Tally(hand[..|hand| - 1]);
      var last := hand[|hand| - 1];
      if last == ' ' then h[26 := h[26] + 1]
      else if last >= 'a' then h[last as int - 'a' as int := h[last as int - 'a' as int] + 1]
      else h
  }

  /** For a hand of real tiles the tally is the number of each letter and of blanks. */
  lemma {:induction false} TallyCounts(hand: seq<char>)
    requires PlainTiles(hand)
    ensures Tally(hand)[26] == Count(hand, ' ')
    ensures forall i :: 0 <= i < 26 ==> Tally(hand)[i] == Count(hand, Letter(i))
    decreases |hand|
  {
    if hand != [] {
      var init, last := hand[..|hand| - 1], hand[|hand| - 1];
      assert hand == init + [last];
      TallyCounts(init);
      CountAppend(init, [last], ' ');
      forall i | 0 <= i < 26 ensures Tally(hand)[i] == Count(hand, Letter(i)) {
        CountAppend(init, [last], Letter(i));
        if last != ' ' && i != last as int - 'a' as int {
          assert BitOf(Letter(i)) != BitOf(last);
        }
      }
    }
  }

  /**
   * For a hand of real tiles the subset holds exactly the letters the tally counts, BLANK
   * exactly when it counts a blank, and nothing else.
   */
  lemma {:induction false} SubsetMatchesTally(hand: seq<char>)
    requires PlainTiles(hand)
    ensures HandBits(SubsetOf(hand))
    ensures forall i :: 0 <= i < 27 ==> (MaskContains(SubsetOf(hand), Letter(i)) <==> Tally(hand)[i] > 0)
    decreases |hand|
  {
    if hand != [] {
      SubsetMatchesTally(hand[..|hand| - 1]);
      TallyNonNegative(hand[..|hand| - 1]);
    }
  }

  /** Every slot of the tally is a count, never negative. */
  lemma {:induction false} TallyNonNegative(hand: seq<char>)
    requires TileChars(hand)
    ensures NonNegative(Tally(hand))
    decreases |hand|
  {
    if hand != [] {
      TallyNonNegative(hand[..|hand| - 1]);
    }
  }

  /** findAllMoves' first loop over the hand. */
  method HandSubset(hand: seq<char>) returns (subset: Mask)
    ensures subset == SubsetOf(hand)
  {
    subset := {};
    for k := 0 to |hand|
      invariant subset == SubsetOf(hand[..k])
    {
      var letter := hand[k];
      assert hand[..k + 1][..k] == hand[..k];
      if letter == ' ' {
        subset := subset + ToMask(BlankChar);
      } else {
        subset := subset + ToMask(letter);
      }
    }
    assert hand[..|hand|] == hand;
  }

  /** findAllMoves' count of the hand into `int[] letters = new int[27]`. */
  method CountTiles(hand: seq<char>) returns (counts: Hand)
    requires TileChars(hand)
    ensures counts == Tally(hand)
  {
    var letters := new int[27](_ => 0);
    for k := 0 to |hand|
      invariant letters[..] == Tally(hand[..k])
    {
      var ch := hand[k];
      assert hand[..k + 1][..k] == hand[..k];
      if ch == ' ' {
        letters[26] := letters[26] + 1;
      } else if ch >= 'a' {
        letters[ch as int - 'a' as int] := letters[ch as int - 'a' as int] + 1;
      }
    }
    assert hand[..|hand|] == hand;
    counts := letters[..];
  }

  // ---------------------------------------------------------------- the search

  /** A grid of 30 lines of 15 masks, the shape of rows[30][15]. */
  predicate Shaped(g: seq<seq<Mask>>) {
    |g| == 30 && forall i :: 0 <= i < 30 ==> |g[i]| == 15
  }

  /**
   * The two walks findAllMoves starts at (x, y): downwards from (row y, column x) over
   * rows[x][y..], then rightwards from (row x, column y) over rows[x + 15][y..], each from the
   * root with an empty word, unanchored.
   */
  function SquareMoves(g: seq<seq<Mask>>, nodes: seq<Vertex>, hand: Hand, x: nat, y: nat): Result<seq<Move>, Error>
    requires Shaped(g) && x < 15 && y < 15
  {
    var c := Explore(nodes, Location(y, x), Vertical, "", false, hand, Some(0), g[x][y..]);
    if c.Failure? then c
    else
      var r := Explore(nodes, Location(x, y), Horizontal, "", false, hand, Some(0), g[x + 15][y..]);
      if r.Failure? then r else Success(c.value + r.value)
  }

  /** The moves recorded for the squares (x, 0) .. (x, y - 1), in findAllMoves' inner-loop order. */
  function LineMoves(g: seq<seq<Mask>>, nodes: seq<Vertex>, hand: Hand, x: nat, y: nat): Result<seq<Move>, Error>
    requires Shaped(g) && x < 15 && y <= 15
  {
    if y == 0 then Success([])
    else
      var before := LineMoves(g, nodes, hand, x, y - 1);
      if before.Failure? then before
      else
        var here := SquareMoves(g, nodes, hand, x, y - 1);
        if here.Failure? then here else Success(before.value + here.value)
  }

  /** The moves recorded for the lines 0 .. x - 1, in findAllMoves' outer-loop order. */
  function Found(g: seq<seq<Mask>>, nodes: seq<Vertex>, hand: Hand, x: nat): Result<seq<Move>, Error>
    requires Shaped(g) && x <= 15
  {
    if x == 0 then Success([])
    else
      var before := Found(g, nodes, hand, x - 1);
      if before.Failure? then before
      else
        var line := LineMoves(g, nodes, hand, x - 1, 15);
        if line.Failure? then line else Success(before.value + line.value)
  }

  /** What findAllMoves returns for a board and a hand with a given word tree. */
  function AllMoves(board: Board, hand: seq<char>, nodes: seq<Vertex>): Result<seq<Move>, Error>
    requires TileChars(hand)
  {
    var found := Found(Grid.Grid(board, SubsetOf(hand), nodes), nodes, Tally(hand), 15);
    if found.Failure? then found else Success(PermuteAll(found.value, Count(hand, ' ')))
  }

  /** Once a square's walk fails, the rest of its line fails. */
  lemma {:induction false} LineStaysFailed(g: seq<seq<Mask>>, nodes: seq<Vertex>, hand: Hand, x: nat, m: nat, n: nat)
    requires Shaped(g) && x < 15 && m <= n <= 15
    requires LineMoves(g, nodes, hand, x, m).Failure?
    ensures LineMoves(g, nodes, hand, x, n).Failure?
    decreases n
  {
    if m < n {
      LineStaysFailed(g, nodes, hand, x, m, n - 1);
    }
  }

  /** Once a line fails, findAllMoves fails. */
  lemma {:induction false} FoundStaysFailed(g: seq<seq<Mask>>, nodes: seq<Vertex>, hand: Hand, m: nat, n: nat)
    requires Shaped(g) && m <= n <= 15
    requires Found(g, nodes, hand, m).Failure?
    ensures Found(g, nodes, hand, n).Failure?
    decreases n
  {
    if m < n {
      FoundStaysFailed(g, nodes, hand, m, n - 1);
    }
  }

  /**
   * A recorded move comes from a walk started at its own location in its own direction: it is
   * Sound for the empty word at the root over the line of masks from its first square.
   */
  ghost predicate FromSquare(g: seq<seq<Mask>>, nodes: seq<Vertex>, hand: Hand, mv: Move)
    requires Shaped(g)
  {
    var row, col := mv.location.row, mv.location.col;
    && OnBoard(row, col)
    && (mv.direction == Vertical ==>
          Sound(nodes, mv.location, Vertical, "", false, hand, Some(0), g[col][row..], mv))
    && (mv.direction == Horizontal ==>
          Sound(nodes, mv.location, Horizontal, "", false, hand, Some(0), g[row + 15][col..], mv))
  }

  /** Every move recorded for the first y squares of line x comes from its own square. */
  lemma {:induction false} LineSound(g: seq<seq<Mask>>, nodes: seq<Vertex>, hand: Hand, x: nat, y: nat)
    requires Shaped(g) && x < 15 && y <= 15 && NonNegative(hand)
    requires LineMoves(g, nodes, hand, x, y).Success?
    ensures forall mv :: mv in LineMoves(g, nodes, hand, x, y).value ==> FromSquare(g, nodes, hand, mv)
    decreases y
  {
    if y > 0 {
      LineSound(g, nodes, hand, x, y - 1);
      ExploreSound(nodes, Location(y - 1, x), Vertical, "", false, hand, Some(0), g[x][y - 1..]);
      ExploreSound(nodes, Location(x, y - 1), Horizontal, "", false, hand, Some(0), g[x + 15][y - 1..]);
    }
  }

  /** Every move recorded for the first x lines comes from its own square. */
  lemma {:induction false} FoundSound(g: seq<seq<Mask>>, nodes: seq<Vertex>, hand: Hand, x: nat)
    requires Shaped(g) && x <= 15 && NonNegative(hand)
    requires Found(g, nodes, hand, x).Success?
    ensures forall mv :: mv in Found(g, nodes, hand, x).value ==> FromSquare(g, nodes, hand, mv)
    decreases x
  {
    if x > 0 {
      FoundSound(g, nodes, hand, x - 1);
      LineSound(g, nodes, hand, x - 1, 15);
    }
  }

  /**
   * A recorded move spells a word of the tree: its tiles, read under some keys that fit their
   * squares, walk from the root to a word vertex, and it uses no tile the hand lacks.
   */
  lemma SoundFromRootSpellsWord(nodes: seq<Vertex>, loc: Location, dir: Direction, hand: Hand,
                                remaining: seq<Mask>, mv: Move)
    requires Sound(nodes, loc, dir, "", false, hand, Some(0), remaining, mv)
    ensures exists keys :: |keys| == |mv.word| && Accepts(nodes, keys)
                           && forall j :: 0 <= j < |keys| ==> Fits(remaining[j], mv.word[j], keys[j])
    ensures forall i :: 0 <= i < 27 ==> Count(mv.word, Letter(i)) <= hand[i]
    ensures exists j :: 0 <= j < |mv.word| && MaskContains(remaining[j], AnchorChar)
    ensures Uppers(mv.word) == []
  {
    assert mv.word[|""|..] == mv.word;
    var keys :| Spells(nodes, 0, mv.word, keys, remaining);
    assert Accepts(nodes, keys);
    forall j | 0 <= j < |mv.word| ensures !IsUpper(mv.word[j]) {
      assert Fits(remaining[j], mv.word[j], keys[j]);
    }
    UppersOfPlain(mv.word);
  }

  /**
   * findAllMoves returns every move its walks record, each of which comes from a walk started
   * at its own square and shows no played blank; everything else it returns is one of those
   * moves respelt. With no blank in the hand it returns exactly the recorded moves.
   */
  /** Every move the search records is sound from its square and free of upper-case letters. */
  lemma FoundPlain(g: seq<seq<Mask>>, nodes: seq<Vertex>, hand: Hand)
    requires Shaped(g) && NonNegative(hand)
    requires Found(g, nodes, hand, 15).Success?
    ensures forall m :: m in Found(g, nodes, hand, 15).value ==> FromSquare(g, nodes, hand, m) && Uppers(m.word) == []
  {
    var found := Found(g, nodes, hand, 15).value;
    FoundSound(g, nodes, hand, 15);
    forall m | m in found ensures Uppers(m.word) == [] {
      var row, col := m.location.row, m.location.col;
      if m.direction == Vertical {
        SoundFromRootSpellsWord(nodes, m.location, Vertical, hand, g[col][row..], m);
      } else {
        SoundFromRootSpellsWord(nodes, m.location, Horizontal, hand, g[row + 15][col..], m);
      }
    }
  }

  lemma AllMovesFromWalks(board: Board, hand: seq<char>, nodes: seq<Vertex>)
    requires TileChars(hand)
    requires AllMoves(board, hand, nodes).Success?
    ensures var g := Grid.Grid(board, SubsetOf(hand), nodes);
      var found := Found(g, nodes, Tally(hand), 15).value;
      && (forall m :: m in found ==>
            FromSquare(g, nodes, Tally(hand), m) && Uppers(m.word) == [] && m in AllMoves(board, hand, nodes).value)
      && (forall v :: v in AllMoves(board, hand, nodes).value ==> exists m :: m in found && SpellingOf(v, m))
      && (Count(hand, ' ') == 0 ==> AllMoves(board, hand, nodes).value == found)
  {
    var g := Grid.Grid(board, SubsetOf(hand), nodes);
    var found := Found(g, nodes, Tally(hand), 15).value;
    TallyNonNegative(hand);
    FoundPlain(g, nodes, Tally(hand));
    PermuteAllKeepsPlainMoves(found, Count(hand, ' '));
    PermuteAllFromMoves(found, Count(hand, ' '));
    if Count(hand, ' ') == 0 {
      PermuteAllWithoutBlanks(found, 0);
    }
  }

  // ---------------------------------------------------------------- reading the board

  /**
   * The mx loop and the first word loop of getRows for square (row x, column y): count the
   * tiles directly above it, then read them top to bottom.
   */
  method ReadAbove(board: Board, x: int, y: int) returns (mx: nat, word: string)
    requires OnBoard(x, y) && Vacant(board, x, y)
    ensures word == Above(board, x, y) && |word| == mx
  {
    mx := 0;
    while !IsEmpty(board, y, x - mx - 1)
      invariant mx <= TilesUp(board, x - 1, y)
      decreases TilesUp(board, x - 1, y) - mx
    {
      mx := mx + 1;
    }
    word := "";
    var l := 0;
    while !IsEmpty(board, y, x - mx + l)
      invariant 0 <= l <= mx && word == ColumnSlice(board, y, x - mx, l)
      decreases mx - l
    {
      word := word + [board[x - mx + l][y]];
      l := l + 1;
    }
  }

  /**
   * The mx loop and the first word loop of getCols for square (row y, column x): count the
   * tiles directly left of it, then read them left to right.
   */
  method ReadLeft(board: Board, x: int, y: int) returns (mx: nat, word: string)
    requires OnBoard(y, x) && Vacant(board, y, x)
    ensures word == LeftOf(board, y, x) && |word| == mx
  {
    mx := 0;
    while !IsEmpty(board, x - mx - 1, y)
      invariant mx <= TilesLeft(board, y, x - 1)
      decreases TilesLeft(board, y, x - 1) - mx
    {
      mx := mx + 1;
    }
    word := "";
    var l := 0;
    while !IsEmpty(board, x - mx + l, y)
      invariant 0 <= l <= mx && word == RowSlice(board, y, x - mx, l)
      decreases mx - l
    {
      word := word + [board[y][x - mx + l]];
      l := l + 1;
    }
  }

  /**
   * The nx loop and the second word loop, the same in getRows and getCols: count the tiles
   * below square (row x, column y), then append them to `word` top to bottom.
   */
  method ReadBelow(board: Board, x: int, y: int, word: string) returns (out: string)
    requires OnBoard(x, y)
    ensures out == word + Below(board, x, y)
  {
    var nx := 0;
    while !IsEmpty(board, y, x + nx + 1)
      invariant nx <= TilesDown(board, x + 1, y)
      decreases TilesDown(board, x + 1, y) - nx
    {
      nx := nx + 1;
    }
    out := word;
    var l := nx - 1;
    while !IsEmpty(board, y, x + nx - l)
      invariant -1 <= l <= nx - 1 && out == word + ColumnSlice(board, y, x + 1, nx - 1 - l)
      decreases l + 1
    {
      out := out + [board[x + nx - l][y]];
      l := l - 1;
    }
  }

  // ---------------------------------------------------------------- the Dawg object

  /** Dawg: the word tree loaded from the word list and the grid rows[30][15]. */
  class Dawg {
    const tree: DawgTree
    const rows: array2<Mask>

    ghost predicate Valid()
      reads tree
    {
      tree.Valid() && rows.Length0 == 30 && rows.Length1 == 15
    }

    /** Dawg(file): the tree holds exactly the lines of the word list; the grid is all zero. */
    constructor (lines: seq<string>)
      ensures Valid() && fresh(rows)
      ensures forall w :: Accepts(tree.nodes, w) <==> w in lines
      ensures forall i, j :: 0 <= i < 30 && 0 <= j < 15 ==> rows[i, j] == {}
    {
      tree := new DawgTree(lines);
      rows := new Mask[30, 15]((_, _) => {});
    }

    /** getRows: every horizontal entry rows[x + 15][y] is RowEntry, the centre an anchor. */
    method GetRows(board: Board, subset: Mask)
      requires Valid()
      modifies rows
      ensures forall i, j :: 0 <= i < 15 && 0 <= j < 15 ==> rows[i, j] == old(rows[i, j])
      ensures forall i, j :: 15 <= i < 30 && 0 <= j < 15 ==>
                rows[i, j] == RowEntry(board, subset, tree.nodes, i - 15, j) + Centre(i - 15, j)
    {
      for x := 0 to 15
        invariant forall i, j :: 0 <= i < 30 && 0 <= j < 15 && !(15 <= i < 15 + x) ==> rows[i, j] == old(rows[i, j])
        invariant forall i, j :: 15 <= i < 15 + x && 0 <= j < 15 ==>
                    rows[i, j] == RowEntry(board, subset, tree.nodes, i - 15, j)
      {
        RowLine(board, subset, x);
      }
      rows[22, 7] := rows[22, 7] + ToMask(AnchorChar);
    }

    /** One pass of getRows' outer loop: row x of the board into rows[x + 15]. */
    method RowLine(board: Board, subset: Mask, x: int)
      requires Valid() && 0 <= x < 15
      modifies rows
      ensures forall i, j :: 0 <= i < 30 && 0 <= j < 15 && i != x + 15 ==> rows[i, j] == old(rows[i, j])
      ensures forall j :: 0 <= j < 15 ==> rows[x + 15, j] == RowEntry(board, subset, tree.nodes, x, j)
    {
      for y := 0 to 15
        invariant forall i, j :: 0 <= i < 30 && 0 <= j < 15 && !(i == x + 15 && j < y) ==> rows[i, j] == old(rows[i, j])
        invariant forall j :: 0 <= j < y ==> rows[x + 15, j] == RowEntry(board, subset, tree.nodes, x, j)
      {
        var m := RowSquare(board, subset, x, y);
        rows[x + 15, y] := m;
      }
    }

    /** The body of getRows' inner loop for square (row x, column y). */
    method RowSquare(board: Board, subset: Mask, x: int, y: int) returns (m: Mask)
      requires Valid() && OnBoard(x, y)
      ensures m == RowEntry(board, subset, tree.nodes, x, y)
    {
      var ch := board[x][y];
      if !IsEmpty(board, y, x) {
        return ToMask(ch) + ToMask(AnchorChar) + ToMask(StaticChar);
      }
      m := ToMask(EmptyChar);
      if IsEmpty(board, y, x - 1) && IsEmpty(board, y, x + 1) {
        return m + subset;
      }
      m := m + ToMask(AnchorChar);
      var mx, word := ReadAbove(board, x, y);
      word := ReadBelow(board, x, y, word);
      var bits := CrossLetters(subset, mx, word, Above(board, x, y), Below(board, x, y));
      m := m + bits;
    }

    /** getCols: every vertical entry rows[x][y] is ColEntry, and rows[x + 15][y] gains ColCross. */
    method GetCols(board: Board, subset: Mask)
      requires Valid()
      modifies rows
      ensures forall i, j :: 0 <= i < 15 && 0 <= j < 15 ==>
                rows[i, j] == ColEntry(board, subset, i, j) + Centre(i, j)
      ensures forall i, j :: 15 <= i < 30 && 0 <= j < 15 ==>
                rows[i, j] == old(rows[i, j]) + ColCross(board, subset, tree.nodes, i - 15, j)
    {
      for x := 0 to 15
        invariant forall i, j :: 0 <= i < 15 && 0 <= j < 15 && x <= i ==> rows[i, j] == old(rows[i, j])
        invariant forall i, j :: 15 + x <= i < 30 && 0 <= j < 15 ==> rows[i, j] == old(rows[i, j])
        invariant forall i, j :: 0 <= i < x && 0 <= j < 15 ==> rows[i, j] == ColEntry(board, subset, i, j)
        invariant forall i, j :: 15 <= i < 15 + x && 0 <= j < 15 ==>
                    rows[i, j] == old(rows[i, j]) + ColCross(board, subset, tree.nodes, i - 15, j)
      {
        ColLine(board, subset, x);
      }
      rows[7, 7] := rows[7, 7] + ToMask(AnchorChar);
    }

    /** One pass of getCols' outer loop: column x of the board into rows[x], cross bits into rows[x + 15]. */
    method ColLine(board: Board, subset: Mask, x: int)
      requires Valid() && 0 <= x < 15
      modifies rows
      ensures forall i, j :: 0 <= i < 30 && 0 <= j < 15 && i != x && i != x + 15 ==> rows[i, j] == old(rows[i, j])
      ensures forall j :: 0 <= j < 15 ==> rows[x, j] == ColEntry(board, subset, x, j)
      ensures forall j :: 0 <= j < 15 ==> rows[x + 15, j] == old(rows[x + 15, j]) + ColCross(board, subset, tree.nodes, x, j)
    {
      var h := x + 15;
      for y := 0 to 15
        invariant forall i, j :: 0 <= i < 30 && i != x && i != h && 0 <= j < 15 ==> rows[i, j] == old(rows[i, j])
        invariant forall j :: y <= j < 15 ==> rows[x, j] == old(rows[x, j])
        invariant forall j :: y <= j < 15 ==> rows[h, j] == old(rows[h, j])
        invariant forall j :: 0 <= j < y ==> rows[x, j] == ColEntry(board, subset, x, j)
        invariant forall j :: 0 <= j < y ==> rows[h, j] == old(rows[h, j]) + ColCross(board, subset, tree.nodes, x, j)
      {
        ColStore(board, subset, x, y);
      }
    }

    /** One pass of getCols' inner loop: square (row y, column x) into rows[x][y] and rows[x + 15][y]. */
    method ColStore(board: Board, subset: Mask, x: int, y: int)
      requires Valid() && OnBoard(y, x)
      modifies rows
      ensures forall i, j :: 0 <= i < 30 && 0 <= j < 15 && !(j == y && (i == x || i == x + 15)) ==> rows[i, j] == old(rows[i, j])
      ensures rows[x, y] == ColEntry(board, subset, x, y)
      ensures rows[x + 15, y] == old(rows[x + 15, y]) + ColCross(board, subset, tree.nodes, x, y)
    {
      var m, cross := ColSquare(board, subset, x, y);
      rows[x, y] := m;
      rows[x + 15, y] := rows[x + 15, y] + cross;
    }

    /**
     * The body of getCols' inner loop for square (row y, column x): its own entry, and the
     * letter bits the code ORs into rows[x + 15][y].
     */
    method ColSquare(board: Board, subset: Mask, x: int, y: int) returns (m: Mask, cross: Mask)
      requires Valid() && OnBoard(y, x)
      ensures m == ColEntry(board, subset, x, y)
      ensures cross == ColCross(board, subset, tree.nodes, x, y)
    {
      var ch := board[y][x];
      cross := {};
      if !IsEmpty(board, x, y) {
        return ToMask(ch) + ToMask(AnchorChar) + ToMask(StaticChar), cross;
      }
      m := ToMask(EmptyChar);
      if IsEmpty(board, x - 1, y) && IsEmpty(board, x + 1, y) {
        return m + subset, cross;
      }
      m := m + ToMask(AnchorChar);
      var mx, word := ReadLeft(board, x, y);
      word := ReadBelow(board, x, y, word);
      cross := CrossLetters(subset, mx, word, LeftOf(board, y, x), Below(board, x, y));
    }

    /**
     * The letter loop of getRows and getCols: for each letter the hand can supply, splice it
     * into `word` at position mx and keep its bit when the tree holds the result.
     */
    method CrossLetters(subset: Mask, mx: nat, word: string, ghost before: string, ghost after: string)
      returns (bits: Mask)
      requires Valid() && word == before + after && |before| == mx
      ensures bits == CrossUpto(tree.nodes, subset, before, after, 26)
    {
      bits := {};
      var w := word;
      for n := 0 to 26
        invariant bits == CrossUpto(tree.nodes, subset, before, after, n)
        invariant |w| >= mx && w[..mx] == before
        invariant |after| > 0 ==> |w| == mx + |after| && w[mx + 1..] == after[1..]
        invariant |after| == 0 ==> |w| <= mx + 1
      {
        var letter := Letter(n);
        if MaskContains(subset, letter) || MaskContains(subset, BlankChar) {
          if |w| > mx {
            w := w[..mx] + [letter] + w[mx + 1..];
          } else {
            w := w[..mx] + [letter];
          }
          assert w == Splice(before, after, letter);
          var ok := tree.Verify(w);
          if ok {
            bits := bits + ToMask(letter);
          }
        }
      }
    }

    /** The snapshot of rows[30][15] as a grid of values. */
    ghost function Snapshot(): (g: seq<seq<Mask>>)
      reads rows
      requires rows.Length0 == 30 && rows.Length1 == 15
      ensures Shaped(g)
      ensures forall i, j :: 0 <= i < 30 && 0 <= j < 15 ==> g[i][j] == rows[i, j]
    {
      seq(30, i requires 0 <= i < 30 reads rows => seq(15, j requires 0 <= j < 15 reads rows => rows[i, j]))
    }

    /**
     * findAllMoves: the grid becomes the Grid of the board and the hand's subset, and the
     * result is every move the walks record, square by square, with its blank spellings.
     */
    method FindAllMoves(board: Board, hand: seq<char>) returns (r: Result<seq<Move>, Error>)
      requires Valid() && TileChars(hand)
      modifies rows
      ensures forall i, j :: 0 <= i < 30 && 0 <= j < 15 ==>
                rows[i, j] == Entry(board, SubsetOf(hand), tree.nodes, i, j)
      ensures r.Failure? <==> AllMoves(board, hand, tree.nodes).Failure?
      ensures r.Success? ==> r.value == AllMoves(board, hand, tree.nodes).value
    {
      var subset := HandSubset(hand);
      FillGrid(board, subset);
      var moves := SearchAll(hand, Snapshot());
      if moves.Failure? {
        return Failure(NullChild);
      }
      var out := PermuteMovesWithBlanks(moves.value, hand);
      return Success(out);
    }

    /** findAllMoves' square loop over the filled grid, x outer and y inner. */
    method SearchAll(hand: seq<char>, ghost g: seq<seq<Mask>>) returns (r: Result<seq<Move>, Error>)
      requires Valid() && TileChars(hand)
      requires Shaped(g) && g == Snapshot()
      ensures r.Failure? <==> Found(g, tree.nodes, Tally(hand), 15).Failure?
      ensures r.Success? ==> r.value == Found(g, tree.nodes, Tally(hand), 15).value
    {
      var moves: seq<Move> := [];
      for x := 0 to 15
        invariant Found(g, tree.nodes, Tally(hand), x) == Success(moves)
      {
        var res := SearchLine(hand, moves, x, g);
        if res.Failure? {
          FoundStaysFailed(g, tree.nodes, Tally(hand), x + 1, 15);
          return Failure(NullChild);
        }
        moves := res.value;
      }
      return Success(moves);
    }

    /** getRows then getCols, as findAllMoves calls them: the grid becomes Grid. */
    method FillGrid(board: Board, subset: Mask)
      requires Valid()
      modifies rows
      ensures Snapshot() == Grid.Grid(board, subset, tree.nodes)
    {
      GetRows(board, subset);
      GetCols(board, subset);
      ghost var g := Grid.Grid(board, subset, tree.nodes);
      forall i | 0 <= i < 30 ensures Snapshot()[i] == g[i] {
        assert forall j :: 0 <= j < 15 ==> Snapshot()[i][j] == g[i][j];
      }
    }

    /** The square loop of findAllMoves for one x: y from 0 to 14, appending to `moves`. */
    method SearchLine(hand: seq<char>, moves: seq<Move>, x: nat, ghost g: seq<seq<Mask>>)
      returns (r: Result<seq<Move>, Error>)
      requires Valid() && TileChars(hand) && x < 15
      requires Shaped(g) && g == Snapshot()
      ensures r.Failure? <==> LineMoves(g, tree.nodes, Tally(hand), x, 15).Failure?
      ensures r.Success? ==> r.value == moves + LineMoves(g, tree.nodes, Tally(hand), x, 15).value
    {
      var acc := moves;
      for y := 0 to 15
        invariant LineMoves(g, tree.nodes, Tally(hand), x, y).Success?
        invariant acc == moves + LineMoves(g, tree.nodes, Tally(hand), x, y).value
      {
        var res := SearchSquare(hand, acc, x, y, g);
        if res.Failure? {
          LineStaysFailed(g, tree.nodes, Tally(hand), x, y + 1, 15);
          return Failure(NullChild);
        }
        acc := res.value;
      }
      return Success(acc);
    }

    /** One pass of findAllMoves' square loop: the vertical walk, then the horizontal walk. */
    method SearchSquare(hand: seq<char>, moves: seq<Move>, x: nat, y: nat, ghost g: seq<seq<Mask>>)
      returns (r: Result<seq<Move>, Error>)
      requires Valid() && TileChars(hand) && x < 15 && y < 15
      requires Shaped(g) && g == Snapshot()
      ensures r.Failure? <==> SquareMoves(g, tree.nodes, Tally(hand), x, y).Failure?
      ensures r.Success? ==> r.value == moves + SquareMoves(g, tree.nodes, Tally(hand), x, y).value
    {
      var letters := CountTiles(hand);
      var remainingC: seq<Mask> := [];
      var remainingR: seq<Mask> := [];
      for i := y to 15
        invariant remainingC == g[x][y..i] && remainingR == g[x + 15][y..i]
      {
        remainingC := remainingC + [rows[x, i]];
        remainingR := remainingR + [rows[x + 15, i]];
      }
      assert g[x][y..15] == g[x][y..] && g[x + 15][y..15] == g[x + 15][y..];
      r := FindAllWordsInRow(tree.nodes, moves, Location(y, x), Vertical, "", false, letters, Some(0), remainingC);
      if r.Failure? {
        return;
      }
      r := FindAllWordsInRow(tree.nodes, r.value, Location(x, y), Horizontal, "", false, letters, Some(0), remainingR);
    }
  }

  // ---------------------------------------------------------------- the player

  /** The player: its Dawg, loaded from the word list. */
  class Player {
    const dawg: Dawg

    constructor (lines: seq<string>)
      ensures dawg.Valid() && fresh(dawg.rows)
      ensures forall w :: Accepts(dawg.tree.nodes, w) <==> w in lines
    {
      dawg := new Dawg(lines);
    }

    /**
     * chooseMove: every move findAllMoves returns, then the best legal one by score, or an
     * exchange of all tiles. A failed walk is the NullPointerException that ends the call.
     */
    method ChooseMove(board: Board, hand: seq<char>, legal: Move -> bool, score: Move -> int)
      returns (r: Result<Action, Error>)
      requires dawg.Valid() && TileChars(hand)
      modifies dawg.rows
      ensures r.Failure? <==> AllMoves(board, hand, dawg.tree.nodes).Failure?
      ensures r.Success? ==> Selected(AllMoves(board, hand, dawg.tree.nodes).value, legal, score, r.value)
    {
      var moveList := dawg.FindAllMoves(board, hand);
      if moveList.Failure? {
        return Failure(NullChild);
      }
      var action := SelectMove(moveList.value, legal, score);
      return Success(action);
    }
  }
}
