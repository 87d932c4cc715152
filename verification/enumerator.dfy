/**
 * findAllWordsInRow: the depth-first walk that lays tiles along one line of squares, square by
 * square, following the word tree, and records every word that may end where it stops.
 *
 * A line is given by the masks of its remaining squares (see Grid). The tiles laid so far form
 * `word`: a letter for a tile taken from the hand, BlankChar for a blank, and ' ' for a square
 * that already holds a tile. The walk follows the tree by `keys`: the letter itself, or the
 * upper-case letter for a blank.
 */
module Enumerator {
  import opened Wrappers
  import opened Letters
  import opened Masks
  import opened Trie

  datatype Direction = Horizontal | Vertical

  /** A square: row and column. */
  datatype Location = Location(row: int, col: int)

  /** A candidate play: the tiles laid, the square of the first one, and the direction. */
  datatype Move = Move(word: string, location: Location, direction: Direction)

  /** The walk dereferences a child the tree does not have (a NullPointerException). */
  datatype Error = NullChild

  /** Tile counts: entries 0..25 for the letters 'a'..'z', entry 26 for blanks. */
  type Hand = h: seq<int> | |h| == 27 witness seq(27, _ => 0)

  predicate NonNegative(hand: Hand) {
    forall i :: 0 <= i < 27 ==> hand[i] >= 0
  }

  /** children.get(key) from vertex n: absent when there is no such edge. */
  function Child(nodes: seq<Vertex>, n: nat, key: char): (c: Option<nat>)
    ensures c.Some? <==> n < |nodes| && key in nodes[n].children
    ensures Walk(nodes, n, [key]) == c
  {
    assert [key][1..] == [];
    if n < |nodes| && key in nodes[n].children then Some(nodes[n].children[key]) else None
  }

  /** head.isWord for a vertex of the arena. */
  predicate IsWordAt(nodes: seq<Vertex>, n: nat) {
    n < |nodes| && nodes[n].isWord
  }

  /** One square's worth of play: the hand afterwards, the tile laid and the key followed. */
  datatype Step = Step(hand: Hand, tile: char, key: char)

  /**
   * The tile laid, on a square whose mask is m, for the letter i: on a STATIC square nothing
   * leaves the hand and the tile is ' '; otherwise the letter while the hand holds one, and a
   * blank, followed under the upper-case letter, when it does not.
   */
  predicate Fits(m: Mask, tile: char, key: char) {
    && (IsLower(key) || IsUpper(key))
    && MaskContains(m, ToLower(key))
    && if MaskContains(m, StaticChar) then tile == ' ' && IsLower(key)
       else (IsLower(key) && tile == key) || (IsUpper(key) && tile == BlankChar)
  }

  /** Whether the hand can lay letter i on a square with mask m (or need not, it being STATIC). */
  predicate Affordable(hand: Hand, m: Mask, i: nat)
    requires i < 26
  {
    !(hand[i] == 0 && hand[26] == 0 && !MaskContains(m, StaticChar))
  }

  function Place(hand: Hand, m: Mask, i: nat): (s: Step)
    requires i < 26
    ensures ToLower(s.key) == Letter(i)
    ensures MaskContains(m, Letter(i)) ==> Fits(m, s.tile, s.key)
    ensures s.tile == BlankChar <==> !MaskContains(m, StaticChar) && hand[i] == 0
    ensures MaskContains(m, StaticChar) ==> s.hand == hand
    ensures !MaskContains(m, StaticChar) ==>
      && BitOf(s.tile) < 27 && s.tile == Letter(BitOf(s.tile))
      && s.hand == hand[BitOf(s.tile) := hand[BitOf(s.tile)] - 1]
    ensures NonNegative(hand) && Affordable(hand, m, i) ==> NonNegative(s.hand)
  {
    if MaskContains(m, StaticChar) then Step(hand, ' ', Letter(i))
    else if hand[i] == 0 then Step(hand[26 := hand[26] - 1], BlankChar, ToUpper(Letter(i)))
    else Step(hand[i := hand[i] - 1], Letter(i), Letter(i))
  }

  /**
   * What the walk records, from the partial word `word` at vertex `head`, over the squares
   * `remaining`: the word itself when it may end here, then, letter by letter from 'a' to 'z',
   * what each possible next tile leads to. A NullChild failure aborts the whole walk.
   */
  function Explore(nodes: seq<Vertex>, loc: Location, dir: Direction, word: string, anchored: bool,
                   hand: Hand, head: Option<nat>, remaining: seq<Mask>): Result<seq<Move>, Error>
    decreases |remaining|, 27
  {
    var canEnd := |remaining| == 0 || MaskContains(remaining[0], EmptyChar);
    if canEnd && anchored && head.None? then Failure(NullChild)
    else
      var here := if canEnd && anchored && IsWordAt(nodes, head.value) then [Move(word, loc, dir)] else [];
      if |remaining| == 0 then Success(here)
      else
        var later := TryLetters(nodes, loc, dir, word, anchored || MaskContains(remaining[0], AnchorChar),
                                hand, head, remaining, 26);
        if later.Failure? then later else Success(here + later.value)
  }

  /** The moves recorded for the first n letters, in order, on the first remaining square. */
  function TryLetters(nodes: seq<Vertex>, loc: Location, dir: Direction, word: string, anchored: bool,
                      hand: Hand, head: Option<nat>, remaining: seq<Mask>, n: nat): Result<seq<Move>, Error>
    requires |remaining| > 0 && n <= 26
    decreases |remaining|, n
  {
    if n == 0 then Success([])
    else
      var before := TryLetters(nodes, loc, dir, word, anchored, hand, head, remaining, n - 1);
      if before.Failure? then before
      else
        var last := TryLetter(nodes, loc, dir, word, anchored, hand, head, remaining, n - 1);
        if last.Failure? then last else Success(before.value + last.value)
  }

  /** The moves recorded after laying letter i on the first remaining square. */
  function TryLetter(nodes: seq<Vertex>, loc: Location, dir: Direction, word: string, anchored: bool,
                     hand: Hand, head: Option<nat>, remaining: seq<Mask>, i: nat): Result<seq<Move>, Error>
    requires |remaining| > 0 && i < 26
    decreases |remaining|, 0
  {
    var m := remaining[0];
    if !MaskContains(m, Letter(i)) || !Affordable(hand, m, i) then Success([])
    else if head.None? then Failure(NullChild)
    else if Child(nodes, head.value, Letter(i)).None? then Success([])
    else
      var s := Place(hand, m, i);
      Explore(nodes, loc, dir, word + [s.tile], anchored, s.hand, Child(nodes, head.value, s.key), remaining[1..])
  }

  /**
   * The tiles laid spell a word of the tree from vertex n along the keys: each tile fits its
   * square under its key, and the walk along the keys ends on a word vertex.
   */
  predicate Spells(nodes: seq<Vertex>, n: nat, tiles: string, keys: string, masks: seq<Mask>) {
    && |keys| == |tiles| <= |masks|
    && (forall j :: 0 <= j < |tiles| ==> Fits(masks[j], tiles[j], keys[j]))
    && var e := Walk(nodes, n, keys); e.Some? && IsWordAt(nodes, e.value)
  }

  /**
   * The move extends `word` by at most one tile per square, at the walk's location and in its
   * direction, and the square after its last tile may be empty (or the line ends there).
   */
  predicate Extends(loc: Location, dir: Direction, word: string, remaining: seq<Mask>, mv: Move) {
    && mv.location == loc && mv.direction == dir
    && |word| <= |mv.word| <= |word| + |remaining|
    && mv.word[..|word|] == word
    && (|mv.word| - |word| == |remaining| || MaskContains(remaining[|mv.word| - |word|], EmptyChar))
  }

  /** The tiles touch an anchor, unless the walk was anchored already. */
  predicate Anchors(anchored: bool, remaining: seq<Mask>, tiles: string) {
    anchored || exists j :: 0 <= j < |tiles| && j < |remaining| && MaskContains(remaining[j], AnchorChar)
  }

  /** The tiles take no more of each letter, and of BLANK, than the hand holds. */
  predicate Within(hand: Hand, tiles: string) {
    forall i :: 0 <= i < 27 ==> Count(tiles, Letter(i)) <= hand[i]
  }

  /**
   * What a recorded move must be, for a walk started with `word` at `head` over `remaining`:
   * it Extends `word`, Anchors, stays Within the hand, and its tiles spell a word of the tree.
   */
  ghost predicate Sound(nodes: seq<Vertex>, loc: Location, dir: Direction, word: string, anchored: bool,
                        hand: Hand, head: Option<nat>, remaining: seq<Mask>, mv: Move)
  {
    && Extends(loc, dir, word, remaining, mv)
    && var tiles := mv.word[|word|..];
    && Anchors(anchored, remaining, tiles)
    && Within(hand, tiles)
    && head.Some?
    && exists keys :: Spells(nodes, head.value, tiles, keys, remaining)
  }

  /** One tile more in the word is one square less in the line. */
  lemma StepExtends(loc: Location, dir: Direction, word: string, tile: char, remaining: seq<Mask>, mv: Move)
    requires |remaining| > 0 && Extends(loc, dir, word + [tile], remaining[1..], mv)
    ensures Extends(loc, dir, word, remaining, mv)
    ensures mv.word[|word|..] == [tile] + mv.word[|word| + 1..]
  {
    assert mv.word[..|word|] == mv.word[..|word| + 1][..|word|];
  }

  /** The anchor flag passed down stands for the first square. */
  lemma StepAnchors(anchored: bool, remaining: seq<Mask>, tile: char, rest: string)
    requires |remaining| > 0 && Anchors(anchored || MaskContains(remaining[0], AnchorChar), remaining[1..], rest)
    ensures Anchors(anchored, remaining, [tile] + rest)
  {
    if !anchored && !MaskContains(remaining[0], AnchorChar) {
      var j :| 0 <= j < |rest| && j < |remaining[1..]| && MaskContains(remaining[1..][j], AnchorChar);
      assert MaskContains(remaining[j + 1], AnchorChar);
    }
  }

  /** The counts in the hand cover one more tile when the hand before the tile is used. */
  lemma StepCounts(hand: Hand, m: Mask, i: nat, rest: string)
    requires i < 26
    requires Within(Place(hand, m, i).hand, rest)
    ensures Within(hand, [Place(hand, m, i).tile] + rest)
  {
    var s := Place(hand, m, i);
    forall k | 0 <= k < 27 ensures Count([s.tile] + rest, Letter(k)) <= hand[k] {
      assert ([s.tile] + rest)[1..] == rest;
      if !MaskContains(m, StaticChar) && k != BitOf(s.tile) {
        assert BitOf(Letter(k)) == k;
      }
    }
  }

  /** Keys that spell the rest from the child, preceded by the tile's key, spell it all from head. */
  lemma StepSpells(nodes: seq<Vertex>, head: nat, hand: Hand, remaining: seq<Mask>, i: nat, rest: string)
    requires |remaining| > 0 && i < 26 && MaskContains(remaining[0], Letter(i))
    requires var s := Place(hand, remaining[0], i);
      && Child(nodes, head, s.key).Some?
      && exists keys :: Spells(nodes, Child(nodes, head, s.key).value, rest, keys, remaining[1..])
    ensures exists keys :: Spells(nodes, head, [Place(hand, remaining[0], i).tile] + rest, keys, remaining)
  {
    var s := Place(hand, remaining[0], i);
    var tiles := [s.tile] + rest;
    var keys' :| Spells(nodes, Child(nodes, head, s.key).value, rest, keys', remaining[1..]);
    var keys := [s.key] + keys';
    assert keys[1..] == keys';
    assert tiles[1..] == rest;
    forall j | 0 <= j < |tiles| ensures Fits(remaining[j], tiles[j], keys[j]) {
      if j > 0 {
        assert Fits(remaining[1..][j - 1], rest[j - 1], keys'[j - 1]);
      }
    }
    assert Spells(nodes, head, tiles, keys, remaining);
  }

  /** A move sound after one more tile is sound before it. */
  lemma StepSound(nodes: seq<Vertex>, loc: Location, dir: Direction, word: string, anchored: bool,
                  hand: Hand, head: nat, remaining: seq<Mask>, i: nat, mv: Move)
    requires |remaining| > 0 && i < 26
    requires MaskContains(remaining[0], Letter(i))
    requires var s := Place(hand, remaining[0], i);
      Sound(nodes, loc, dir, word + [s.tile], anchored || MaskContains(remaining[0], AnchorChar),
            s.hand, Child(nodes, head, s.key), remaining[1..], mv)
    ensures |mv.word| > |word|
    ensures Sound(nodes, loc, dir, word, anchored, hand, Some(head), remaining, mv)
  {
    var s := Place(hand, remaining[0], i);
    var rest := mv.word[|word| + 1..];
    StepExtends(loc, dir, word, s.tile, remaining, mv);
    StepAnchors(anchored, remaining, s.tile, rest);
    StepCounts(hand, remaining[0], i, rest);
    StepSpells(nodes, head, hand, remaining, i, rest);
  }

  /** Soundness of the walk: every move it records is Sound. */
  lemma {:induction false} ExploreSound(nodes: seq<Vertex>, loc: Location, dir: Direction, word: string,
                                        anchored: bool, hand: Hand, head: Option<nat>, remaining: seq<Mask>)
    requires NonNegative(hand)
    requires Explore(nodes, loc, dir, word, anchored, hand, head, remaining).Success?
    ensures forall mv :: mv in Explore(nodes, loc, dir, word, anchored, hand, head, remaining).value ==>
      Sound(nodes, loc, dir, word, anchored, hand, head, remaining, mv)
    decreases |remaining|, 27
  {
    var canEnd := |remaining| == 0 || MaskContains(remaining[0], EmptyChar);
    if canEnd && anchored && IsWordAt(nodes, head.value) {
      var mv := Move(word, loc, dir);
      assert mv.word[|word|..] == [];
      assert Spells(nodes, head.value, [], [], remaining);
      assert Sound(nodes, loc, dir, word, anchored, hand, head, remaining, mv);
    }
    if |remaining| > 0 {
      var next := anchored || MaskContains(remaining[0], AnchorChar);
      TryLettersSound(nodes, loc, dir, word, anchored, hand, head, remaining, 26);
    }
  }

  /** Soundness of the moves recorded for the first n letters. */
  lemma {:induction false} TryLettersSound(nodes: seq<Vertex>, loc: Location, dir: Direction, word: string,
                                           anchored: bool, hand: Hand, head: Option<nat>, remaining: seq<Mask>, n: nat)
    requires |remaining| > 0 && n <= 26 && NonNegative(hand)
    requires TryLetters(nodes, loc, dir, word, anchored || MaskContains(remaining[0], AnchorChar), hand, head, remaining, n).Success?
    ensures forall mv :: mv in TryLetters(nodes, loc, dir, word, anchored || MaskContains(remaining[0], AnchorChar),
                                           hand, head, remaining, n).value ==>
      |mv.word| > |word| && Sound(nodes, loc, dir, word, anchored, hand, head, remaining, mv)
    decreases |remaining|, n
  {
    if n > 0 {
      TryLettersSound(nodes, loc, dir, word, anchored, hand, head, remaining, n - 1);
      TryLetterSound(nodes, loc, dir, word, anchored, hand, head, remaining, n - 1);
    }
  }

  /** Soundness of the moves recorded after letter i. */
  lemma {:induction false} TryLetterSound(nodes: seq<Vertex>, loc: Location, dir: Direction, word: string,
                                          anchored: bool, hand: Hand, head: Option<nat>, remaining: seq<Mask>, i: nat)
    requires |remaining| > 0 && i < 26 && NonNegative(hand)
    requires TryLetter(nodes, loc, dir, word, anchored || MaskContains(remaining[0], AnchorChar), hand, head, remaining, i).Success?
    ensures forall mv :: mv in TryLetter(nodes, loc, dir, word, anchored || MaskContains(remaining[0], AnchorChar),
                                          hand, head, remaining, i).value ==>
      |mv.word| > |word| && Sound(nodes, loc, dir, word, anchored, hand, head, remaining, mv)
    decreases |remaining|, 0
  {
    var next := anchored || MaskContains(remaining[0], AnchorChar);
    var m := remaining[0];
    if MaskContains(m, Letter(i)) && Affordable(hand, m, i) && head.Some? && Child(nodes, head.value, Letter(i)).Some? {
      var s := Place(hand, m, i);
      var child := Child(nodes, head.value, s.key);
      ExploreSound(nodes, loc, dir, word + [s.tile], next, s.hand, child, remaining[1..]);
      forall mv | mv in TryLetter(nodes, loc, dir, word, next, hand, head, remaining, i).value
        ensures |mv.word| > |word| && Sound(nodes, loc, dir, word, anchored, hand, head, remaining, mv)
      {
        StepSound(nodes, loc, dir, word, anchored, hand, head.value, remaining, i, mv);
      }
    }
  }

  /** Once the letters below m have failed, so have the letters below any n beyond m. */
  lemma {:induction false} TryLettersStaysFailed(nodes: seq<Vertex>, loc: Location, dir: Direction, word: string,
                                                 anchored: bool, hand: Hand, head: Option<nat>,
                                                 remaining: seq<Mask>, m: nat, n: nat)
    requires |remaining| > 0 && m <= n <= 26
    requires TryLetters(nodes, loc, dir, word, anchored, hand, head, remaining, m).Failure?
    ensures TryLetters(nodes, loc, dir, word, anchored, hand, head, remaining, n).Failure?
    decreases n
  {
    if m < n {
      TryLettersStaysFailed(nodes, loc, dir, word, anchored, hand, head, remaining, m, n - 1);
    }
  }

  /** The walk may record the partial word itself: the line may end here, an anchor was touched, the vertex is a word. */
  predicate RecordsHere(nodes: seq<Vertex>, anchored: bool, head: Option<nat>, remaining: seq<Mask>) {
    && (|remaining| == 0 || MaskContains(remaining[0], EmptyChar))
    && anchored && head.Some? && IsWordAt(nodes, head.value)
  }

  /**
   * The walk records the partial word exactly when RecordsHere holds, and then first, before
   * every move that extends it; every other move it records is longer.
   */
  lemma RecordsWordFirst(nodes: seq<Vertex>, loc: Location, dir: Direction, word: string, anchored: bool,
                         hand: Hand, head: Option<nat>, remaining: seq<Mask>)
    requires NonNegative(hand)
    requires Explore(nodes, loc, dir, word, anchored, hand, head, remaining).Success?
    ensures var ms := Explore(nodes, loc, dir, word, anchored, hand, head, remaining).value;
      && (Move(word, loc, dir) in ms <==> RecordsHere(nodes, anchored, head, remaining))
      && (RecordsHere(nodes, anchored, head, remaining) ==> ms[0] == Move(word, loc, dir))
      && forall k :: 0 <= k < |ms| && (k > 0 || !RecordsHere(nodes, anchored, head, remaining)) ==>
           |ms[k].word| > |word|
  {
    if |remaining| > 0 {
      TryLettersSound(nodes, loc, dir, word, anchored, hand, head, remaining, 26);
    }
  }

  /**
   * Without a blank in the hand the walk never fails: every key it follows is a letter it has
   * just found among the children.
   */
  lemma {:induction false} ExploreWithoutBlanks(nodes: seq<Vertex>, loc: Location, dir: Direction, word: string,
                                                anchored: bool, hand: Hand, n: nat, remaining: seq<Mask>)
    requires WellFormed(nodes) && n < |nodes| && hand[26] == 0
    ensures Explore(nodes, loc, dir, word, anchored, hand, Some(n), remaining).Success?
    decreases |remaining|, 27
  {
    if |remaining| > 0 {
      TryLettersWithoutBlanks(nodes, loc, dir, word, anchored || MaskContains(remaining[0], AnchorChar), hand, n, remaining, 26);
    }
  }

  lemma {:induction false} TryLettersWithoutBlanks(nodes: seq<Vertex>, loc: Location, dir: Direction, word: string,
                                                   anchored: bool, hand: Hand, n: nat, remaining: seq<Mask>, k: nat)
    requires WellFormed(nodes) && n < |nodes| && hand[26] == 0
    requires |remaining| > 0 && k <= 26
    ensures TryLetters(nodes, loc, dir, word, anchored, hand, Some(n), remaining, k).Success?
    decreases |remaining|, k
  {
    if k > 0 {
      TryLettersWithoutBlanks(nodes, loc, dir, word, anchored, hand, n, remaining, k - 1);
      var m := remaining[0];
      var i := k - 1;
      if MaskContains(m, Letter(i)) && Affordable(hand, m, i) && Child(nodes, n, Letter(i)).Some? {
        var s := Place(hand, m, i);
        assert s.key == Letter(i);
        ExploreWithoutBlanks(nodes, loc, dir, word + [s.tile], anchored, s.hand, nodes[n].children[Letter(i)], remaining[1..]);
      }
    }
  }

  /**
   * With a blank in the hand and no letter i, on a square that allows letter i and is an anchor
   * and after which a word may end, the blank's upper-case key is looked up; if the tree has no
   * such edge the walk fails, whatever the other letters do.
   */
  lemma BlankWithoutUpperCaseEdgeFails(nodes: seq<Vertex>, loc: Location, dir: Direction, word: string,
                                       anchored: bool, hand: Hand, n: nat, remaining: seq<Mask>, i: nat)
    requires i < 26 && n < |nodes| && |remaining| > 0
    requires Letter(i) in nodes[n].children && ToUpper(Letter(i)) !in nodes[n].children
    requires hand[i] == 0 && hand[26] > 0
    requires MaskContains(remaining[0], Letter(i)) && !MaskContains(remaining[0], StaticChar)
    requires MaskContains(remaining[0], AnchorChar)
    requires |remaining| == 1 || MaskContains(remaining[1], EmptyChar)
    ensures Explore(nodes, loc, dir, word, anchored, hand, Some(n), remaining).Failure?
  {
    var next := anchored || MaskContains(remaining[0], AnchorChar);
    var s := Place(hand, remaining[0], i);
    assert Explore(nodes, loc, dir, word + [s.tile], next, s.hand, None, remaining[1..]).Failure?;
    assert TryLetter(nodes, loc, dir, word, next, hand, Some(n), remaining, i).Failure?;
    TryLettersStaysFailed(nodes, loc, dir, word, next, hand, Some(n), remaining, i + 1, 26);
  }

  /**
   * The missing child does not always throw: on a last square that is not anchored, the walk
   * neither records a word nor looks at a child's vertex, so it ends quietly with no moves,
   * even where a blank leads to an absent upper-case edge.
   */
  lemma UnanchoredLastSquareIsQuiet(nodes: seq<Vertex>, loc: Location, dir: Direction, word: string,
                                    hand: Hand, n: nat, m: Mask)
    requires !MaskContains(m, AnchorChar)
    ensures Explore(nodes, loc, dir, word, false, hand, Some(n), [m]) == Success([])
  {
    QuietLetters(nodes, loc, dir, word, hand, n, m, 26);
  }

  /** The first k letters on an unanchored last square record nothing and do not throw. */
  lemma {:induction false} QuietLetters(nodes: seq<Vertex>, loc: Location, dir: Direction, word: string,
                                        hand: Hand, n: nat, m: Mask, k: nat)
    requires k <= 26 && !MaskContains(m, AnchorChar)
    ensures TryLetters(nodes, loc, dir, word, false, hand, Some(n), [m], k) == Success([])
    decreases k
  {
    if k > 0 {
      QuietLetters(nodes, loc, dir, word, hand, n, m, k - 1);
      var i := k - 1;
      if MaskContains(m, Letter(i)) && Affordable(hand, m, i) && Child(nodes, n, Letter(i)).Some? {
        var s := Place(hand, m, i);
        assert [m][1..] == [];
        assert Explore(nodes, loc, dir, word + [s.tile], false, s.hand, Child(nodes, n, s.key), []) == Success([]);
      }
      assert TryLetter(nodes, loc, dir, word, false, hand, Some(n), [m], i) == Success([]);
      var none: seq<Move> := [];
      assert none + none == none;
    }
  }

  /** Every edge of the tree is labelled by a lower-case letter (a lower-case word list). */
  ghost predicate LowerCaseEdges(nodes: seq<Vertex>) {
    forall k, c :: 0 <= k < |nodes| && c in nodes[k].children ==> IsLower(c)
  }

  /** A walk that exists follows lower-case letters only, in such a tree. */
  lemma {:induction false} WalkIsLowerCase(nodes: seq<Vertex>, n: nat, w: string)
    requires LowerCaseEdges(nodes) && Walk(nodes, n, w).Some?
    ensures forall j :: 0 <= j < |w| ==> IsLower(w[j])
    decreases |w|
  {
    if w != [] {
      WalkIsLowerCase(nodes, nodes[n].children[w[0]], w[1..]);
      assert forall j :: 1 <= j < |w| ==> w[j] == w[1..][j - 1];
    }
  }

  /**
   * With a lower-case word list no recorded move lays a blank: a blank is followed under an
   * upper-case key, which no walk to a word vertex contains.
   */
  lemma SoundMovesHaveNoBlanks(nodes: seq<Vertex>, loc: Location, dir: Direction, word: string, anchored: bool,
                               hand: Hand, head: Option<nat>, remaining: seq<Mask>, mv: Move)
    requires LowerCaseEdges(nodes)
    requires Sound(nodes, loc, dir, word, anchored, hand, head, remaining, mv)
    ensures BlankChar !in mv.word[|word|..]
  {
    var tiles := mv.word[|word|..];
    var keys :| Spells(nodes, head.value, tiles, keys, remaining);
    WalkIsLowerCase(nodes, head.value, keys);
    forall j | 0 <= j < |tiles| ensures tiles[j] != BlankChar {
      assert Fits(remaining[j], tiles[j], keys[j]);
    }
  }

  /** findAllWordsInRow: appends to `moves` every move the walk records, in the walk's order. */
  method FindAllWordsInRow(nodes: seq<Vertex>, moves: seq<Move>, loc: Location, dir: Direction, word: string,
                           anchored: bool, hand: Hand, head: Option<nat>, remaining: seq<Mask>)
    returns (r: Result<seq<Move>, Error>)
    ensures r.Failure? <==> Explore(nodes, loc, dir, word, anchored, hand, head, remaining).Failure?
    ensures r.Success? ==> r.value == moves + Explore(nodes, loc, dir, word, anchored, hand, head, remaining).value
    decreases |remaining|, 2
  {
    var canEnd := true;
    if |remaining| > 0 {
      canEnd := MaskContains(remaining[0], EmptyChar);
    }
    var acc := moves;
    if canEnd && anchored {
      if head.None? {
        return Failure(NullChild);
      }
      if IsWordAt(nodes, head.value) {
        acc := acc + [Move(word, loc, dir)];
      }
    }
    if |remaining| > 0 {
      var next := anchored || MaskContains(remaining[0], AnchorChar);
      r := TryAllLetters(nodes, acc, loc, dir, word, next, hand, head, remaining);
    } else {
      r := Success(acc);
    }
  }

  /** The loop of findAllWordsInRow over the letters 'a' .. 'z' on the first remaining square. */
  method TryAllLetters(nodes: seq<Vertex>, moves: seq<Move>, loc: Location, dir: Direction, word: string,
                       anchored: bool, hand: Hand, head: Option<nat>, remaining: seq<Mask>)
    returns (r: Result<seq<Move>, Error>)
    requires |remaining| > 0
    ensures r.Failure? <==> TryLetters(nodes, loc, dir, word, anchored, hand, head, remaining, 26).Failure?
    ensures r.Success? ==> r.value == moves + TryLetters(nodes, loc, dir, word, anchored, hand, head, remaining, 26).value
    decreases |remaining|, 1
  {
    var acc := moves;
    for i := 0 to 26
      invariant TryLetters(nodes, loc, dir, word, anchored, hand, head, remaining, i).Success?
      invariant acc == moves + TryLetters(nodes, loc, dir, word, anchored, hand, head, remaining, i).value
    {
      var sub := PlayLetter(nodes, acc, loc, dir, word, anchored, hand, head, remaining, i);
      if sub.Failure? {
        TryLettersStaysFailed(nodes, loc, dir, word, anchored, hand, head, remaining, i + 1, 26);
        return Failure(NullChild);
      }
      acc := sub.value;
    }
    return Success(acc);
  }

  /** One turn of findAllWordsInRow's loop over the letters: letter i on the first remaining square. */
  method PlayLetter(nodes: seq<Vertex>, moves: seq<Move>, loc: Location, dir: Direction, word: string,
                    anchored: bool, hand: Hand, head: Option<nat>, remaining: seq<Mask>, i: nat)
    returns (r: Result<seq<Move>, Error>)
    requires |remaining| > 0 && i < 26
    ensures r.Failure? <==> TryLetter(nodes, loc, dir, word, anchored, hand, head, remaining, i).Failure?
    ensures r.Success? ==> r.value == moves + TryLetter(nodes, loc, dir, word, anchored, hand, head, remaining, i).value
    decreases |remaining|, 0
  {
    var m := remaining[0];
    var letter := Letter(i);
    if !MaskContains(m, letter) {
      return Success(moves);
    }
    if hand[i] == 0 && hand[26] == 0 && !MaskContains(m, StaticChar) {
      return Success(moves);
    }
    if head.None? {
      return Failure(NullChild);
    }
    if Child(nodes, head.value, letter).None? {
      return Success(moves);
    }
    var toPlay := letter;
    var tile := letter;
    if hand[i] == 0 && !MaskContains(m, StaticChar) {
      toPlay := ToUpper(letter);
      tile := BlankChar;
    }
    var newHand := hand;
    var newLetter := ' ';
    if !MaskContains(m, StaticChar) {
      newLetter := tile;
      newHand := newHand[BitOf(tile) := newHand[BitOf(tile)] - 1];
    }
    assert Step(newHand, newLetter, toPlay) == Place(hand, m, i);
    r := FindAllWordsInRow(nodes, moves, loc, dir, word + [newLetter], anchored, newHand,
                           Child(nodes, head.value, toPlay), remaining[1..]);
  }
}
