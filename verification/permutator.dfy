/**
 * permuteMovesWithBlanks: for every move, the spellings that differ only in which of its
 * letters are shown in upper case, an upper-case letter standing for a blank tile.
 *
 * For one move, `played` is the lower-cased sequence of its upper-case letters (blanks it
 * already plays) and `open` is the number of blanks in the hand less the number played. The
 * word is lower-cased, and then:
 *   no blank played:   the move itself; if open > 0, the word with each single position
 *                      upper-cased; if open == 2, also with each pair of positions upper-cased;
 *   one blank played:  the word with each occurrence of the played letter upper-cased, and if
 *                      open == 1, that with one more position upper-cased;
 *   two blanks played: the word with an occurrence of each played letter upper-cased;
 *   more:              nothing at all.
 * Upper-casing leaves anything but a lower-case letter unchanged, so a position holding ' ' or
 * a blank marker still counts as a variant.
 */
module Permutator {
  import opened Letters
  import opened Enumerator

  /** The word with position i upper-cased. */
  function UpperAt(w: string, i: nat): (r: string)
    requires i < |w|
    ensures |r| == |w| && r[i] == ToUpper(w[i])
    ensures forall k :: 0 <= k < |w| && k != i ==> r[k] == w[k]
  {
    seq(|w|, k requires 0 <= k < |w| => if k == i then ToUpper(w[k]) else w[k])
  }

  /** The upper-case letters of w, in order. */
  function Uppers(w: string): (u: string)
    ensures |u| <= |w|
    decreases |w|
  {
    if w == [] then []
    else Uppers(w[..|w| - 1]) + (if IsUpper(w[|w| - 1]) then [w[|w| - 1]] else [])
  }

  /** No blank played, two open: w (already upper-cased at i) upper-cased again at each j, i < j < upto. */
  function SecondUppers(w: string, i: nat, upto: nat): seq<string>
    requires i < |w| && upto <= |w|
    decreases upto
  {
    if upto <= i + 1 then [] else SecondUppers(w, i, upto - 1) + [UpperAt(w, upto - 1)]
  }

  /** No blank played: the variants for the first n positions. */
  function NoneDone(word: string, open: int, n: nat): seq<string>
    requires n <= |word|
  {
    if n == 0 then []
    else
      var w := UpperAt(word, n - 1);
      NoneDone(word, open, n - 1) + [w] + (if open == 2 then SecondUppers(w, n - 1, |word|) else [])
  }

  /** One blank played at i, one open: w upper-cased again at each j < upto that is not the played letter before i. */
  function OneDoneInner(w: string, word: string, p: char, i: nat, upto: nat): seq<string>
    requires |w| == |word| && upto <= |word|
  {
    if upto == 0 then []
    else
      OneDoneInner(w, word, p, i, upto - 1)
      + (if ToLower(word[upto - 1]) != p || upto - 1 > i then [UpperAt(w, upto - 1)] else [])
  }

  /** One blank played, of letter p: the variants for the first n positions. */
  function OneDone(word: string, p: char, open: int, n: nat): seq<string>
    requires n <= |word|
  {
    if n == 0 then []
    else
      OneDone(word, p, open, n - 1)
      + if word[n - 1] == p then
          var w := UpperAt(word, n - 1);
          [w] + (if open == 1 then OneDoneInner(w, word, p, n - 1, |word|) else [])
        else []
  }

  /** Two blanks played, of letters p and q, the first at i: the variants for the first `upto` positions of the second. */
  function TwoDoneInner(word: string, p: char, q: char, i: nat, upto: nat): seq<string>
    requires i < |word| && upto <= |word|
  {
    if upto == 0 then []
    else
      var j := upto - 1;
      TwoDoneInner(word, p, q, i, upto - 1)
      + (if word[i] == p && word[j] == q && (p != q || j > i) then [UpperAt(UpperAt(word, i), j)] else [])
  }

  /** Two blanks played: the variants for the first n positions of the first. */
  function TwoDone(word: string, p: char, q: char, n: nat): seq<string>
    requires n <= |word|
  {
    if n == 0 then [] else TwoDone(word, p, q, n - 1) + TwoDoneInner(word, p, q, n - 1, |word|)
  }

  /** The words as moves at the move's square and direction. */
  function AtMove(words: seq<string>, move: Move): (ms: seq<Move>)
    ensures |ms| == |words|
    ensures forall k :: 0 <= k < |ms| ==>
      ms[k].word == words[k] && ms[k].location == move.location && ms[k].direction == move.direction
  {
    seq(|words|, k requires 0 <= k < |words| => Move(words[k], move.location, move.direction))
  }

  /** The spellings of one move, given the number of blanks in the hand. */
  function Variants(move: Move, handBlanks: int): (vs: seq<Move>)
    ensures Uppers(move.word) == [] ==> |vs| > 0 && vs[0] == move
    ensures Uppers(move.word) == [] && handBlanks <= 0 ==> vs == [move]
    ensures |Uppers(move.word)| > 2 ==> vs == []
  {
    var played := LowerString(Uppers(move.word));
    var open := handBlanks - |played|;
    var word := LowerString(move.word);
    if |played| == 0 then
      [move] + AtMove(if open > 0 then NoneDone(word, open, |word|) else [], move)
    else if |played| == 1 then AtMove(OneDone(word, played[0], open, |word|), move)
    else if |played| == 2 then AtMove(TwoDone(word, played[0], played[1], |word|), move)
    else []
  }

  /** The spellings of every move, in order. */
  function PermuteAll(moves: seq<Move>, handBlanks: int): seq<Move>
  {
    if moves == [] then []
    else PermuteAll(moves[..|moves| - 1], handBlanks) + Variants(moves[|moves| - 1], handBlanks)
  }

  /** Upper-casing one position does not change the word once lower-cased. */
  lemma LowerUpperAt(w: string, i: nat)
    requires i < |w|
    ensures LowerString(UpperAt(w, i)) == LowerString(w)
  {
    LowerOfUpper(w[i]);
  }

  /** Lower-casing twice is lower-casing once. */
  lemma LowerLower(w: string)
    ensures LowerString(LowerString(w)) == LowerString(w)
  {
  }

  /** Every word of ws reads as `word` once lower-cased. */
  ghost predicate AllSpell(ws: seq<string>, word: string) {
    forall j :: 0 <= j < |ws| ==> LowerString(ws[j]) == LowerString(word)
  }

  lemma {:induction false} SecondUppersSpell(w: string, i: nat, upto: nat)
    requires i < |w| && upto <= |w|
    ensures AllSpell(SecondUppers(w, i, upto), w)
    decreases upto
  {
    if upto > i + 1 {
      SecondUppersSpell(w, i, upto - 1);
      LowerUpperAt(w, upto - 1);
    }
  }

  lemma AllSpellAppend(a: seq<string>, b: seq<string>, word: string)
    requires AllSpell(a, word) && AllSpell(b, word)
    ensures AllSpell(a + b, word)
  {
  }

  lemma {:induction false} NoneDoneSpell(word: string, open: int, n: nat)
    requires n <= |word|
    ensures AllSpell(NoneDone(word, open, n), word)
  {
    if n > 0 {
      NoneDoneSpell(word, open, n - 1);
      NoneDoneSpellNext(word, open, n - 1);
    }
  }

  /** One pass of case 0's loop adds only words that read as the word. */
  lemma NoneDoneSpellNext(word: string, open: int, i: nat)
    requires i < |word| && AllSpell(NoneDone(word, open, i), word)
    ensures AllSpell(NoneDone(word, open, i + 1), word)
  {
    var w := UpperAt(word, i);
    var tail := if open == 2 then SecondUppers(w, i, |word|) else [];
    NoneDoneNext(word, open, i);
    LowerUpperAt(word, i);
    SecondUppersSpell(w, i, |word|);
    AllSpellSame(SecondUppers(w, i, |word|), w, word);
    AllSpellAppend(NoneDone(word, open, i), [w], word);
    AllSpellAppend(NoneDone(word, open, i) + [w], tail, word);
  }

  /** Words that read as w read as any word that reads as w. */
  lemma AllSpellSame(ws: seq<string>, w: string, word: string)
    requires AllSpell(ws, w) && LowerString(w) == LowerString(word)
    ensures AllSpell(ws, word)
  {
  }

  lemma {:induction false} OneDoneInnerSpell(w: string, word: string, p: char, i: nat, upto: nat)
    requires |w| == |word| && upto <= |word|
    ensures AllSpell(OneDoneInner(w, word, p, i, upto), w)
  {
    if upto > 0 {
      OneDoneInnerSpell(w, word, p, i, upto - 1);
      LowerUpperAt(w, upto - 1);
    }
  }

  lemma {:induction false} OneDoneSpell(word: string, p: char, open: int, n: nat)
    requires n <= |word|
    ensures AllSpell(OneDone(word, p, open, n), word)
  {
    if n > 0 {
      OneDoneSpell(word, p, open, n - 1);
      if word[n - 1] == p {
        var w := UpperAt(word, n - 1);
        LowerUpperAt(word, n - 1);
        OneDoneInnerSpell(w, word, p, n - 1, |word|);
      }
    }
  }

  lemma {:induction false} TwoDoneInnerSpell(word: string, p: char, q: char, i: nat, upto: nat)
    requires i < |word| && upto <= |word|
    ensures AllSpell(TwoDoneInner(word, p, q, i, upto), word)
  {
    if upto > 0 {
      TwoDoneInnerSpell(word, p, q, i, upto - 1);
      LowerUpperAt(word, i);
      LowerUpperAt(UpperAt(word, i), upto - 1);
    }
  }

  lemma {:induction false} TwoDoneSpell(word: string, p: char, q: char, n: nat)
    requires n <= |word|
    ensures AllSpell(TwoDone(word, p, q, n), word)
  {
    if n > 0 {
      TwoDoneSpell(word, p, q, n - 1);
      TwoDoneInnerSpell(word, p, q, n - 1, |word|);
    }
  }

  /** v is m spelt with possibly different case, at the same square in the same direction. */
  ghost predicate SpellingOf(v: Move, m: Move) {
    v.location == m.location && v.direction == m.direction && LowerString(v.word) == LowerString(m.word)
  }

  /**
   * Every spelling of a move is the same word at the same square in the same direction: only
   * the case of its letters differs.
   */
  lemma VariantsKeepWord(move: Move, handBlanks: int)
    ensures forall v :: v in Variants(move, handBlanks) ==> SpellingOf(v, move)
  {
    var played := LowerString(Uppers(move.word));
    var open := handBlanks - |played|;
    var word := LowerString(move.word);
    LowerLower(move.word);
    NoneDoneSpell(word, open, |word|);
    OneDoneSpell(word, if |played| > 0 then played[0] else ' ', open, |word|);
    TwoDoneSpell(word, if |played| > 1 then played[0] else ' ', if |played| > 1 then played[1] else ' ', |word|);
  }

  lemma {:induction false} SecondUppersCount(w: string, i: nat, upto: nat)
    requires i < |w| && upto <= |w|
    ensures |SecondUppers(w, i, upto)| == if upto <= i + 1 then 0 else upto - i - 1
    decreases upto
  {
    if upto > i + 1 {
      SecondUppersCount(w, i, upto - 1);
    }
  }

  lemma {:induction false} NoneDoneCount(word: string, open: int, n: nat)
    requires n <= |word|
    ensures open != 2 ==> |NoneDone(word, open, n)| == n
    ensures open == 2 ==> 2 * |NoneDone(word, open, n)| == n * (2 * |word| - n + 1)
  {
    if n > 0 {
      NoneDoneCount(word, open, n - 1);
      SecondUppersCount(UpperAt(word, n - 1), n - 1, |word|);
      if open == 2 {
        var L := |word|;
        assert 2 * |NoneDone(word, open, n)| == (n - 1) * (2 * L - n + 2) + 2 * (L - n + 1);
        assert (n - 1) * (2 * L - n + 2) + 2 * (L - n + 1) == n * (2 * L - n + 1);
      }
    }
  }

  /**
   * A move with no blank shown yields itself, then with one blank in the hand (or three or
   * more) one spelling per position, and with exactly two also one per pair of positions.
   */
  lemma VariantsCount(move: Move, handBlanks: int)
    requires Uppers(move.word) == []
    ensures handBlanks <= 0 ==> |Variants(move, handBlanks)| == 1
    ensures handBlanks > 0 && handBlanks != 2 ==> |Variants(move, handBlanks)| == 1 + |move.word|
    ensures handBlanks == 2 ==> 2 * |Variants(move, handBlanks)| == 2 + |move.word| * (|move.word| + 1)
  {
    var word := LowerString(move.word);
    NoneDoneCount(word, handBlanks, |word|);
  }

  /** Every output move is a spelling of an input move. */
  lemma {:induction false} PermuteAllFromMoves(moves: seq<Move>, handBlanks: int)
    ensures forall v :: v in PermuteAll(moves, handBlanks) ==> exists m :: m in moves && SpellingOf(v, m)
    decreases |moves|
  {
    if moves != [] {
      var last := moves[|moves| - 1];
      PermuteAllFromMoves(moves[..|moves| - 1], handBlanks);
      VariantsKeepWord(last, handBlanks);
      forall v | v in PermuteAll(moves, handBlanks) ensures exists m :: m in moves && SpellingOf(v, m)
      {
        if v in Variants(last, handBlanks) {
          assert last in moves;
        } else {
          assert v in PermuteAll(moves[..|moves| - 1], handBlanks);
          var m :| m in moves[..|moves| - 1] && SpellingOf(v, m);
          assert m in moves;
        }
      }
    }
  }

  /** Every input move that shows no blank is kept, unchanged, among the outputs. */
  lemma {:induction false} PermuteAllKeepsPlainMoves(moves: seq<Move>, handBlanks: int)
    ensures forall m :: m in moves && Uppers(m.word) == [] ==> m in PermuteAll(moves, handBlanks)
    decreases |moves|
  {
    if moves != [] {
      PermuteAllKeepsPlainMoves(moves[..|moves| - 1], handBlanks);
      forall m | m in moves && Uppers(m.word) == [] ensures m in PermuteAll(moves, handBlanks) {
        if m !in moves[..|moves| - 1] {
          assert m == moves[|moves| - 1];
        }
      }
    }
  }

  /** A word with no upper-case letter shows no played blank. */
  lemma {:induction false} UppersOfPlain(w: string)
    requires forall j :: 0 <= j < |w| ==> !IsUpper(w[j])
    ensures Uppers(w) == []
    decreases |w|
  {
    if w != [] {
      UppersOfPlain(w[..|w| - 1]);
    }
  }

  /** A non-empty sequence is its front followed by its last element. */
  lemma SplitLast(moves: seq<Move>)
    requires |moves| > 0
    ensures moves[..|moves| - 1] + [moves[|moves| - 1]] == moves
  {
  }

  /** Without a blank in the hand, moves that show no blank come out exactly as they went in. */
  lemma {:induction false} PermuteAllWithoutBlanks(moves: seq<Move>, handBlanks: int)
    requires handBlanks <= 0
    requires forall k :: 0 <= k < |moves| ==> Uppers(moves[k].word) == []
    ensures PermuteAll(moves, handBlanks) == moves
    decreases |moves|
  {
    if moves != [] {
      var init, last := moves[..|moves| - 1], moves[|moves| - 1];
      PermuteAllWithoutBlanks(init, handBlanks);
      assert Variants(last, handBlanks) == [last];
      SplitLast(moves);
    }
  }

  /** permuteMovesWithBlanks. */
  method PermuteMovesWithBlanks(moves: seq<Move>, hand: seq<char>) returns (out: seq<Move>)
    ensures out == PermuteAll(moves, Count(hand, ' '))
  {
    out := [];
    for k := 0 to |moves|
      invariant out == PermuteAll(moves[..k], Count(hand, ' '))
    {
      var openBlanks := CountBlanks(hand);
      var variants := PermuteMove(moves[k], openBlanks);
      assert moves[..k + 1][..k] == moves[..k];
      out := out + variants;
    }
    assert moves[..|moves|] == moves;
  }

  /** The count of open blanks (' ') in the hand, as the loop over the hand computes it. */
  method CountBlanks(hand: seq<char>) returns (openBlanks: int)
    ensures openBlanks == Count(hand, ' ')
  {
    openBlanks := 0;
    for h := 0 to |hand|
      invariant openBlanks == Count(hand[..h], ' ')
    {
      CountAppend(hand[..h], [hand[h]], ' ');
      assert hand[..h + 1] == hand[..h] + [hand[h]];
      if hand[h] == ' ' {
        openBlanks := openBlanks + 1;
      }
    }
    assert hand[..|hand|] == hand;
  }

  /** The body of permuteMovesWithBlanks's loop for one move, given the blanks in the hand. */
  method PermuteMove(move: Move, handBlanks: int) returns (out: seq<Move>)
    ensures out == Variants(move, handBlanks)
  {
    var openBlanks := handBlanks;
    var played := "";
    for i := 0 to |move.word|
      invariant played == LowerString(Uppers(move.word[..i]))
      invariant openBlanks == handBlanks - |played|
    {
      assert move.word[..i + 1][..i] == move.word[..i];
      if IsUpper(move.word[i]) {
        openBlanks := openBlanks - 1;
        played := played + [ToLower(move.word[i])];
      }
    }
    assert move.word[..|move.word|] == move.word;
    var word := LowerString(move.word);
    var words: seq<string> := [];
    if |played| == 0 {
      if openBlanks > 0 {
        words := NoPlayedBlank(word, openBlanks);
      }
      out := [move] + AtMove(words, move);
    } else if |played| == 1 {
      words := OnePlayedBlank(word, played[0], openBlanks);
      out := AtMove(words, move);
    } else if |played| == 2 {
      words := TwoPlayedBlanks(word, played[0], played[1]);
      out := AtMove(words, move);
    } else {
      out := [];
    }
  }

  lemma SecondUppersNext(w: string, i: nat, j: nat)
    requires i <= j < |w|
    ensures SecondUppers(w, i, j + 1) == if j == i then [] else SecondUppers(w, i, j) + [UpperAt(w, j)]
  {
  }

  lemma NoneDoneNext(word: string, open: int, i: nat)
    requires i < |word|
    ensures NoneDone(word, open, i + 1) == NoneDone(word, open, i) + [UpperAt(word, i)]
      + (if open == 2 then SecondUppers(UpperAt(word, i), i, |word|) else [])
  {
  }

  lemma TwoDoneInnerNext(word: string, p: char, q: char, i: nat, j: nat)
    requires i < |word| && j < |word|
    ensures TwoDoneInner(word, p, q, i, j + 1) == TwoDoneInner(word, p, q, i, j)
      + (if word[i] == p && word[j] == q && (p != q || j > i) then [UpperAt(UpperAt(word, i), j)] else [])
  {
  }

  /** Case 0 of the switch, with open > 0 blanks left in the hand. */
  method NoPlayedBlank(word: string, open: int) returns (words: seq<string>)
    ensures words == NoneDone(word, open, |word|)
  {
    words := [];
    for i := 0 to |word|
      invariant words == NoneDone(word, open, i)
    {
      var newWord := UpperAt(word, i);
      words := words + [newWord];
      if open == 2 {
        var newerWords := UpperAfter(newWord, i);
        words := words + newerWords;
      }
      NoneDoneNext(word, open, i);
    }
  }

  /** The inner loop of case 0: newWord upper-cased again at each position after i. */
  method UpperAfter(newWord: string, i: nat) returns (words: seq<string>)
    requires i < |newWord|
    ensures words == SecondUppers(newWord, i, |newWord|)
  {
    words := [];
    for j := i to |newWord|
      invariant words == SecondUppers(newWord, i, j)
    {
      SecondUppersNext(newWord, i, j);
      if j != i {
        words := words + [UpperAt(newWord, j)];
      }
    }
  }

  /** Case 1 of the switch: one blank played, of letter p. */
  method OnePlayedBlank(word: string, p: char, open: int) returns (words: seq<string>)
    ensures words == OneDone(word, p, open, |word|)
  {
    words := [];
    for i := 0 to |word|
      invariant words == OneDone(word, p, open, i)
    {
      if word[i] == p {
        var newWord := UpperAt(word, i);
        words := words + [newWord];
        if open == 1 {
          var newerWords := UpperOthers(newWord, word, p, i);
          words := words + newerWords;
        }
      }
    }
  }

  /** The inner loop of case 1: newWord upper-cased again where word has another letter, or the same letter after i. */
  method UpperOthers(newWord: string, word: string, p: char, i: nat) returns (words: seq<string>)
    requires |newWord| == |word|
    ensures words == OneDoneInner(newWord, word, p, i, |word|)
  {
    words := [];
    for j := 0 to |word|
      invariant words == OneDoneInner(newWord, word, p, i, j)
    {
      if ToLower(word[j]) != p || j > i {
        words := words + [UpperAt(newWord, j)];
      }
    }
  }

  /** Case 2 of the switch: two blanks played, of letters p and q. */
  method TwoPlayedBlanks(word: string, p: char, q: char) returns (words: seq<string>)
    ensures words == TwoDone(word, p, q, |word|)
  {
    words := [];
    for i := 0 to |word|
      invariant words == TwoDone(word, p, q, i)
    {
      var pairs := SecondBlanks(word, p, q, i);
      words := words + pairs;
    }
  }

  /** The inner loop of case 2 for a first position i: the second position j over the word. */
  method SecondBlanks(word: string, p: char, q: char, i: nat) returns (words: seq<string>)
    requires i < |word|
    ensures words == TwoDoneInner(word, p, q, i, |word|)
  {
    words := [];
    for j := 0 to |word|
      invariant words == TwoDoneInner(word, p, q, i, j)
    {
      TwoDoneInnerNext(word, p, q, i, j);
      if word[i] == p && word[j] == q {
        if p != q || j > i {
          var newWord := UpperAt(word, i);
          words := words + [UpperAt(newWord, j)];
        }
      }
    }
  }
}
