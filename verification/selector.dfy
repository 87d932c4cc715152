/**
 * chooseMove's selection loop: the legal move with the highest positive score, the earliest
 * of equals, or an exchange of all seven tiles when no legal move scores above zero.
 * Legality (verifyLegality) and scoring (score) belong to the game and are parameters here.
 */
module Selector {
  import opened Wrappers
  import opened Enumerator

  datatype Action =
    | PlayWord(word: string, location: Location, direction: Direction)
    | ExchangeTiles(tiles: seq<bool>)

  /** ALL_TILES: exchange every one of the seven tiles. */
  const AllTiles: seq<bool> := [true, true, true, true, true, true, true]

  /**
   * moves[k] is the move chooseMove keeps: legal, scoring above zero and above every earlier
   * legal move, and at least as high as every later one.
   */
  predicate Chosen(moves: seq<Move>, legal: Move -> bool, score: Move -> int, k: nat) {
    && k < |moves| && legal(moves[k]) && score(moves[k]) > 0
    && (forall j :: 0 <= j < k && legal(moves[j]) ==> score(moves[j]) < score(moves[k]))
    && (forall j :: k < j < |moves| && legal(moves[j]) ==> score(moves[j]) <= score(moves[k]))
  }

  /** The play of a move. */
  function Play(m: Move): Action {
    PlayWord(m.word, m.location, m.direction)
  }

  /** At most one move is Chosen: the first legal move reaching the highest positive score. */
  lemma ChosenUnique(moves: seq<Move>, legal: Move -> bool, score: Move -> int, k: nat, l: nat)
    requires Chosen(moves, legal, score, k) && Chosen(moves, legal, score, l)
    ensures k == l
  {
  }

  /**
   * What chooseMove answers for a list of moves: an exchange of all tiles exactly when no legal
   * move scores above zero, and otherwise the play of the Chosen move.
   */
  ghost predicate Selected(moves: seq<Move>, legal: Move -> bool, score: Move -> int, action: Action)
    ensures Selected(moves, legal, score, action) && action.PlayWord? ==>
      exists k :: 0 <= k < |moves| && legal(moves[k]) && action == Play(moves[k]) &&
        forall j :: 0 <= j < |moves| && legal(moves[j]) ==> score(moves[j]) <= score(moves[k])
  {
    && (action.ExchangeTiles? <==> forall j :: 0 <= j < |moves| && legal(moves[j]) ==> score(moves[j]) <= 0)
    && (action.ExchangeTiles? ==> action.tiles == AllTiles)
    && (action.PlayWord? ==> exists k: nat :: Chosen(moves, legal, score, k) && action == Play(moves[k]))
  }

  /** The answer is determined by the moves: two selected actions for the same list are equal. */
  lemma SelectedUnique(moves: seq<Move>, legal: Move -> bool, score: Move -> int, a: Action, b: Action)
    requires Selected(moves, legal, score, a) && Selected(moves, legal, score, b)
    ensures a == b
  {
    if a.PlayWord? {
      var k: nat :| Chosen(moves, legal, score, k) && a == Play(moves[k]);
      var l: nat :| Chosen(moves, legal, score, l) && b == Play(moves[l]);
      ChosenUnique(moves, legal, score, k, l);
    }
  }

  /** The loop of chooseMove over the candidate moves. */
  method SelectMove(moves: seq<Move>, legal: Move -> bool, score: Move -> int) returns (action: Action)
    ensures Selected(moves, legal, score, action)
  {
    var finalMove: Option<Move> := None;
    var finalMoveScore := 0;
    ghost var at: nat := 0;
    for i := 0 to |moves|
      invariant forall j :: 0 <= j < i && legal(moves[j]) ==> score(moves[j]) <= finalMoveScore
      invariant finalMove.None? ==> finalMoveScore == 0
      invariant finalMove.Some? ==>
        && at < i && finalMove.value == moves[at] && legal(moves[at]) && finalMoveScore == score(moves[at]) > 0
        && (forall j :: 0 <= j < at && legal(moves[j]) ==> score(moves[j]) < finalMoveScore)
    {
      if legal(moves[i]) {
        var currentMoveScore := score(moves[i]);
        if finalMoveScore < currentMoveScore {
          finalMoveScore := currentMoveScore;
          finalMove := Some(moves[i]);
          at := i;
        }
      }
    }
    if finalMove.Some? {
      assert Chosen(moves, legal, score, at);
      action := Play(finalMove.value);
    } else {
      action := ExchangeTiles(AllTiles);
    }
  }
}
