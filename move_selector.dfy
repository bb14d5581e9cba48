/** The move selector: one-ply scoring of cells (`assess_move`) and the final choice of the AI's move. */
module MoveSelector {
  import opened Grid
  import opened Lists
  import opened WinDetector

  /** The score `assess_move(move, board, player)` computes. */
  function MoveScore(move: Cell, b: Board, player: int): (score: int)
    ensures 0 <= score <= 2
  {
    if IsWin(b[move := player], player) then 2
    else if IsWin(b[move := -player], -player) then 1
    else 0
  }

  /** `assess_move`: marks a private copy of the board for the player, then for the opponent. */
  method AssessMove(move: Cell, b: Board, player: int) returns (score: int)
    ensures score == MoveScore(move, b, player)
  {
    var tempBoard := new int[9](i requires 0 <= i < 9 => b[i]);
    tempBoard[move] := player;
    assert tempBoard[..] == b[move := player];
    var won := HasWon(tempBoard[..], player);
    if won {
      return 2;
    }
    tempBoard[move] := -player;
    assert tempBoard[..] == b[move := -player];
    won := HasWon(tempBoard[..], -player);
    if won {
      return 1;
    }
    return 0;
  }

  /** The score is 0, 1 or 2: 2 exactly when the player's mark wins, 1 exactly when it does not but the opponent's would. */
  lemma MoveScoreMeaning(move: Cell, b: Board, player: int)
    ensures var score := MoveScore(move, b, player);
      && 0 <= score <= 2
      && (score == 2 <==> IsWin(b[move := player], player))
      && (score == 1 <==> !IsWin(b[move := player], player) && IsWin(b[move := -player], -player))
  {
  }

  /** `[assess_move(move, current_state, player) for move in moves]`. */
  function MoveScores(moves: seq<Cell>, b: Board, player: int): (scores: seq<int>)
    ensures |scores| == |moves|
    ensures forall i :: 0 <= i < |scores| ==> 0 <= scores[i] <= 2
  {
    seq(|moves|, i requires 0 <= i < |moves| => MoveScore(moves[i], b, player))
  }

  /** The move `apply_genetic_algorithm` returns: the first empty cell of highest score for the AI. */
  function SelectMove(b: Board): (move: Cell)
    requires !IsGameOver(b)
    ensures b[move] == 0
  {
    GameOverIffNoEmptyCells(b);
    var available := EmptyCells(b);
    var scores := MoveScores(available, b, -1);
    available[IndexOf(scores, Max(scores))]
  }

  /** The selected move is an empty cell, no empty cell scores higher, and every empty cell before it scores lower. */
  lemma SelectMoveIsFirstBest(b: Board)
    requires !IsGameOver(b)
    ensures var m := SelectMove(b);
      && b[m] == 0
      && (forall c: Cell :: b[c] == 0 ==> MoveScore(c, b, -1) <= MoveScore(m, b, -1))
      && (forall c: Cell :: c < m && b[c] == 0 ==> MoveScore(c, b, -1) < MoveScore(m, b, -1))
  {
    GameOverIffNoEmptyCells(b);
    var available := EmptyCells(b);
    var scores := MoveScores(available, b, -1);
    var k := IndexOf(scores, Max(scores));
    var m := available[k];
    assert scores[k] == MoveScore(m, b, -1);
    forall c: Cell | b[c] == 0
      ensures MoveScore(c, b, -1) <= MoveScore(m, b, -1)
      ensures c < m ==> MoveScore(c, b, -1) < MoveScore(m, b, -1)
    {
      var j :| 0 <= j < |available| && available[j] == c;
      assert scores[j] == MoveScore(c, b, -1);
      FirstMaximumOfSorted(available, scores, j);
    }
  }

  /** Winning now outranks everything: if some empty cell wins for the AI, the selected move wins. */
  lemma SelectMoveTakesWin(b: Board, c: Cell)
    requires !IsGameOver(b)
    requires b[c] == 0 && IsWin(b[c := -1], -1)
    ensures IsWin(b[SelectMove(b) := -1], -1)
  {
    var m := SelectMove(b);
    assert MoveScore(c, b, -1) <= MoveScore(m, b, -1) by { SelectMoveIsFirstBest(b); }
    assert MoveScore(c, b, -1) == 2;
  }

  /** With no win available, if the human could win at some empty cell, the selected move is such a cell. */
  lemma SelectMoveBlocks(b: Board, c: Cell)
    requires !IsGameOver(b)
    requires b[c] == 0 && IsWin(b[c := 1], 1)
    requires forall d: Cell :: b[d] == 0 ==> !IsWin(b[d := -1], -1)
    ensures IsWin(b[SelectMove(b) := 1], 1)
  {
    var m := SelectMove(b);
    assert b[m] == 0 && MoveScore(c, b, -1) <= MoveScore(m, b, -1) by { SelectMoveIsFirstBest(b); }
    BlockingScore(b, c, m);
  }

  /** A cell scoring at least as high as a blocking cell, and not winning itself, also blocks. */
  lemma BlockingScore(b: Board, c: Cell, m: Cell)
    requires IsWin(b[c := 1], 1) && !IsWin(b[c := -1], -1) && !IsWin(b[m := -1], -1)
    requires MoveScore(c, b, -1) <= MoveScore(m, b, -1)
    ensures IsWin(b[m := 1], 1)
  {
  }

  /** When exactly one empty cell wins for the AI, that cell is the selected move. */
  lemma SelectMoveUniqueWin(b: Board, c: Cell)
    requires !IsGameOver(b)
    requires b[c] == 0 && IsWin(b[c := -1], -1)
    requires forall d: Cell :: b[d] == 0 && d != c ==> !IsWin(b[d := -1], -1)
    ensures SelectMove(b) == c
  {
    var m := SelectMove(b);
    assert b[m] == 0 && MoveScore(c, b, -1) <= MoveScore(m, b, -1) by { SelectMoveIsFirstBest(b); }
    assert MoveScore(c, b, -1) == 2;
    assert IsWin(b[m := -1], -1);
  }

  /** When no empty cell wins or blocks, the selected move is the lowest empty cell. */
  lemma SelectMoveDefaultsToFirstEmpty(b: Board)
    requires !IsGameOver(b)
    requires forall d: Cell :: b[d] == 0 ==> MoveScore(d, b, -1) == 0
    ensures SelectMove(b) == EmptyCells(b)[0]
  {
    SelectMoveIsFirstBest(b);
    var m := SelectMove(b);
    var first := EmptyCells(b)[0];
    assert MoveScore(first, b, -1) == 0 && MoveScore(m, b, -1) == 0;
    assert !(first < m);
    var j :| 0 <= j < |EmptyCells(b)| && EmptyCells(b)[j] == m;
    assert first <= m;
  }
}
