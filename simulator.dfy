/** The game simulator (`simulate_game`): replays a chromosome's moves on a private copy of a board. */
module Simulator {
  import opened Grid
  import opened WinDetector

  /** A replay in progress, with `mover` to mark next, or one stopped because `winner` completed a triple. */
  datatype Replay = InPlay(board: Board, mover: int) | Finished(winner: int)

  /** One pass of the `for move in chromosome` loop. */
  function Step(s: Replay, move: Cell): (t: Replay)
    ensures s.InPlay? && t.Finished? ==> t.winner == s.mover
  {
    match s
    case Finished(_) => s
    case InPlay(b, mover) =>
      if b[move] != 0 then s
      else if IsWin(b[move := mover], mover) then Finished(mover)
      else InPlay(b[move := mover], -mover)
  }

  /** The replay state after every move of `moves`. */
  function Run(s: Replay, moves: seq<Cell>): (t: Replay)
    ensures t.InPlay? ==> s.InPlay?
    decreases |moves|
  {
    if moves == [] then s else Run(Step(s, moves[0]), moves[1..])
  }

  /** 1 when the replay stopped on a win by `player`, otherwise 0 (another winner, or moves exhausted). */
  function Outcome(s: Replay, player: int): (r: int)
    ensures r == 0 || r == 1
  {
    if s.Finished? && s.winner == player then 1 else 0
  }

  /** What `simulate_game(chromosome, current_state, player)` returns: player 1 always moves first. */
  function Simulate(chromosome: seq<Cell>, b: Board, player: int): (r: int)
    ensures r == 0 || r == 1
  {
    Outcome(Run(InPlay(b, 1), chromosome), player)
  }

  /** Once a replay has stopped, the remaining moves change nothing. */
  lemma {:induction false} RunFinished(w: int, moves: seq<Cell>)
    ensures Run(Finished(w), moves) == Finished(w)
    decreases |moves|
  {
    if moves != [] {
      RunFinished(w, moves[1..]);
    }
  }

  /** Replaying two move lists one after the other is replaying their concatenation. */
  lemma {:induction false} RunAppend(s: Replay, front: seq<Cell>, back: seq<Cell>)
    ensures Run(s, front + back) == Run(Run(s, front), back)
    decreases |front|
  {
    if front == [] {
      assert front + back == back;
    } else {
      assert (front + back)[0] == front[0];
      assert (front + back)[1..] == front[1..] + back;
      RunAppend(Step(s, front[0]), front[1..], back);
    }
  }

  /** A move to a cell that is already taken is wasted: deleting it from the chromosome changes nothing. */
  lemma SkipOccupied(s: Replay, front: seq<Cell>, x: Cell, back: seq<Cell>)
    requires Run(s, front).InPlay? && Run(s, front).board[x] != 0
    ensures Run(s, front + [x] + back) == Run(s, front + back)
  {
    RunAppend(s, front, [x] + back);
    RunAppend(s, front, back);
    assert front + [x] + back == front + ([x] + back);
    assert ([x] + back)[1..] == back;
  }

  /** What a replay can do from an in-play state s to a later state t: it stops only on a win by 1 or -1;
      while in play it never erases or overwrites a mark, only marks empty cells with 1 or -1, and the
      turn has flipped once per mark it placed. */
  predicate Advances(s: Replay, t: Replay)
    requires s.InPlay?
  {
    && (t.Finished? ==> t.winner == 1 || t.winner == -1)
    && (t.InPlay? ==>
         && (forall c: Cell :: s.board[c] != 0 ==> t.board[c] == s.board[c])
         && (forall c: Cell :: t.board[c] != s.board[c] ==> s.board[c] == 0 && (t.board[c] == 1 || t.board[c] == -1))
         && CountFilled(t.board) >= CountFilled(s.board)
         && t.mover == if (CountFilled(t.board) - CountFilled(s.board)) % 2 == 0 then s.mover else -s.mover)
  }

  /** A single move advances the replay: a move to a taken cell changes nothing; a move to an empty cell
      either completes a triple for the mover, who is then the winner, or marks exactly that cell with the
      mover's sign and passes the turn. */
  lemma StepAdvances(s: Replay, move: Cell)
    requires s.InPlay? && (s.mover == 1 || s.mover == -1)
    ensures Advances(s, Step(s, move))
    ensures s.board[move] != 0 ==> Step(s, move) == s
    ensures Step(s, move).Finished? ==>
      s.board[move] == 0 && Step(s, move).winner == s.mover && IsWin(s.board[move := s.mover], s.mover)
    ensures s.board[move] == 0 && Step(s, move).InPlay? ==>
      Step(s, move).board == s.board[move := s.mover] && Step(s, move).mover == -s.mover
      && !IsWin(s.board[move := s.mover], s.mover)
  {
    var t := Step(s, move);
    if t.InPlay? && t.board != s.board {
      CountFilledAfterMark(s.board, move, s.mover);
    }
  }

  /** Advancing twice is advancing. */
  lemma AdvancesTransitive(s: Replay, t: Replay, u: Replay)
    requires s.InPlay? && (s.mover == 1 || s.mover == -1) && t.InPlay?
    requires Advances(s, t) && Advances(t, u)
    ensures Advances(s, u)
  {
  }

  /** The whole replay advances: marks are kept, only empty cells get marked, the turn passes once per placed mark. */
  lemma {:induction false} RunInvariant(s: Replay, moves: seq<Cell>)
    requires s.InPlay? && (s.mover == 1 || s.mover == -1)
    ensures Advances(s, Run(s, moves))
    decreases |moves|
  {
    if moves == [] {
      assert Run(s, moves) == s;
    } else {
      var t := Step(s, moves[0]);
      StepAdvances(s, moves[0]);
      if t.Finished? {
        RunFinished(t.winner, moves[1..]);
      } else {
        RunInvariant(t, moves[1..]);
        AdvancesTransitive(s, t, Run(t, moves[1..]));
      }
    }
  }

  /** Replaying a top-row opening on an empty board: player 1 wins on its third mark, whatever follows. */
  lemma TopRowOpening(rest: seq<Cell>)
    ensures Simulate([0, 3, 1, 4, 2] + rest, EmptyBoard, 1) == 1
    ensures Simulate([0, 3, 1, 4, 2] + rest, EmptyBoard, -1) == 0
  {
    var s0 := InPlay(EmptyBoard, 1);
    TopRowOpeningMoves();
    RunAppend(s0, [0, 3, 1, 4, 2], rest);
    RunFinished(1, rest);
  }

  /** The five opening moves themselves: four quiet marks, then player 1 completes the top row. */
  lemma TopRowOpeningMoves()
    ensures Run(InPlay(EmptyBoard, 1), [0, 3, 1, 4, 2]) == Finished(1)
  {
    var s0 := InPlay(EmptyBoard, 1);
    var s2 := InPlay([1, 0, 0, -1, 0, 0, 0, 0, 0], 1);
    var s4 := InPlay([1, 1, 0, -1, -1, 0, 0, 0, 0], 1);
    OpeningFirstPair();
    OpeningSecondPair();
    OpeningLastMove();
    RunAppend(s0, [0, 3], [1, 4, 2]);
    RunAppend(s2, [1, 4], [2]);
    assert [0, 3] + [1, 4, 2] == [0, 3, 1, 4, 2];
    assert [1, 4] + [2] == [1, 4, 2];
  }

  lemma OpeningFirstPair()
    ensures Run(InPlay(EmptyBoard, 1), [0, 3]) == InPlay([1, 0, 0, -1, 0, 0, 0, 0, 0], 1)
  {
    var b1 := EmptyBoard[0 := 1];
    var b2 := b1[3 := -1];
    assert Step(InPlay(EmptyBoard, 1), 0) == InPlay(b1, -1) by { NoWinYet(b1, 1); }
    assert Step(InPlay(b1, -1), 3) == InPlay(b2, 1) by { NoWinYet(b2, -1); }
    assert [0, 3][1..] == [3] && [3][1..] == [];
    assert b2 == [1, 0, 0, -1, 0, 0, 0, 0, 0];
  }

  lemma OpeningSecondPair()
    ensures Run(InPlay([1, 0, 0, -1, 0, 0, 0, 0, 0], 1), [1, 4]) == InPlay([1, 1, 0, -1, -1, 0, 0, 0, 0], 1)
  {
    var b2: Board := [1, 0, 0, -1, 0, 0, 0, 0, 0];
    var b3 := b2[1 := 1];
    var b4 := b3[4 := -1];
    assert Step(InPlay(b2, 1), 1) == InPlay(b3, -1) by { NoWinYet(b3, 1); }
    assert Step(InPlay(b3, -1), 4) == InPlay(b4, 1) by { NoWinYet(b4, -1); }
    assert [1, 4][1..] == [4] && [4][1..] == [];
    assert b4 == [1, 1, 0, -1, -1, 0, 0, 0, 0];
  }

  lemma OpeningLastMove()
    ensures Run(InPlay([1, 1, 0, -1, -1, 0, 0, 0, 0], 1), [2]) == Finished(1)
  {
    var b4: Board := [1, 1, 0, -1, -1, 0, 0, 0, 0];
    assert Owns(b4[2 := 1], 1, Lines[0]);
    assert [2][1..] == [];
  }

  /** A board with no triple at all for the given player: at most two equal marks on every line. */
  lemma NoWinYet(b: Board, p: int)
    requires forall k :: 0 <= k < |Lines| ==> b[Lines[k][0]] != p || b[Lines[k][1]] != p || b[Lines[k][2]] != p
    ensures !IsWin(b, p)
  {
  }

  /** The second of two moves to the same cell is wasted: replaying [4, 4, ...] is replaying [4, ...].
      After the first move the cell is taken, or the replay has already stopped. */
  lemma RepeatedMoveIsWasted(b: Board, x: Cell, rest: seq<Cell>, player: int)
    ensures Simulate([x, x] + rest, b, player) == Simulate([x] + rest, b, player)
  {
    var t := Step(InPlay(b, 1), x);
    assert ([x, x] + rest)[1..] == [x] + rest;
    assert ([x] + rest)[1..] == rest;
    if t.Finished? {
      RunFinished(t.winner, [x] + rest);
      RunFinished(t.winner, rest);
    } else {
      assert t.board[x] != 0;
      assert Run(t, [x] + rest) == Run(Step(t, x), rest);
    }
  }

  /** `simulate_game`: copies the board, then marks it in place move by move. */
  method SimulateGame(chromosome: seq<Cell>, currentState: Board, player: int) returns (r: int)
    ensures r == Simulate(chromosome, currentState, player)
    ensures r == 0 || r == 1
  {
    var board := new int[9](i requires 0 <= i < 9 => currentState[i]);
    assert board[..] == currentState;
    var currentPlayer := 1;
    for i := 0 to |chromosome|
      invariant Run(InPlay(board[..], currentPlayer), chromosome[i..]) == Run(InPlay(currentState, 1), chromosome)
    {
      var move := chromosome[i];
      assert chromosome[i..][1..] == chromosome[i + 1..];
      if board[move] == 0 {
        board[move] := currentPlayer;
        var won := HasWon(board[..], currentPlayer);
        if won {
          RunFinished(currentPlayer, chromosome[i + 1..]);
          return if currentPlayer == player then 1 else 0;
        }
        currentPlayer := currentPlayer * -1;
      }
    }
    return 0;
  }
}
