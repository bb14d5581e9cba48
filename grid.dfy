/** The 3x3 board that every component of the move selector works on. */
module Grid {

  /** A cell index, row-major: the cell in row r and column c is 3 * r + c. */
  type Cell = i: int | 0 <= i < 9

  /** Nine cells: 0 is empty, 1 is the human's mark (the human moves first), -1 is the AI's mark. */
  type Board = b: seq<int> | |b| == 9 witness [0, 0, 0, 0, 0, 0, 0, 0, 0]

  const EmptyBoard: Board := [0, 0, 0, 0, 0, 0, 0, 0, 0]

  /** The cell in the given row and column. */
  function At(row: int, column: int): (c: Cell)
    requires 0 <= row < 3 && 0 <= column < 3
    ensures c / 3 == row && c % 3 == column
  {
    3 * row + column
  }

  /** The empty cells in increasing order, as in `[i for i in range(9) if board[i] == 0]`. */
  function EmptyCells(b: Board): (cells: seq<Cell>)
    ensures forall i :: 0 <= i < |cells| ==> b[cells[i]] == 0
    ensures forall c: Cell :: b[c] == 0 ==> c in cells
    ensures forall i, j :: 0 <= i < j < |cells| ==> cells[i] < cells[j]
  {
    EmptyCellsFrom(b, 0)
  }

  /** The empty cells among lo .. 8, in increasing order. */
  function EmptyCellsFrom(b: Board, lo: nat): (cells: seq<Cell>)
    requires lo <= 9
    ensures forall i :: 0 <= i < |cells| ==> lo <= cells[i] && b[cells[i]] == 0
    ensures forall c: Cell :: lo <= c && b[c] == 0 ==> c in cells
    ensures forall i, j :: 0 <= i < j < |cells| ==> cells[i] < cells[j]
    decreases 9 - lo
  {
    if lo == 9 then []
    else if b[lo] == 0 then [lo as Cell] + EmptyCellsFrom(b, lo + 1)
    else EmptyCellsFrom(b, lo + 1)
  }

  /** `is_game_over`: every cell is taken. */
  function IsGameOver(b: Board): (over: bool)
    ensures over <==> 0 !in b
  {
    forall i :: 0 <= i < 9 ==> b[i] != 0
  }

  /** The game is over exactly when there is no empty cell left to play. */
  lemma GameOverIffNoEmptyCells(b: Board)
    ensures IsGameOver(b) <==> EmptyCells(b) == []
  {
    if !IsGameOver(b) {
      var i :| 0 <= i < 9 && b[i] == 0;
      assert (i as Cell) in EmptyCells(b);
    }
  }

  /** The number of taken cells. */
  function CountFilled(s: seq<int>): (n: nat)
    ensures n <= |s|
  {
    if s == [] then 0 else (if s[0] != 0 then 1 else 0) + CountFilled(s[1..])
  }

  /** Marking an empty cell raises the count of taken cells by exactly one. */
  lemma {:induction false} CountFilledAfterMark(s: seq<int>, m: nat, v: int)
    requires m < |s| && s[m] == 0 && v != 0
    ensures CountFilled(s[m := v]) == CountFilled(s) + 1
  {
    if m > 0 {
      assert s[m := v][1..] == s[1..][m - 1 := v];
      CountFilledAfterMark(s[1..], m - 1, v);
    } else {
      assert s[m := v][1..] == s[1..];
    }
  }
}
