/** The win detector (`has_won`): does a player hold a whole row, column or diagonal? */
module WinDetector {
  import opened Grid

  /** The eight winning triples, written out by hand: three rows, three columns, two diagonals. */
  const Lines: seq<seq<Cell>> :=
    [[0, 1, 2], [3, 4, 5], [6, 7, 8],
     [0, 3, 6], [1, 4, 7], [2, 5, 8],
     [0, 4, 8], [2, 4, 6]]

  /** `all(board[position] == player for position in combination)`. */
  predicate Owns(b: Board, player: int, line: seq<Cell>)
  {
    forall j :: 0 <= j < |line| ==> b[line[j]] == player
  }

  /** The value `has_won(board, player)` computes: player owns one of the winning triples. */
  predicate IsWin(b: Board, player: int)
  {
    exists k :: 0 <= k < |Lines| && Owns(b, player, Lines[k])
  }

  /** The generating loops of `has_won`: rows, then columns, then the two diagonals. */
  method WinningCombinations() returns (combos: seq<seq<int>>)
    ensures |combos| == 8
    ensures combos == Lines
  {
    var size := 3;
    combos := [];
    for i := 0 to size
      invariant |combos| == i
      invariant forall k :: 0 <= k < i ==> combos[k] == Lines[k]
    {
      var row := seq(size, j requires 0 <= j < size => i * size + j);
      assert row == Lines[i] by {
        assert i == 0 || i == 1 || i == 2;
      }
      combos := combos + [row];
    }
    for i := 0 to size
      invariant |combos| == size + i
      invariant forall k :: 0 <= k < size + i ==> combos[k] == Lines[k]
    {
      var column := seq(size, j requires 0 <= j < size => i + j * size);
      assert column == Lines[size + i] by {
        assert i == 0 || i == 1 || i == 2;
      }
      combos := combos + [column];
    }
    var diagonal := seq(size, i requires 0 <= i < size => i * size + i);
    var antiDiagonal := seq(size, i requires 0 <= i < size => i * size + size - 1 - i);
    assert diagonal == Lines[6];
    assert antiDiagonal == Lines[7];
    combos := combos + [diagonal] + [antiDiagonal];
  }

  /** `has_won`: builds the winning triples and scans them in order, stopping at the first owned one. */
  method HasWon(b: Board, player: int) returns (won: bool)
    ensures won <==> IsWin(b, player)
  {
    var combos := WinningCombinations();
    for k := 0 to |combos|
      invariant forall m :: 0 <= m < k ==> !Owns(b, player, Lines[m])
    {
      if Owns(b, player, combos[k]) {
        return true;
      }
    }
    return false;
  }

  /** A full row, a full column, or one of the two full diagonals, in row and column coordinates. */
  predicate GeometricWin(b: Board, p: int)
  {
    || (exists r :: 0 <= r < 3 && FullRow(b, p, r))
    || (exists c :: 0 <= c < 3 && FullColumn(b, p, c))
    || (b[At(0, 0)] == p && b[At(1, 1)] == p && b[At(2, 2)] == p)
    || (b[At(0, 2)] == p && b[At(1, 1)] == p && b[At(2, 0)] == p)
  }

  predicate FullRow(b: Board, p: int, r: int)
    requires 0 <= r < 3
  {
    b[At(r, 0)] == p && b[At(r, 1)] == p && b[At(r, 2)] == p
  }

  predicate FullColumn(b: Board, p: int, c: int)
    requires 0 <= c < 3
  {
    b[At(0, c)] == p && b[At(1, c)] == p && b[At(2, c)] == p
  }

  /** The eight triples are exactly the rows, the columns and the two diagonals of the grid. */
  lemma IsWinGeometry(b: Board, p: int)
    ensures IsWin(b, p) <==> GeometricWin(b, p)
  {
    if IsWin(b, p) {
      var k :| 0 <= k < |Lines| && Owns(b, p, Lines[k]);
      OwnedLineIsGeometric(b, p, k);
    }
    if GeometricWin(b, p) {
      GeometricLineIsOwned(b, p);
    }
  }

  lemma OwnedLineIsGeometric(b: Board, p: int, k: nat)
    requires k < |Lines| && Owns(b, p, Lines[k])
    ensures GeometricWin(b, p)
  {
    assert b[Lines[k][0]] == p && b[Lines[k][1]] == p && b[Lines[k][2]] == p;
    if k < 3 {
      assert At(k, 0) == Lines[k][0] && At(k, 1) == Lines[k][1] && At(k, 2) == Lines[k][2];
      assert FullRow(b, p, k);
    } else if k < 6 {
      assert At(0, k - 3) == Lines[k][0] && At(1, k - 3) == Lines[k][1] && At(2, k - 3) == Lines[k][2];
      assert FullColumn(b, p, k - 3);
    }
  }

  lemma GeometricLineIsOwned(b: Board, p: int)
    requires GeometricWin(b, p)
    ensures IsWin(b, p)
  {
    if exists r :: 0 <= r < 3 && FullRow(b, p, r) {
      var r :| 0 <= r < 3 && FullRow(b, p, r);
      assert Owns(b, p, Lines[r]);
    } else if exists c :: 0 <= c < 3 && FullColumn(b, p, c) {
      var c :| 0 <= c < 3 && FullColumn(b, p, c);
      assert Owns(b, p, Lines[3 + c]);
    } else if b[At(0, 0)] == p && b[At(1, 1)] == p && b[At(2, 2)] == p {
      assert Owns(b, p, Lines[6]);
    } else {
      assert Owns(b, p, Lines[7]);
    }
  }

  /** Each winning triple, marked by a player on an otherwise empty board, is a win for that player. */
  lemma EveryLineWins(k: nat, p: int)
    requires k < |Lines| && p != 0
    ensures var b := EmptyBoard[Lines[k][0] := p][Lines[k][1] := p][Lines[k][2] := p];
      IsWin(b, p) && !IsWin(b, -p)
  {
    var b := EmptyBoard[Lines[k][0] := p][Lines[k][1] := p][Lines[k][2] := p];
    assert Owns(b, p, Lines[k]);
    forall m | 0 <= m < |Lines|
      ensures !Owns(b, -p, Lines[m])
    {
      assert b[Lines[m][0]] != -p;
    }
  }

  /** Every cell of the line other than m already holds the player's mark. */
  predicate OwnsAllBut(b: Board, player: int, line: seq<Cell>, m: Cell)
  {
    forall j :: 0 <= j < |line| ==> line[j] == m || b[line[j]] == player
  }

  /** Marking cell m wins exactly when some triple has every cell other than m already marked. */
  lemma WinByMarking(b: Board, m: Cell, p: int)
    ensures IsWin(b[m := p], p) <==> exists k :: 0 <= k < |Lines| && OwnsAllBut(b, p, Lines[k], m)
  {
    var b' := b[m := p];
    if IsWin(b', p) {
      var k :| 0 <= k < |Lines| && Owns(b', p, Lines[k]);
      assert OwnsAllBut(b, p, Lines[k], m);
    }
    if exists k :: 0 <= k < |Lines| && OwnsAllBut(b, p, Lines[k], m) {
      var k :| 0 <= k < |Lines| && OwnsAllBut(b, p, Lines[k], m);
      assert Owns(b', p, Lines[k]);
    }
  }
}
