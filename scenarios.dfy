/** Games played through the component's handlers, with what the contracts
    of `Board` and `BoardGame` let a caller conclude about each. */
module Scenarios {
  import opened Board
  import opened BoardGame

  /** X at 0, O at 1, X at 3, O at 2, X at 6: X wins on the first column. */
  method ColumnWin() {
    var g := new Game();
    g.HandleSquareClick(0);
    g.HandleSquareClick(1);
    assert g.squares == [X, O, Empty, Empty, Empty, Empty, Empty, Empty, Empty] && g.turn == X;
    g.HandleSquareClick(3);
    g.HandleSquareClick(2);
    assert g.squares == [X, O, O, X, Empty, Empty, Empty, Empty, Empty] && g.turn == X;
    g.HandleSquareClick(6);
    var board := g.squares;
    assert board == [X, O, O, X, Empty, Empty, X, Empty, Empty];
    WinsOnFirstColumn(board);
  }

  /** The board of `ColumnWin` is won by X on the first column, and on no
      earlier line. */
  method WinsOnFirstColumn(board: seq<Cell>)
    requires board == [X, O, O, X, Empty, Empty, X, Empty, Empty]
  {
    assert !Completes(board, Lines[0]) && !Completes(board, Lines[1]) && !Completes(board, Lines[2]);
    assert Completes(board, Lines[3]);
    var w := Winner(board);
    assert w == Some(Win(X, Line(0, 3, 6)));
  }

  /** X at 4, then a second click on 4 changes nothing. */
  method OccupiedClickIgnored() {
    var g := new Game();
    g.HandleSquareClick(4);
    var turn, history, squares, move := g.turn, g.history, g.squares, g.currentMove;
    g.HandleSquareClick(4);
    assert g.turn == turn == O && g.history == history && g.squares == squares && g.currentMove == move == 1;
  }

  /** Two moves, a jump back to the start and a new move: the two old
      entries after the start are dropped. */
  method BranchDiscardsFuture() {
    var g := new Game();
    g.HandleSquareClick(0);
    g.HandleSquareClick(1);
    assert |g.history| == 3;
    g.HandleJumpTo(0);
    g.HandleSquareClick(8);
    assert g.history == [InitialSnapshot, Snapshot(X, 8, 1, EmptyBoard[8 := X])];
  }

  /** A jump does not give the turn back: after X at 0 and a jump to the
      start, the next click places an O on a board without any X. */
  method JumpKeepsTurn() {
    var g := new Game();
    g.HandleSquareClick(0);
    g.HandleJumpTo(0);
    g.HandleSquareClick(1);
    assert g.squares == EmptyBoard[1 := O];
    assert forall c :: 0 <= c < 9 ==> g.squares[c] != X;
  }

  /** Moves are still accepted once a line is complete. */
  method MoveAfterWin() {
    var g := new Game();
    g.HandleSquareClick(0);
    g.HandleSquareClick(3);
    g.HandleSquareClick(1);
    g.HandleSquareClick(4);
    g.HandleSquareClick(2);
    assert Completes(g.squares, Lines[0]);
    g.HandleSquareClick(5);
    assert g.currentMove == 6 && g.squares[5] == O;
  }
}
