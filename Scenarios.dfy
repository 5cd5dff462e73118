/*
 * Games played through the public operations of Board: what a caller can
 * conclude from their contracts alone.
 */
module BoardScenarios {
  import opened BoardGame

  /** On a 15 x 15 board with k = 5, four stones of player 1 in a row at
      (7, 7) .. (7, 10) do not win; the fifth, at (7, 11), wins and ends the
      game. */
  method FiveInARow() returns (b: Board, wonAfterFour: bool)
    ensures !wonAfterFour
    ensures b.Valid() && b.P1Win() && !b.P2Win() && b.done
  {
    b := new Board(15, 15, 5);
    var ok := b.Mark(true, 7, 7);
    ok := b.Mark(true, 7, 8);
    ok := b.Mark(true, 7, 9);
    assert b.board[0, 0] == 0;
    ok := b.Mark(true, 7, 10);
    assert ok;
    assert b.board[7, 6] == 0 && b.board[7, 11] == 0;
    assert b.Reach(7, 7, 0, -1) == 1;
    assert b.Reach(7, 8, 0, -1) == 2;
    assert b.Reach(7, 9, 0, -1) == 3;
    assert b.Reach(7, 10, 0, -1) == 4;
    assert b.Reach(7, 10, 0, 1) == 1;
    assert b.board[6, 10] == 0 && b.board[8, 10] == 0;
    assert b.board[6, 9] == 0 && b.board[8, 11] == 0;
    assert b.board[6, 11] == 0 && b.board[8, 9] == 0;
    assert b.Reach(6, 10, -1, 0) == 0 && b.Reach(8, 10, 1, 0) == 0;
    assert b.Reach(6, 9, -1, -1) == 0 && b.Reach(8, 11, 1, 1) == 0;
    assert b.Reach(6, 11, -1, 1) == 0 && b.Reach(8, 9, 1, -1) == 0;
    forall o: Orientation
      ensures b.RunLen(7, 10, o) < 5
    {
      match o
      case Horizontal =>
      case Vertical =>
        assert b.Reach(7, 10, -1, 0) == 1 && b.Reach(7, 10, 1, 0) == 1;
      case Diagonal =>
        assert b.Reach(7, 10, -1, -1) == 1 && b.Reach(7, 10, 1, 1) == 1;
      case AntiDiagonal =>
        assert b.Reach(7, 10, -1, 1) == 1 && b.Reach(7, 10, 1, -1) == 1;
    }
    wonAfterFour := b.P1Win();

    assert b.board[0, 0] == 0;
    ok := b.Mark(true, 7, 11);
    assert ok;
    assert b.Reach(7, 7, 0, -1) == 1;
    assert b.Reach(7, 8, 0, -1) == 2;
    assert b.Reach(7, 9, 0, -1) == 3;
    assert b.Reach(7, 10, 0, -1) == 4;
    assert b.Reach(7, 11, 0, -1) == 5;
    assert b.RunLen(7, 11, Horizontal) >= 5;
  }

  /** On a 1 x 3 board with k = 2, player 2's stone beside player 1's makes a
      run of mixed owners, which wins for player 2; player 1 may still move
      after that win and wins as well. */
  method MixedOwnerRuns() returns (b: Board)
    ensures b.Valid() && b.P1Win() && b.P2Win() && b.done
    ensures b.k == 2 && b.board.Length0 == 1 && b.board.Length1 == 3 && fresh(b.board)
    ensures b.board[0, 0] == 1 && b.board[0, 1] == 2 && b.board[0, 2] == 1
  {
    b := new Board(1, 3, 2);
    var ok := b.Mark(true, 0, 0);
    assert b.board[0, 2] == 0;
    ok := b.Mark(false, 0, 1);
    assert ok;
    assert b.Reach(0, 0, 0, -1) == 1;
    assert b.Reach(0, 1, 0, -1) == 2;
    assert b.RunLen(0, 1, Horizontal) >= 2;
    assert b.board[0, 2] == 0;
    ok := b.Mark(true, 0, 2);
    assert ok;
    assert b.Reach(0, 0, 0, -1) == 1;
    assert b.Reach(0, 1, 0, -1) == 2;
    assert b.Reach(0, 2, 0, -1) == 3;
    assert b.RunLen(0, 2, Horizontal) >= 2;
  }

  /** Clearing a stone that played no part in a win still clears the win:
      after Unmark(0, 0) the run (0, 1), (0, 2) stands but no flag is set. */
  method UnmarkForgetsStandingRun() returns (b: Board)
    ensures b.Valid() && !b.P1Win() && !b.P2Win() && !b.done
    ensures b.WinningRun(0, 2)
  {
    b := MixedOwnerRuns();
    b.Unmark(0, 0);
    assert b.board[0, 0] == 0;
    assert b.board[0, 2] == 1 && b.board[0, 1] == 2;
    assert b.Reach(0, 1, 0, -1) == 1;
    assert b.Reach(0, 2, 0, -1) == 2;
    assert b.RunLen(0, 2, Horizontal) >= 2;
  }
}
