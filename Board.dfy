/*
 * Rule engine of a connect-k ("k in a row") game on a fixed M x N grid.
 *
 * The grid holds 0 for an empty cell, 1 for a stone of player 1 (`true`) and
 * 2 for a stone of player 2 (`false`). After each stone is placed, the win
 * check walks back to the start of the run through the new stone along one
 * of four orientations and counts forward; any nonzero cell continues a run,
 * whoever owns it.
 */
module BoardGame {

  /** The four line orientations of the win check, each given by its forward
      step (row delta DX, column delta DY). */
  datatype Orientation = Horizontal | Vertical | Diagonal | AntiDiagonal
  {
    function DX(): int
    {
      match this
      case Horizontal => 0
      case Vertical => 1
      case Diagonal => 1
      case AntiDiagonal => 1
    }

    function DY(): int
    {
      match this
      case Horizontal => 1
      case Vertical => 0
      case Diagonal => 1
      case AntiDiagonal => -1
    }
  }

  /** A single step to one of the eight neighbouring cells. */
  predicate IsStep(dx: int, dy: int)
  {
    -1 <= dx <= 1 && -1 <= dy <= 1 && (dx != 0 || dy != 0)
  }

  /** The coordinate s steps of size d away from c, that is c + s * d for
      d in {-1, 0, 1}, written without a product. */
  function Along(c: int, s: int, d: int): int
  {
    if d == 0 then c else if d > 0 then c + s else c - s
  }

  /** The orientation Traverse derives from its scan limits: the same chain
      of comparisons picks the step in both of its loops. */
  function OrientationOf(xStart: int, xStop: int, yStart: int, yStop: int): Orientation
  {
    if xStart == xStop then Horizontal
    else if yStart == yStop then Vertical
    else if xStart == yStart then Diagonal
    else AntiDiagonal
  }

  class Board
  {
    const k: int              // number of stones in a row needed to win
    const p1: bool := true    // player 1
    const p2: bool := false   // player 2
    var w1: bool              // did player 1 win?
    var w2: bool              // did player 2 win?
    var done: bool            // the game has ended
    const board: array2<int>  // 0 empty, 1 player 1, 2 player 2

    /** Every cell holds one of the three cell values, and a recorded win
        always comes with the game marked as ended and with a winning run
        still on the board. */
    ghost predicate Valid()
      reads this, board
    {
      (forall i, j :: 0 <= i < board.Length0 && 0 <= j < board.Length1 ==> 0 <= board[i, j] <= 2)
      && (w1 || w2 ==> done)
      && (w1 ==> SomeWinningRun())
      && (w2 ==> SomeWinningRun())
    }

    ghost predicate InBounds(x: int, y: int)
    {
      0 <= x < board.Length0 && 0 <= y < board.Length1
    }

    /** Every cell of the grid holds a stone. */
    ghost predicate Full()
      reads board
    {
      forall i, j :: 0 <= i < board.Length0 && 0 <= j < board.Length1 ==> board[i, j] != 0
    }

    constructor (M: nat, N: nat, k: int)
      ensures Valid()
      ensures fresh(board) && board.Length0 == M && board.Length1 == N
      ensures forall i, j :: 0 <= i < M && 0 <= j < N ==> board[i, j] == 0
      ensures this.k == k && !w1 && !w2 && !done
    {
      this.k := k;
      w1, w2, done := false, false, false;
      board := new int[M, N]((i, j) => 0);
    }

    /** The player who moves after `current`. */
    function Player(current: bool): (next: bool)
      ensures next == !current
    {
      if current == p1 then p2 else p1
    }

    method GameOver() returns (over: bool)
      ensures over == (done || Full())
    {
      if done {
        return true;
      }
      over := IsFull();
    }

    /** The player-1 win flag; a reported win means the game is over and a
        run of at least k marked cells is on the board. */
    function P1Win(): (won: bool)
      reads this, board
      ensures won == w1
      ensures Valid() && won ==> done && SomeWinningRun()
    {
      w1
    }

    /** The player-2 win flag, with the same guarantee. */
    function P2Win(): (won: bool)
      reads this, board
      ensures won == w2
      ensures Valid() && won ==> done && SomeWinningRun()
    {
      w2
    }

    /** Off-grid coordinates read as unmarked; an on-grid cell is marked when
        it holds a stone of either player. */
    function IsMarked(x: int, y: int): (marked: bool)
      reads board
      ensures marked ==> InBounds(x, y)
      ensures InBounds(x, y) ==> (marked <==> board[x, y] != 0)
    {
      if x < 0 || x >= board.Length0 || y < 0 || y >= board.Length1 then false
      else board[x, y] != 0
    }

    method IsFull() returns (full: bool)
      ensures full == Full()
    {
      var M, N := board.Length0, board.Length1;
      for i := 0 to M
        invariant forall a, b :: 0 <= a < i && 0 <= b < N ==> board[a, b] != 0
      {
        for j := 0 to N
          invariant forall b :: 0 <= b < j ==> board[i, b] != 0
        {
          if board[i, j] == 0 {
            return false;
          }
        }
      }
      return true;
    }

    /** The number of consecutive marked cells met when starting at (x, y) and
        stepping by (dx, dy), the start included. */
    ghost function Reach(x: int, y: int, dx: int, dy: int): nat
      reads board
      requires IsStep(dx, dy)
      decreases if dx > 0 then board.Length0 - x else if dx < 0 then x + 1
                else if dy > 0 then board.Length1 - y else y + 1
    {
      if IsMarked(x, y) then 1 + Reach(x + dx, y + dy, dx, dy) else 0
    }

    /** The length of the maximal run of marked cells through (x, y) along
        orientation o, or 0 when (x, y) itself is unmarked. */
    ghost function RunLen(x: int, y: int, o: Orientation): nat
      reads board
    {
      if IsMarked(x, y) then Reach(x, y, -o.DX(), -o.DY()) + Reach(x, y, o.DX(), o.DY()) - 1
      else 0
    }

    /** Some orientation has a run of at least k marked cells through (x, y). */
    ghost predicate WinningRun(x: int, y: int)
      reads board
    {
      exists o: Orientation :: RunLen(x, y, o) >= k
    }

    /** Some cell of the grid lies on a run of at least k marked cells. */
    ghost predicate SomeWinningRun()
      reads board
    {
      exists a, b :: InBounds(a, b) && WinningRun(a, b)
    }

    /** Every cell s steps from (x, y) along o, for lo <= s <= hi, is marked. */
    ghost predicate MarkedSegment(x: int, y: int, o: Orientation, lo: int, hi: int)
      reads board
    {
      forall s :: lo <= s <= hi ==> IsMarked(Along(x, s, o.DX()), Along(y, s, o.DY()))
    }

    /** The scan limits Victory hands to Traverse: the row and column just
        outside the grid on each side of the scan. */
    ghost predicate IsScanFrame(xStart: int, xStop: int, yStart: int, yStop: int)
    {
      var M, N := board.Length0, board.Length1;
      xStart == -1 &&
      ((xStop == -1 && yStart == -1 && yStop == N) ||   // horizontal
       (xStop == M && yStart == -1 && yStop == -1) ||   // vertical
       (xStop == M && yStart == -1 && yStop == N) ||    // left diagonal
       (xStop == M && yStart == N && yStop == -1))      // right diagonal
    }

    /** Places a stone for `player` at (x, y). Fails on an off-grid position,
        on a full board (which also ends the game) and on an occupied cell. A
        placed stone overwrites the mover's win flag with the outcome of the
        win check. */
    method Mark(player: bool, x: int, y: int) returns (ok: bool)
      requires Valid()
      modifies this, board
      ensures Valid()
      ensures ok <==> InBounds(x, y) && !old(Full()) && old(board[x, y]) == 0
      ensures !InBounds(x, y) ==> unchanged(this, board)
      ensures InBounds(x, y) && old(Full()) ==>
                unchanged(board) && done && w1 == old(w1) && w2 == old(w2)
      ensures InBounds(x, y) && !old(Full()) && old(board[x, y]) != 0 ==> unchanged(this, board)
      ensures ok ==> board[x, y] == (if player == p1 then 1 else 2)
      ensures ok ==> forall i, j :: InBounds(i, j) && (i != x || j != y) ==> board[i, j] == old(board[i, j])
      ensures ok && player == p1 ==> w1 == WinningRun(x, y) && w2 == old(w2)
      ensures ok && player != p1 ==> w2 == WinningRun(x, y) && w1 == old(w1)
      ensures ok ==> done == (old(done) || WinningRun(x, y))
    {
      var M, N := board.Length0, board.Length1;
      if x < 0 || x >= M || y < 0 || y >= N {
        return false;
      }
      var full := IsFull();
      if full {
        done := true;
        return false;
      }
      if IsMarked(x, y) {
        return false;
      }
      if player == p1 {
        board[x, y] := 1;
        w1 := Victory(p1, x, y);
      } else {
        board[x, y] := 2;
        w2 := Victory(p2, x, y);
      }
      SomeWinningRunPersists();
      return true;
    }

    /** Runs the win check through the stone at (x, y) and records its outcome
        in the flag of `player`. */
    method Victory(player: bool, x: int, y: int) returns (won: bool)
      requires IsMarked(x, y)
      modifies this
      ensures won == WinningRun(x, y)
      ensures player == p1 ==> w1 == won && w2 == old(w2)
      ensures player != p1 ==> w2 == won && w1 == old(w1)
      ensures done == (old(done) || won)
    {
      if player == p1 {
        w1 := AnyOrientation(p1, x, y);
        return w1;
      }
      w2 := AnyOrientation(p2, x, y);
      return w2;
    }

    /** The four Traverse calls of the win check, in order, stopping at the
        first one that finds a winning run. */
    method AnyOrientation(player: bool, x: int, y: int) returns (won: bool)
      requires IsMarked(x, y)
      modifies this`done
      ensures won == WinningRun(x, y)
      ensures done == (old(done) || won)
    {
      var M, N := board.Length0, board.Length1;
      won := Traverse(player, x, y, -1, -1, -1, N);        // horizontal
      if !won {
        won := Traverse(player, x, y, -1, M, -1, -1);      // vertical
      }
      if !won {
        won := Traverse(player, x, y, -1, M, -1, N);       // left diagonal
      }
      if !won {
        won := Traverse(player, x, y, -1, M, N, -1);       // right diagonal
      }
      if !won {
        forall o: Orientation
          ensures RunLen(x, y, o) < k
        {
          match o
          case Horizontal =>
          case Vertical =>
          case Diagonal =>
          case AntiDiagonal =>
        }
      }
    }

    /** Walks back from (x, y) to the first cell of its run, then counts the
        run forward; a run of at least k cells ends the game. `player` plays
        no part: any marked cell continues the run. */
    method Traverse(player: bool, x: int, y: int, xStart: int, xStop: int, yStart: int, yStop: int)
      returns (won: bool)
      requires IsMarked(x, y)
      requires IsScanFrame(xStart, xStop, yStart, yStop)
      modifies this`done
      ensures won == (RunLen(x, y, OrientationOf(xStart, xStop, yStart, yStop)) >= k)
      ensures done == (old(done) || won)
    {
      ghost var o := OrientationOf(xStart, xStop, yStart, yStop);
      ghost var dx, dy := o.DX(), o.DY();
      var count := 0;
      var i, j := x, y;

      // Go back as far as possible
      ghost var back := 0;
      while (i > xStart || i != xStart) && (j > yStart || j != yStart) && IsMarked(i, j)
        invariant Reach(x, y, -dx, -dy) == back + Reach(i, j, -dx, -dy)
        invariant Reach(i + dx, j + dy, dx, dy) == back + Reach(x + dx, y + dy, dx, dy)
        decreases Reach(i, j, -dx, -dy)
      {
        if xStart == xStop { j := j - 1; }
        else if yStart == yStop { i := i - 1; }
        else if xStart == yStart { i, j := i - 1, j - 1; }
        else { i, j := i - 1, j + 1; }
        back := back + 1;
      }
      assert !IsMarked(i, j);

      // (i, j) is just before the run: step onto its first cell
      if xStart == xStop { j := j + 1; }
      else if yStart == yStop { i := i + 1; }
      else if xStart == yStart { i, j := i + 1, j + 1; }
      else { i, j := i + 1, j - 1; }
      assert IsMarked(i, j) && !IsMarked(i - dx, j - dy);

      // Go forward as much as possible
      while (i < xStop || i != xStop) && (j < yStop || j != yStop) && IsMarked(i, j)
        invariant count + Reach(i, j, dx, dy) == RunLen(x, y, o)
        decreases Reach(i, j, dx, dy)
      {
        if xStart == xStop { j := j + 1; }
        else if yStart == yStop { i := i + 1; }
        else if xStart == yStart { i, j := i + 1, j + 1; }
        else { i, j := i + 1, j - 1; }
        count := count + 1;
      }
      assert 1 <= count == RunLen(x, y, o);

      if count < k {
        return false;
      }
      done := true;
      return true;
    }

    /** Clears (x, y) and every result flag, whichever stone caused a win. */
    method Unmark(x: int, y: int)
      requires Valid()
      requires InBounds(x, y)
      modifies this, board
      ensures Valid()
      ensures board[x, y] == 0
      ensures forall i, j :: InBounds(i, j) && (i != x || j != y) ==> board[i, j] == old(board[i, j])
      ensures !w1 && !w2 && !done
    {
      board[x, y] := 0;
      w1 := false;
      w2 := false;
      done := false;
    }

    /* ---- What Reach and RunLen measure ---- */

    /** The first Reach(x, y, dx, dy) cells from (x, y) are all marked. */
    lemma {:induction false} ReachMarked(x: int, y: int, dx: int, dy: int, s: int)
      requires IsStep(dx, dy)
      requires 0 <= s < Reach(x, y, dx, dy)
      ensures IsMarked(Along(x, s, dx), Along(y, s, dy))
      decreases s
    {
      if s > 0 {
        ReachMarked(x + dx, y + dy, dx, dy, s - 1);
        assert Along(x + dx, s - 1, dx) == Along(x, s, dx);
        assert Along(y + dy, s - 1, dy) == Along(y, s, dy);
      }
    }

    /** The cell just past the counted ones is unmarked or off the grid. */
    lemma {:induction false} ReachStops(x: int, y: int, dx: int, dy: int)
      requires IsStep(dx, dy)
      ensures !IsMarked(Along(x, Reach(x, y, dx, dy), dx), Along(y, Reach(x, y, dx, dy), dy))
      decreases Reach(x, y, dx, dy)
    {
      var n := Reach(x, y, dx, dy);
      if IsMarked(x, y) {
        ReachStops(x + dx, y + dy, dx, dy);
        assert Along(x + dx, n - 1, dx) == Along(x, n, dx);
        assert Along(y + dy, n - 1, dy) == Along(y, n, dy);
      }
    }

    /** n marked cells in a row from (x, y) are all counted by Reach. */
    lemma {:induction false} ReachCovers(x: int, y: int, dx: int, dy: int, n: nat)
      requires IsStep(dx, dy)
      requires forall s :: 0 <= s < n ==> IsMarked(Along(x, s, dx), Along(y, s, dy))
      ensures Reach(x, y, dx, dy) >= n
      decreases n
    {
      if n > 0 {
        assert IsMarked(Along(x, 0, dx), Along(y, 0, dy));
        var x1, y1 := x + dx, y + dy;
        forall s | 0 <= s < n - 1
          ensures IsMarked(Along(x1, s, dx), Along(y1, s, dy))
        {
          assert IsMarked(Along(x, s + 1, dx), Along(y, s + 1, dy));
          assert Along(x1, s, dx) == Along(x, s + 1, dx);
          assert Along(y1, s, dy) == Along(y, s + 1, dy);
        }
        ReachCovers(x1, y1, dx, dy, n - 1);
      }
    }

    /** RunLen(x, y, o) is the length of a run of marked cells through (x, y)
        that is closed by an unmarked or off-grid cell at both ends. */
    lemma RunLenIsMaximal(x: int, y: int, o: Orientation) returns (lo: int, hi: int)
      requires IsMarked(x, y)
      ensures lo <= 0 <= hi && hi - lo + 1 == RunLen(x, y, o)
      ensures MarkedSegment(x, y, o, lo, hi)
      ensures !IsMarked(Along(x, lo - 1, o.DX()), Along(y, lo - 1, o.DY()))
      ensures !IsMarked(Along(x, hi + 1, o.DX()), Along(y, hi + 1, o.DY()))
    {
      var dx, dy := o.DX(), o.DY();
      var back: int, fwd: int := Reach(x, y, -dx, -dy), Reach(x, y, dx, dy);
      lo, hi := 1 - back, fwd - 1;
      forall s | lo <= s <= hi
        ensures IsMarked(Along(x, s, dx), Along(y, s, dy))
      {
        if s >= 0 {
          ReachMarked(x, y, dx, dy, s);
        } else {
          ReachMarked(x, y, -dx, -dy, -s);
          assert Along(x, -s, -dx) == Along(x, s, dx);
          assert Along(y, -s, -dy) == Along(y, s, dy);
        }
      }
      ReachStops(x, y, -dx, -dy);
      assert Along(x, back, -dx) == Along(x, lo - 1, dx);
      assert Along(y, back, -dy) == Along(y, lo - 1, dy);
      ReachStops(x, y, dx, dy);
    }

    /** Every run of marked cells through (x, y) along o is at most RunLen long. */
    lemma RunLenCoversSegment(x: int, y: int, o: Orientation, lo: int, hi: int)
      requires lo <= 0 <= hi
      requires MarkedSegment(x, y, o, lo, hi)
      ensures RunLen(x, y, o) >= hi - lo + 1
    {
      var dx, dy := o.DX(), o.DY();
      var ndx, ndy := -dx, -dy;
      assert IsMarked(Along(x, 0, dx), Along(y, 0, dy));
      ReachCovers(x, y, dx, dy, hi + 1);
      forall s | 0 <= s < 1 - lo
        ensures IsMarked(Along(x, s, ndx), Along(y, s, ndy))
      {
        assert IsMarked(Along(x, -s, dx), Along(y, -s, dy));
        assert Along(x, s, ndx) == Along(x, -s, dx);
        assert Along(y, s, ndy) == Along(y, -s, dy);
      }
      ReachCovers(x, y, ndx, ndy, 1 - lo);
    }

    /** Along one orientation, the win check succeeds exactly when some k
        consecutive marked cells include (x, y): an exact k-run wins and a
        maximal (k - 1)-run does not. */
    lemma RunWinsIffSegment(x: int, y: int, o: Orientation)
      requires IsMarked(x, y)
      ensures RunLen(x, y, o) >= k <==>
              exists lo, hi :: lo <= 0 <= hi && hi - lo + 1 >= k && MarkedSegment(x, y, o, lo, hi)
    {
      var lo, hi := RunLenIsMaximal(x, y, o);
      forall lo', hi' | lo' <= 0 <= hi' && MarkedSegment(x, y, o, lo', hi')
        ensures RunLen(x, y, o) >= hi' - lo' + 1
      {
        RunLenCoversSegment(x, y, o, lo', hi');
      }
    }

    /** The win check on the stone at (x, y) succeeds exactly when some line
        through (x, y) holds k consecutive marked cells, of either owner. */
    lemma WinningRunIffLine(x: int, y: int)
      requires IsMarked(x, y)
      ensures WinningRun(x, y) <==>
              exists o, lo, hi :: lo <= 0 <= hi && hi - lo + 1 >= k && MarkedSegment(x, y, o, lo, hi)
    {
      if WinningRun(x, y) {
        var o :| RunLen(x, y, o) >= k;
        RunWinsIffSegment(x, y, o);
      }
      if exists o, lo, hi :: lo <= 0 <= hi && hi - lo + 1 >= k && MarkedSegment(x, y, o, lo, hi) {
        var o, lo, hi :| lo <= 0 <= hi && hi - lo + 1 >= k && MarkedSegment(x, y, o, lo, hi);
        RunLenCoversSegment(x, y, o, lo, hi);
      }
    }

    /* ---- Placing stones never shortens a run ---- */

    /** A winning run on the board stays one when further stones are placed:
        the cells an earlier scan counted in either direction are all still
        marked, so each scan counts at least as many now. */
    twostate lemma SomeWinningRunPersists()
      requires forall i, j :: InBounds(i, j) && old(board[i, j]) != 0 ==> board[i, j] != 0  // no stone removed
      ensures old(SomeWinningRun()) ==> SomeWinningRun()
    {
      if old(SomeWinningRun()) {
        var x, y :| old(InBounds(x, y) && WinningRun(x, y));
        var o :| old(RunLen(x, y, o)) >= k;
        var dx, dy := o.DX(), o.DY();
        var ndx, ndy := -dx, -dy;
        assert old(Reach(x, y, ndx, ndy)) <= Reach(x, y, ndx, ndy) by {
          var cx, cy, t := x, y, 0;
          while old(IsMarked(cx, cy))
            invariant old(Reach(x, y, ndx, ndy)) == t + old(Reach(cx, cy, ndx, ndy))
            invariant cx == Along(x, t, ndx) && cy == Along(y, t, ndy)
            invariant forall s :: 0 <= s < t ==> IsMarked(Along(x, s, ndx), Along(y, s, ndy))
            decreases old(Reach(cx, cy, ndx, ndy))
          {
            assert IsMarked(Along(x, t, ndx), Along(y, t, ndy));
            cx, cy, t := cx + ndx, cy + ndy, t + 1;
          }
          ReachCovers(x, y, ndx, ndy, t);
        }
        assert old(Reach(x, y, dx, dy)) <= Reach(x, y, dx, dy) by {
          var cx, cy, t := x, y, 0;
          while old(IsMarked(cx, cy))
            invariant old(Reach(x, y, dx, dy)) == t + old(Reach(cx, cy, dx, dy))
            invariant cx == Along(x, t, dx) && cy == Along(y, t, dy)
            invariant forall s :: 0 <= s < t ==> IsMarked(Along(x, s, dx), Along(y, s, dy))
            decreases old(Reach(cx, cy, dx, dy))
          {
            assert IsMarked(Along(x, t, dx), Along(y, t, dy));
            cx, cy, t := cx + dx, cy + dy, t + 1;
          }
          ReachCovers(x, y, dx, dy, t);
        }
        assert RunLen(x, y, o) >= k;
      }
    }

    /* ---- Boards that cannot be won ---- */

    /** A scan from a marked cell counts at most the cells left in its
        direction before the edge of the grid. */
    lemma {:induction false} ReachBound(x: int, y: int, dx: int, dy: int)
      requires IsStep(dx, dy)
      ensures IsMarked(x, y) ==>
                Reach(x, y, dx, dy) <= if dx > 0 then board.Length0 - x else if dx < 0 then x + 1
                                       else if dy > 0 then board.Length1 - y else y + 1
      decreases if dx > 0 then board.Length0 - x else if dx < 0 then x + 1
                else if dy > 0 then board.Length1 - y else y + 1
    {
      if IsMarked(x, y) {
        ReachBound(x + dx, y + dy, dx, dy);
      }
    }

    /** A horizontal run is at most N cells long, any other run at most M. */
    lemma RunLenBound(x: int, y: int, o: Orientation)
      ensures RunLen(x, y, o) <= if o == Horizontal then board.Length1 else board.Length0
    {
      ReachBound(x, y, -o.DX(), -o.DY());
      ReachBound(x, y, o.DX(), o.DY());
    }

    /** With k above both grid dimensions no run can win, so no valid state
        records a winner. */
    lemma UnwinnableBoard()
      requires Valid()
      requires k > board.Length0 && k > board.Length1
      ensures !SomeWinningRun() && !w1 && !w2
    {
      forall a, b | InBounds(a, b)
        ensures !WinningRun(a, b)
      {
        forall o: Orientation
          ensures RunLen(a, b, o) < k
        {
          RunLenBound(a, b, o);
        }
      }
    }

    /** A full grid without a run of k marked cells ends the game with
        neither player recorded as the winner. */
    lemma DrawReportsNoWinner()
      requires Valid() && Full()
      requires forall x, y :: InBounds(x, y) ==> !WinningRun(x, y)
      ensures !P1Win() && !P2Win()
    {
    }
  }
}
