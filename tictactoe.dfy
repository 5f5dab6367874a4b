/**
 * The `TicTacToe` object: the board as a 3x3 array updated in place and the
 * three fields `currentPlayer`, `gameOver` and `winner`. The mutex and the
 * condition variable are gone; the turn wait becomes the precondition of
 * `MakeMove`.
 */
module GameState {
  import opened GameRules

  class TicTacToe {
    var board: array2<char>
    var currentPlayer: char
    var gameOver: bool
    var winner: char

    /** The board has three rows of three cells. */
    ghost predicate Shape()
      reads this
    {
      board.Length0 == 3 && board.Length1 == 3
    }

    /** The board contents as a value. */
    ghost function Cells(): (g: Grid)
      reads this, board
      requires Shape()
      ensures forall r, c | 0 <= r < 3 && 0 <= c < 3 :: g[r][c] == board[r, c]
    {
      [[board[0, 0], board[0, 1], board[0, 2]],
       [board[1, 0], board[1, 1], board[1, 2]],
       [board[2, 0], board[2, 1], board[2, 2]]]
    }

    /** The whole object as a value. */
    ghost function State(): Game
      reads this, board
      requires Shape()
    {
      Game(Cells(), currentPlayer, gameOver, winner)
    }

    /** The object invariant: the rules' invariant of reachable games. */
    ghost predicate Valid()
      reads this, board
    {
      Shape() && Inv(State())
    }

    /** An empty board, 'X' to move, the game in progress and no winner. */
    constructor ()
      ensures Valid() && fresh(board)
      ensures forall r, c | 0 <= r < 3 && 0 <= c < 3 :: board[r, c] == EMPTY
      ensures currentPlayer == 'X' && !gameOver && winner == NOBODY
      ensures State() == Start
    {
      var cells := new char[3, 3];
      for i := 0 to 3
        invariant forall r, c | 0 <= r < i && 0 <= c < 3 :: cells[r, c] == EMPTY
      {
        for j := 0 to 3
          invariant forall r, c | 0 <= r < i && 0 <= c < 3 :: cells[r, c] == EMPTY
          invariant forall c | 0 <= c < j :: cells[i, c] == EMPTY
        {
          cells[i, j] := EMPTY;
        }
      }
      board := cells;
      currentPlayer := 'X';
      gameOver := false;
      winner := NOBODY;
      new;
      assert Cells() == EmptyGrid;
      StartInv();
    }

    /**
     * `make_move` once the caller has passed the turn wait: the new state is
     * the one `Move` gives, so the move is refused on an occupied square or a
     * finished game and nothing changes then, and otherwise only the target
     * square is written. The invariant is kept.
     */
    method MakeMove(player: char, row: int, col: int) returns (ok: bool)
      requires Valid()
      requires 0 <= row < 3 && 0 <= col < 3
      requires WaitDone(State(), player)
      modifies this, board
      ensures Valid() && board == old(board)
      ensures Outcome(State(), ok) == Move(old(State()), player, row, col)
      ensures ok ==> board[row, col] == player
      ensures forall r, c | 0 <= r < 3 && 0 <= c < 3 && (r != row || c != col) :: board[r, c] == old(board[r, c])
    {
      ghost var before := State();
      MovePreservesInv(before, player, row, col);
      if board[row, col] != EMPTY || gameOver {
        return false;
      }
      board[row, col] := player;
      GridsAgree(Cells(), Place(before.grid, player, row, col));
      var won := CheckWin(player);
      if won {
        gameOver := true;
        winner := player;
      } else {
        var full := CheckDraw();
        if full {
          gameOver := true;
          winner := DRAW;
        } else {
          currentPlayer := Other(player);
        }
      }
      ok := true;
    }

    /** Whether `player` holds one of the eight lines; the scan visits the
      * rows, then the columns, then the two diagonals. */
    method CheckWin(player: char) returns (won: bool)
      requires Shape()
      ensures won == Wins(Cells(), player)
    {
      WinsByScan(Cells(), player);
      for i := 0 to 3
        invariant forall k: Index | k < i :: !Holds(Cells(), Row(k), player)
      {
        if board[i, 0] == player && board[i, 1] == player && board[i, 2] == player {
          assert Holds(Cells(), Row(i), player);
          return true;
        }
      }
      for j := 0 to 3
        invariant forall k: Index | k < j :: !Holds(Cells(), Column(k), player)
      {
        if board[0, j] == player && board[1, j] == player && board[2, j] == player {
          assert Holds(Cells(), Column(j), player);
          return true;
        }
      }
      if board[0, 0] == player && board[1, 1] == player && board[2, 2] == player {
        return true;
      }
      if board[0, 2] == player && board[1, 1] == player && board[2, 0] == player {
        return true;
      }
      return false;
    }

    /** Whether no square is empty. */
    method CheckDraw() returns (full: bool)
      requires Shape()
      ensures full == Full(Cells())
    {
      for i := 0 to 3
        invariant forall r, c | 0 <= r < i && 0 <= c < 3 :: board[r, c] != EMPTY
      {
        for j := 0 to 3
          invariant forall c | 0 <= c < j :: board[i, c] != EMPTY
        {
          if board[i, j] == EMPTY {
            return false;
          }
        }
      }
      return true;
    }

    /** The game is over exactly when someone holds a line or the board is full. */
    function IsGameOver(): (over: bool)
      reads this, board
      requires Valid()
      ensures over <==> Wins(Cells(), 'X') || Wins(Cells(), 'O') || Full(Cells())
    {
      gameOver
    }

    /** ' ' while the game runs; otherwise the player who holds a line, which
      * the opponent does not, or 'D' for a full board without lines. */
    function GetWinner(): (w: char)
      reads this, board
      requires Valid()
      ensures w == NOBODY <==> !gameOver
      ensures w == DRAW ==> Full(Cells()) && !Wins(Cells(), 'X') && !Wins(Cells(), 'O')
      ensures w != NOBODY && w != DRAW ==> IsSymbol(w) && Wins(Cells(), w) && !Wins(Cells(), Other(w))
    {
      winner
    }
  }
}
