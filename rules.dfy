/**
 * The rules of the game as values: the 3x3 grid, the eight winning lines,
 * the win and draw tests, and the state change that one accepted call of
 * `make_move` performs once its caller has passed the turn wait.
 * The class in GameState runs the same logic in place and is proved to
 * agree with `Move` below.
 */
module GameRules {

  /** The cell value of an empty square. */
  const EMPTY: char := ' '
  /** The value of `winner` while nobody has won and the game is not drawn. */
  const NOBODY: char := ' '
  /** The value of `winner` after a draw. */
  const DRAW: char := 'D'

  /** The two player symbols. */
  predicate IsSymbol(p: char) {
    p == 'X' || p == 'O'
  }

  /** The symbol that moves after `p`: anything but 'X' is followed by 'X'. */
  function Other(p: char): char {
    if p == 'X' then 'O' else 'X'
  }

  /** A row or column index. */
  type Index = i: int | 0 <= i < 3

  /** The board as three rows of three cells, row-major like `board[row][col]`. */
  type Grid = g: seq<seq<char>> | |g| == 3 && forall r | 0 <= r < 3 :: |g[r]| == 3
    witness [[' ', ' ', ' '], [' ', ' ', ' '], [' ', ' ', ' ']]

  const EmptyGrid: Grid := [[EMPTY, EMPTY, EMPTY], [EMPTY, EMPTY, EMPTY], [EMPTY, EMPTY, EMPTY]]

  datatype Square = Square(row: Index, col: Index)

  /** Three squares in a straight line. */
  datatype Line = Line(a: Square, b: Square, c: Square)

  /** The eight winning lines, written out square by square. */
  const Lines: seq<Line> := [
    Line(Square(0, 0), Square(0, 1), Square(0, 2)),
    Line(Square(1, 0), Square(1, 1), Square(1, 2)),
    Line(Square(2, 0), Square(2, 1), Square(2, 2)),
    Line(Square(0, 0), Square(1, 0), Square(2, 0)),
    Line(Square(0, 1), Square(1, 1), Square(2, 1)),
    Line(Square(0, 2), Square(1, 2), Square(2, 2)),
    Line(Square(0, 0), Square(1, 1), Square(2, 2)),
    Line(Square(0, 2), Square(1, 1), Square(2, 0))
  ]

  function At(g: Grid, q: Square): char {
    g[q.row][q.col]
  }

  /** All three squares of `l` hold `p`. */
  predicate Holds(g: Grid, l: Line, p: char) {
    At(g, l.a) == p && At(g, l.b) == p && At(g, l.c) == p
  }

  /** `p` has three in a line. */
  predicate Wins(g: Grid, p: char) {
    exists l | l in Lines :: Holds(g, l, p)
  }

  /** No square is empty. */
  predicate Full(g: Grid) {
    forall r, c | 0 <= r < 3 && 0 <= c < 3 :: g[r][c] != EMPTY
  }

  // The lines in the order the scan of `check_win` visits them.

  function Row(i: Index): Line {
    Line(Square(i, 0), Square(i, 1), Square(i, 2))
  }

  function Column(j: Index): Line {
    Line(Square(0, j), Square(1, j), Square(2, j))
  }

  const Diagonal: Line := Line(Square(0, 0), Square(1, 1), Square(2, 2))
  const AntiDiagonal: Line := Line(Square(0, 2), Square(1, 1), Square(2, 0))

  /** The eight lines of the table are exactly the three rows, the three
    * columns and the two diagonals that `check_win` tests. */
  lemma WinsByScan(g: Grid, p: char)
    ensures Wins(g, p) <==>
      (exists i: Index :: Holds(g, Row(i), p)) ||
      (exists j: Index :: Holds(g, Column(j), p)) ||
      Holds(g, Diagonal, p) || Holds(g, AntiDiagonal, p)
  {
    if Wins(g, p) {
      var l :| l in Lines && Holds(g, l, p);
      if l == Lines[0] { assert Holds(g, Row(0), p); }
      else if l == Lines[1] { assert Holds(g, Row(1), p); }
      else if l == Lines[2] { assert Holds(g, Row(2), p); }
      else if l == Lines[3] { assert Holds(g, Column(0), p); }
      else if l == Lines[4] { assert Holds(g, Column(1), p); }
      else if l == Lines[5] { assert Holds(g, Column(2), p); }
    }
    if exists i: Index :: Holds(g, Row(i), p) {
      var i: Index :| Holds(g, Row(i), p);
      assert Row(i) == Lines[i];
    }
    if exists j: Index :: Holds(g, Column(j), p) {
      var j: Index :| Holds(g, Column(j), p);
      assert Column(j) == Lines[3 + j];
    }
    if Holds(g, Diagonal, p) {
      assert Diagonal == Lines[6];
    }
    if Holds(g, AntiDiagonal, p) {
      assert AntiDiagonal == Lines[7];
    }
  }

  /** Two grids with the same cells are the same grid. */
  lemma GridsAgree(g: Grid, h: Grid)
    requires forall r, c | 0 <= r < 3 && 0 <= c < 3 :: g[r][c] == h[r][c]
    ensures g == h
  {
    assert g[0] == h[0] && g[1] == h[1] && g[2] == h[2];
  }

  /** The grid after `p` is written into square (r, c). */
  function Place(g: Grid, p: char, r: Index, c: Index): (g': Grid)
    ensures g'[r][c] == p
    ensures forall i, j | 0 <= i < 3 && 0 <= j < 3 && (i != r || j != c) :: g'[i][j] == g[i][j]
  {
    g[r := g[r][c := p]]
  }

  /** The fields of a `TicTacToe` object, the mutex and condition variable aside. */
  datatype Game = Game(grid: Grid, current: char, over: bool, winner: char)

  /** What the constructor establishes. */
  const Start: Game := Game(EmptyGrid, 'X', false, NOBODY)

  /** The new state, and whether the call of `make_move` returned true. */
  datatype Outcome = Outcome(game: Game, accepted: bool)

  /**
   * The critical section of `make_move(player, row, col)` after the wait:
   * reject an occupied square or a finished game, otherwise place the symbol,
   * then test for a win before a draw, and pass the turn only when neither.
   */
  function Move(s: Game, player: char, row: Index, col: Index): (o: Outcome)
    ensures !o.accepted <==> s.grid[row][col] != EMPTY || s.over
    ensures !o.accepted ==> o.game == s
    ensures o.accepted ==> o.game.grid == Place(s.grid, player, row, col)
    ensures o.accepted ==> (o.game.over <==> Wins(o.game.grid, player) || Full(o.game.grid))
    ensures o.accepted && Wins(o.game.grid, player) ==> o.game.winner == player
    ensures o.accepted && !Wins(o.game.grid, player) && Full(o.game.grid) ==> o.game.winner == DRAW
    ensures o.accepted && o.game.over ==> o.game.current == s.current
    ensures o.accepted && !o.game.over ==> o.game.current == Other(player) && o.game.winner == s.winner
  {
    if s.grid[row][col] != EMPTY || s.over then
      Outcome(s, false)
    else
      var g := Place(s.grid, player, row, col);
      if Wins(g, player) then
        Outcome(Game(g, s.current, true, player), true)
      else if Full(g) then
        Outcome(Game(g, s.current, true, DRAW), true)
      else
        Outcome(Game(g, Other(player), false, s.winner), true)
  }

  // The turn wait of `make_move`.

  /** The wait predicate as the source writes it: released only on one's own
    * turn of a game still in progress. */
  predicate WaitDoneAsWritten(s: Game, player: char) {
    player == s.current && !s.over
  }

  /** The wait predicate this model uses: released on one's own turn, or as
    * soon as the game is over (the call is then rejected). */
  predicate WaitDone(s: Game, player: char) {
    player == s.current || s.over
  }

  // Counting symbols on the grid.

  function Flat(g: Grid): seq<char> {
    g[0] + g[1] + g[2]
  }

  /** How many times `ch` occurs in `s`. */
  function Occurrences(s: seq<char>, ch: char): nat
    decreases |s|
  {
    if s == [] then 0 else (if s[0] == ch then 1 else 0) + Occurrences(s[1..], ch)
  }

  function Count(g: Grid, ch: char): nat {
    Occurrences(Flat(g), ch)
  }

  /** A value that does not occur is counted zero times. */
  lemma {:induction false} OccurrencesAbsent(s: seq<char>, ch: char)
    requires forall k | 0 <= k < |s| :: s[k] != ch
    ensures Occurrences(s, ch) == 0
    decreases |s|
  {
    if s != [] {
      OccurrencesAbsent(s[1..], ch);
    }
  }

  /** Overwriting position `k` of `s` with `v` removes one occurrence of the
    * old value and adds one of `v`. */
  lemma {:induction false} OccurrencesUpdate(s: seq<char>, k: nat, v: char, ch: char)
    requires k < |s|
    ensures Occurrences(s[k := v], ch) + (if s[k] == ch then 1 else 0)
         == Occurrences(s, ch) + (if v == ch then 1 else 0)
    decreases |s|
  {
    if k > 0 {
      OccurrencesUpdate(s[1..], k - 1, v, ch);
      assert s[k := v][1..] == s[1..][k - 1 := v];
    } else {
      assert s[k := v][1..] == s[1..];
    }
  }

  /** Writing `p` into an empty square adds one `p` and leaves the count of
    * every other non-empty value alone. */
  lemma PlaceCount(g: Grid, p: char, r: Index, c: Index, q: char)
    requires g[r][c] == EMPTY && p != EMPTY
    ensures Count(Place(g, p, r, c), p) == Count(g, p) + 1
    ensures q != p && q != EMPTY ==> Count(Place(g, p, r, c), q) == Count(g, q)
  {
    var g' := Place(g, p, r, c);
    assert Flat(g)[3 * r + c] == EMPTY;
    assert Flat(g') == Flat(g)[3 * r + c := p];
    OccurrencesUpdate(Flat(g), 3 * r + c, p, p);
    OccurrencesUpdate(Flat(g), 3 * r + c, p, q);
  }

  /** Writing `p` cannot give any other symbol a line. */
  lemma PlaceKeepsOtherLines(g: Grid, p: char, r: Index, c: Index, q: char)
    requires q != p
    ensures Wins(Place(g, p, r, c), q) ==> Wins(g, q)
  {
  }

  /**
   * The invariant of every state a game can reach: cells hold a symbol or
   * nothing; the game is over exactly when `winner` is set; a game in
   * progress has no line and a free square; a winner owns a line, its
   * opponent none, and moved last; a draw is a full board without lines;
   * and 'X', who opens, is one symbol ahead exactly when 'O' is to move
   * (or, once the game is over, when 'X' made the last move).
   */
  predicate Inv(s: Game) {
    IsSymbol(s.current) &&
    (forall r, c | 0 <= r < 3 && 0 <= c < 3 :: s.grid[r][c] == EMPTY || IsSymbol(s.grid[r][c])) &&
    (s.winner == NOBODY || s.winner == DRAW || IsSymbol(s.winner)) &&
    (s.over <==> s.winner != NOBODY) &&
    (!s.over ==> !Wins(s.grid, 'X') && !Wins(s.grid, 'O') && !Full(s.grid)) &&
    (s.winner == DRAW ==> Full(s.grid) && !Wins(s.grid, 'X') && !Wins(s.grid, 'O')) &&
    (IsSymbol(s.winner) ==> s.winner == s.current && Wins(s.grid, s.winner) && !Wins(s.grid, Other(s.winner))) &&
    Count(s.grid, 'X') == Count(s.grid, 'O') + (if s.over <==> s.current == 'X' then 1 else 0)
  }

  lemma StartInv()
    ensures Inv(Start)
  {
    OccurrencesAbsent(Flat(EmptyGrid), 'X');
    OccurrencesAbsent(Flat(EmptyGrid), 'O');
    assert !Full(EmptyGrid) by { assert EmptyGrid[0][0] == EMPTY; }
  }

  /** Every call that passes the wait keeps the invariant. */
  lemma {:induction false} MovePreservesInv(s: Game, player: char, row: Index, col: Index)
    requires Inv(s) && WaitDone(s, player)
    ensures Inv(Move(s, player, row, col).game)
  {
    var o := Move(s, player, row, col);
    if o.accepted {
      var g := o.game.grid;
      PlaceCount(s.grid, player, row, col, Other(player));
      PlaceKeepsOtherLines(s.grid, player, row, col, Other(player));
      assert player == 'X' || player == 'O';
      if player == 'X' {
        assert !Wins(g, 'O');
      } else {
        assert !Wins(g, 'X');
      }
    }
  }

  /** A proposed call `make_move(player, row, col)`. */
  datatype Proposal = Proposal(player: char, row: Index, col: Index)

  /**
   * One interleaving of calls from the two players. A proposal whose wait
   * predicate is false at its point stands for a call that has not passed
   * the wait there; it changes nothing.
   */
  function Run(s: Game, ps: seq<Proposal>): Game
    decreases |ps|
  {
    if ps == [] then s
    else
      var p := ps[0];
      var next := if WaitDone(s, p.player) then Move(s, p.player, p.row, p.col).game else s;
      Run(next, ps[1..])
  }

  lemma {:induction false} RunPreservesInv(s: Game, ps: seq<Proposal>)
    requires Inv(s)
    ensures Inv(Run(s, ps))
    decreases |ps|
  {
    if ps != [] {
      var p := ps[0];
      if WaitDone(s, p.player) {
        MovePreservesInv(s, p.player, p.row, p.col);
        RunPreservesInv(Move(s, p.player, p.row, p.col).game, ps[1..]);
      } else {
        RunPreservesInv(s, ps[1..]);
      }
    }
  }

  /** Once over, a game never changes again: `over` stays true and
    * `winner` keeps its value, whatever calls follow. */
  lemma {:induction false} FinishedGameIsFinal(s: Game, ps: seq<Proposal>)
    requires s.over
    ensures Run(s, ps) == s
    decreases |ps|
  {
    if ps != [] {
      FinishedGameIsFinal(s, ps[1..]);
    }
  }

  /** The outcome of every game played from the start is truthful. */
  lemma ReachableOutcome(ps: seq<Proposal>)
    ensures var s := Run(Start, ps);
      (s.over <==> s.winner != NOBODY) &&
      (IsSymbol(s.winner) ==> Wins(s.grid, s.winner) && !Wins(s.grid, Other(s.winner))) &&
      (s.winner == DRAW <==> s.over && !Wins(s.grid, 'X') && !Wins(s.grid, 'O')) &&
      (Full(s.grid) ==> s.over) &&
      (!s.over ==> (s.current == 'X' <==> Count(s.grid, 'X') == Count(s.grid, 'O')))
  {
    StartInv();
    RunPreservesInv(Start, ps);
  }

  // The turn wait, as written and as this model uses it.

  /** With the wait as written, a finished game releases nobody, and no
    * later call can change that: every caller still waiting when the game
    * ends (the losing player, in practice) waits forever. */
  lemma {:induction false} AsWrittenWaitNeverReleasesAfterEnd(s: Game, ps: seq<Proposal>, player: char)
    requires s.over
    ensures !WaitDoneAsWritten(Run(s, ps), player)
  {
    FinishedGameIsFinal(s, ps);
  }

  /** 'X' completes the top row while 'O' plays the middle row; the game is
    * then over with 'X' as winner, and a call by 'O' that was waiting for its
    * turn is not released by the wait as written. */
  lemma AsWrittenLoserBlocks()
    ensures var s := Run(Start, [Proposal('X', 0, 0), Proposal('O', 1, 0), Proposal('X', 0, 1),
                                 Proposal('O', 1, 1), Proposal('X', 0, 2)]);
      s.over && s.winner == 'X' && !WaitDoneAsWritten(s, 'O')
  {
    var s1 := Move(Start, 'X', 0, 0).game;
    assert !Wins(s1.grid, 'X') && !Full(s1.grid) by { assert s1.grid[2][2] == EMPTY; }
    var s2 := Move(s1, 'O', 1, 0).game;
    assert !Wins(s2.grid, 'O') && !Full(s2.grid) by { assert s2.grid[2][2] == EMPTY; }
    var s3 := Move(s2, 'X', 0, 1).game;
    assert !Wins(s3.grid, 'X') && !Full(s3.grid) by { assert s3.grid[2][2] == EMPTY; }
    var s4 := Move(s3, 'O', 1, 1).game;
    assert !Wins(s4.grid, 'O') && !Full(s4.grid) by { assert s4.grid[2][2] == EMPTY; }
    var s5 := Move(s4, 'X', 0, 2).game;
    assert Holds(s5.grid, Lines[0], 'X');
  }

  /** With the corrected wait, a finished game releases every caller and the
    * released call is rejected without effect; during play exactly one of the
    * two players is released, the one whose turn it is, as with the wait as
    * written. */
  lemma CorrectedWaitReleasesAfterEnd(ps: seq<Proposal>, player: char, row: Index, col: Index)
    ensures var s := Run(Start, ps);
      (s.over ==> WaitDone(s, player) && Move(s, player, row, col) == Outcome(s, false)) &&
      (!s.over ==> (WaitDone(s, player) <==> WaitDoneAsWritten(s, player))) &&
      (!s.over ==> WaitDone(s, 'X') != WaitDone(s, 'O'))
  {
    StartInv();
    RunPreservesInv(Start, ps);
  }
}
