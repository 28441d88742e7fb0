/** The tic-tac-toe rules of board_game_rl/example_logic/tictactoe_logic.py:
    cells hold the `Player` values +1, -1 and 0 of a 3x3 numpy array. */
module ExampleLogic {
  import opened Wrappers
  import opened Players
  import opened Grid

  // ---------------------------------------------------------------------------
  // Playing a move: `tictactoe_play_logic`.

  /** The board a successful move produces, or `None` when the target cell is
      occupied. */
  function PlayValue(g: Board, player: Player, move: Move): (r: Option<Board>)
    requires IsGrid(g) && InRange(move)
    ensures r.Some? <==> g[move.0][move.1] == Value(Nobody)
    ensures r.Some? ==> IsGrid(r.value) && r.value[move.0][move.1] == Value(player)
    ensures r.Some? ==> forall i, j :: 0 <= i < 3 && 0 <= j < 3 && (i, j) != move ==> r.value[i][j] == g[i][j]
  {
    if g[move.0][move.1] == Value(Nobody) then Some(Place(g, move, Value(player))) else None
  }

  /** `tictactoe_play_logic(board, player, move, mutate)`. With `mutate` false the
      move is played on a fresh copy and `board` is left alone; with `mutate` true
      it is written into `board`, which is returned. An occupied target cell
      yields `null` (the source's `None`) and changes nothing. */
  method PlayLogic(board: array2<int>, player: Player, move: Move, mutate: bool) returns (r: array2?<int>)
    requires IsSquare(board) && InRange(move)
    modifies board
    ensures (r != null) <==> PlayValue(old(Cells(board)), player, move).Some?
    ensures r != null ==> IsSquare(r) && Cells(r) == PlayValue(old(Cells(board)), player, move).value
    ensures r != null && mutate ==> r == board
    ensures r != null && !mutate ==> fresh(r)
    ensures Cells(board) == if mutate && r != null then Cells(r) else old(Cells(board))
  {
    var x, y := move.0, move.1;
    if !mutate {
      var played := Copy(board);
      if played[x, y] == Value(Nobody) {
        played[x, y] := Value(player);
        BoardsEqual(Cells(played), Place(old(Cells(board)), move, Value(player)));
        return played;
      } else {
        return null;
      }
    } else {
      if board[x, y] == Value(Nobody) {
        board[x, y] := Value(player);
        BoardsEqual(Cells(board), Place(old(Cells(board)), move, Value(player)));
        return board;
      } else {
        return null;
      }
    }
  }

  /** A successful move keeps every cell a `Player` value. */
  lemma PlayKeepsSigned(g: Board, player: Player, move: Move)
    requires IsGrid(g) && InRange(move) && Signed(g)
    requires PlayValue(g, player, move).Some?
    ensures Signed(PlayValue(g, player, move).value)
  {
  }

  // ---------------------------------------------------------------------------
  // Valid moves: `tictactoe_board_valid_moves`.

  /** The empty cells in row-major order; the `player` argument is ignored. */
  function ValidMoves(g: Board, player: Option<Player>): (moves: seq<Move>)
    requires IsGrid(g)
    ensures forall m :: m in moves <==> InRange(m) && g[m.0][m.1] == Value(Nobody)
    ensures forall i, j :: 0 <= i < j < |moves| ==> Index(moves[i]) < Index(moves[j])
  {
    EmptyCells(g)
  }

  /** On the all-zero board all nine cells are valid, (0,0) through (2,2). */
  lemma ValidMovesOfEmptyBoard(player: Option<Player>)
    ensures ValidMoves(Zeros(), player) == AllCells()
    ensures |ValidMoves(Zeros(), player)| == 9
  {
    EmptyCellsOfZeros();
  }

  /** A successful move by A or B removes exactly the played cell from the valid
      moves: one fewer, and no previously filled cell ever reappears. */
  lemma ValidMovesAfterPlay(g: Board, player: Player, move: Move, other: Option<Player>)
    requires IsGrid(g) && InRange(move) && player != Nobody
    requires PlayValue(g, player, move).Some?
    ensures |ValidMoves(PlayValue(g, player, move).value, other)| == |ValidMoves(g, other)| - 1
    ensures forall m :: m in ValidMoves(PlayValue(g, player, move).value, other) <==> m in ValidMoves(g, other) && m != move
  {
    PlaceRemovesMove(g, move, Value(player));
  }

  // ---------------------------------------------------------------------------
  // The winner: `tictactoe_winner` and its inner `tictactoe_win`.

  /** `sum(board[i, :])` */
  function RowSum(g: Board, i: int): int
    requires IsGrid(g) && 0 <= i < 3
  {
    g[i][0] + g[i][1] + g[i][2]
  }

  /** `sum(board[:, i])` */
  function ColSum(g: Board, i: int): int
    requires IsGrid(g) && 0 <= i < 3
  {
    g[0][i] + g[1][i] + g[2][i]
  }

  /** `tictactoe_win(board, player)`: some row, column or diagonal sums to
      three times the player's value. */
  predicate Win(g: Board, player: Player)
    requires IsGrid(g)
  {
    || (exists i :: 0 <= i < 3 && (RowSum(g, i) == 3 * Value(player) || ColSum(g, i) == 3 * Value(player)))
    || g[0][0] + g[1][1] + g[2][2] == 3 * Value(player)
    || g[0][2] + g[1][1] + g[2][0] == 3 * Value(player)
  }

  /** `tictactoe_winner`: A is checked before B; with neither, `Player.none`. */
  function Winner(g: Board): (r: Player)
    requires IsGrid(g)
    ensures r == A <==> Win(g, A)
    ensures r == B <==> Win(g, B) && !Win(g, A)
    ensures r == Nobody <==> !Win(g, A) && !Win(g, B)
  {
    if Win(g, A) then A
    else if Win(g, B) then B
    else Nobody
  }

  /** Three `Player` values sum to three times a side's value exactly when all
      three are that value. */
  lemma SumOfThree(a: int, b: int, c: int, v: int)
    requires a in {-1, 0, 1} && b in {-1, 0, 1} && c in {-1, 0, 1} && v in {-1, 1}
    ensures a + b + c == 3 * v <==> a == v && b == v && c == v
  {
  }

  /** Row `i` and column `i` pass the sum test exactly when they are complete. */
  lemma LineSumsAt(g: Board, i: int, v: int)
    requires IsGrid(g) && Signed(g) && 0 <= i < 3 && v in {-1, 1}
    ensures RowSum(g, i) == 3 * v <==> RowAll(g, i, v)
    ensures ColSum(g, i) == 3 * v <==> ColAll(g, i, v)
  {
    SumOfThree(g[i][0], g[i][1], g[i][2], v);
    SumOfThree(g[0][i], g[1][i], g[2][i], v);
  }

  /** On a board of `Player` values, the sum test for A or B is the same as a
      row, column or diagonal holding that side's value in all three cells. */
  lemma WinIffLine(g: Board, player: Player)
    requires IsGrid(g) && Signed(g) && player != Nobody
    ensures Win(g, player) <==> HasLine(g, Value(player))
  {
    var v := Value(player);
    LineSumsAt(g, 0, v);
    LineSumsAt(g, 1, v);
    LineSumsAt(g, 2, v);
    DiagSums(g, v);
  }

  /** Each diagonal passes the sum test exactly when it is complete. */
  lemma DiagSums(g: Board, v: int)
    requires IsGrid(g) && Signed(g) && v in {-1, 1}
    ensures g[0][0] + g[1][1] + g[2][2] == 3 * v <==> DiagAll(g, v)
    ensures g[0][2] + g[1][1] + g[2][0] == 3 * v <==> AntiDiagAll(g, v)
  {
    SumOfThree(g[0][0], g[1][1], g[2][2], v);
    SumOfThree(g[0][2], g[1][1], g[2][0], v);
    assert DiagAll(g, v) <==> g[0][0] == v && g[1][1] == v && g[2][2] == v;
    assert AntiDiagAll(g, v) <==> g[0][2] == v && g[1][1] == v && g[2][0] == v;
  }

  /** The winner on a board of `Player` values: A exactly when A has a complete
      line; B exactly when B has one and A does not; `Player.none` exactly when
      neither side has one. */
  lemma WinnerIffLine(g: Board)
    requires IsGrid(g) && Signed(g)
    ensures Winner(g) == A <==> HasLine(g, 1)
    ensures Winner(g) == B <==> HasLine(g, -1) && !HasLine(g, 1)
    ensures Winner(g) == Nobody <==> !HasLine(g, 1) && !HasLine(g, -1)
  {
    WinIffLine(g, A);
    WinIffLine(g, B);
  }

  /** The empty board has no winner. */
  lemma WinnerOfEmptyBoard()
    ensures Winner(Zeros()) == Nobody
  {
    assert !Win(Zeros(), A) by {
      forall i | 0 <= i < 3 ensures RowSum(Zeros(), i) == 0 && ColSum(Zeros(), i) == 0 { }
    }
    assert !Win(Zeros(), B) by {
      forall i | 0 <= i < 3 ensures RowSum(Zeros(), i) == 0 && ColSum(Zeros(), i) == 0 { }
    }
  }

  /** Row 0 holding A, A and an empty cell: A playing the empty cell wins. */
  lemma CompletingRowWins(g: Board)
    requires IsGrid(g) && g[0][0] == 1 && g[0][1] == 1 && g[0][2] == 0
    ensures PlayValue(g, A, (0, 2)).Some?
    ensures Winner(PlayValue(g, A, (0, 2)).value) == A
  {
    var h := PlayValue(g, A, (0, 2)).value;
    assert RowSum(h, 0) == 3;
  }

  // ---------------------------------------------------------------------------
  // The `"board"` entry of the `tictactoe_logic` bundle.

  /** `np.zeros((3, 3))`: the board template of the rule bundle. */
  method NewBoardTemplate() returns (t: array2<int>)
    ensures fresh(t) && IsSquare(t)
    ensures Cells(t) == Zeros()
  {
    t := NewZeros();
  }
}
