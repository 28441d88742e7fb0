/** The list-based tic-tac-toe rules of board_game_rl/tictactoe_logic.py:
    cells hold the player ids 1 and 2, and 0 for an empty cell. */
module IdLogic {
  import opened Wrappers
  import opened Grid

  /** The ids the win checks try, in order: `for player_id in [1, 2]`. */
  const PlayerIds: seq<int> := [1, 2]

  /** `initialize_board_state_logic`: a fresh all-zero 3x3 board. */
  method InitializeBoardState() returns (b: array2<int>)
    ensures fresh(b) && IsSquare(b)
    ensures Cells(b) == Zeros()
  {
    b := NewZeros();
  }

  /** The `for player_id in ids` loop of `game_over_logic`: true as soon as one
      id has a complete line, and otherwise whether the board is full. */
  function GameOverFrom(g: Board, ids: seq<int>): (over: bool)
    requires IsGrid(g)
    ensures over <==> (exists i :: 0 <= i < |ids| && HasLine(g, ids[i])) || Full(g)
  {
    if ids == [] then Full(g)
    else HasLine(g, ids[0]) || GameOverFrom(g, ids[1..])
  }

  /** `game_over_logic` */
  function GameOver(g: Board): (over: bool)
    requires IsGrid(g)
    ensures over <==> HasLine(g, 1) || HasLine(g, 2) || Full(g)
  {
    assert PlayerIds[0] == 1 && PlayerIds[1] == 2;
    GameOverFrom(g, PlayerIds)
  }

  /** The value of `make_move_logic`: the id is written only into an empty cell;
      an occupied cell leaves the board as it was. */
  function MoveValue(g: Board, move: Move, id: int): (h: Board)
    requires IsGrid(g) && InRange(move)
    ensures IsGrid(h)
    ensures g[move.0][move.1] == 0 ==> h[move.0][move.1] == id
    ensures g[move.0][move.1] != 0 ==> h == g
    ensures forall r, c :: 0 <= r < 3 && 0 <= c < 3 && (r, c) != move ==> h[r][c] == g[r][c]
  {
    if g[move.0][move.1] == 0 then Place(g, move, id) else g
  }

  /** `make_move_logic(board_state, move, player_id)`: writes in place, silently
      ignores an occupied cell, and returns the same board either way. */
  method MakeMove(board: array2<int>, move: Move, id: int) returns (r: array2<int>)
    requires IsSquare(board) && InRange(move)
    modifies board
    ensures r == board
    ensures Cells(board) == MoveValue(old(Cells(board)), move, id)
  {
    if board[move.0, move.1] == 0 {
      board[move.0, move.1] := id;
      BoardsEqual(Cells(board), Place(old(Cells(board)), move, id));
    }
    return board;
  }

  /** The `for player_id in ids` loop of `get_winner_logic`: the first id with a
      complete line; failing that 0 for a full board, and `None` otherwise. */
  function WinnerFrom(g: Board, ids: seq<int>): (w: Option<int>)
    requires IsGrid(g)
    ensures (exists i :: 0 <= i < |ids| && HasLine(g, ids[i])) ==>
      exists i :: 0 <= i < |ids| && HasLine(g, ids[i]) && w == Some(ids[i]) &&
        forall j :: 0 <= j < i ==> !HasLine(g, ids[j])
    ensures !(exists i :: 0 <= i < |ids| && HasLine(g, ids[i])) ==>
      w == if Full(g) then Some(0) else None
  {
    if ids == [] then (if Full(g) then Some(0) else None)
    else if HasLine(g, ids[0]) then Some(ids[0])
    else WinnerFrom(g, ids[1..])
  }

  /** `get_winner_logic`: 1 when 1 has a complete line, 2 when only 2 has one;
      with no line, 0 for a full board (a draw) and `None` for a game still on. */
  function GetWinner(g: Board): (w: Option<int>)
    requires IsGrid(g)
    ensures w == Some(1) <==> HasLine(g, 1)
    ensures w == Some(2) <==> HasLine(g, 2) && !HasLine(g, 1)
    ensures w == Some(0) <==> !HasLine(g, 1) && !HasLine(g, 2) && Full(g)
    ensures w == None <==> !HasLine(g, 1) && !HasLine(g, 2) && !Full(g)
  {
    assert PlayerIds[0] == 1 && PlayerIds[1] == 2;
    WinnerFrom(g, PlayerIds)
  }

  /** `valid_moves_logic`: the empty cells in row-major order; the player
      argument is ignored. */
  function ValidMoves(g: Board, id: int): (moves: seq<Move>)
    requires IsGrid(g)
    ensures forall m :: m in moves <==> InRange(m) && g[m.0][m.1] == 0
    ensures forall i, j :: 0 <= i < j < |moves| ==> Index(moves[i]) < Index(moves[j])
  {
    EmptyCells(g)
  }

  /** A move by a nonzero id into an empty cell removes exactly that cell from
      the valid moves. */
  lemma MoveRemovesValidMove(g: Board, move: Move, id: int, other: int)
    requires IsGrid(g) && InRange(move) && g[move.0][move.1] == 0 && id != 0
    ensures |ValidMoves(MoveValue(g, move, id), other)| == |ValidMoves(g, other)| - 1
    ensures forall m :: m in ValidMoves(MoveValue(g, move, id), other) <==> m in ValidMoves(g, other) && m != move
  {
    PlaceRemovesMove(g, move, id);
  }

  /** The game is over exactly when `get_winner_logic` has an answer. */
  lemma GameOverIffWinnerKnown(g: Board)
    requires IsGrid(g)
    ensures GameOver(g) <==> GetWinner(g).Some?
  {
  }
}
