/** board_game_rl/board.py: `BoardGame`, which owns a list-based board and a
    turn index over its players, and plays through the rules of
    board_game_rl/tictactoe_logic.py. */
module Board {
  import opened Wrappers
  import opened Grid
  import IdLogic

  class BoardGame {
    /** The `player_id` of each entry of `players`, in turn order. */
    const players: seq<int>
    var boardState: array2<int>
    var currentPlayerIndex: nat

    /** The turn index is within `[0, len(players))`; an empty player list keeps
        it at 0. */
    predicate Valid()
      reads this
    {
      IsSquare(boardState) &&
      (if |players| == 0 then currentPlayerIndex == 0 else currentPlayerIndex < |players|)
    }

    /** The id of `players[current_player_index]`. */
    function CurrentId(): int
      reads this
      requires Valid() && |players| > 0
    {
      players[currentPlayerIndex]
    }

    constructor (players: seq<int>)
      ensures Valid() && this.players == players
      ensures fresh(boardState) && Cells(boardState) == Zeros()
      ensures currentPlayerIndex == 0
    {
      var initial := IdLogic.InitializeBoardState();
      this.players := players;
      boardState := initial;
      currentPlayerIndex := 0;
    }

    /** `is_game_over` */
    function IsGameOver(): (over: bool)
      reads this, boardState
      requires Valid()
      ensures over <==> IdLogic.GameOver(Cells(boardState))
    {
      IdLogic.GameOver(Cells(boardState))
    }

    /** `play_turn(move)`: the current player's id is written through
        `make_move_logic` (in place, ignored on an occupied cell); unless the game
        is then over, the turn passes to the next player, cyclically. */
    method PlayTurn(move: Move)
      requires Valid() && |players| > 0 && InRange(move)
      modifies this, boardState
      ensures Valid() && boardState == old(boardState)
      ensures Cells(boardState) == IdLogic.MoveValue(old(Cells(boardState)), move, old(CurrentId()))
      ensures currentPlayerIndex ==
        if IsGameOver() then old(currentPlayerIndex) else (old(currentPlayerIndex) + 1) % |players|
    {
      boardState := IdLogic.MakeMove(boardState, move, players[currentPlayerIndex]);
      if IsGameOver() {
        return;
      }
      currentPlayerIndex := (currentPlayerIndex + 1) % |players|;
    }

    /** `get_winner` */
    function GetWinner(): (w: Option<int>)
      reads this, boardState
      requires Valid()
      ensures w == IdLogic.GetWinner(Cells(boardState))
    {
      IdLogic.GetWinner(Cells(boardState))
    }

    /** `get_valid_moves`: the rules' valid moves, asked for the current player. */
    function GetValidMoves(): (moves: seq<Move>)
      reads this, boardState
      requires Valid() && |players| > 0
      ensures moves == IdLogic.ValidMoves(Cells(boardState), CurrentId())
    {
      IdLogic.ValidMoves(Cells(boardState), players[currentPlayerIndex])
    }

    /** `reset`: a fresh initial board, and the turn back to the first player. */
    method Reset()
      modifies this
      ensures Valid() && fresh(boardState) && Cells(boardState) == Zeros()
      ensures currentPlayerIndex == 0
    {
      boardState := IdLogic.InitializeBoardState();
      currentPlayerIndex := 0;
    }

    /** `simulate_move(move)`: the current player's move played on a deep copy;
        neither the board nor the turn index changes. */
    method SimulateMove(move: Move) returns (s: array2<int>)
      requires Valid() && |players| > 0 && InRange(move)
      ensures fresh(s) && IsSquare(s)
      ensures Cells(s) == IdLogic.MoveValue(Cells(boardState), move, CurrentId())
    {
      var cloned := Copy(boardState);
      s := IdLogic.MakeMove(cloned, move, players[currentPlayerIndex]);
    }
  }
}
