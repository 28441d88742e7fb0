/** board_game_rl/env_class.py: `GameEnv`, the second episode state machine
    over a `GameBoard`. It differs from `BoardGameEnv` only in what `reset`
    returns: the game board itself and the `done` flag. */
module EnvClass {
  import opened Wrappers
  import opened Players
  import opened Grid
  import ExampleLogic
  import opened BoardClasses

  class GameEnv {
    const gameBoard: GameBoard
    var done: bool
    var winner: Player

    predicate Valid()
      reads this, gameBoard
    {
      gameBoard.Valid()
    }

    constructor (template: array2<int>)
      requires IsSquare(template)
      ensures fresh(gameBoard) && gameBoard.template == template && gameBoard.board == null
      ensures !done && winner == Nobody
    {
      gameBoard := new GameBoard(template);
      done := false;
      winner := Nobody;
    }

    /** `reset`: a fresh copy of the template, `done` cleared, no winner; returns
        `(game_board, False)`. */
    method Reset() returns (gb: GameBoard, d: bool)
      requires gameBoard.Wf()
      modifies this, gameBoard
      ensures Valid() && fresh(gameBoard.board)
      ensures Cells(gameBoard.board) == Cells(gameBoard.template)
      ensures !done && winner == Nobody
      ensures gb == gameBoard && d == done
    {
      var _, _ := gameBoard.Reset();
      done := false;
      winner := Nobody;
      return gameBoard, done;
    }

    /** `step(player, move)`: `ValueError` on a finished episode, with nothing
        changed; otherwise the move is played in place through `GameBoard.play`,
        `done` and the winner are set exactly when the game is over afterwards,
        and `(new_state, reward, done)` is returned. */
    method Step(player: Player, move: Move) returns (r: Result<StepResult>)
      requires Valid() && InRange(move)
      modifies this, gameBoard.board
      ensures Valid() && gameBoard.board == old(gameBoard.board)
      ensures Cells(gameBoard.template) == old(Cells(gameBoard.template))
      ensures old(done) ==> r == Err(GameOverError) && done && winner == old(winner)
      ensures old(done) ==> Cells(gameBoard.board) == old(Cells(gameBoard.board))
      ensures !old(done) ==> r.Ok?
      ensures !old(done) ==>
        var played := ExampleLogic.PlayValue(old(Cells(gameBoard.board)), player, move);
        && Cells(gameBoard.board) == (if played.Some? then played.value else old(Cells(gameBoard.board)))
        && r.value.newState == (if played.Some? then gameBoard.board else null)
      ensures !old(done) ==> done == gameBoard.GameOver()
      ensures !old(done) ==> winner == if done then gameBoard.Winner() else old(winner)
      ensures !old(done) ==> r.value.reward == Reward(done, winner, player) && r.value.done == done
    {
      if done {
        return Err(GameOverError);
      }
      var newState := gameBoard.Play(player, move, true);
      if gameBoard.GameOver() {
        done := true;
        winner := gameBoard.Winner();
      }
      var reward := CalculateReward(player);
      return Ok(StepResult(newState, reward, done));
    }

    /** `calculate_reward(player)` on the current `done` and `winner`. */
    function CalculateReward(player: Player): (r: real)
      reads this
      ensures r == Reward(done, winner, player)
    {
      Reward(done, winner, player)
    }
  }
}
