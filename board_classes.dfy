/** board_game_rl/board_classes.py: `GameBoard`, which holds a board and plays
    on it through the tic-tac-toe rule bundle, and the episode state machine
    `BoardGameEnv` with its latched `done`/`winner` and its reward rule. */
module BoardClasses {
  import opened Wrappers
  import opened Players
  import opened Grid
  import ExampleLogic

  /** The error `step` raises on a finished episode. */
  const GameOverError: Error := ValueError("The game is over. Please reset the environment.")

  /** The reward rule of `calculate_reward` for `player`, given the episode's
      `done` flag and recorded `winner`. */
  function Reward(done: bool, winner: Player, player: Player): (r: real)
    ensures !done ==> r == 0.0
    ensures done && winner == player ==> r == 1.0
    ensures done && winner != player && winner == Nobody ==> r == 0.5
    ensures done && winner != player && winner != Nobody ==> r == -1.0
  {
    if !done then 0.0
    else if winner == player then 1.0
    else if winner == Nobody then 0.5
    else -1.0
  }

  /** In a finished game between A and B, a win pays the winner 1 and the loser
      -1 (rewards sum to zero); a draw pays each side 0.5. */
  lemma RewardBetweenSides(winner: Player)
    ensures winner != Nobody ==> Reward(true, winner, A) + Reward(true, winner, B) == 0.0
    ensures winner == Nobody ==> Reward(true, winner, A) == 0.5 && Reward(true, winner, B) == 0.5
    ensures Reward(false, winner, A) == 0.0 && Reward(false, winner, B) == 0.0
  {
  }

  /** What `step` returns: `(new_state, reward, done)`. `newState` is the board
      the rules returned, `null` (the source's `None`) for an occupied cell. */
  datatype StepResult = StepResult(newState: array2?<int>, reward: real, done: bool)

  class GameBoard {
    /** The `"board"` entry of the rule bundle, copied by every `reset`. */
    const template: array2<int>
    /** The live board; it exists only once `reset` has been called. */
    var board: array2?<int>

    predicate Wf()
    {
      IsSquare(template)
    }

    /** `reset` has installed a board of its own, distinct from the template. */
    predicate Valid()
      reads this
    {
      Wf() && board != null && IsSquare(board) && board != template
    }

    constructor (template: array2<int>)
      requires IsSquare(template)
      ensures this.template == template && board == null
    {
      this.template := template;
      board := null;
    }

    /** `reset`: installs a fresh copy of the template and returns `(board, False)`. */
    method Reset() returns (b: array2<int>, flag: bool)
      requires Wf()
      modifies this
      ensures Valid() && fresh(board) && b == board && !flag
      ensures Cells(board) == Cells(template)
      ensures Cells(template) == old(Cells(template))
    {
      board := Copy(template);
      return board, false;
    }

    /** `winner`: the rule bundle's winner of the current board. */
    function Winner(): (w: Player)
      reads this, board
      requires Valid()
      ensures w == ExampleLogic.Winner(Cells(board))
    {
      ExampleLogic.Winner(Cells(board))
    }

    /** `valid_moves`: the empty cells of the current board in row-major order. */
    function ValidMoves(player: Option<Player>): (moves: seq<Move>)
      reads this, board
      requires Valid()
      ensures forall m :: m in moves <==> InRange(m) && board[m.0, m.1] == Value(Nobody)
      ensures forall i, j :: 0 <= i < j < |moves| ==> Index(moves[i]) < Index(moves[j])
    {
      ExampleLogic.ValidMoves(Cells(board), player)
    }

    /** `draw`: no valid move is left and there is no winner. */
    function Draw(): (d: bool)
      reads this, board
      requires Valid()
      ensures d <==> Full(Cells(board)) && Winner() == Nobody
    {
      NoEmptyCellsIffFull(Cells(board));
      |ValidMoves(None)| == 0 && Winner() == Nobody
    }

    /** `game_over`: someone has won, or the game is drawn. */
    function GameOver(): (o: bool)
      reads this, board
      requires Valid()
      ensures o <==> Winner() != Nobody || Full(Cells(board))
    {
      Winner() != Nobody || Draw()
    }

    /** `play`: the rule bundle's move on the current board. */
    method Play(player: Player, move: Move, mutate: bool) returns (r: array2?<int>)
      requires Valid() && InRange(move)
      modifies board
      ensures Cells(template) == old(Cells(template))
      ensures (r != null) <==> ExampleLogic.PlayValue(old(Cells(board)), player, move).Some?
      ensures r != null ==> IsSquare(r) && Cells(r) == ExampleLogic.PlayValue(old(Cells(board)), player, move).value
      ensures r != null && mutate ==> r == board
      ensures r != null && !mutate ==> fresh(r)
      ensures Cells(board) == if mutate && r != null then Cells(r) else old(Cells(board))
    {
      r := ExampleLogic.PlayLogic(board, player, move, mutate);
    }

    /** `__call__`: plays the move in place. */
    method Call(player: Player, move: Move) returns (r: array2?<int>)
      requires Valid() && InRange(move)
      modifies board
      ensures (r != null) <==> ExampleLogic.PlayValue(old(Cells(board)), player, move).Some?
      ensures r != null ==> r == board && Cells(board) == ExampleLogic.PlayValue(old(Cells(board)), player, move).value
      ensures r == null ==> Cells(board) == old(Cells(board))
    {
      r := Play(player, move, true);
    }
  }

  /** On a board of `Player` values the game is over exactly when a side has a
      complete line or no cell is empty. */
  lemma GameOverIffLineOrFull(gb: GameBoard)
    requires gb.Valid() && Signed(Cells(gb.board))
    ensures gb.GameOver() <==> HasLine(Cells(gb.board), 1) || HasLine(Cells(gb.board), -1) || Full(Cells(gb.board))
  {
    ExampleLogic.WinnerIffLine(Cells(gb.board));
  }

  /** A full board on which a side has a complete line is a win, not a draw. */
  lemma FullBoardWithLineIsNoDraw(gb: GameBoard)
    requires gb.Valid() && Signed(Cells(gb.board)) && Full(Cells(gb.board))
    requires HasLine(Cells(gb.board), 1) || HasLine(Cells(gb.board), -1)
    ensures !gb.Draw() && gb.GameOver()
  {
    ExampleLogic.WinnerIffLine(Cells(gb.board));
  }

  class BoardGameEnv {
    const gameBoard: GameBoard
    var done: bool
    var winner: Player

    predicate Valid()
      reads this, gameBoard
    {
      gameBoard.Valid()
    }

    constructor (template: array2<int>)
      requires IsSquare(template)
      ensures fresh(gameBoard) && gameBoard.template == template && gameBoard.board == null
      ensures !done && winner == Nobody
    {
      gameBoard := new GameBoard(template);
      done := false;
      winner := Nobody;
    }

    /** `reset`: a fresh copy of the template, `done` cleared, no winner; returns
        the new board. */
    method Reset() returns (b: array2<int>)
      requires gameBoard.Wf()
      modifies this, gameBoard
      ensures Valid() && fresh(gameBoard.board) && b == gameBoard.board
      ensures Cells(b) == Cells(gameBoard.template)
      ensures !done && winner == Nobody
    {
      var _, _ := gameBoard.Reset();
      done := false;
      winner := Nobody;
      b := gameBoard.board;
    }

    /** `step(player, move)`. On a finished episode it raises `ValueError` and
        touches nothing. Otherwise it plays the move in place; `done` becomes true
        and the winner is recorded exactly when the game is over afterwards, and
        the result is `(new_state, reward, done)`. */
    method Step(player: Player, move: Move) returns (r: Result<StepResult>)
      requires Valid() && InRange(move)
      modifies this, gameBoard.board
      ensures Valid() && gameBoard.board == old(gameBoard.board)
      ensures Cells(gameBoard.template) == old(Cells(gameBoard.template))
      ensures old(done) ==> r == Err(GameOverError) && done && winner == old(winner)
      ensures old(done) ==> Cells(gameBoard.board) == old(Cells(gameBoard.board))
      ensures !old(done) ==> r.Ok?
      ensures !old(done) ==>
        var played := ExampleLogic.PlayValue(old(Cells(gameBoard.board)), player, move);
        && Cells(gameBoard.board) == (if played.Some? then played.value else old(Cells(gameBoard.board)))
        && r.value.newState == (if played.Some? then gameBoard.board else null)
      ensures !old(done) ==> done == gameBoard.GameOver()
      ensures !old(done) ==> winner == if done then gameBoard.Winner() else old(winner)
      ensures !old(done) ==> r.value.reward == Reward(done, winner, player) && r.value.done == done
    {
      if done {
        return Err(GameOverError);
      }
      var newState := gameBoard.Play(player, move, true);
      if gameBoard.GameOver() {
        done := true;
        winner := gameBoard.Winner();
      }
      var reward := CalculateReward(player);
      return Ok(StepResult(newState, reward, done));
    }

    /** `calculate_reward(player)` on the current `done` and `winner`. */
    function CalculateReward(player: Player): (r: real)
      reads this
      ensures r == Reward(done, winner, player)
    {
      Reward(done, winner, player)
    }
  }
}
