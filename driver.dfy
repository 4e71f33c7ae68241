/*
 * The turn transition of the game loop in main() (main.py:327-330,
 * 344-386, 401-405): the state one match keeps between events, how a
 * human click or an AI move changes it, and the invariants it keeps.
 * Screens, menus, drawing, mouse geometry and the 0.5 s debounce are not
 * part of this model.
 */
module Driver {
  import opened Rules
  import opened Moves
  import opened Search
  import opened Engine

  /** The AI chosen in the menu: "easy_ai" or "hard_ai" (main.py:325, 370). */
  datatype Level = Easy | Hard

  /** Positional parameters of the function main.py:370 selects for a level:
      get_random_move declares three (main.py:106), get_best_move four
      (main.py:110). */
  function DeclaredArity(level: Level): nat
  {
    match level
    case Easy => 3
    case Hard => 4
  }

  /** The call at main.py:371 passes four arguments: the boards, the main
      board, the target and the player. */
  const CallArity: nat := 4

  /** As written, the AI call binds only when the arities agree; otherwise
      Python raises TypeError before any move is chosen. */
  predicate AiCallBindsAsWritten(level: Level)
  {
    DeclaredArity(level) == CallArity
  }

  /** The easy AI's call as written cannot bind, so the first AI turn of an
      easy game raises TypeError; the hard AI's call binds. */
  lemma EasyAiCallRaises()
    ensures !AiCallBindsAsWritten(Easy)
    ensures AiCallBindsAsWritten(Hard)
  {
  }

  /** The state of one match: the boards (create_game_boards), whose turn it
      is, the active target (current_board) and the game_over flag. A new
      match is a new object, as the menu and "Play Again" create fresh boards. */
  class Match {
    const cells: array<Mark>
    const big: array<Mark>
    var player: Player
    var current: Target
    var gameOver: bool

    /** The boards have their shapes and are distinct; every main-board
        entry records its sub-board's outcome; a specific target always
        names an undecided sub-board; game_over is check_game_over of the
        main board. */
    ghost predicate Valid()
      reads this, cells, big
    {
      cells.Length == 81 && big.Length == 9 && cells != big
      && WellFormed(cells[..], big[..])
      && (current.At? ==> big[current.row * 3 + current.col] == Empty)
      && gameOver == CheckGameOver(big[..])
    }

    /** Starting a match (main.py:327-330, 401-405): fresh boards, X to
        move, any sub-board, not over. */
    constructor ()
      ensures Valid() && fresh(cells) && fresh(big)
      ensures cells[..] == EmptyCells && big[..] == EmptyGrid
      ensures player == X && current == Any && !gameOver
    {
      FreshBoardsWellFormed();
      var c, g := CreateGameBoards();
      assert WellFormed(c[..], g[..]) && !CheckGameOver(g[..]);
      cells, big := c, g;
      player, current, gameOver := X, Any, false;
    }

    /** The board half of a turn (main.py:355-360, 375-380): make_move, then
        fall back to Any when the sub-board the move points to is decided. */
    method PlayMove(m: Move)
      requires cells.Length == 81 && big.Length == 9 && cells != big
      requires WellFormed(cells[..], big[..])
      requires Allowed(cells[..], big[..], current, m)
      modifies this, cells, big
      ensures cells.Length == 81 && big.Length == 9
      ensures WellFormed(cells[..], big[..])
      ensures cells[..] == Place(old(cells[..]), m, player)
      ensures big[..] == Settle(cells[..], old(big[..]), m, player)
      ensures current == NextTarget(big[..], m)
      ensures current.At? ==> big[current.row * 3 + current.col] == Empty
      ensures player == old(player) && gameOver == old(gameOver)
    {
      SettlePreservesWellFormed(cells[..], big[..], m, player);
      current := MakeMove(cells, big, m, player);
      if big[current.row * 3 + current.col] != Empty {
        current := Any;
      }
    }

    /** The shared tail of both turn branches (main.py:355-366, 375-386):
        play the move, then end the game or hand the turn over. For the AI
        branch the player is 'O', so its "player = 'X'" is the same
        hand-over. */
    method Advance(m: Move)
      requires Valid() && !gameOver
      requires m in PossibleMoves(cells[..], big[..], current)
      modifies this, cells, big
      ensures Valid()
      ensures cells[..] == Place(old(cells[..]), m, old(player))
      ensures big[..] == Settle(cells[..], old(big[..]), m, old(player))
      ensures current == NextTarget(big[..], m)
      ensures gameOver == CheckGameOver(big[..])
      ensures player == if gameOver then old(player) else Other(old(player))
    {
      OfferedIsAllowed(cells[..], big[..], current, m);
      PlayMove(m);
      if CheckGameOver(big[..]) {
        gameOver := true;
      } else {
        player := Other(player);
      }
    }

    /** A click on square (subRow, subCol) of sub-board (mainRow, mainCol)
        (main.py:344-366): ignored once the game is over, when an AI plays
        'O' and it is 'O''s turn, or when the move is not among
        get_possible_moves (including coordinates off the board); otherwise
        played by the player to move. */
    method HumanTurn(aiOpponent: bool, mainRow: int, mainCol: int, subRow: int, subCol: int) returns (accepted: bool)
      requires Valid()
      modifies this, cells, big
      ensures Valid()
      ensures accepted <==>
                !old(gameOver) && (old(player) == X || !aiOpponent)
                && 0 <= mainRow < 3 && 0 <= mainCol < 3 && 0 <= subRow < 3 && 0 <= subCol < 3
                && Allowed(old(cells[..]), old(big[..]), old(current), Move(mainRow, mainCol, subRow, subCol))
      ensures !accepted ==> unchanged(this) && unchanged(cells) && unchanged(big)
      ensures accepted ==>
                cells[..] == Place(old(cells[..]), Move(mainRow, mainCol, subRow, subCol), old(player))
                && big[..] == Settle(cells[..], old(big[..]), Move(mainRow, mainCol, subRow, subCol), old(player))
                && gameOver == CheckGameOver(big[..])
                && current == NextTarget(big[..], Move(mainRow, mainCol, subRow, subCol))
                && player == if gameOver then old(player) else Other(old(player))
    {
      if gameOver || (player != X && aiOpponent) {
        return false;
      }
      var valid := GetPossibleMoves(cells, big, current);
      accepted := 0 <= mainRow < 3 && 0 <= mainCol < 3 && 0 <= subRow < 3 && 0 <= subCol < 3
        && Move(mainRow, mainCol, subRow, subCol) in valid;
      if accepted {
        Advance(Move(mainRow, mainCol, subRow, subCol));
      }
    }

    /** The AI's turn (main.py:368-386), with the easy AI called with the
        three arguments get_random_move takes: nothing happens unless the
        game is running and it is 'O''s turn; then the AI always finds a
        legal move and plays it; the hard AI plays get_best_move's choice. */
    method AiTurn(level: Level) returns (played: Option<Move>)
      requires Valid()
      modifies this, cells, big
      ensures Valid()
      ensures played.Some? <==> !old(gameOver) && old(player) == O
      ensures played.None? ==> unchanged(this) && unchanged(cells) && unchanged(big)
      ensures played.Some? ==>
                Allowed(old(cells[..]), old(big[..]), old(current), played.value)
                && cells[..] == Place(old(cells[..]), played.value, O)
                && big[..] == Settle(cells[..], old(big[..]), played.value, O)
                && gameOver == CheckGameOver(big[..])
                && current == NextTarget(big[..], played.value)
                && player == if gameOver then O else X
      ensures played.Some? && level == Hard ==>
                played == BestMove(old(cells[..]), old(big[..]), old(current), O)
    {
      if gameOver || player != O {
        return None;
      }
      MovesAvailable(cells[..], big[..], current);
      var choice: Option<Move>;
      if level == Hard {
        choice := GetBestMove(cells, big, current, player);
        BestMoveSpec(cells[..], big[..], current, player);
      } else {
        choice := GetRandomMove(cells, big, current);
      }
      assert choice.value in PossibleMoves(cells[..], big[..], current);
      OfferedIsAllowed(cells[..], big[..], current, choice.value);
      Advance(choice.value);
      played := choice;
    }

    /** The AI's turn as main.py:368-386 is written: the call at main.py:371
        passes four arguments, so for the easy AI it raises TypeError before
        any move is chosen and the match stops with the boards, the player
        and the target unchanged; the hard AI's call binds and the turn is
        AiTurn's. */
    method AiTurnAsWritten(level: Level) returns (raised: bool, played: Option<Move>)
      requires Valid()
      modifies this, cells, big
      ensures Valid()
      ensures raised <==> !old(gameOver) && old(player) == O && !AiCallBindsAsWritten(level)
      ensures raised ==> played.None? && unchanged(this) && unchanged(cells) && unchanged(big)
      ensures !raised ==> (played.Some? <==> !old(gameOver) && old(player) == O)
      ensures played.None? ==> unchanged(this) && unchanged(cells) && unchanged(big)
      ensures !raised && played.Some? ==>
                Allowed(old(cells[..]), old(big[..]), old(current), played.value)
                && cells[..] == Place(old(cells[..]), played.value, O)
                && big[..] == Settle(cells[..], old(big[..]), played.value, O)
                && gameOver == CheckGameOver(big[..])
                && current == NextTarget(big[..], played.value)
                && player == (if gameOver then O else X)
                && played == BestMove(old(cells[..]), old(big[..]), old(current), O)
    {
      if !gameOver && player == O && !AiCallBindsAsWritten(level) {
        return true, None;
      }
      raised := false;
      played := AiTurn(level);
    }
  }
}
