/*
 * The game-logic functions of main.py in their imperative form: over the mutable boards
 * (small_boards flattened into an array of 81 squares, big_board into an
 * array of 9), each proved against the specification functions of Rules,
 * Moves and Search.
 */
module Engine {
  import opened Rules
  import opened Moves
  import opened Search

  /** create_game_boards (main.py:69-72): two fresh, separate boards of ''. */
  method CreateGameBoards() returns (cells: array<Mark>, big: array<Mark>)
    ensures fresh(cells) && fresh(big)
    ensures cells.Length == 81 && big.Length == 9
    ensures cells[..] == EmptyCells && big[..] == EmptyGrid
  {
    cells := new Mark[81](_ => Empty);
    big := new Mark[9](_ => Empty);
  }

  /** The inner scan of get_possible_moves (main.py:196-199, 204-207): the
      empty squares of sub-board (i, j), row by row. */
  method EmptySquares(cells: array<Mark>, i: Coord, j: Coord) returns (found: seq<Move>)
    requires cells.Length == 81
    ensures found == CellMoves(cells[..], i, j, 9)
    ensures forall m :: m in found <==>
              m.boardRow == i && m.boardCol == j && cells[Index(m)] == Empty
  {
    ghost var c: Cells := cells[..];
    var b := i * 3 + j;
    found := [];
    for x := 0 to 3
      invariant found == CellMoves(c, i, j, x * 3)
    {
      for y := 0 to 3
        invariant found == CellMoves(c, i, j, x * 3 + y)
      {
        if cells[b * 9 + x * 3 + y] == Empty {
          found := found + [Move(i, j, x, y)];
        }
      }
    }
    CellMovesMembers(c, i, j, 9);
  }

  /** get_possible_moves (main.py:189-208): with (-1, -1) the scan of every
      sub-board whose main-board entry is '', otherwise the scan of the
      target sub-board alone, or nothing if that one is decided. */
  method GetPossibleMoves(cells: array<Mark>, big: array<Mark>, t: Target) returns (moves: seq<Move>)
    requires cells.Length == 81 && big.Length == 9
    ensures moves == PossibleMoves(cells[..], big[..], t)
    ensures forall m :: m in moves <==> Allowed(cells[..], big[..], t, m)
    ensures Increasing(moves)
  {
    ghost var c: Cells, g: Grid := cells[..], big[..];
    moves := [];
    match t {
      case Any =>
        for i := 0 to 3
          invariant moves == OpenMoves(c, g, i * 3)
        {
          for j := 0 to 3
            invariant moves == OpenMoves(c, g, i * 3 + j)
          {
            var b := i * 3 + j;
            if big[b] == Empty {
              var found := EmptySquares(cells, i, j);
              moves := moves + found;
            }
            assert b / 3 == i && b % 3 == j;
          }
        }
      case At(i, j) =>
        if big[i * 3 + j] == Empty {
          moves := EmptySquares(cells, i, j);
        }
    }
    PossibleMovesExactly(c, g, t);
    PossibleMovesIncreasing(c, g, t);
  }

  /** get_random_move (main.py:106-108): some legal move, or None exactly
      when there is none. Which one random.choice draws is not modelled. */
  method GetRandomMove(cells: array<Mark>, big: array<Mark>, t: Target) returns (r: Option<Move>)
    requires cells.Length == 81 && big.Length == 9
    ensures r.None? <==> PossibleMoves(cells[..], big[..], t) == []
    ensures r.Some? ==> r.value in PossibleMoves(cells[..], big[..], t)
    ensures r.Some? ==> Allowed(cells[..], big[..], t, r.value)
  {
    var moves := GetPossibleMoves(cells, big, t);
    if moves == [] {
      r := None;
    } else {
      assert moves[0] in moves;
      var m :| m in moves;
      r := Some(m);
    }
  }

  /** make_move (main.py:233-244): writes p into the addressed square, then
      records a win or a draw of that sub-board on the main board, and
      returns the played square as the next target. No validation. */
  method MakeMove(cells: array<Mark>, big: array<Mark>, m: Move, p: Player) returns (next: Target)
    requires cells.Length == 81 && big.Length == 9
    modifies cells, big
    ensures cells[..] == Place(old(cells[..]), m, p)
    ensures big[..] == Settle(cells[..], old(big[..]), m, p)
    ensures next == At(m.cellRow, m.cellCol)
  {
    var b := BoardNum(m);
    cells[Index(m)] := p;
    var s := SubGrid(cells[..], b);
    if CheckWin(s, p) {
      big[b] := p;
    } else if CheckFull(s) {
      big[b] := D;
    }
    next := At(m.cellRow, m.cellCol);
  }

  /** evaluate_position (main.py:161-169): the number of 'O' minus the
      number of 'X' on the main board, accumulated square by square. */
  method EvaluatePosition(big: array<Mark>) returns (score: int)
    requires big.Length == 9
    ensures score == Evaluate(big[..])
    ensures -9 <= score <= 9
  {
    score := 0;
    for i := 0 to 3
      invariant score == Tally(big[..i * 3])
    {
      for j := 0 to 3
        invariant score == Tally(big[..i * 3 + j])
      {
        var k := i * 3 + j;
        TallyStep(big[..], k);
        assert big[..][..k + 1] == big[..k + 1] && big[..][..k] == big[..k];
        if big[k] == X {
          score := score - 1;
        } else if big[k] == O {
          score := score + 1;
        }
      }
    }
    assert big[..9] == big[..];
  }

  /** calculate_move_score (main.py:130-159): the static value at depth 0,
      0 with no legal move, otherwise the max or min over the legal moves.
      The sub-boards are left exactly as found and the main board is never
      written. */
  method CalculateMoveScore(cells: array<Mark>, big: array<Mark>, t: Target, p: Player, isMax: bool, depth: nat)
    returns (score: int)
    requires cells.Length == 81 && big.Length == 9 && cells != big
    modifies cells
    ensures cells[..] == old(cells[..])
    ensures score == Score(cells[..], big[..], t, p, isMax, depth)
    decreases depth, 1
  {
    if depth == 0 {
      score := EvaluatePosition(big);
      return;
    }
    var moves := GetPossibleMoves(cells, big, t);
    if moves == [] {
      return 0;
    }
    score := BestOfMoves(cells, big, moves, p, isMax, depth);
  }

  /** The loop of calculate_move_score over a non-empty list of legal moves
      (main.py:138-159): tries each move in place (write, recurse, reset to
      ''), keeping the running max or min. Both branches of the source share
      this one loop, which keeps max when maximizing and min otherwise;
      float('-inf') / float('inf') is the None before the first move. */
  method BestOfMoves(cells: array<Mark>, big: array<Mark>, moves: seq<Move>, p: Player, isMax: bool, depth: nat)
    returns (score: int)
    requires cells.Length == 81 && big.Length == 9 && cells != big
    requires |moves| > 0 && depth > 0
    requires forall m :: m in moves ==> cells[Index(m)] == Empty
    modifies cells
    ensures cells[..] == old(cells[..])
    ensures score == Best(cells[..], big[..], moves, p, isMax, depth)
    decreases depth, 0
  {
    ghost var c: Cells, g: Grid := cells[..], big[..];
    var best: Option<int> := None;
    for k := 0 to |moves|
      invariant cells[..] == c
      invariant k == 0 <==> best.None?
      invariant k > 0 ==> best == Some(Best(c, g, moves[..k], p, isMax, depth))
    {
      var m := moves[k];
      assert m in moves;
      var s := PlayAndScore(cells, big, m, p, !isMax, depth - 1);
      BestStep(c, g, moves, k, p, isMax, depth);
      best := if best.None? then Some(s) else Some(Combine(isMax, best.value, s));
    }
    assert moves[..|moves|] == moves;
    score := best.value;
  }

  /** One candidate of either search loop (main.py:116-122, 141-146,
      152-157): write p into the empty square, score the position for the
      opponent with the given role and depth, and erase the square again. */
  method PlayAndScore(cells: array<Mark>, big: array<Mark>, m: Move, p: Player, isMax: bool, depth: nat)
    returns (s: int)
    requires cells.Length == 81 && big.Length == 9 && cells != big
    requires cells[Index(m)] == Empty
    modifies cells
    ensures cells[..] == old(cells[..])
    ensures s == Score(Place(cells[..], m, p), big[..], At(m.cellRow, m.cellCol), Other(p), isMax, depth)
    decreases depth, 2
  {
    ghost var c: Cells := cells[..];
    cells[Index(m)] := p;
    assert cells[..] == Place(c, m, p);
    s := CalculateMoveScore(cells, big, At(m.cellRow, m.cellCol), Other(p), isMax, depth);
    cells[Index(m)] := Empty;
    assert cells[..] == c;
  }

  /** get_best_move (main.py:110-128): scores each legal move in place with
      the opponent to reply as the minimizing side at depth 3, and keeps the
      first move of strictly greatest score; None when there is no move. */
  method GetBestMove(cells: array<Mark>, big: array<Mark>, t: Target, p: Player) returns (best: Option<Move>)
    requires cells.Length == 81 && big.Length == 9 && cells != big
    modifies cells
    ensures cells[..] == old(cells[..])
    ensures best == BestMove(cells[..], big[..], t, p)
  {
    var moves := GetPossibleMoves(cells, big, t);
    ghost var c: Cells, g: Grid := cells[..], big[..];
    ghost var score := m => RootScore(c, g, m, p);
    var bestScore: Option<int> := None;
    best := None;
    for k := 0 to |moves|
      invariant cells[..] == c
      invariant best == Pick(moves[..k], score)
      invariant best.None? <==> bestScore.None?
      invariant best.Some? ==> bestScore == Some(score(best.value))
    {
      var m := moves[k];
      assert m in moves;
      var s := PlayAndScore(cells, big, m, p, false, 3);
      PickStep(moves, k, score);
      if bestScore.None? || s > bestScore.value {
        bestScore := Some(s);
        best := Some(m);
      }
    }
    assert moves[..|moves|] == moves;
  }
}
