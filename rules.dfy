/*
 * Game rules of Ultimate Tic-Tac-Toe: the marks, the two kinds of 3x3 board,
 * the line and fullness checks used at both levels, and what one move does
 * to the boards (main.py:69-72, 233-275).
 *
 * The source keeps small_boards as nine nested 3x3 lists and big_board as a
 * nested 3x3 list. Here both are flattened row-major: small_boards[b][x][y]
 * is cells[b*9 + x*3 + y] and big_board[i][j] is big[i*3 + j], with b = i*3 + j
 * exactly as the source computes board_num.
 */
module Rules {

  /** Conventional optional value; stands for Python's None and for the
      float('-inf') / float('inf') "no score yet" sentinels. */
  datatype Option<T> = None | Some(value: T)

  /** What a square holds: '' (Empty), 'X', 'O', or, on the main board only,
      'D' for a drawn sub-board. */
  datatype Mark = Empty | X | O | D

  /** The two sides. */
  type Player = m: Mark | m == X || m == O witness X

  /** The opponent: 'X' if p == 'O' else 'O' (main.py:121, 145, 156, 366). */
  function Other(p: Player): (q: Player)
    ensures q != p
  {
    if p == O then X else O
  }

  /** A row or column index, 0..2. */
  type Coord = i: int | 0 <= i < 3

  /** One 3x3 board, row-major: square (r, c) is s[r*3 + c]. */
  type Grid = s: seq<Mark> | |s| == 9
    witness [Empty, Empty, Empty, Empty, Empty, Empty, Empty, Empty, Empty]

  /** The nine sub-boards, board b at cells[b*9 .. b*9 + 9]. */
  type Cells = s: seq<Mark> | |s| == 81 witness seq(81, _ => Empty)

  /** Sub-board number b (= board_row*3 + board_col) as a grid. */
  function SubGrid(c: Cells, b: int): (s: Grid)
    requires 0 <= b < 9
    ensures forall k :: 0 <= k < 9 ==> s[k] == c[b * 9 + k]
  {
    c[b * 9 .. b * 9 + 9]
  }

  // ---------------------------------------------------------------------
  // check_win, check_full, check_game_over (main.py:246-275)
  // ---------------------------------------------------------------------

  /** Row r of a grid. */
  function Row(s: Grid, r: int): seq<Mark>
    requires 0 <= r < 3
  {
    s[r * 3 .. r * 3 + 3]
  }

  /** Column c of a grid. */
  function Column(s: Grid, c: int): seq<Mark>
    requires 0 <= c < 3
  {
    [s[c], s[3 + c], s[6 + c]]
  }

  /** The main diagonal: board[i][i]. */
  function Diagonal(s: Grid): seq<Mark>
  {
    [s[0], s[4], s[8]]
  }

  /** The anti-diagonal: board[i][2-i]. */
  function AntiDiagonal(s: Grid): seq<Mark>
  {
    [s[2], s[4], s[6]]
  }

  /** all(cell == p for cell in line) */
  predicate AllAre(line: seq<Mark>, p: Mark)
  {
    forall k :: 0 <= k < |line| ==> line[k] == p
  }

  /** check_win: some row, some column, the diagonal or the anti-diagonal
      is entirely p. */
  predicate CheckWin(s: Grid, p: Mark)
  {
    (exists r :: 0 <= r < 3 && AllAre(Row(s, r), p))
    || (exists c :: 0 <= c < 3 && AllAre(Column(s, c), p))
    || AllAre(Diagonal(s), p)
    || AllAre(AntiDiagonal(s), p)
  }

  /** check_full: no square is ''. A 'D' on the main board counts as filled. */
  predicate CheckFull(s: Grid): (r: bool)
    ensures r <==> Empty !in s
  {
    forall k :: 0 <= k < 9 ==> s[k] != Empty
  }

  /** check_game_over: 'X' or 'O' has a line, or every square is non-empty. */
  predicate CheckGameOver(g: Grid)
  {
    CheckWin(g, X) || CheckWin(g, O) || CheckFull(g)
  }

  /** Squares a, b and c all hold p. */
  predicate Three(s: Grid, p: Mark, a: int, b: int, c: int)
    requires 0 <= a < 9 && 0 <= b < 9 && 0 <= c < 9
  {
    s[a] == p && s[b] == p && s[c] == p
  }

  /** Reference definition of a win: the eight winning lines of tic-tac-toe
      listed square by square. */
  predicate ThreeInARow(s: Grid, p: Mark)
  {
    Three(s, p, 0, 1, 2) || Three(s, p, 3, 4, 5) || Three(s, p, 6, 7, 8)
    || Three(s, p, 0, 3, 6) || Three(s, p, 1, 4, 7) || Three(s, p, 2, 5, 8)
    || Three(s, p, 0, 4, 8) || Three(s, p, 2, 4, 6)
  }

  /** Row r is all p exactly when its three squares are. */
  lemma RowWin(s: Grid, p: Mark, r: int)
    requires 0 <= r < 3
    ensures AllAre(Row(s, r), p) <==> Three(s, p, r * 3, r * 3 + 1, r * 3 + 2)
  {
    assert Row(s, r) == [s[r * 3], s[r * 3 + 1], s[r * 3 + 2]];
  }

  /** Column c is all p exactly when its three squares are. */
  lemma ColumnWin(s: Grid, p: Mark, c: int)
    requires 0 <= c < 3
    ensures AllAre(Column(s, c), p) <==> Three(s, p, c, 3 + c, 6 + c)
  {
    assert Column(s, c)[0] == s[c] && Column(s, c)[1] == s[3 + c] && Column(s, c)[2] == s[6 + c];
  }

  /** The two diagonals are all p exactly when their three squares are. */
  lemma DiagonalsWin(s: Grid, p: Mark)
    ensures AllAre(Diagonal(s), p) <==> Three(s, p, 0, 4, 8)
    ensures AllAre(AntiDiagonal(s), p) <==> Three(s, p, 2, 4, 6)
  {
    assert Diagonal(s)[0] == s[0] && Diagonal(s)[1] == s[4] && Diagonal(s)[2] == s[8];
    assert AntiDiagonal(s)[0] == s[2] && AntiDiagonal(s)[1] == s[4] && AntiDiagonal(s)[2] == s[6];
  }

  /** check_win is exactly "one of the eight lines is all p", in both directions. */
  lemma CheckWinIffThreeInARow(s: Grid, p: Mark)
    ensures CheckWin(s, p) <==> ThreeInARow(s, p)
  {
    RowWin(s, p, 0);
    RowWin(s, p, 1);
    RowWin(s, p, 2);
    ColumnWin(s, p, 0);
    ColumnWin(s, p, 1);
    ColumnWin(s, p, 2);
    DiagonalsWin(s, p);
    if r :| 0 <= r < 3 && AllAre(Row(s, r), p) {
      assert r == 0 || r == 1 || r == 2;
    }
    if c :| 0 <= c < 3 && AllAre(Column(s, c), p) {
      assert c == 0 || c == 1 || c == 2;
    }
  }

  /** check_game_over on the main board: over exactly when 'X' or 'O' holds
      one of the eight lines, or no entry is '' (so a 'D' counts as filled
      but never as part of anybody's line). */
  lemma GameOverIff(g: Grid)
    ensures CheckGameOver(g) <==>
              ThreeInARow(g, X) || ThreeInARow(g, O)
              || (forall k :: 0 <= k < 9 ==> g[k] in {X, O, D})
  {
    CheckWinIffThreeInARow(g, X);
    CheckWinIffThreeInARow(g, O);
  }

  /** A square that does not hold p blocks every line through it: writing p'
      into an empty square changes nobody's win except possibly p''s. */
  lemma {:induction false} WriteKeepsOtherWins(s: Grid, k: int, p: Mark, q: Mark)
    requires 0 <= k < 9 && s[k] == Empty && q != p && q != Empty
    ensures CheckWin(s[k := p], q) <==> CheckWin(s, q)
  {
    CheckWinIffThreeInARow(s, q);
    CheckWinIffThreeInARow(s[k := p], q);
  }

  // ---------------------------------------------------------------------
  // Fresh boards (create_game_boards, main.py:69-72)
  // ---------------------------------------------------------------------

  /** Nine sub-boards of ''. */
  const EmptyCells: Cells := seq(81, _ => Empty)

  /** A main board of ''. */
  const EmptyGrid: Grid := seq(9, _ => Empty)

  // ---------------------------------------------------------------------
  // Moves and targets
  // ---------------------------------------------------------------------

  /** (board_row, board_col, cell_row, cell_col) */
  datatype Move = Move(boardRow: Coord, boardCol: Coord, cellRow: Coord, cellCol: Coord)

  /** active_pos / current_board: (-1, -1) is Any, otherwise the (row, col)
      of the one sub-board the next move must land in. */
  datatype Target = Any | At(row: Coord, col: Coord)

  /** board_num = board_row * 3 + board_col */
  function BoardNum(m: Move): (b: int)
    ensures 0 <= b < 9
  {
    m.boardRow * 3 + m.boardCol
  }

  /** Position of the played square inside its sub-board. */
  function CellNum(m: Move): (k: int)
    ensures 0 <= k < 9
  {
    m.cellRow * 3 + m.cellCol
  }

  /** Position of the played square in the flattened cells. */
  function Index(m: Move): (k: int)
    ensures 0 <= k < 81
  {
    BoardNum(m) * 9 + CellNum(m)
  }

  /** The write at main.py:236: only the addressed square changes. */
  function Place(c: Cells, m: Move, p: Mark): (c': Cells)
  {
    c[Index(m) := p]
  }

  /** The main-board update at main.py:238-241, given the sub-boards after
      the write: the played sub-board becomes p if p now has a line there,
      else 'D' if it is full, else its entry is left as it was. */
  function Settle(c': Cells, g: Grid, m: Move, p: Player): (g': Grid)
    ensures g'[BoardNum(m)] in {g[BoardNum(m)], p, D}
    ensures forall b :: 0 <= b < 9 && b != BoardNum(m) ==> g'[b] == g[b]
  {
    var s := SubGrid(c', BoardNum(m));
    if CheckWin(s, p) then g[BoardNum(m) := p]
    else if CheckFull(s) then g[BoardNum(m) := D]
    else g
  }

  /** Driver rule (main.py:355-360, 375-380): the next target is the square
      just played, unless that sub-board is decided on the updated main board. */
  function NextTarget(g: Grid, m: Move): (t: Target)
    ensures t == Any <==> g[CellNum(m)] != Empty
    ensures t != Any ==> t == At(m.cellRow, m.cellCol)
  {
    if g[CellNum(m)] != Empty then Any else At(m.cellRow, m.cellCol)
  }

  /** Writing into one square leaves every other sub-board as it was. */
  lemma PlaceOtherBoards(c: Cells, m: Move, p: Mark, b: int)
    requires 0 <= b < 9 && b != BoardNum(m)
    ensures SubGrid(Place(c, m, p), b) == SubGrid(c, b)
  {
  }

  /** Within the played sub-board, the write is a write at CellNum(m). */
  lemma PlaceOwnBoard(c: Cells, m: Move, p: Mark)
    ensures SubGrid(Place(c, m, p), BoardNum(m)) == SubGrid(c, BoardNum(m))[CellNum(m) := p]
  {
  }

  // ---------------------------------------------------------------------
  // The outcome invariant kept by legal play
  // ---------------------------------------------------------------------

  /** Main-board entry o is the recorded outcome of sub-board s: '' while
      nobody has a line and the board is not full, 'D' when it is full with
      no line, 'X' or 'O' when that side (and only that side) has a line.
      Sub-boards never hold 'D'. */
  predicate Consistent(s: Grid, o: Mark)
  {
    (forall k :: 0 <= k < 9 ==> s[k] != D)
    && match o
       case Empty => !CheckWin(s, X) && !CheckWin(s, O) && !CheckFull(s)
       case D => CheckFull(s) && !CheckWin(s, X) && !CheckWin(s, O)
       case X => CheckWin(s, X) && !CheckWin(s, O)
       case O => CheckWin(s, O) && !CheckWin(s, X)
  }

  /** Every main-board entry records its sub-board's outcome. */
  predicate WellFormed(c: Cells, g: Grid)
  {
    forall b {:trigger SubGrid(c, b)} :: 0 <= b < 9 ==> Consistent(SubGrid(c, b), g[b])
  }

  /** A board of '' is undecided. */
  lemma BlankGridUndecided(s: Grid)
    requires forall k :: 0 <= k < 9 ==> s[k] == Empty
    ensures Consistent(s, Empty) && !CheckGameOver(s)
  {
    CheckWinIffThreeInARow(s, X);
    CheckWinIffThreeInARow(s, O);
    assert s[0] == Empty;
  }

  /** create_game_boards yields a well-formed position with nothing decided. */
  lemma FreshBoardsWellFormed()
    ensures WellFormed(EmptyCells, EmptyGrid)
    ensures !CheckGameOver(EmptyGrid)
  {
    forall b | 0 <= b < 9
      ensures Consistent(SubGrid(EmptyCells, b), EmptyGrid[b])
    {
      BlankGridUndecided(SubGrid(EmptyCells, b));
    }
    BlankGridUndecided(EmptyGrid);
  }

  /** The played sub-board's new main-board entry is its outcome after the
      write: the mover, 'D', or still ''. */
  lemma {:induction false} SettleOwnBoard(c: Cells, g: Grid, m: Move, p: Player)
    requires Consistent(SubGrid(c, BoardNum(m)), Empty)
    requires g[BoardNum(m)] == Empty && c[Index(m)] == Empty
    ensures Consistent(SubGrid(Place(c, m, p), BoardNum(m)), Settle(Place(c, m, p), g, m, p)[BoardNum(m)])
    ensures Settle(Place(c, m, p), g, m, p)[BoardNum(m)] in {Empty, p, D}
  {
    var s := SubGrid(c, BoardNum(m));
    var s' := SubGrid(Place(c, m, p), BoardNum(m));
    PlaceOwnBoard(c, m, p);
    assert s' == s[CellNum(m) := p];
    WriteKeepsOtherWins(s, CellNum(m), p, Other(p));
    assert !CheckWin(s', Other(p));
    assert forall k :: 0 <= k < 9 ==> s'[k] != D;
  }

  /** make_move on an empty square of an undecided sub-board keeps every
      main-board entry equal to its sub-board's outcome; decided sub-boards
      and their entries are untouched, and only the played sub-board's entry
      can change, from '' to the mover, to 'D', or not at all. */
  lemma {:induction false} SettlePreservesWellFormed(c: Cells, g: Grid, m: Move, p: Player)
    requires WellFormed(c, g)
    requires g[BoardNum(m)] == Empty && c[Index(m)] == Empty
    ensures WellFormed(Place(c, m, p), Settle(Place(c, m, p), g, m, p))
    ensures forall b :: 0 <= b < 9 && b != BoardNum(m) ==>
              Settle(Place(c, m, p), g, m, p)[b] == g[b]
              && SubGrid(Place(c, m, p), b) == SubGrid(c, b)
    ensures Settle(Place(c, m, p), g, m, p)[BoardNum(m)] in {Empty, p, D}
  {
    var c', g' := Place(c, m, p), Settle(Place(c, m, p), g, m, p);
    var bn := BoardNum(m);
    assert Consistent(SubGrid(c, bn), g[bn]);
    SettleOwnBoard(c, g, m, p);
    forall b | 0 <= b < 9
      ensures Consistent(SubGrid(c', b), g'[b])
      ensures b != bn ==> g'[b] == g[b] && SubGrid(c', b) == SubGrid(c, b)
    {
      if b != bn {
        PlaceOtherBoards(c, m, p, b);
        assert Consistent(SubGrid(c, b), g[b]);
      }
    }
  }
}
