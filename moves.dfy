/*
 * Legal-move generation (get_possible_moves, main.py:189-208) as a
 * specification function, with the properties the driver and the search
 * rely on: exactly which moves are produced, in which order, and the fact
 * that a running game always has one.
 */
module Moves {
  import opened Rules

  /** The empty squares among the first n squares (row-major) of sub-board
      (i, j), as moves, in scan order: the inner x/y loops of main.py:196-199
      and main.py:204-207. */
  function CellMoves(c: Cells, i: Coord, j: Coord, n: int): seq<Move>
    requires 0 <= n <= 9
  {
    if n == 0 then []
    else
      CellMoves(c, i, j, n - 1)
      + (if c[(i * 3 + j) * 9 + n - 1] == Empty then [Move(i, j, (n - 1) / 3, (n - 1) % 3)] else [])
  }

  /** The moves into the first n sub-boards (row-major) whose main-board
      entry is '': the outer i/j loops of main.py:192-195. */
  function OpenMoves(c: Cells, g: Grid, n: int): seq<Move>
    requires 0 <= n <= 9
  {
    if n == 0 then []
    else
      OpenMoves(c, g, n - 1)
      + (if g[n - 1] == Empty then CellMoves(c, (n - 1) / 3, (n - 1) % 3, 9) else [])
  }

  /** get_possible_moves: with Any, every empty square of every undecided
      sub-board; with At(i, j), the empty squares of sub-board (i, j) if it
      is undecided, and nothing otherwise (no fallback to Any here). */
  function PossibleMoves(c: Cells, g: Grid, t: Target): seq<Move>
  {
    match t
    case Any => OpenMoves(c, g, 9)
    case At(i, j) => if g[i * 3 + j] == Empty then CellMoves(c, i, j, 9) else []
  }

  /** The rule a move must satisfy to be offered: it lands in the target
      sub-board (any one, for Any), that sub-board's main-board entry is '',
      and the square itself is ''. */
  predicate Allowed(c: Cells, g: Grid, t: Target, m: Move)
  {
    (t.At? ==> m.boardRow == t.row && m.boardCol == t.col)
    && g[BoardNum(m)] == Empty
    && c[Index(m)] == Empty
  }

  /** Row-major board-then-square order, strictly: no move twice. */
  predicate Increasing(ms: seq<Move>)
  {
    forall p, q :: 0 <= p < q < |ms| ==> Index(ms[p]) < Index(ms[q])
  }

  lemma {:induction false} CellMovesMembers(c: Cells, i: Coord, j: Coord, n: int)
    requires 0 <= n <= 9
    ensures forall m :: m in CellMoves(c, i, j, n) <==>
              m.boardRow == i && m.boardCol == j && CellNum(m) < n && c[Index(m)] == Empty
  {
    if n > 0 {
      CellMovesMembers(c, i, j, n - 1);
      var last := Move(i, j, (n - 1) / 3, (n - 1) % 3);
      assert CellNum(last) == n - 1;
      assert Index(last) == (i * 3 + j) * 9 + n - 1;
      forall m: Move | m.boardRow == i && m.boardCol == j && CellNum(m) == n - 1
        ensures m == last
      {
        assert m.cellRow == (n - 1) / 3 && m.cellCol == (n - 1) % 3;
      }
    }
  }

  lemma {:induction false} OpenMovesMembers(c: Cells, g: Grid, n: int)
    requires 0 <= n <= 9
    ensures forall m :: m in OpenMoves(c, g, n) <==>
              BoardNum(m) < n && g[BoardNum(m)] == Empty && c[Index(m)] == Empty
  {
    if n > 0 {
      OpenMovesMembers(c, g, n - 1);
      var i, j := (n - 1) / 3, (n - 1) % 3;
      CellMovesMembers(c, i, j, 9);
      forall m: Move ensures (m.boardRow == i && m.boardCol == j) <==> BoardNum(m) == n - 1 {
      }
    }
  }

  /** get_possible_moves offers exactly the allowed moves: with Any every
      empty square of every undecided sub-board, with At(i, j) only squares
      of sub-board (i, j), and none at all when that sub-board is decided. */
  lemma PossibleMovesExactly(c: Cells, g: Grid, t: Target)
    ensures forall m :: m in PossibleMoves(c, g, t) <==> Allowed(c, g, t, m)
  {
    match t
    case Any => OpenMovesMembers(c, g, 9);
    case At(i, j) => CellMovesMembers(c, i, j, 9);
  }

  lemma {:induction false} CellMovesIncreasing(c: Cells, i: Coord, j: Coord, n: int)
    requires 0 <= n <= 9
    ensures Increasing(CellMoves(c, i, j, n))
  {
    if n > 0 {
      CellMovesIncreasing(c, i, j, n - 1);
      CellMovesMembers(c, i, j, n - 1);
      var prefix := CellMoves(c, i, j, n - 1);
      var last := Move(i, j, (n - 1) / 3, (n - 1) % 3);
      assert Index(last) == (i * 3 + j) * 9 + n - 1;
      forall p | 0 <= p < |prefix| ensures Index(prefix[p]) < Index(last) {
        assert prefix[p] in prefix;
      }
    }
  }

  lemma {:induction false} OpenMovesIncreasing(c: Cells, g: Grid, n: int)
    requires 0 <= n <= 9
    ensures Increasing(OpenMoves(c, g, n))
  {
    if n > 0 {
      OpenMovesIncreasing(c, g, n - 1);
      OpenMovesMembers(c, g, n - 1);
      var i, j := (n - 1) / 3, (n - 1) % 3;
      CellMovesIncreasing(c, i, j, 9);
      CellMovesMembers(c, i, j, 9);
      var prefix, tail := OpenMoves(c, g, n - 1), CellMoves(c, i, j, 9);
      assert forall p :: 0 <= p < |prefix| ==> prefix[p] in prefix;
      assert forall q :: 0 <= q < |tail| ==> tail[q] in tail;
    }
  }

  /** The moves come in row-major board-then-square order, each once. */
  lemma PossibleMovesIncreasing(c: Cells, g: Grid, t: Target)
    ensures Increasing(PossibleMoves(c, g, t))
  {
    match t
    case Any => OpenMovesIncreasing(c, g, 9);
    case At(i, j) => CellMovesIncreasing(c, i, j, 9);
  }

  /** In a strictly ordered list every later move comes after the first. */
  lemma HeadIsLeast(ms: seq<Move>, m: Move)
    requires Increasing(ms) && |ms| > 0 && m in ms[1..]
    ensures Index(ms[0]) < Index(m)
  {
    var p :| 0 <= p < |ms[1..]| && ms[1..][p] == m;
    assert ms[p + 1] == m;
  }

  /** Dropping the first move keeps a list strictly ordered. */
  lemma IncreasingTail(ms: seq<Move>)
    requires Increasing(ms) && |ms| > 0
    ensures Increasing(ms[1..])
  {
    forall p, q | 0 <= p < q < |ms| - 1 ensures Index(ms[1..][p]) < Index(ms[1..][q]) {
      assert ms[1..][p] == ms[p + 1] && ms[1..][q] == ms[q + 1];
    }
  }

  /** Membership in a non-empty list: the first move or one of the rest. */
  lemma Uncons(ms: seq<Move>, m: Move)
    requires |ms| > 0
    ensures m in ms <==> m == ms[0] || m in ms[1..]
  {
    assert ms == [ms[0]] + ms[1..];
  }

  /** A non-empty list has a member. */
  lemma SomeMember(ms: seq<Move>)
    requires ms != []
    ensures exists m :: m in ms
  {
    assert ms[0] in ms;
  }

  /** Two strictly ordered lists with the same members are the same list:
      together the two lemmas above pin get_possible_moves down completely. */
  lemma {:induction false} IncreasingUnique(ms: seq<Move>, ns: seq<Move>)
    requires Increasing(ms) && Increasing(ns)
    requires forall m :: m in ms <==> m in ns
    ensures ms == ns
  {
    if ms == [] {
      if ns != [] {
        SomeMember(ns);
      }
    } else if ns == [] {
      SomeMember(ms);
    } else {
      assert ms[0] in ns && ns[0] in ms;
      Uncons(ns, ms[0]);
      Uncons(ms, ns[0]);
      if ms[0] != ns[0] {
        HeadIsLeast(ns, ms[0]);
        assert false;
      }
      forall m ensures m in ms[1..] <==> m in ns[1..] {
        Uncons(ms, m);
        Uncons(ns, m);
        if m in ms[1..] {
          HeadIsLeast(ms, m);
        }
        if m in ns[1..] {
          HeadIsLeast(ns, m);
        }
      }
      IncreasingTail(ms);
      IncreasingTail(ns);
      IncreasingUnique(ms[1..], ns[1..]);
      assert ms == [ms[0]] + ms[1..] && ns == [ns[0]] + ns[1..];
    }
  }

  /** A sub-board with no mark offers all nine squares, in row-major order. */
  lemma {:induction false} BlankCellMoves(c: Cells, i: Coord, j: Coord, n: int)
    requires 0 <= n <= 9
    requires forall k :: 0 <= k < |c| ==> c[k] == Empty
    ensures CellMoves(c, i, j, n) == seq(n, k requires 0 <= k < n => Move(i, j, k / 3, k % 3))
  {
    if n > 0 {
      BlankCellMoves(c, i, j, n - 1);
    }
  }

  /** On a fresh game, target (0, 0) offers exactly the nine squares of the
      top-left sub-board, in row-major order. */
  lemma FreshTopLeftMoves()
    ensures PossibleMoves(EmptyCells, EmptyGrid, At(0, 0)) ==
      [Move(0, 0, 0, 0), Move(0, 0, 0, 1), Move(0, 0, 0, 2),
       Move(0, 0, 1, 0), Move(0, 0, 1, 1), Move(0, 0, 1, 2),
       Move(0, 0, 2, 0), Move(0, 0, 2, 1), Move(0, 0, 2, 2)]
  {
    BlankCellMoves(EmptyCells, 0, 0, 9);
  }

  /** An undecided sub-board of a well-formed position has an empty square. */
  lemma UndecidedHasRoom(c: Cells, g: Grid, b: int) returns (k: int)
    requires WellFormed(c, g)
    requires 0 <= b < 9 && g[b] == Empty
    ensures 0 <= k < 9 && c[b * 9 + k] == Empty
  {
    var s := SubGrid(c, b);
    assert Consistent(s, g[b]);
    assert !CheckFull(s);
    k :| 0 <= k < 9 && s[k] == Empty;
  }

  /** The move into square k of sub-board b. */
  function MoveAt(b: int, k: int): (m: Move)
    requires 0 <= b < 9 && 0 <= k < 9
    ensures BoardNum(m) == b && CellNum(m) == k
  {
    Move(b / 3, b % 3, k / 3, k % 3)
  }

  /** A single allowed move is offered. */
  lemma AllowedIsOffered(c: Cells, g: Grid, t: Target, m: Move)
    requires Allowed(c, g, t, m)
    ensures m in PossibleMoves(c, g, t)
  {
    PossibleMovesExactly(c, g, t);
  }

  /** A single offered move is allowed. */
  lemma OfferedIsAllowed(c: Cells, g: Grid, t: Target, m: Move)
    requires m in PossibleMoves(c, g, t)
    ensures Allowed(c, g, t, m)
  {
    PossibleMovesExactly(c, g, t);
  }

  /** A main board that is not over has an undecided entry. */
  lemma OpenBoard(g: Grid) returns (b: int)
    requires !CheckGameOver(g)
    ensures 0 <= b < 9 && g[b] == Empty
  {
    assert !CheckFull(g);
    b :| 0 <= b < 9 && g[b] == Empty;
  }

  /** An undecided sub-board b of a well-formed position that the target
      admits offers a move. */
  lemma AvailableIn(c: Cells, g: Grid, t: Target, b: int)
    requires WellFormed(c, g)
    requires 0 <= b < 9 && g[b] == Empty
    requires t == Any || t == At(b / 3, b % 3)
    ensures |PossibleMoves(c, g, t)| > 0
  {
    var k := UndecidedHasRoom(c, g, b);
    AllowedIsOffered(c, g, t, MoveAt(b, k));
  }

  /** While the position is well formed and the target sub-board (for Any:
      some sub-board) is undecided, there is a legal move: an undecided
      sub-board is never full. */
  lemma MovesAvailable(c: Cells, g: Grid, t: Target)
    requires WellFormed(c, g)
    requires t.Any? ==> !CheckGameOver(g)
    requires t.At? ==> g[t.row * 3 + t.col] == Empty
    ensures |PossibleMoves(c, g, t)| > 0
  {
    match t
    case Any =>
      var b := OpenBoard(g);
      AvailableIn(c, g, t, b);
    case At(i, j) =>
      AvailableIn(c, g, t, i * 3 + j);
  }
}
