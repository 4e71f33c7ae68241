/*
 * The hard AI (main.py:110-169) as specification functions: the leaf
 * heuristic, the depth-limited minimax score of a position, and the root
 * choice. The search only ever writes into the sub-boards; the main board
 * it evaluates at the leaves is the one it started from.
 */
module Search {
  import opened Rules
  import opened Moves

  /** Squares holding 'O' and 'X' never outnumber the squares. */
  lemma {:induction false} MarkCountBound(s: seq<Mark>)
    ensures multiset(s)[O] + multiset(s)[X] <= |s|
  {
    if s != [] {
      MarkCountBound(s[..|s| - 1]);
      assert s == s[..|s| - 1] + [s[|s| - 1]];
    }
  }

  /** The number of 'O' squares minus the number of 'X' squares. */
  function Tally(s: seq<Mark>): int
  {
    (multiset(s)[O] as int) - (multiset(s)[X] as int)
  }

  /** Counting one more square adds +1 for 'O', -1 for 'X', 0 otherwise. */
  lemma TallyStep(s: seq<Mark>, k: int)
    requires 0 <= k < |s|
    ensures Tally(s[..k + 1]) == Tally(s[..k]) + (if s[k] == O then 1 else if s[k] == X then -1 else 0)
  {
    assert s[..k + 1] == s[..k] + [s[k]];
  }

  /** evaluate_position (main.py:161-169): +1 for every 'O', -1 for every
      'X'; '' and 'D' count nothing. Always within [-9, 9]. */
  function Evaluate(g: Grid): (r: int)
    ensures -9 <= r <= 9
  {
    MarkCountBound(g);
    Tally(g)
  }

  /** max(a, b) when maximizing, min(a, b) otherwise (main.py:147, 158). */
  function Combine(isMax: bool, a: int, b: int): int
  {
    if isMax then (if a >= b then a else b) else (if a <= b then a else b)
  }

  /** calculate_move_score (main.py:130-159). At depth 0 the static value of
      the (unchanged) main board; with no legal move 0; otherwise the max
      (or min) over the legal moves of the score after playing the move.
      The recursive call targets the played square with no fallback to Any,
      and the main board is never updated during the look-ahead. */
  function Score(c: Cells, g: Grid, t: Target, p: Player, isMax: bool, depth: nat): int
    decreases depth, 1, 0
  {
    if depth == 0 then Evaluate(g)
    else
      var ms := PossibleMoves(c, g, t);
      if |ms| == 0 then 0 else Best(c, g, ms, p, isMax, depth)
  }

  /** The score of one candidate: write p, let the other side move with the
      opposite role one ply shallower (main.py:143-145, 154-156). */
  function Child(c: Cells, g: Grid, m: Move, p: Player, isMax: bool, depth: nat): int
    requires depth > 0
    decreases depth, 0, 0
  {
    Score(Place(c, m, p), g, At(m.cellRow, m.cellCol), Other(p), !isMax, depth - 1)
  }

  /** The running best_score after scanning the candidates ms in order. */
  function Best(c: Cells, g: Grid, ms: seq<Move>, p: Player, isMax: bool, depth: nat): int
    requires |ms| > 0 && depth > 0
    decreases depth, 0, |ms|
  {
    var last := Child(c, g, ms[|ms| - 1], p, isMax, depth);
    if |ms| == 1 then last else Combine(isMax, Best(c, g, ms[..|ms| - 1], p, isMax, depth), last)
  }

  /** One more candidate scanned: the running value absorbs its score. */
  lemma BestStep(c: Cells, g: Grid, ms: seq<Move>, k: int, p: Player, isMax: bool, depth: nat)
    requires 0 <= k < |ms| && depth > 0
    ensures Best(c, g, ms[..k + 1], p, isMax, depth) ==
              if k == 0 then Child(c, g, ms[k], p, isMax, depth)
              else Combine(isMax, Best(c, g, ms[..k], p, isMax, depth), Child(c, g, ms[k], p, isMax, depth))
  {
    assert ms[..k + 1][..k] == ms[..k];
  }

  /** The fold is a true maximum (minimum): no candidate scores above (below)
      it, and some candidate attains it. */
  lemma {:induction false} BestIsExtremum(c: Cells, g: Grid, ms: seq<Move>, p: Player, isMax: bool, depth: nat)
    requires |ms| > 0 && depth > 0
    ensures forall k :: 0 <= k < |ms| ==>
              if isMax then Child(c, g, ms[k], p, isMax, depth) <= Best(c, g, ms, p, isMax, depth)
              else Child(c, g, ms[k], p, isMax, depth) >= Best(c, g, ms, p, isMax, depth)
    ensures exists k :: 0 <= k < |ms| && Child(c, g, ms[k], p, isMax, depth) == Best(c, g, ms, p, isMax, depth)
  {
    var n := |ms|;
    if n == 1 {
      assert Child(c, g, ms[0], p, isMax, depth) == Best(c, g, ms, p, isMax, depth);
    } else {
      var init := ms[..n - 1];
      BestIsExtremum(c, g, init, p, isMax, depth);
      assert forall k :: 0 <= k < n - 1 ==> ms[k] == init[k];
      var k0 :| 0 <= k0 < n - 1 && Child(c, g, init[k0], p, isMax, depth) == Best(c, g, init, p, isMax, depth);
      if Best(c, g, ms, p, isMax, depth) == Best(c, g, init, p, isMax, depth) {
        assert Child(c, g, ms[k0], p, isMax, depth) == Best(c, g, ms, p, isMax, depth);
      } else {
        assert Child(c, g, ms[n - 1], p, isMax, depth) == Best(c, g, ms, p, isMax, depth);
      }
    }
  }

  /** Since the look-ahead never touches the main board, every leaf is the
      same value: a score is either 0 (a dead end with no legal move) or
      evaluate_position of the main board the search started from. */
  lemma {:induction false} ScoreIsLeafOrZero(c: Cells, g: Grid, t: Target, p: Player, isMax: bool, depth: nat)
    ensures Score(c, g, t, p, isMax, depth) in {0, Evaluate(g)}
    ensures -9 <= Score(c, g, t, p, isMax, depth) <= 9
    decreases depth
  {
    if depth > 0 {
      var ms := PossibleMoves(c, g, t);
      if |ms| > 0 {
        BestIsExtremum(c, g, ms, p, isMax, depth);
        var k :| 0 <= k < |ms| && Child(c, g, ms[k], p, isMax, depth) == Best(c, g, ms, p, isMax, depth);
        var m := ms[k];
        ScoreIsLeafOrZero(Place(c, m, p), g, At(m.cellRow, m.cellCol), Other(p), !isMax, depth - 1);
      }
    }
  }

  // ---------------------------------------------------------------------
  // get_best_move (main.py:110-128)
  // ---------------------------------------------------------------------

  /** The score get_best_move gives a root candidate: the opponent replies
      as the minimizing side with three plies left (main.py:119-121). */
  function RootScore(c: Cells, g: Grid, m: Move, p: Player): int
  {
    Score(Place(c, m, p), g, At(m.cellRow, m.cellCol), Other(p), false, 3)
  }

  /** The best_move after scanning ms in order with the given scores: a
      candidate replaces the current one only on a strictly greater score
      (main.py:124); float('-inf') is the None of the empty prefix. */
  function Pick(ms: seq<Move>, score: Move -> int): (r: Option<Move>)
    ensures r.None? <==> ms == []
    decreases |ms|
  {
    if ms == [] then None
    else
      var prev := Pick(ms[..|ms| - 1], score);
      var m := ms[|ms| - 1];
      if prev.None? || score(m) > score(prev.value) then Some(m) else prev
  }

  /** One more candidate scanned: it replaces the current choice only on a
      strictly greater score. */
  lemma PickStep(ms: seq<Move>, k: int, score: Move -> int)
    requires 0 <= k < |ms|
    ensures Pick(ms[..k + 1], score) ==
              var prev := Pick(ms[..k], score);
              if prev.None? || score(ms[k]) > score(prev.value) then Some(ms[k]) else prev
  {
    assert ms[..k + 1][..k] == ms[..k];
  }

  /** The hard AI's choice among the legal moves at target t. */
  function BestMove(c: Cells, g: Grid, t: Target, p: Player): Option<Move>
  {
    Pick(PossibleMoves(c, g, t), m => RootScore(c, g, m, p))
  }

  /** Position k holds a score at least as high as every candidate's and
      strictly above every earlier candidate's. */
  ghost predicate FirstMaximum(ms: seq<Move>, score: Move -> int, k: int)
    requires 0 <= k < |ms|
  {
    (forall j :: 0 <= j < |ms| ==> score(ms[j]) <= score(ms[k]))
    && (forall j :: 0 <= j < k ==> score(ms[j]) < score(ms[k]))
  }

  /** The scan finds nothing exactly when there is nothing to scan; otherwise
      it returns the candidate at a position k whose score is maximal and
      strictly above that of every earlier candidate. */
  lemma {:induction false} PickIsFirstMaximum(ms: seq<Move>, score: Move -> int) returns (k: int)
    ensures Pick(ms, score).None? <==> ms == []
    ensures ms != [] ==> 0 <= k < |ms| && Pick(ms, score) == Some(ms[k]) && FirstMaximum(ms, score, k)
  {
    k := 0;
    if ms != [] {
      var n := |ms|;
      var init := ms[..n - 1];
      var k0 := PickIsFirstMaximum(init, score);
      var last := ms[n - 1];
      if init == [] {
      } else if score(last) > score(init[k0]) {
        k := n - 1;
        forall j | 0 <= j < n - 1 ensures score(ms[j]) < score(last) {
          assert ms[j] == init[j];
        }
      } else {
        k := k0;
        forall j | 0 <= j < n ensures score(ms[j]) <= score(ms[k]) {
          if j < n - 1 {
            assert ms[j] == init[j];
          }
        }
        forall j | 0 <= j < k ensures score(ms[j]) < score(ms[k]) {
          assert ms[j] == init[j];
        }
      }
    }
  }

  /** get_best_move returns None exactly when there is no legal move, and
      otherwise a legal move of maximal score, the first such one in
      get_possible_moves order. */
  lemma BestMoveSpec(c: Cells, g: Grid, t: Target, p: Player)
    ensures BestMove(c, g, t, p).None? <==> PossibleMoves(c, g, t) == []
    ensures BestMove(c, g, t, p).Some? ==>
              var ms := PossibleMoves(c, g, t);
              exists k :: 0 <= k < |ms| && ms[k] == BestMove(c, g, t, p).value
                && (forall j :: 0 <= j < |ms| ==> RootScore(c, g, ms[j], p) <= RootScore(c, g, ms[k], p))
                && (forall j :: 0 <= j < k ==> RootScore(c, g, ms[j], p) < RootScore(c, g, ms[k], p))
  {
    var k := PickIsFirstMaximum(PossibleMoves(c, g, t), m => RootScore(c, g, m, p));
  }

  /** A consequence of every leaf being the same value: while the main board
      is level (as many 'O' as 'X' sub-boards), every candidate scores 0 and
      the hard AI plays the first legal move in row-major order. */
  lemma LevelBoardPicksFirstMove(c: Cells, g: Grid, t: Target, p: Player)
    requires Evaluate(g) == 0
    requires PossibleMoves(c, g, t) != []
    ensures BestMove(c, g, t, p) == Some(PossibleMoves(c, g, t)[0])
  {
    var ms := PossibleMoves(c, g, t);
    forall j | 0 <= j < |ms| ensures RootScore(c, g, ms[j], p) == 0 {
      var m := ms[j];
      ScoreIsLeafOrZero(Place(c, m, p), g, At(m.cellRow, m.cellCol), Other(p), false, 3);
    }
    var k := PickIsFirstMaximum(ms, m => RootScore(c, g, m, p));
  }
}
