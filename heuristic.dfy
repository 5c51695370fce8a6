/**
  The second heuristics file, `src/heuristic.rs`: the same four estimates as plain
  functions of two boards, chosen by `get_heuristic`. Hamming compares the two boards
  cell by cell; Manhattan and Linear-Conflict read only the first board and its goal
  table, and compute what `src/heuristics.rs` computes.
*/
module Heuristic {
  import opened Puzzles
  import opened Heuristics

  /** The `Heuristic` enum. */
  datatype Choice = Zero | HammingDistance | ManhattanDistance | LinearConflict

  /** How many of the first `k` cells differ between the two label sequences. */
  function Mismatches(a: seq<nat>, b: seq<nat>, k: nat): nat
    requires k <= |a| && k <= |b|
  {
    if k == 0 then 0 else Mismatches(a, b, k - 1) + (if a[k - 1] != b[k - 1] then 1 else 0)
  }

  /** `hamming_distance`: the cells where the two boards differ, the blank included.
      The source indexes `p2.flat` by the indices of `p1.flat` and panics when it is
      shorter. */
  method Hamming(p1: Puzzle, p2: Puzzle) returns (misplaced: nat)
    requires |p1.flat| <= |p2.flat|
    ensures misplaced == Mismatches(p1.flat, p2.flat, |p1.flat|)
  {
    misplaced := 0;
    for i := 0 to |p1.flat|
      invariant misplaced == Mismatches(p1.flat, p2.flat, i)
    {
      if p1.flat[i] != p2.flat[i] {
        misplaced := misplaced + 1;
      }
    }
  }

  /** At most every cell differs, and none does exactly when the prefixes agree. */
  lemma {:induction false} MismatchesMeaning(a: seq<nat>, b: seq<nat>, k: nat)
    requires k <= |a| && k <= |b|
    ensures Mismatches(a, b, k) <= k
    ensures Mismatches(a, b, k) == 0 <==> a[..k] == b[..k]
  {
    if k > 0 {
      MismatchesMeaning(a, b, k - 1);
      assert a[..k] == a[..k - 1] + [a[k - 1]] && b[..k] == b[..k - 1] + [b[k - 1]];
      if a[..k] == b[..k] {
        assert a[..k - 1] == a[..k][..k - 1] && b[..k - 1] == b[..k][..k - 1];
        assert a[k - 1] == a[..k][k - 1];
      }
    }
  }

  /** On boards of one size the distance is 0 exactly when they are equal. */
  lemma HammingZero(p1: Puzzle, p2: Puzzle)
    requires |p1.flat| == |p2.flat|
    ensures Mismatches(p1.flat, p2.flat, |p1.flat|) == 0 <==> p1.flat == p2.flat
  {
    MismatchesMeaning(p1.flat, p2.flat, |p1.flat|);
    assert p1.flat[..|p1.flat|] == p1.flat && p2.flat[..|p2.flat|] == p2.flat;
  }

  /** `end` and `goal` are inverse: `end[v]` is the index of `v` in `goal`, and every
      label has one. */
  predicate Inverse(end: seq<nat>, goal: seq<nat>)
  {
    (forall i :: 0 <= i < |goal| ==> goal[i] < |end| && end[goal[i]] == i)
    && (forall v :: 0 <= v < |end| ==> end[v] < |goal| && goal[end[v]] == v)
  }

  /** When the goal table of `p1` is the inverse of the goal board's cells, the
      cell-by-cell count of this file equals the goal-table count of
      `src/heuristics.rs`. */
  lemma {:induction false} HammingAgrees(p1: Puzzle, goal: seq<nat>, k: nat)
    requires Labelled(p1) && Inverse(p1.end, goal) && k <= |p1.flat| <= |goal|
    ensures Mismatches(p1.flat, goal, k) == Misplaced(p1, k)
  {
    if k > 0 {
      HammingAgrees(p1, goal, k - 1);
      var v := p1.flat[k - 1];
      if v == goal[k - 1] {
        assert p1.end[v] == k - 1;
      } else {
        assert goal[p1.end[v]] == v;
      }
    }
  }

  /** `manhattan_distance(p1, _)`: the second board is ignored. */
  method Manhattan(p1: Puzzle, p2: Puzzle) returns (distance: nat)
    requires p1.n > 0 && Labelled(p1)
    ensures distance == ManhattanOf(p1)
  {
    distance := ManhattanSum(p1);
  }

  /** `line_conflicts(p1, _)`: the row and column counts of the first board, added
      up; `rows` and `cols` are the per-line counts. */
  method LineConflicts(p1: Puzzle, p2: Puzzle) returns (sum: nat, ghost rows: seq<nat>, ghost cols: seq<nat>)
    requires Fits(p1)
    ensures IsLineCounts(p1, rows, cols) && |rows| == p1.n
    ensures sum == Total(rows) + Total(cols)
    ensures IsConflictSum(p1, sum)
  {
    sum, rows, cols := LinearConflictsSum(p1);
  }

  /** `linear_conflict`: the Manhattan distance plus twice the line conflicts. */
  method LinearConflictOf(p1: Puzzle, p2: Puzzle) returns (h: nat, ghost rows: seq<nat>, ghost cols: seq<nat>)
    requires Fits(p1)
    ensures IsLineCounts(p1, rows, cols) && |rows| == p1.n
    ensures h == ManhattanOf(p1) + 2 * (Total(rows) + Total(cols))
    ensures IsLinearConflictEstimate(p1, h)
  {
    var distance := Manhattan(p1, p2);
    var lines;
    lines, rows, cols := LineConflicts(p1, p2);
    h := distance + lines * 2;
    assert IsLineCounts(p1, rows, cols) && |rows| == p1.n && h == ManhattanOf(p1) + 2 * (Total(rows) + Total(cols));
  }

  /** `get_heuristic(choice)` applied to the two boards. */
  method Apply(choice: Choice, p1: Puzzle, p2: Puzzle) returns (h: nat, ghost rows: seq<nat>, ghost cols: seq<nat>)
    requires choice.HammingDistance? ==> |p1.flat| <= |p2.flat|
    requires choice.ManhattanDistance? ==> p1.n > 0 && Labelled(p1)
    requires choice.LinearConflict? ==> Fits(p1)
    ensures choice.Zero? ==> h == 0
    ensures choice.HammingDistance? ==> h == Mismatches(p1.flat, p2.flat, |p1.flat|)
    ensures choice.ManhattanDistance? ==> h == ManhattanOf(p1)
    ensures choice.LinearConflict? ==>
      (IsLineCounts(p1, rows, cols) && |rows| == p1.n
       && h == ManhattanOf(p1) + 2 * (Total(rows) + Total(cols)))
  {
    rows, cols := [], [];
    match choice
    case Zero => h := ZeroEstimate(p1, p2);
    case HammingDistance => h := Hamming(p1, p2);
    case ManhattanDistance => h := Manhattan(p1, p2);
    case LinearConflict => h, rows, cols := LinearConflictOf(p1, p2);
  }

  /** On a board in goal position, compared with its goal board, every choice gives
      0. */
  lemma ApplyAtGoal(choice: Choice, p1: Puzzle, goal: Puzzle, h: nat, rows: seq<nat>, cols: seq<nat>)
    requires Fits(p1) && AtGoal(p1) && p1.flat == goal.flat
    requires choice.Zero? ==> h == 0
    requires choice.HammingDistance? ==> h == Mismatches(p1.flat, goal.flat, |p1.flat|)
    requires choice.ManhattanDistance? ==> h == ManhattanOf(p1)
    requires choice.LinearConflict? ==>
      (IsLineCounts(p1, rows, cols) && |rows| == p1.n
       && h == ManhattanOf(p1) + 2 * (Total(rows) + Total(cols)))
    ensures h == 0
  {
    match choice
    case Zero =>
    case HammingDistance => HammingZero(p1, goal);
    case ManhattanDistance => ManhattanZero(p1);
    case LinearConflict => LinearConflictsMeaning(p1, rows, cols);
  }
}
