/**
  The heuristics of `src/heuristics.rs`: Zero, Hamming, Manhattan and
  Linear-Conflict, estimating the distance from a board to the goal that its
  goal table `end` describes (`end[label]` is the goal index of `label`).
  Linear-Conflict fills one conflict graph per row and per column and counts
  the greedy removals that empty it.
*/
module Heuristics {
  import opened Seqs
  import opened Puzzles
  import opened Tiles
  import opened Graph

  /** `HeuristicFunc`. */
  datatype Kind = Zero | HammingDistance | ManhattanDistance | LinearConflicts

  /** Every label of the board has an entry in the goal table (otherwise the source
      panics on the lookup `end[flat[i]]`). */
  predicate Labelled(p: Puzzle)
  {
    forall i :: 0 <= i < |p.flat| ==> p.flat[i] < |p.end|
  }

  /** Every label sits at its goal index. */
  predicate AtGoal(p: Puzzle)
    requires Labelled(p)
  {
    forall i :: 0 <= i < |p.flat| ==> p.end[p.flat[i]] == i
  }

  // ---------------------------------------------------------------- Zero and stubs

  /** `Zero::zero`: the estimate that ignores both boards. */
  function ZeroEstimate(p1: Puzzle, p2: Puzzle): (r: nat)
    ensures r == 0
  {
    0
  }

  /** `difference`, which every heuristic leaves as a stub. */
  function Difference(kind: Kind, p1: Puzzle, p2: Puzzle): (r: nat)
    ensures r == 0
  {
    0
  }

  // ---------------------------------------------------------------- Hamming

  /** How many of the first `k` cells hold a label away from its goal index (the
      blank included). */
  function Misplaced(p: Puzzle, k: nat): nat
    requires Labelled(p) && k <= |p.flat|
  {
    if k == 0 then 0
    else Misplaced(p, k - 1) + (if p.end[p.flat[k - 1]] != k - 1 then 1 else 0)
  }

  /** `HammingDistance::hamming_distance`: the misplaced labels of the board. */
  method Hamming(p: Puzzle) returns (misplaced: nat)
    requires Labelled(p)
    ensures misplaced == Misplaced(p, |p.flat|)
  {
    misplaced := 0;
    for i := 0 to |p.flat|
      invariant misplaced == Misplaced(p, i)
    {
      if i != p.end[p.flat[i]] {
        misplaced := misplaced + 1;
      }
    }
  }

  /** At most every cell is misplaced, and none is exactly when the first `k` labels
      sit at their goal indices. */
  lemma {:induction false} MisplacedMeaning(p: Puzzle, k: nat)
    requires Labelled(p) && k <= |p.flat|
    ensures Misplaced(p, k) <= k
    ensures Misplaced(p, k) == 0 <==> forall i :: 0 <= i < k ==> p.end[p.flat[i]] == i
  {
    if k > 0 {
      MisplacedMeaning(p, k - 1);
    }
  }

  /** The Hamming distance is at most the number of cells, and it is 0 exactly on a
      board in goal position. */
  lemma HammingMeaning(p: Puzzle)
    requires Labelled(p)
    ensures Misplaced(p, |p.flat|) <= |p.flat|
    ensures Misplaced(p, |p.flat|) == 0 <==> AtGoal(p)
  {
    MisplacedMeaning(p, |p.flat|);
  }

  // ---------------------------------------------------------------- Manhattan

  function Abs(x: int): nat
  {
    if x < 0 then -x else x
  }

  /** The column and the row of index `i` on a board of side `n`, counted out row by
      row. */
  function Coords(n: nat, i: nat): (nat, nat)
    requires n > 0
  {
    if i < n then (i, 0) else (Coords(n, i - n).0, Coords(n, i - n).1 + 1)
  }

  /** Counting out rows gives the remainder and the quotient by the side. */
  lemma {:induction false} CoordsDivMod(n: nat, i: nat)
    requires n > 0
    ensures Coords(n, i) == (i % n, i / n)
  {
    if i >= n {
      CoordsDivMod(n, i - n);
      DivModUnique(i, n, (i - n) / n + 1, (i - n) % n);
    } else {
      DivModUnique(i, n, 0, i);
    }
  }

  /** The number of grid steps between indices `i` and `j` on a board of side `n`. */
  function CellDistance(n: nat, i: nat, j: nat): nat
    requires n > 0
  {
    Abs(Coords(n, i).0 - Coords(n, j).0) + Abs(Coords(n, i).1 - Coords(n, j).1)
  }

  /** Two indices are no step apart exactly when they are the same index. */
  lemma CellDistanceZero(n: nat, i: nat, j: nat)
    requires n > 0
    ensures CellDistance(n, i, j) == 0 <==> i == j
  {
    CoordsDivMod(n, i);
    CoordsDivMod(n, j);
    if CellDistance(n, i, j) == 0 {
      DivModUnique(j, n, i / n, i % n);
    }
  }

  /** The steps from cell `i` to the goal index of its label; none for the blank. */
  function TileDistance(p: Puzzle, i: nat): nat
    requires p.n > 0 && Labelled(p) && i < |p.flat|
  {
    if p.flat[i] == 0 then 0 else CellDistance(p.n, i, p.end[p.flat[i]])
  }

  /** The steps of the first `k` cells. */
  function Manhattan(p: Puzzle, k: nat): nat
    requires p.n > 0 && Labelled(p) && k <= |p.flat|
  {
    if k == 0 then 0 else Manhattan(p, k - 1) + TileDistance(p, k - 1)
  }

  /** The Manhattan distance of the whole board. */
  function ManhattanOf(p: Puzzle): nat
    requires p.n > 0 && Labelled(p)
  {
    Manhattan(p, |p.flat|)
  }

  /** `ManhattanDistance::manhattan_distance`: the grid steps of every label but the
      blank to its goal index. */
  method ManhattanSum(p: Puzzle) returns (distance: nat)
    requires p.n > 0 && Labelled(p)
    ensures distance == ManhattanOf(p)
  {
    distance := 0;
    for i := 0 to |p.flat|
      invariant distance == Manhattan(p, i)
    {
      if p.flat[i] == 0 {
        continue;
      }
      var j := p.end[p.flat[i]];
      var x1 := i % p.n;
      var x2 := j % p.n;
      var y1 := i / p.n;
      var y2 := j / p.n;
      var dx := x1 - x2;
      var dy := y1 - y2;
      CoordsDivMod(p.n, i);
      CoordsDivMod(p.n, j);
      distance := distance + Abs(dx) + Abs(dy);
    }
  }

  /** The first `k` cells need no step exactly when each of their labels other than
      the blank sits at its goal index; each misplaced one needs at least one. */
  lemma {:induction false} ManhattanMeaning(p: Puzzle, k: nat)
    requires p.n > 0 && Labelled(p) && k <= |p.flat|
    ensures Manhattan(p, k) == 0 <==>
      forall i :: 0 <= i < k && p.flat[i] != 0 ==> p.end[p.flat[i]] == i
  {
    if k > 0 {
      ManhattanMeaning(p, k - 1);
      CellDistanceZero(p.n, k - 1, p.end[p.flat[k - 1]]);
    }
  }

  /** The Manhattan distance is 0 exactly when every label but the blank sits at its
      goal index; in particular it is 0 on a board in goal position. */
  lemma ManhattanZero(p: Puzzle)
    requires p.n > 0 && Labelled(p)
    ensures ManhattanOf(p) == 0 <==>
      forall i :: 0 <= i < |p.flat| && p.flat[i] != 0 ==> p.end[p.flat[i]] == i
    ensures AtGoal(p) ==> ManhattanOf(p) == 0
  {
    ManhattanMeaning(p, |p.flat|);
  }

  // ---------------------------------------------------------------- linear conflicts

  /** A row or a column of the board. */
  datatype Axis = Row | Col

  /** Every line can be read: the side is positive, the board holds at least `n * n`
      cells and every label has a goal entry. */
  predicate Fits(p: Puzzle)
  {
    p.n > 0 && p.n * p.n <= |p.flat| && Labelled(p)
  }

  /** Line number `line` can be read. */
  predicate LineFits(p: Puzzle, line: nat)
  {
    Fits(p) && line < p.n
  }

  /** The board index of tile number `k` along the line: column `k` of row `line`, or
      row `k` of column `line`. */
  function LineCell(n: nat, ax: Axis, line: nat, k: nat): (i: nat)
    requires line < n && k < n
    ensures i < n * n
  {
    if ax == Row then
      CellBelowSquare(n, line, k);
      k + line * n
    else
      CellBelowSquare(n, k, line);
      line + k * n
  }

  /** The index of tile `k` has the line and `k` as its row and column. */
  lemma LineCellDivMod(n: nat, ax: Axis, line: nat, k: nat)
    requires line < n && k < n
    ensures ax == Row ==> LineCell(n, ax, line, k) % n == k && LineCell(n, ax, line, k) / n == line
    ensures ax == Col ==> LineCell(n, ax, line, k) % n == line && LineCell(n, ax, line, k) / n == k
  {
    if ax == Row {
      DivModUnique(k + line * n, n, line, k);
    } else {
      DivModUnique(line + k * n, n, k, line);
    }
  }

  /** Tile number `k` along the line: `Tile::new(p, k, line)` on a row,
      `Tile::new(p, line, k)` on a column. */
  function LineTile(p: Puzzle, ax: Axis, line: nat, k: nat): (t: Tile)
    requires LineFits(p, line) && k < p.n
    ensures t.value == p.flat[LineCell(p.n, ax, line, k)]
    ensures ax == Row ==> t.pos == TilePosition(k, line)
    ensures ax == Col ==> t.pos == TilePosition(line, k)
    ensures t.goal.col < p.n && t.goal.row * p.n + t.goal.col == p.end[t.value]
  {
    var i := LineCell(p.n, ax, line, k);
    assert p.flat[i] < |p.end|;
    if ax == Row then NewTile(p, k, line) else NewTile(p, line, k)
  }

  /** `is_in_row_conflict_with` on a row, `is_in_col_conflict_with` on a column. */
  predicate InConflict(ax: Axis, a: Tile, b: Tile)
  {
    if ax == Row then InRowConflict(a, b) else InColConflict(a, b)
  }

  /** The graph after the inner loop has paired tile `a` with tiles `a + 1` to `b - 1`,
      starting from `g`. */
  function PairsWith(p: Puzzle, ax: Axis, line: nat, a: nat, b: nat, g: Adjacency): Adjacency
    requires LineFits(p, line) && a < b <= p.n
    decreases b
  {
    if b == a + 1 then g
    else
      var g' := PairsWith(p, ax, line, a, b - 1, g);
      var t1 := LineTile(p, ax, line, a);
      var t2 := LineTile(p, ax, line, b - 1);
      if InConflict(ax, t1, t2) then PushedPair(g', t1.value, t2.value) else g'
  }

  /** The graph after the outer loop has handled the tiles before `a`. */
  function PairsBefore(p: Puzzle, ax: Axis, line: nat, a: nat): Adjacency
    requires LineFits(p, line) && a <= p.n
  {
    if a == 0 then map[] else PairsWith(p, ax, line, a - 1, p.n, PairsBefore(p, ax, line, a - 1))
  }

  /** The conflict graph of a line: every pair of tiles `k < l` of the line in
      conflict, recorded in the order of the two loops. */
  function LineGraph(p: Puzzle, ax: Axis, line: nat): Adjacency
    requires LineFits(p, line)
  {
    PairsBefore(p, ax, line, p.n)
  }

  /** Two tiles of a board in conflict carry different labels: equal labels have the
      same goal. */
  lemma ConflictDistinct(p: Puzzle, ax: Axis, line: nat, k: nat, l: nat)
    requires LineFits(p, line) && k < p.n && l < p.n
    requires InConflict(ax, LineTile(p, ax, line, k), LineTile(p, ax, line, l))
    ensures LineTile(p, ax, line, k).value != LineTile(p, ax, line, l).value
  {
  }

  /** The pairing keeps the graph well formed. */
  lemma {:induction false} PairsWithWellFormed(p: Puzzle, ax: Axis, line: nat, a: nat, b: nat, g: Adjacency)
    requires LineFits(p, line) && a < b <= p.n && WellFormed(g)
    ensures WellFormed(PairsWith(p, ax, line, a, b, g))
  {
    if b > a + 1 {
      PairsWithWellFormed(p, ax, line, a, b - 1, g);
      var t1 := LineTile(p, ax, line, a);
      var t2 := LineTile(p, ax, line, b - 1);
      if InConflict(ax, t1, t2) {
        ConflictDistinct(p, ax, line, a, b - 1);
        PushedPairWellFormed(PairsWith(p, ax, line, a, b - 1, g), t1.value, t2.value);
      }
    }
  }

  lemma {:induction false} PairsBeforeWellFormed(p: Puzzle, ax: Axis, line: nat, a: nat)
    requires LineFits(p, line) && a <= p.n
    ensures WellFormed(PairsBefore(p, ax, line, a))
  {
    if a > 0 {
      PairsBeforeWellFormed(p, ax, line, a - 1);
      PairsWithWellFormed(p, ax, line, a - 1, p.n, PairsBefore(p, ax, line, a - 1));
    }
  }

  /** The graph of a line is well formed: conflicts listed on both sides, no empty
      list, no label in conflict with itself. */
  lemma LineGraphWellFormed(p: Puzzle, ax: Axis, line: nat)
    requires LineFits(p, line)
    ensures WellFormed(LineGraph(p, ax, line))
  {
    PairsBeforeWellFormed(p, ax, line, p.n);
  }

  /** No two tiles of the line are in conflict. */
  predicate ConflictFree(p: Puzzle, ax: Axis, line: nat)
    requires LineFits(p, line)
  {
    forall k, l :: 0 <= k < l < p.n ==>
      !InConflict(ax, LineTile(p, ax, line, k), LineTile(p, ax, line, l))
  }

  /** The labels of the first `m` tiles of the line. */
  function LineValues(p: Puzzle, ax: Axis, line: nat, m: nat): (r: set<nat>)
    requires LineFits(p, line) && m <= p.n
    ensures |r| <= m
    ensures forall k :: 0 <= k < m ==> LineTile(p, ax, line, k).value in r
  {
    if m == 0 then {} else LineValues(p, ax, line, m - 1) + {LineTile(p, ax, line, m - 1).value}
  }

  /** The inner loop leaves the graph empty exactly when it was empty and tile `a`
      conflicts with none of the tiles it met. */
  lemma {:induction false} PairsWithEmpty(p: Puzzle, ax: Axis, line: nat, a: nat, b: nat, g: Adjacency)
    requires LineFits(p, line) && a < b <= p.n
    ensures PairsWith(p, ax, line, a, b, g) == map[] <==>
      g == map[] && forall l :: a < l < b ==>
        !InConflict(ax, LineTile(p, ax, line, a), LineTile(p, ax, line, l))
    decreases b
  {
    if b > a + 1 {
      PairsWithEmpty(p, ax, line, a, b - 1, g);
      var t1 := LineTile(p, ax, line, a);
      var t2 := LineTile(p, ax, line, b - 1);
      if InConflict(ax, t1, t2) {
        assert t1.value in PairsWith(p, ax, line, a, b, g);
      }
    }
  }

  /** The inner loop only adds labels of the line. */
  lemma {:induction false} PairsWithKeys(p: Puzzle, ax: Axis, line: nat, a: nat, b: nat, g: Adjacency)
    requires LineFits(p, line) && a < b <= p.n
    requires g.Keys <= LineValues(p, ax, line, p.n)
    ensures PairsWith(p, ax, line, a, b, g).Keys <= LineValues(p, ax, line, p.n)
    decreases b
  {
    if b > a + 1 {
      PairsWithKeys(p, ax, line, a, b - 1, g);
    }
  }

  /** The outer loop leaves the graph empty exactly when no tile before `a` conflicts
      with a later one. */
  lemma {:induction false} PairsBeforeEmpty(p: Puzzle, ax: Axis, line: nat, a: nat)
    requires LineFits(p, line) && a <= p.n
    ensures PairsBefore(p, ax, line, a) == map[] <==>
      forall k, l :: 0 <= k < a && k < l < p.n ==>
        !InConflict(ax, LineTile(p, ax, line, k), LineTile(p, ax, line, l))
  {
    if a > 0 {
      PairsBeforeEmpty(p, ax, line, a - 1);
      PairsWithEmpty(p, ax, line, a - 1, p.n, PairsBefore(p, ax, line, a - 1));
    }
  }

  /** The outer loop only adds labels of the line. */
  lemma {:induction false} PairsBeforeKeys(p: Puzzle, ax: Axis, line: nat, a: nat)
    requires LineFits(p, line) && a <= p.n
    ensures PairsBefore(p, ax, line, a).Keys <= LineValues(p, ax, line, p.n)
  {
    if a > 0 {
      PairsBeforeKeys(p, ax, line, a - 1);
      PairsWithKeys(p, ax, line, a - 1, p.n, PairsBefore(p, ax, line, a - 1));
    }
  }

  /** The graph of a line is empty exactly when no two of its tiles conflict, and it
      has at most one entry per tile of the line. */
  lemma LineGraphMeaning(p: Puzzle, ax: Axis, line: nat)
    requires LineFits(p, line)
    ensures LineGraph(p, ax, line) == map[] <==> ConflictFree(p, ax, line)
    ensures |LineGraph(p, ax, line).Keys| <= p.n
  {
    PairsBeforeEmpty(p, ax, line, p.n);
    PairsBeforeKeys(p, ax, line, p.n);
    SubsetNoLarger(LineGraph(p, ax, line).Keys, LineValues(p, ax, line, p.n));
  }

  /** The count of a line is 0 exactly when no two of its tiles conflict, and never
      more than the side. */
  lemma LineCountMeaning(p: Puzzle, ax: Axis, line: nat, c: nat)
    requires LineFits(p, line) && IsGreedyCount(LineGraph(p, ax, line), c)
    ensures c == 0 <==> ConflictFree(p, ax, line)
    ensures c <= p.n
  {
    LineGraphMeaning(p, ax, line);
    GreedyBound(LineGraph(p, ax, line), c);
  }

  /** On a board in goal position every tile's goal is its own position. */
  lemma TileHome(p: Puzzle, ax: Axis, line: nat, k: nat)
    requires LineFits(p, line) && k < p.n && AtGoal(p)
    ensures LineTile(p, ax, line, k).goal == LineTile(p, ax, line, k).pos
  {
    var t := LineTile(p, ax, line, k);
    var i := LineCell(p.n, ax, line, k);
    assert p.end[t.value] == i;
    DivModUnique(i, p.n, t.goal.row, t.goal.col);
    LineCellDivMod(p.n, ax, line, k);
  }

  /** A board in goal position has no conflict on any line. */
  lemma GoalConflictFree(p: Puzzle, ax: Axis, line: nat)
    requires LineFits(p, line) && AtGoal(p)
    ensures ConflictFree(p, ax, line)
  {
    forall k, l | 0 <= k < l < p.n
      ensures !InConflict(ax, LineTile(p, ax, line, k), LineTile(p, ax, line, l))
    {
      TileHome(p, ax, line, k);
      TileHome(p, ax, line, l);
    }
  }

  /** The two nested loops of `linear_row_conflicts` and `linear_col_conflicts`: a
      fresh graph receives every conflicting pair of the line. */
  method BuildLineGraph(p: Puzzle, ax: Axis, line: nat) returns (lng: LinearConflictGraph)
    requires LineFits(p, line)
    ensures fresh(lng) && lng.conflicts == LineGraph(p, ax, line)
  {
    lng := new LinearConflictGraph();
    for a := 0 to p.n
      invariant fresh(lng)
      invariant lng.conflicts == PairsBefore(p, ax, line, a)
    {
      ghost var before := lng.conflicts;
      for b := a + 1 to p.n
        invariant lng.conflicts == PairsWith(p, ax, line, a, b, before)
      {
        var tile1 := LineTile(p, ax, line, a);
        var tile2 := LineTile(p, ax, line, b);
        if InConflict(ax, tile1, tile2) {
          lng.PushConflict(tile1.value, tile2.value);
        }
      }
    }
  }

  /** The closing loop: remove a label of most conflicts until none is left,
      counting the removals. */
  method CountRemovals(lng: LinearConflictGraph) returns (lc: nat)
    requires WellFormed(lng.conflicts)
    modifies lng
    ensures IsGreedyCount(old(lng.conflicts), lc)
  {
    ghost var g0 := lng.conflicts;
    ghost var removed: seq<nat> := [];
    lc := 0;
    while lng.IsConflicts()
      invariant WellFormed(lng.conflicts) && GreedyRun(g0, removed, lng.conflicts)
      invariant lc == |removed|
      decreases |lng.conflicts.Keys|
    {
      var tile := lng.MostConflicts();
      ghost var m := lng.conflicts;
      lng.RemoveConflictWith(tile);
      RemovedCounts(m, tile);
      GreedyRunExtend(g0, removed, m, tile);
      removed := removed + [tile];
      lc := lc + 1;
    }
    GreedyRunCount(g0, removed);
  }

  /** `linear_row_conflicts` (on `Row`) and `linear_col_conflicts` (on `Col`): the
      result is a greedy vertex-cover count of the line's conflict graph. */
  method LineConflicts(p: Puzzle, ax: Axis, line: nat) returns (lc: nat)
    requires LineFits(p, line)
    ensures IsGreedyCount(LineGraph(p, ax, line), lc)
  {
    var lng := BuildLineGraph(p, ax, line);
    LineGraphWellFormed(p, ax, line);
    lc := CountRemovals(lng);
  }

  /** The sum of a sequence of counts. */
  function Total(s: seq<nat>): nat
  {
    if s == [] then 0 else Total(s[..|s| - 1]) + s[|s| - 1]
  }

  /** `rows[i]` and `cols[i]` are counts `linear_row_conflicts(p, i)` and
      `linear_col_conflicts(p, i)` can return, for the first `|rows|` lines. */
  ghost predicate IsLineCounts(p: Puzzle, rows: seq<nat>, cols: seq<nat>)
    requires Fits(p)
    decreases |rows|
  {
    |rows| == |cols| <= p.n
    && (rows != [] ==>
          var k := |rows| - 1;
          IsLineCounts(p, rows[..k], cols[..k])
          && IsGreedyCount(LineGraph(p, Row, k), rows[k]) && IsGreedyCount(LineGraph(p, Col, k), cols[k]))
  }

  /** Every line among the first `k` rows and columns has an empty conflict graph,
      that is (`LineGraphMeaning`) no two of its tiles conflict. */
  predicate LinesConflictFree(p: Puzzle, k: nat)
    requires Fits(p) && k <= p.n
  {
    forall line :: 0 <= line < k ==>
      LineGraph(p, Row, line) == map[] && LineGraph(p, Col, line) == map[]
  }

  /** Appending a count adds it to the total. */
  lemma TotalAppend(s: seq<nat>, x: nat)
    ensures Total(s + [x]) == Total(s) + x
  {
    assert (s + [x])[..|s|] == s;
  }

  /** One more row count and column count extend the line counts. */
  lemma LineCountsExtend(p: Puzzle, rows: seq<nat>, cols: seq<nat>, r: nat, c: nat)
    requires Fits(p) && IsLineCounts(p, rows, cols) && |rows| < p.n
    requires IsGreedyCount(LineGraph(p, Row, |rows|), r)
    requires IsGreedyCount(LineGraph(p, Col, |rows|), c)
    ensures IsLineCounts(p, rows + [r], cols + [c])
  {
    assert (rows + [r])[..|rows|] == rows && (cols + [c])[..|cols|] == cols;
  }

  /** Line `i` among the counted ones has a greedy count for its row and its column. */
  lemma {:induction false} LineCountsAt(p: Puzzle, rows: seq<nat>, cols: seq<nat>, i: nat)
    requires Fits(p) && IsLineCounts(p, rows, cols) && i < |rows|
    ensures IsGreedyCount(LineGraph(p, Row, i), rows[i])
    ensures IsGreedyCount(LineGraph(p, Col, i), cols[i])
    decreases |rows|
  {
    var k := |rows| - 1;
    if i < k {
      LineCountsAt(p, rows[..k], cols[..k], i);
    }
  }

  /** One more line adds `m` to `m * k`. */
  lemma MulStep(m: nat, k: nat)
    requires k > 0
    ensures m * k == m * (k - 1) + m
  {
  }

  /** `linear_conflicts_sum`: the counts of every row and every column, added up. */
  method LinearConflictsSum(p: Puzzle) returns (sum: nat, ghost rows: seq<nat>, ghost cols: seq<nat>)
    requires Fits(p)
    ensures IsLineCounts(p, rows, cols) && |rows| == p.n
    ensures sum == Total(rows) + Total(cols)
    ensures IsConflictSum(p, sum)
  {
    sum, rows, cols := 0, [], [];
    for i := 0 to p.n
      invariant |rows| == i && IsLineCounts(p, rows, cols)
      invariant sum == Total(rows) + Total(cols)
    {
      var r := LineConflicts(p, Row, i);
      var c := LineConflicts(p, Col, i);
      LineCountsExtend(p, rows, cols, r, c);
      TotalAppend(rows, r);
      TotalAppend(cols, c);
      rows, cols := rows + [r], cols + [c];
      sum := sum + r + c;
    }
    assert IsLineCounts(p, rows, cols) && |rows| == p.n && sum == Total(rows) + Total(cols);
  }

  /** `sum` is a value `linear_conflicts_sum(p)` can return: a greedy count for each
      row and each column, added up. */
  ghost predicate IsConflictSum(p: Puzzle, sum: nat)
    requires Fits(p)
  {
    exists rows: seq<nat>, cols: seq<nat> ::
      IsLineCounts(p, rows, cols) && |rows| == p.n && sum == Total(rows) + Total(cols)
  }

  /** `h` is a value `linear_conflicts(p, _)` can return. */
  ghost predicate IsLinearConflictEstimate(p: Puzzle, h: nat)
    requires Fits(p)
  {
    exists rows: seq<nat>, cols: seq<nat> ::
      IsLineCounts(p, rows, cols) && |rows| == p.n && h == ManhattanOf(p) + 2 * (Total(rows) + Total(cols))
  }

  /** The counts add up to 0 exactly when no line has a conflict. */
  lemma {:induction false} LineCountsZero(p: Puzzle, rows: seq<nat>, cols: seq<nat>)
    requires Fits(p) && IsLineCounts(p, rows, cols)
    ensures Total(rows) + Total(cols) == 0 <==> LinesConflictFree(p, |rows|)
    decreases |rows|
  {
    var k := |rows|;
    if k > 0 {
      LineCountsZero(p, rows[..k - 1], cols[..k - 1]);
      GreedyBound(LineGraph(p, Row, k - 1), rows[k - 1]);
      GreedyBound(LineGraph(p, Col, k - 1), cols[k - 1]);
    }
  }

  /** The counts add up to at most `n` per row and per column. */
  lemma {:induction false} LineCountsBound(p: Puzzle, rows: seq<nat>, cols: seq<nat>)
    requires Fits(p) && IsLineCounts(p, rows, cols)
    ensures Total(rows) + Total(cols) <= 2 * p.n * |rows|
    decreases |rows|
  {
    var k := |rows|;
    if k > 0 {
      LineCountsBound(p, rows[..k - 1], cols[..k - 1]);
      LineCountMeaning(p, Row, k - 1, rows[k - 1]);
      LineCountMeaning(p, Col, k - 1, cols[k - 1]);
      MulStep(2 * p.n, k);
    }
  }

  /** `linear_conflicts`: the Manhattan distance plus twice the conflict sum. */
  method LinearConflictsEstimate(p: Puzzle) returns (h: nat, ghost rows: seq<nat>, ghost cols: seq<nat>)
    requires Fits(p)
    ensures IsLineCounts(p, rows, cols) && |rows| == p.n
    ensures h == ManhattanOf(p) + 2 * (Total(rows) + Total(cols))
    ensures IsLinearConflictEstimate(p, h)
  {
    var distance := ManhattanSum(p);
    var sum;
    sum, rows, cols := LinearConflictsSum(p);
    h := distance + sum * 2;
    assert IsLineCounts(p, rows, cols) && |rows| == p.n && h == ManhattanOf(p) + 2 * (Total(rows) + Total(cols));
  }

  /** A conflict sum is 0 exactly when no line has a conflict, and at most `n` per row
      and per column. */
  lemma ConflictSumMeaning(p: Puzzle, sum: nat)
    requires Fits(p) && IsConflictSum(p, sum)
    ensures sum == 0 <==> LinesConflictFree(p, p.n)
    ensures sum <= 2 * p.n * p.n
  {
    var rows: seq<nat>, cols: seq<nat> :|
      IsLineCounts(p, rows, cols) && |rows| == p.n && sum == Total(rows) + Total(cols);
    LineCountsZero(p, rows, cols);
    LineCountsBound(p, rows, cols);
  }

  /** On a board in goal position every line has an empty conflict graph. */
  lemma GoalLinesConflictFree(p: Puzzle)
    requires Fits(p) && AtGoal(p)
    ensures LinesConflictFree(p, p.n)
  {
    forall line | 0 <= line < p.n
      ensures LineGraph(p, Row, line) == map[] && LineGraph(p, Col, line) == map[]
    {
      GoalConflictFree(p, Row, line);
      GoalConflictFree(p, Col, line);
      LineGraphMeaning(p, Row, line);
      LineGraphMeaning(p, Col, line);
    }
  }

  /** The Linear-Conflict estimate exceeds the Manhattan distance by an even amount
      of at most `2 * n` per row and per column, equals it exactly when no line has a
      conflict, and is 0 on a board in goal position. */
  lemma LinearConflictsMeaning(p: Puzzle, rows: seq<nat>, cols: seq<nat>)
    requires Fits(p) && IsLineCounts(p, rows, cols) && |rows| == p.n
    ensures var h := ManhattanOf(p) + 2 * (Total(rows) + Total(cols));
      h <= ManhattanOf(p) + 2 * (2 * p.n * p.n)
      && (h == ManhattanOf(p) <==> LinesConflictFree(p, p.n))
      && (AtGoal(p) ==> h == 0)
  {
    LineCountsZero(p, rows, cols);
    LineCountsBound(p, rows, cols);
    if AtGoal(p) {
      ManhattanZero(p);
      GoalLinesConflictFree(p);
    }
  }

  /** Every Linear-Conflict estimate lies between the Manhattan distance and that
      distance plus `4 n^2`, equals the Manhattan distance exactly when no line has a
      conflict, and is 0 on a board in goal position. */
  lemma LinearConflictEstimateMeaning(p: Puzzle, h: nat)
    requires Fits(p) && IsLinearConflictEstimate(p, h)
    ensures ManhattanOf(p) <= h <= ManhattanOf(p) + 2 * (2 * p.n * p.n)
    ensures h == ManhattanOf(p) <==> LinesConflictFree(p, p.n)
    ensures AtGoal(p) ==> h == 0
  {
    var rows: seq<nat>, cols: seq<nat> :|
      IsLineCounts(p, rows, cols) && |rows| == p.n && h == ManhattanOf(p) + 2 * (Total(rows) + Total(cols));
    LinearConflictsMeaning(p, rows, cols);
  }

  /** `get_heuristic(kind).first_time(p, p2)`: the estimate of the chosen kind, the
      goal being described by the goal table of `p`; `rows` and `cols` are the line
      counts Linear-Conflict adds. */
  method Estimate(kind: Kind, p: Puzzle) returns (h: nat, ghost rows: seq<nat>, ghost cols: seq<nat>)
    requires kind.HammingDistance? ==> Labelled(p)
    requires kind.ManhattanDistance? ==> p.n > 0 && Labelled(p)
    requires kind.LinearConflicts? ==> Fits(p)
    ensures kind.Zero? ==> h == 0
    ensures kind.HammingDistance? ==> h == Misplaced(p, |p.flat|)
    ensures kind.ManhattanDistance? ==> h == ManhattanOf(p)
    ensures kind.LinearConflicts? ==>
      (IsLineCounts(p, rows, cols) && |rows| == p.n
       && h == ManhattanOf(p) + 2 * (Total(rows) + Total(cols)))
  {
    rows, cols := [], [];
    match kind
    case Zero => h := ZeroEstimate(p, p);
    case HammingDistance => h := Hamming(p);
    case ManhattanDistance => h := ManhattanSum(p);
    case LinearConflicts => h, rows, cols := LinearConflictsEstimate(p);
  }

  /** Every estimate is 0 on a board in goal position. */
  lemma EstimateAtGoal(kind: Kind, p: Puzzle, h: nat, rows: seq<nat>, cols: seq<nat>)
    requires Fits(p) && AtGoal(p)
    requires kind.Zero? ==> h == 0
    requires kind.HammingDistance? ==> h == Misplaced(p, |p.flat|)
    requires kind.ManhattanDistance? ==> h == ManhattanOf(p)
    requires kind.LinearConflicts? ==>
      (IsLineCounts(p, rows, cols) && |rows| == p.n
       && h == ManhattanOf(p) + 2 * (Total(rows) + Total(cols)))
    ensures h == 0
  {
    match kind
    case Zero =>
    case HammingDistance => HammingMeaning(p);
    case ManhattanDistance => ManhattanZero(p);
    case LinearConflicts => LinearConflictsMeaning(p, rows, cols);
  }

  /** The board is its goal with the labels at `a` and `b` exchanged: those two labels
      belong at each other's index, and every other label but the blank is home. */
  predicate Exchanged(p: Puzzle, a: nat, b: nat)
    requires Labelled(p) && a < |p.flat| && b < |p.flat|
  {
    p.flat[a] != 0 && p.flat[b] != 0 && p.end[p.flat[a]] == b && p.end[p.flat[b]] == a
    && forall i :: 0 <= i < |p.flat| && i != a && i != b && p.flat[i] != 0 ==> p.end[p.flat[i]] == i
  }

  lemma {:induction false} ManhattanExchangedUpTo(p: Puzzle, a: nat, b: nat, k: nat)
    requires p.n > 0 && Labelled(p) && a < b < |p.flat| && k <= |p.flat| && Exchanged(p, a, b)
    ensures Manhattan(p, k) ==
      (if a < k then CellDistance(p.n, a, b) else 0) + (if b < k then CellDistance(p.n, a, b) else 0)
  {
    if k > 0 {
      ManhattanExchangedUpTo(p, a, b, k - 1);
      if k - 1 != a && k - 1 != b {
        CellDistanceZero(p.n, k - 1, k - 1);
      }
    }
  }

  /** Exchanging two labels of a board in goal position costs twice the steps between
      their cells. */
  lemma ManhattanExchanged(p: Puzzle, a: nat, b: nat)
    requires p.n > 0 && Labelled(p) && a < b < |p.flat| && Exchanged(p, a, b)
    ensures ManhattanOf(p) == 2 * CellDistance(p.n, a, b)
  {
    ManhattanExchangedUpTo(p, a, b, |p.flat|);
  }

  // ---------------------------------------------------------------- test boards

  /** The goal table of a goal board: for each label, the index holding it (the
      source fills `end` with `set_goal`, which is not part of this model). */
  function GoalTable(goal: seq<nat>): (end: seq<nat>)
    ensures |end| == |goal|
    ensures forall v :: 0 <= v < |goal| && v in goal ==> end[v] < |goal| && goal[end[v]] == v
  {
    seq(|goal|, v requires 0 <= v < |goal| => IndexOf(goal, v))
  }

  /** On a goal board without repeated labels, a table that locates every label is
      its goal table. */
  lemma GoalTableOf(goal: seq<nat>, table: seq<nat>)
    requires forall i, j :: 0 <= i < j < |goal| ==> goal[i] != goal[j]
    requires |table| == |goal|
    requires forall v :: 0 <= v < |table| ==> table[v] < |goal| && goal[table[v]] == v
    ensures GoalTable(goal) == table
  {
    forall v | 0 <= v < |table|
      ensures IndexOf(goal, v) == table[v]
    {
      assert goal[table[v]] == v;
    }
  }

  /** The goal tables of the classic and snail goals the tests use. */
  const ClassicEnd3: seq<nat> := [8, 0, 1, 2, 3, 4, 5, 6, 7]
  const SnailEnd3: seq<nat> := [4, 0, 1, 2, 5, 8, 7, 6, 3]
  const ClassicEnd4: seq<nat> := [15, 0, 1, 2, 3, 4, 5, 6, 7, 8, 9, 10, 11, 12, 13, 14]

  /** Those tables are the goal tables of the 3x3 classic and snail goals and of the
      4x4 classic goal. */
  lemma TestGoalTables()
    ensures ClassicEnd3 == GoalTable([1, 2, 3, 4, 5, 6, 7, 8, 0])
    ensures SnailEnd3 == GoalTable([1, 2, 3, 8, 0, 4, 7, 6, 5])
  {
    GoalTableOf([1, 2, 3, 4, 5, 6, 7, 8, 0], ClassicEnd3);
    GoalTableOf([1, 2, 3, 8, 0, 4, 7, 6, 5], SnailEnd3);
  }

  lemma TestGoalTable4()
    ensures ClassicEnd4 == GoalTable([1, 2, 3, 4, 5, 6, 7, 8, 9, 10, 11, 12, 13, 14, 15, 0])
  {
    GoalTableOf([1, 2, 3, 4, 5, 6, 7, 8, 9, 10, 11, 12, 13, 14, 15, 0], ClassicEnd4);
  }

  /** The boards of the Manhattan tests, row by row. */
  const Board8: seq<nat> := [1, 2, 5, 3, 0, 6, 7, 4, 8]
  const Board9: seq<nat> := [2, 1, 3, 5, 4, 0, 6, 7, 8]
  const Board10: seq<nat> := [4, 2, 5, 1, 0, 6, 3, 8, 7]
  const Swapped4: seq<nat> := [2, 1, 3, 4, 5, 6, 7, 8, 9, 10, 11, 12, 13, 14, 15, 0]

  /** Against the classic 3x3 goal, the boards of the tests are 8, 9 and 10 steps away. */
  lemma ClassicManhattan8()
    ensures Labelled(Puzzle(3, Board8, ClassicEnd3, 4, Hold))
    ensures ManhattanOf(Puzzle(3, Board8, ClassicEnd3, 4, Hold)) == 8
  {
    var p := Puzzle(3, Board8, ClassicEnd3, 4, Hold);
    assert Labelled(p);
    assert Manhattan(p, 9) == 8;
  }

  lemma ClassicManhattan9()
    ensures Labelled(Puzzle(3, Board9, ClassicEnd3, 5, Hold))
    ensures ManhattanOf(Puzzle(3, Board9, ClassicEnd3, 5, Hold)) == 9
  {
    var p := Puzzle(3, Board9, ClassicEnd3, 5, Hold);
    assert Labelled(p);
    assert Manhattan(p, 9) == 9;
  }

  lemma ClassicManhattan10()
    ensures Labelled(Puzzle(3, Board10, ClassicEnd3, 4, Hold))
    ensures ManhattanOf(Puzzle(3, Board10, ClassicEnd3, 4, Hold)) == 10
  {
    var p := Puzzle(3, Board10, ClassicEnd3, 4, Hold);
    assert Labelled(p);
    assert Manhattan(p, 9) == 10;
  }

  /** Against the 3x3 snail goal, the same boards are 12, 11 and 16 steps away. */
  lemma SnailManhattan12()
    ensures Labelled(Puzzle(3, Board8, SnailEnd3, 4, Hold))
    ensures ManhattanOf(Puzzle(3, Board8, SnailEnd3, 4, Hold)) == 12
  {
    var p := Puzzle(3, Board8, SnailEnd3, 4, Hold);
    assert Labelled(p);
    assert Manhattan(p, 9) == 12;
  }

  lemma SnailManhattan11()
    ensures Labelled(Puzzle(3, Board9, SnailEnd3, 5, Hold))
    ensures ManhattanOf(Puzzle(3, Board9, SnailEnd3, 5, Hold)) == 11
  {
    var p := Puzzle(3, Board9, SnailEnd3, 5, Hold);
    assert Labelled(p);
    assert Manhattan(p, 9) == 11;
  }

  lemma SnailManhattan16()
    ensures Labelled(Puzzle(3, Board10, SnailEnd3, 4, Hold))
    ensures ManhattanOf(Puzzle(3, Board10, SnailEnd3, 4, Hold)) == 16
  {
    var p := Puzzle(3, Board10, SnailEnd3, 4, Hold);
    assert Labelled(p);
    assert Manhattan(p, 9) == 16;
  }

  /** The classic 4x4 goal with labels 1 and 2 exchanged is 2 steps away. */
  lemma BigClassicManhattan2()
    ensures Labelled(Puzzle(4, Swapped4, ClassicEnd4, 15, Hold))
    ensures ManhattanOf(Puzzle(4, Swapped4, ClassicEnd4, 15, Hold)) == 2
  {
    var p := Puzzle(4, Swapped4, ClassicEnd4, 15, Hold);
    assert Labelled(p);
    assert Manhattan(p, 5) == 2;
    assert Manhattan(p, 10) == 2;
    assert Manhattan(p, 15) == 2;
    assert Manhattan(p, 16) == 2;
  }
}
