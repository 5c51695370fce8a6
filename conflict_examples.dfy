/**
  The Linear-Conflict examples of `src/heuristics.rs`: three 3x3 boards measured
  against the goal `0 1 2 / 3 4 5 / 6 7 8`, whose goal table is the identity. Each
  line's conflict graph is computed on its own, then the greedy counts are added.
*/
module ConflictExamples {
  import opened Puzzles
  import opened Graph
  import opened Heuristics

  const Identity3: seq<nat> := [0, 1, 2, 3, 4, 5, 6, 7, 8]
  const Sum1: seq<nat> := [0, 2, 1, 7, 4, 5, 6, 3, 8]
  const Sum3: seq<nat> := [0, 2, 1, 5, 4, 3, 6, 7, 8]
  const Sum5: seq<nat> := [2, 7, 0, 5, 4, 3, 8, 1, 6]

  /** The total of three counts. */
  lemma Total3(s: seq<nat>)
    requires |s| == 3
    ensures Total(s) == s[0] + s[1] + s[2]
  {
    assert s[..2][..1] == s[..1] && s[..1][..0] == [];
    assert Total(s[..1]) == s[0];
    assert Total(s[..2]) == s[0] + s[1];
  }

  /** The counts of a 3x3 board, read line by line. */
  lemma CountsOf3(p: Puzzle, rows: seq<nat>, cols: seq<nat>)
    requires p.n == 3 && Fits(p) && IsLineCounts(p, rows, cols) && |rows| == 3
    ensures Total(rows) + Total(cols) == rows[0] + rows[1] + rows[2] + cols[0] + cols[1] + cols[2]
    ensures IsGreedyCount(LineGraph(p, Row, 0), rows[0]) && IsGreedyCount(LineGraph(p, Col, 0), cols[0])
    ensures IsGreedyCount(LineGraph(p, Row, 1), rows[1]) && IsGreedyCount(LineGraph(p, Col, 1), cols[1])
    ensures IsGreedyCount(LineGraph(p, Row, 2), rows[2]) && IsGreedyCount(LineGraph(p, Col, 2), cols[2])
  {
    LineCountsAt(p, rows, cols, 0);
    LineCountsAt(p, rows, cols, 1);
    LineCountsAt(p, rows, cols, 2);
    Total3(rows);
    Total3(cols);
  }

  // ------------------------------------------------------------ 0 2 1 / 7 4 5 / 6 3 8

  /** Row 0 of `0 2 1 / 7 4 5 / 6 3 8` holds the single conflict 2-1. */
  lemma Sum1Row0()
    ensures Fits(Puzzle(3, Sum1, Identity3, 0, Hold))
    ensures IsEdge(LineGraph(Puzzle(3, Sum1, Identity3, 0, Hold), Row, 0), 2, 1)
  {
    var p := Puzzle(3, Sum1, Identity3, 0, Hold);
    assert Fits(p);
    assert IsEdge(LineGraph(p, Row, 0), 2, 1);
  }

  /** Row 1 of `0 2 1 / 7 4 5 / 6 3 8` has no conflict. */
  lemma Sum1Row1()
    ensures Fits(Puzzle(3, Sum1, Identity3, 0, Hold))
    ensures LineGraph(Puzzle(3, Sum1, Identity3, 0, Hold), Row, 1) == map[]
  {
    var p := Puzzle(3, Sum1, Identity3, 0, Hold);
    assert Fits(p);
    assert LineGraph(p, Row, 1) == map[];
  }

  /** Row 2 of `0 2 1 / 7 4 5 / 6 3 8` has no conflict. */
  lemma Sum1Row2()
    ensures Fits(Puzzle(3, Sum1, Identity3, 0, Hold))
    ensures LineGraph(Puzzle(3, Sum1, Identity3, 0, Hold), Row, 2) == map[]
  {
    var p := Puzzle(3, Sum1, Identity3, 0, Hold);
    assert Fits(p);
    assert LineGraph(p, Row, 2) == map[];
  }

  /** Col 0 of `0 2 1 / 7 4 5 / 6 3 8` has no conflict. */
  lemma Sum1Col0()
    ensures Fits(Puzzle(3, Sum1, Identity3, 0, Hold))
    ensures LineGraph(Puzzle(3, Sum1, Identity3, 0, Hold), Col, 0) == map[]
  {
    var p := Puzzle(3, Sum1, Identity3, 0, Hold);
    assert Fits(p);
    assert LineGraph(p, Col, 0) == map[];
  }

  /** Col 1 of `0 2 1 / 7 4 5 / 6 3 8` has no conflict. */
  lemma Sum1Col1()
    ensures Fits(Puzzle(3, Sum1, Identity3, 0, Hold))
    ensures LineGraph(Puzzle(3, Sum1, Identity3, 0, Hold), Col, 1) == map[]
  {
    var p := Puzzle(3, Sum1, Identity3, 0, Hold);
    assert Fits(p);
    assert LineGraph(p, Col, 1) == map[];
  }

  /** Col 2 of `0 2 1 / 7 4 5 / 6 3 8` has no conflict. */
  lemma Sum1Col2()
    ensures Fits(Puzzle(3, Sum1, Identity3, 0, Hold))
    ensures LineGraph(Puzzle(3, Sum1, Identity3, 0, Hold), Col, 2) == map[]
  {
    var p := Puzzle(3, Sum1, Identity3, 0, Hold);
    assert Fits(p);
    assert LineGraph(p, Col, 2) == map[];
  }

  /** `linear_conflicts_sum(sum_1) == 1`, whatever label of most conflicts the
      loop picks: only the first row conflicts: 2 and 1 are exchanged in it. */
  lemma LinearConflictsSum1(rows: seq<nat>, cols: seq<nat>)
    requires Fits(Puzzle(3, Sum1, Identity3, 0, Hold))
    requires IsLineCounts(Puzzle(3, Sum1, Identity3, 0, Hold), rows, cols) && |rows| == 3
    ensures Total(rows) + Total(cols) == 1
  {
    var p := Puzzle(3, Sum1, Identity3, 0, Hold);
    Sum1Row0();
    Sum1Row1();
    Sum1Row2();
    Sum1Col0();
    Sum1Col1();
    Sum1Col2();
    CountsOf3(p, rows, cols);
    GreedyOneEdge(LineGraph(p, Row, 0), 2, 1, rows[0]);
  }

  // ------------------------------------------------------------ 0 2 1 / 5 4 3 / 6 7 8

  /** Row 0 of `0 2 1 / 5 4 3 / 6 7 8` holds the single conflict 2-1. */
  lemma Sum3Row0()
    ensures Fits(Puzzle(3, Sum3, Identity3, 0, Hold))
    ensures IsEdge(LineGraph(Puzzle(3, Sum3, Identity3, 0, Hold), Row, 0), 2, 1)
  {
    var p := Puzzle(3, Sum3, Identity3, 0, Hold);
    assert Fits(p);
    assert IsEdge(LineGraph(p, Row, 0), 2, 1);
  }

  /** Row 1 of `0 2 1 / 5 4 3 / 6 7 8` holds the conflicts between 5, 4 and 3. */
  lemma Sum3Row1()
    ensures Fits(Puzzle(3, Sum3, Identity3, 0, Hold))
    ensures IsTriangle(LineGraph(Puzzle(3, Sum3, Identity3, 0, Hold), Row, 1), 5, 4, 3)
  {
    var p := Puzzle(3, Sum3, Identity3, 0, Hold);
    assert Fits(p);
    assert IsTriangle(LineGraph(p, Row, 1), 5, 4, 3);
  }

  /** Row 2 of `0 2 1 / 5 4 3 / 6 7 8` has no conflict. */
  lemma Sum3Row2()
    ensures Fits(Puzzle(3, Sum3, Identity3, 0, Hold))
    ensures LineGraph(Puzzle(3, Sum3, Identity3, 0, Hold), Row, 2) == map[]
  {
    var p := Puzzle(3, Sum3, Identity3, 0, Hold);
    assert Fits(p);
    assert LineGraph(p, Row, 2) == map[];
  }

  /** Col 0 of `0 2 1 / 5 4 3 / 6 7 8` has no conflict. */
  lemma Sum3Col0()
    ensures Fits(Puzzle(3, Sum3, Identity3, 0, Hold))
    ensures LineGraph(Puzzle(3, Sum3, Identity3, 0, Hold), Col, 0) == map[]
  {
    var p := Puzzle(3, Sum3, Identity3, 0, Hold);
    assert Fits(p);
    assert LineGraph(p, Col, 0) == map[];
  }

  /** Col 1 of `0 2 1 / 5 4 3 / 6 7 8` has no conflict. */
  lemma Sum3Col1()
    ensures Fits(Puzzle(3, Sum3, Identity3, 0, Hold))
    ensures LineGraph(Puzzle(3, Sum3, Identity3, 0, Hold), Col, 1) == map[]
  {
    var p := Puzzle(3, Sum3, Identity3, 0, Hold);
    assert Fits(p);
    assert LineGraph(p, Col, 1) == map[];
  }

  /** Col 2 of `0 2 1 / 5 4 3 / 6 7 8` has no conflict. */
  lemma Sum3Col2()
    ensures Fits(Puzzle(3, Sum3, Identity3, 0, Hold))
    ensures LineGraph(Puzzle(3, Sum3, Identity3, 0, Hold), Col, 2) == map[]
  {
    var p := Puzzle(3, Sum3, Identity3, 0, Hold);
    assert Fits(p);
    assert LineGraph(p, Col, 2) == map[];
  }

  /** `linear_conflicts_sum(sum_3) == 3`, whatever label of most conflicts the
      loop picks: the first row holds 2 and 1 exchanged, the second row 5, 4 and 3 reversed. */
  lemma LinearConflictsSum3(rows: seq<nat>, cols: seq<nat>)
    requires Fits(Puzzle(3, Sum3, Identity3, 0, Hold))
    requires IsLineCounts(Puzzle(3, Sum3, Identity3, 0, Hold), rows, cols) && |rows| == 3
    ensures Total(rows) + Total(cols) == 3
  {
    var p := Puzzle(3, Sum3, Identity3, 0, Hold);
    Sum3Row0();
    Sum3Row1();
    Sum3Row2();
    Sum3Col0();
    Sum3Col1();
    Sum3Col2();
    CountsOf3(p, rows, cols);
    GreedyOneEdge(LineGraph(p, Row, 0), 2, 1, rows[0]);
    GreedyTriangle(LineGraph(p, Row, 1), 5, 4, 3, rows[1]);
  }

  // ------------------------------------------------------------ 2 7 0 / 5 4 3 / 8 1 6

  /** Row 0 of `2 7 0 / 5 4 3 / 8 1 6` has no conflict. */
  lemma Sum5Row0()
    ensures Fits(Puzzle(3, Sum5, Identity3, 2, Hold))
    ensures LineGraph(Puzzle(3, Sum5, Identity3, 2, Hold), Row, 0) == map[]
  {
    var p := Puzzle(3, Sum5, Identity3, 2, Hold);
    assert Fits(p);
    assert LineGraph(p, Row, 0) == map[];
  }

  /** Row 1 of `2 7 0 / 5 4 3 / 8 1 6` holds the conflicts between 5, 4 and 3. */
  lemma Sum5Row1()
    ensures Fits(Puzzle(3, Sum5, Identity3, 2, Hold))
    ensures IsTriangle(LineGraph(Puzzle(3, Sum5, Identity3, 2, Hold), Row, 1), 5, 4, 3)
  {
    var p := Puzzle(3, Sum5, Identity3, 2, Hold);
    assert Fits(p);
    assert IsTriangle(LineGraph(p, Row, 1), 5, 4, 3);
  }

  /** Row 2 of `2 7 0 / 5 4 3 / 8 1 6` holds the single conflict 8-6. */
  lemma Sum5Row2()
    ensures Fits(Puzzle(3, Sum5, Identity3, 2, Hold))
    ensures IsEdge(LineGraph(Puzzle(3, Sum5, Identity3, 2, Hold), Row, 2), 8, 6)
  {
    var p := Puzzle(3, Sum5, Identity3, 2, Hold);
    assert Fits(p);
    assert IsEdge(LineGraph(p, Row, 2), 8, 6);
  }

  /** Col 0 of `2 7 0 / 5 4 3 / 8 1 6` has no conflict. */
  lemma Sum5Col0()
    ensures Fits(Puzzle(3, Sum5, Identity3, 2, Hold))
    ensures LineGraph(Puzzle(3, Sum5, Identity3, 2, Hold), Col, 0) == map[]
  {
    var p := Puzzle(3, Sum5, Identity3, 2, Hold);
    assert Fits(p);
    assert LineGraph(p, Col, 0) == map[];
  }

  /** Col 1 of `2 7 0 / 5 4 3 / 8 1 6` holds the conflicts between 7, 4 and 1. */
  lemma Sum5Col1()
    ensures Fits(Puzzle(3, Sum5, Identity3, 2, Hold))
    ensures IsTriangle(LineGraph(Puzzle(3, Sum5, Identity3, 2, Hold), Col, 1), 7, 4, 1)
  {
    var p := Puzzle(3, Sum5, Identity3, 2, Hold);
    assert Fits(p);
    assert IsTriangle(LineGraph(p, Col, 1), 7, 4, 1);
  }

  /** Col 2 of `2 7 0 / 5 4 3 / 8 1 6` has no conflict. */
  lemma Sum5Col2()
    ensures Fits(Puzzle(3, Sum5, Identity3, 2, Hold))
    ensures LineGraph(Puzzle(3, Sum5, Identity3, 2, Hold), Col, 2) == map[]
  {
    var p := Puzzle(3, Sum5, Identity3, 2, Hold);
    assert Fits(p);
    assert LineGraph(p, Col, 2) == map[];
  }

  /** `linear_conflicts_sum(sum_5) == 5`, whatever label of most conflicts the
      loop picks: the second row holds 5, 4 and 3 reversed, the last row 8 before 6, and the
      middle column 7, 4 and 1 reversed. */
  lemma LinearConflictsSum5(rows: seq<nat>, cols: seq<nat>)
    requires Fits(Puzzle(3, Sum5, Identity3, 2, Hold))
    requires IsLineCounts(Puzzle(3, Sum5, Identity3, 2, Hold), rows, cols) && |rows| == 3
    ensures Total(rows) + Total(cols) == 5
  {
    var p := Puzzle(3, Sum5, Identity3, 2, Hold);
    Sum5Row0();
    Sum5Row1();
    Sum5Row2();
    Sum5Col0();
    Sum5Col1();
    Sum5Col2();
    CountsOf3(p, rows, cols);
    GreedyTriangle(LineGraph(p, Row, 1), 5, 4, 3, rows[1]);
    GreedyOneEdge(LineGraph(p, Row, 2), 8, 6, rows[2]);
    GreedyTriangle(LineGraph(p, Col, 1), 7, 4, 1, cols[1]);
  }
}
