/**
  The tiles of `src/tile.rs`: a label with its current cell and the cell the
  goal table assigns it, and the two conflict tests of the linear-conflict
  heuristic.
*/
module Tiles {
  import opened Puzzles

  datatype TilePosition = TilePosition(col: nat, row: nat)

  datatype Tile = Tile(value: nat, pos: TilePosition, goal: TilePosition)

  /** `Tile::new`: the label at column `col` and row `row`, with the goal cell decoded
      from `end[label]` (the source panics on an index out of range or a zero side). */
  function NewTile(p: Puzzle, col: nat, row: nat): (t: Tile)
    requires p.n > 0 && col + row * p.n < |p.flat| && p.flat[col + row * p.n] < |p.end|
    ensures t.value == p.flat[col + row * p.n] && t.pos == TilePosition(col, row)
    ensures t.goal.col < p.n && t.goal.row * p.n + t.goal.col == p.end[t.value]
  {
    var value := p.flat[col + row * p.n];
    var goalIndex := p.end[value];
    Tile(value, TilePosition(col, row), TilePosition(goalIndex % p.n, goalIndex / p.n))
  }

  /** `is_in_row_conflict_with`: both tiles are labels, `a` is in its goal row, `b` has
      the same goal row, and `a`'s goal lies right of `b`'s. */
  predicate InRowConflict(a: Tile, b: Tile)
  {
    a.value != 0 && b.value != 0 && a.goal.row == a.pos.row
    && a.goal.row == b.goal.row && a.goal.col > b.goal.col
  }

  /** `is_in_col_conflict_with`: the same test along a column. */
  predicate InColConflict(a: Tile, b: Tile)
  {
    a.value != 0 && b.value != 0 && a.goal.col == a.pos.col
    && a.goal.col == b.goal.col && a.goal.row > b.goal.row
  }

  /** A tile with rows and columns exchanged. */
  function Transposed(t: Tile): (r: Tile)
    ensures r.value == t.value
    ensures r.pos.col == t.pos.row && r.pos.row == t.pos.col
    ensures r.goal.col == t.goal.row && r.goal.row == t.goal.col
  {
    Tile(t.value, TilePosition(t.pos.row, t.pos.col), TilePosition(t.goal.row, t.goal.col))
  }

  /** The conflict relations are strict: never a tile with itself, never both ways,
      and the blank is never in conflict. */
  lemma ConflictStrict(a: Tile, b: Tile)
    ensures !InRowConflict(a, a) && !InColConflict(a, a)
    ensures InRowConflict(a, b) ==> !InRowConflict(b, a)
    ensures InColConflict(a, b) ==> !InColConflict(b, a)
    ensures a.value == 0 || b.value == 0 ==>
      !InRowConflict(a, b) && !InColConflict(a, b)
  {
  }

  /** The column test is the row test on the transposed tiles. */
  lemma ColIsTransposedRow(a: Tile, b: Tile)
    ensures InColConflict(a, b) == InRowConflict(Transposed(a), Transposed(b))
  {
  }

  /** Two tiles taken from one row conflict exactly when both sit in their goal row and
      their goals are in the reverse order. */
  lemma RowConflictMeaning(a: Tile, b: Tile)
    requires a.pos.row == b.pos.row
    ensures InRowConflict(a, b) <==>
      a.value != 0 && b.value != 0 && a.goal.row == a.pos.row && b.goal.row == b.pos.row
      && a.goal.col > b.goal.col
  {
  }
}
