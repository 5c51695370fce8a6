/**
  The moves of `src/moves.rs`: the blank slides using the cached `blank` index
  of the puzzle record, and `was` remembers the opposite of the last move so
  that the next listing never undoes it.
*/
module Moves {
  import opened Seqs
  import opened Puzzles

  /** `Move::opposite`: the direction that undoes `m`; `Hold` is its own opposite.
      Sliding in `m` and then in the opposite brings any index back where it was. */
  function Opposite(m: Move): (r: Move)
    ensures (r == Hold) == (m == Hold)
    ensures m != Hold ==> r != m
    ensures forall n: nat, b: int :: Target(n, Target(n, b, m), r) == b
  {
    match m
    case Up => Down
    case Down => Up
    case Left => Right
    case Right => Left
    case Hold => Hold
  }

  /** Taking the opposite twice gives the move back. */
  lemma OppositeInvolutive(m: Move)
    ensures Opposite(Opposite(m)) == m
  {
  }

  /** `Move::moves`: the directions that pass the row and column tests for the cached
      blank, except `was`, in the order Up, Down, Left, Right. */
  method PrunedMoves(p: Puzzle) returns (ms: seq<Move>)
    requires p.n > 0
    ensures ms == Directions(p.n, p.blank, p.was)
    ensures forall m :: m in ms <==> OnGrid(p.n, p.blank, m) && m != p.was
    ensures forall i, j :: 0 <= i < j < |ms| ==> Rank(ms[i]) < Rank(ms[j])
  {
    var row := p.blank / p.n + 1;
    var column := p.blank % p.n + 1;
    ms := [];
    if row != 1 && p.was != Up {
      ms := ms + [Up];
    }
    if row != p.n && p.was != Down {
      ms := ms + [Down];
    }
    if column != 1 && p.was != Left {
      ms := ms + [Left];
    }
    if column != p.n && p.was != Right {
      ms := ms + [Right];
    }
    assert ms == Selected(row != 1 && p.was != Up, row != p.n && p.was != Down,
                          column != 1 && p.was != Left, column != p.n && p.was != Right);
    DirectionsMeaning(p.n, p.blank, p.was);
  }

  /** `apply` can run without a panic: `Hold`, or both swapped indices exist. */
  predicate CanApply(p: Puzzle, m: Move)
  {
    m == Hold || TargetInRange(|p.flat|, p.n, p.blank, m)
  }

  /** The puzzle after `apply(m)`: the cached blank traded with the cell in direction
      `m` and moved there; `was` set to the opposite of `m`. */
  function Applied(p: Puzzle, m: Move): Puzzle
    requires CanApply(p, m)
  {
    if m == Hold then p.(was := Hold)
    else
      var t := Target(p.n, p.blank, m) as nat;
      p.(flat := Swapped(p.flat, p.blank, t), blank := t, was := Opposite(m))
  }

  /** `Move::apply`, in place on a board. */
  method Apply(m: Move, board: Board)
    requires CanApply(board.Snapshot(), m)
    modifies board, board.flat
    ensures board.flat == old(board.flat)
    ensures board.Snapshot() == Applied(old(board.Snapshot()), m)
  {
    if m != Hold {
      var idx := Target(board.n, board.blank, m) as nat;
      board.flat[board.blank], board.flat[idx] := board.flat[idx], board.flat[board.blank];
      assert board.flat[..] == Swapped(old(board.flat[..]), old(board.blank), idx);
      board.blank := idx;
    }
    board.was := Opposite(m);
  }

  /** The cached blank points at a 0 of the tile array. */
  predicate BlankCached(p: Puzzle)
  {
    p.blank < |p.flat| && p.flat[p.blank] == 0
  }

  /** `apply` keeps the labels, the side and the goal table, keeps the cached blank
      pointing at a 0, and records the opposite of the move in `was`. */
  lemma AppliedInvariant(p: Puzzle, m: Move)
    requires CanApply(p, m) && BlankCached(p)
    ensures multiset(Applied(p, m).flat) == multiset(p.flat)
    ensures Applied(p, m).n == p.n && Applied(p, m).end == p.end
    ensures BlankCached(Applied(p, m))
    ensures Applied(p, m).was == Opposite(m)
    ensures m == Hold ==> Applied(p, m).flat == p.flat && Applied(p, m).blank == p.blank
  {
  }

  /** Playing the opposite right after a move restores the tile array and the blank. */
  lemma AppliedUndo(p: Puzzle, m: Move)
    requires m != Hold && CanApply(p, m)
    ensures CanApply(Applied(p, m), Opposite(m))
    ensures Applied(Applied(p, m), Opposite(m)).flat == p.flat
    ensures Applied(Applied(p, m), Opposite(m)).blank == p.blank
    ensures Applied(Applied(p, m), Opposite(m)).was == m
  {
    var q := Applied(p, m);
    var t := Target(p.n, p.blank, m) as nat;
    assert Target(q.n, q.blank, Opposite(m)) == p.blank;
    OppositeInvolutive(m);
    assert Swapped(Swapped(p.flat, p.blank, t), t, p.blank) == p.flat;
  }

  /** After a move, the next listing never offers the move that undoes it. */
  lemma NoImmediateUndo(p: Puzzle, m: Move)
    requires p.n > 0 && m != Hold && CanApply(p, m)
    ensures Opposite(m) !in Directions(p.n, Applied(p, m).blank, Applied(p, m).was)
  {
    DirectionsMeaning(p.n, Applied(p, m).blank, Applied(p, m).was);
  }

  /** On a square board every listed move can be applied, and it takes the blank to a
      grid neighbour. */
  lemma ListedMovesApply(p: Puzzle, m: Move)
    requires p.n > 0 && |p.flat| == p.n * p.n && p.blank < |p.flat|
    requires m in Directions(p.n, p.blank, p.was)
    ensures CanApply(p, m)
    ensures GridNeighbours(p.n, p.blank, Applied(p, m).blank)
  {
    DirectionsMeaning(p.n, p.blank, p.was);
    OnGridMeaning(p.n, p.blank, m);
  }

  /** When the cached blank is the first 0, `apply` moves the tiles exactly as the
      blank search of `puzzle.rs` does. */
  lemma AppliedAgreesWithSlid(p: Puzzle, m: Move)
    requires m != Hold && 0 in p.flat && p.blank == Blank(p)
    requires TargetInRange(|p.flat|, p.n, p.blank, m)
    ensures Applied(p, m).flat == Slid(p, m).flat
  {
  }
}
