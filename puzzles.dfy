/**
  The board of `src/puzzle.rs`: an n-by-n grid stored row-major in `flat`,
  label 0 standing for the blank.

  The record is the one the newer files share (`src/moves.rs`,
  `src/generate.rs`, `src/tile.rs`): besides `n` and `flat` it carries the
  goal table `end` (`end[label]` is the goal index of `label`), a cached
  `blank` index and `was`, the move that may not be played next. The
  operations of `puzzle.rs` only look at `n` and `flat`: they find the blank
  by searching `flat`, and they leave the other three fields as they are.

  Puzzles are values (the source clones them and keeps them by value in
  vectors); the in-place swaps of `puzzle.rs` and `moves.rs` act on a
  `Board`, a puzzle held in a mutable array.
*/
module Puzzles {
  import opened Seqs

  /** The directions the blank slides in; `Hold` is the "no move" value of `moves.rs`. */
  datatype Move = Up | Down | Left | Right | Hold

  datatype Puzzle = Puzzle(n: nat, flat: seq<nat>, end: seq<nat>, blank: nat, was: Move)

  /** Result of `Ord::cmp`. */
  datatype Ordering = Less | Equal | Greater

  /** The order in which `moves` lists the directions. */
  function Rank(m: Move): nat
  {
    match m
    case Up => 0
    case Down => 1
    case Left => 2
    case Right => 3
    case Hold => 4
  }

  // ---------------------------------------------------------------- arithmetic

  /** A positive multiple of a positive `n` is at least `n`. */
  lemma MulAtLeast(a: int, n: int)
    requires n > 0 && a >= 1
    ensures a * n >= n
  {
  }

  /** Euclidean division is unique: the quotient and remainder of `q * n + r`. */
  lemma DivModUnique(x: int, n: int, q: int, r: int)
    requires n > 0 && 0 <= r < n && x == q * n + r
    ensures x / n == q && x % n == r
  {
    var q', r' := x / n, x % n;
    assert (q - q') * n == r' - r;
    if q > q' {
      MulAtLeast(q - q', n);
    }
    if q' > q {
      MulAtLeast(q' - q, n);
    }
  }

  /** A row index below `n` times `n` plus a column below `n` stays below `n * n`. */
  lemma CellBelowSquare(n: nat, row: nat, col: nat)
    requires row < n && col < n
    ensures row * n + col < n * n
  {
    assert row * n <= (n - 1) * n;
  }

  /** The row of an index below `n * n` is below `n`. */
  lemma RowBelowSide(n: nat, i: nat)
    requires n > 0 && i < n * n
    ensures i / n < n
  {
  }

  // ---------------------------------------------------------------- from_matrix

  /** The rows of a matrix concatenated in order. */
  function Flatten(rows: seq<seq<nat>>): seq<nat>
  {
    if rows == [] then [] else rows[0] + Flatten(rows[1..])
  }

  /** Every row of the matrix has `m` entries. */
  predicate Uniform(rows: seq<seq<nat>>, m: nat)
  {
    forall k :: 0 <= k < |rows| ==> |rows[k]| == m
  }

  /** Entry `(i, j)` of the matrix sits at index `i * m + j` of `flat`. */
  predicate RowMajorAt(rows: seq<seq<nat>>, m: nat, flat: seq<nat>, i: nat, j: nat)
    requires i < |rows| && j < |rows[i]|
  {
    i * m + j < |flat| && flat[i * m + j] == rows[i][j]
  }

  lemma {:induction false} FlattenLength(rows: seq<seq<nat>>, m: nat)
    requires Uniform(rows, m)
    ensures |Flatten(rows)| == |rows| * m
  {
    if rows != [] {
      FlattenLength(rows[1..], m);
      assert |rows| * m == m + (|rows| - 1) * m;
    }
  }

  lemma {:induction false} FlattenAt(rows: seq<seq<nat>>, m: nat, i: nat, j: nat)
    requires Uniform(rows, m) && i < |rows| && j < m
    ensures RowMajorAt(rows, m, Flatten(rows), i, j)
  {
    FlattenLength(rows, m);
    if i > 0 {
      FlattenAt(rows[1..], m, i - 1, j);
      assert i * m + j == m + ((i - 1) * m + j);
    }
  }

  /** On a matrix whose rows all have length `m`, the concatenation of the rows is the
      row-major layout: `|rows| * m` entries, entry `(i, j)` at index `i * m + j`. */
  lemma FlattenRowMajor(rows: seq<seq<nat>>, m: nat)
    requires Uniform(rows, m)
    ensures |Flatten(rows)| == |rows| * m
    ensures forall i: nat, j: nat :: i < |rows| && j < m ==> RowMajorAt(rows, m, Flatten(rows), i, j)
  {
    FlattenLength(rows, m);
    forall i: nat, j: nat | i < |rows| && j < m
      ensures RowMajorAt(rows, m, Flatten(rows), i, j)
    {
      FlattenAt(rows, m, i, j);
    }
  }

  /** `Puzzle::from_matrix`: the board holds the matrix in row-major order. It has no
      goal table yet and no previous move; its cached blank is the first 0, if any. */
  function FromMatrix(msize: nat, matrix: seq<seq<nat>>): (p: Puzzle)
    ensures p.n == msize && p.end == [] && p.was == Hold
    ensures p.flat == Flatten(matrix)
    ensures Uniform(matrix, msize) ==>
              |p.flat| == |matrix| * msize &&
              forall i: nat, j: nat :: i < |matrix| && j < msize ==> RowMajorAt(matrix, msize, p.flat, i, j)
    ensures p.blank == IndexOf(p.flat, 0)
    ensures 0 in p.flat ==> p.blank < |p.flat| && p.flat[p.blank] == 0
  {
    var flat := Flatten(matrix);
    if Uniform(matrix, msize) then
      FlattenRowMajor(matrix, msize);
      Puzzle(msize, flat, [], IndexOf(flat, 0), Hold)
    else
      Puzzle(msize, flat, [], IndexOf(flat, 0), Hold)
  }

  // ---------------------------------------------------------------- blank

  /** `Puzzle::blank`: the first index holding 0 (the source panics when there is none). */
  function Blank(p: Puzzle): (b: nat)
    requires 0 in p.flat
    ensures b < |p.flat| && p.flat[b] == 0
    ensures forall j :: 0 <= j < b ==> p.flat[j] != 0
  {
    IndexOf(p.flat, 0)
  }

  // ---------------------------------------------------------------- moves

  /** The row and column tests of `moves` for a blank in row `row` and column `column`
      (both counted from 1 as in the source). */
  predicate Allowed(n: nat, row: int, column: int, m: Move)
  {
    match m
    case Up => row != 1
    case Down => row != n
    case Left => column != 1
    case Right => column != n
    case Hold => false
  }

  /** The blank, at index `blank`, may slide in direction `m`. */
  predicate OnGrid(n: nat, blank: nat, m: Move)
    requires n > 0
  {
    Allowed(n, blank / n + 1, blank % n + 1, m)
  }

  /** The index the blank is swapped with when it slides in direction `m`. */
  function Target(n: nat, blank: int, m: Move): int
  {
    match m
    case Up => blank - n
    case Down => blank + n
    case Left => blank - 1
    case Right => blank + 1
    case Hold => blank
  }

  /** Cells `a` and `c` of an n-by-n grid share a side. */
  predicate GridNeighbours(n: nat, a: int, c: int)
    requires n > 0
  {
    var dr := a / n - c / n;
    var dc := a % n - c % n;
    (if dr < 0 then -dr else dr) + (if dc < 0 then -dc else dc) == 1
  }

  /** Both indices of a swap exist in a flat of length `len` (otherwise the source's
      `usize` subtraction or `swap` panics). */
  predicate TargetInRange(len: nat, n: nat, blank: nat, m: Move)
  {
    blank < len && 0 <= Target(n, blank, m) < len
  }

  lemma UpMeaning(n: nat, b: nat, q: nat, r: nat)
    requires n > 0 && b < n * n && b == q * n + r && r < n
    ensures OnGrid(n, b, Up) <==> 0 <= b - n < n * n && GridNeighbours(n, b, b - n)
  {
    DivModUnique(b, n, q, r);
    if q >= 1 {
      DivModUnique(b - n, n, q - 1, r);
    }
  }

  lemma DownMeaning(n: nat, b: nat, q: nat, r: nat)
    requires n > 0 && b < n * n && b == q * n + r && r < n
    ensures OnGrid(n, b, Down) <==> 0 <= b + n < n * n && GridNeighbours(n, b, b + n)
  {
    DivModUnique(b, n, q, r);
    RowBelowSide(n, b);
    if q + 1 < n {
      DivModUnique(b + n, n, q + 1, r);
      CellBelowSquare(n, q + 1, r);
    } else {
      assert b + n == n * n + r by {
        assert (n - 1) * n == n * n - n;
      }
    }
  }

  lemma LeftMeaning(n: nat, b: nat, q: nat, r: nat)
    requires n > 0 && b < n * n && b == q * n + r && r < n
    ensures OnGrid(n, b, Left) <==> 0 <= b - 1 < n * n && GridNeighbours(n, b, b - 1)
  {
    DivModUnique(b, n, q, r);
    if r >= 1 {
      DivModUnique(b - 1, n, q, r - 1);
    } else if q >= 1 {
      DivModUnique(b - 1, n, q - 1, n - 1);
    }
  }

  lemma RightMeaning(n: nat, b: nat, q: nat, r: nat)
    requires n > 0 && b < n * n && b == q * n + r && r < n
    ensures OnGrid(n, b, Right) <==> 0 <= b + 1 < n * n && GridNeighbours(n, b, b + 1)
  {
    DivModUnique(b, n, q, r);
    RowBelowSide(n, b);
    if r + 1 < n {
      DivModUnique(b + 1, n, q, r + 1);
      CellBelowSquare(n, q, r + 1);
    } else if q + 1 < n {
      DivModUnique(b + 1, n, q + 1, 0);
    } else {
      assert b + 1 == n * n by {
        assert (n - 1) * n == n * n - n;
      }
    }
  }

  /** The row/column tests say exactly that the cell the blank moves to exists and is a
      grid neighbour of the blank: a listed move never takes the blank off the grid. */
  lemma OnGridMeaning(n: nat, b: nat, m: Move)
    requires n > 0 && b < n * n && m != Hold
    ensures OnGrid(n, b, m) <==> 0 <= Target(n, b, m) < n * n && GridNeighbours(n, b, Target(n, b, m))
  {
    var q, r := b / n, b % n;
    match m
    case Up => UpMeaning(n, b, q, r);
    case Down => DownMeaning(n, b, q, r);
    case Left => LeftMeaning(n, b, q, r);
    case Right => RightMeaning(n, b, q, r);
  }

  /** The directions among Up, Down, Left, Right whose flag is set, in that order. */
  function Selected(up: bool, down: bool, left: bool, right: bool): seq<Move>
  {
    (if up then [Up] else []) + (if down then [Down] else [])
    + (if left then [Left] else []) + (if right then [Right] else [])
  }

  /** `Selected` lists a direction iff its flag is set, never `Hold`, in rank order. */
  lemma SelectedMeaning(up: bool, down: bool, left: bool, right: bool)
    ensures var ds := Selected(up, down, left, right);
      (Up in ds <==> up) && (Down in ds <==> down) && (Left in ds <==> left) &&
      (Right in ds <==> right) && Hold !in ds && |ds| <= 4 &&
      forall i, j :: 0 <= i < j < |ds| ==> Rank(ds[i]) < Rank(ds[j])
  {
  }

  /** The directions `moves` lists for a blank at `blank`, in the source's order, leaving
      out `excluded` (`puzzle.rs` excludes nothing: `Hold`; `moves.rs` excludes `was`). */
  function Directions(n: nat, blank: nat, excluded: Move): seq<Move>
    requires n > 0
  {
    Selected(OnGrid(n, blank, Up) && excluded != Up, OnGrid(n, blank, Down) && excluded != Down,
             OnGrid(n, blank, Left) && excluded != Left, OnGrid(n, blank, Right) && excluded != Right)
  }

  /** A direction is listed iff it passes the grid test and is not excluded; the list
      is in the order Up, Down, Left, Right, so it has no repetition. */
  lemma DirectionsMeaning(n: nat, blank: nat, excluded: Move)
    requires n > 0
    ensures forall m :: m in Directions(n, blank, excluded) <==> OnGrid(n, blank, m) && m != excluded
    ensures Hold !in Directions(n, blank, excluded)
    ensures var ds := Directions(n, blank, excluded);
      forall i, j :: 0 <= i < j < |ds| ==> Rank(ds[i]) < Rank(ds[j])
  {
    var up, down := OnGrid(n, blank, Up) && excluded != Up, OnGrid(n, blank, Down) && excluded != Down;
    var left, right := OnGrid(n, blank, Left) && excluded != Left, OnGrid(n, blank, Right) && excluded != Right;
    assert Directions(n, blank, excluded) == Selected(up, down, left, right);
    SelectedMeaning(up, down, left, right);
    forall m ensures m in Selected(up, down, left, right) <==> OnGrid(n, blank, m) && m != excluded {
      match m
      case Up =>
      case Down =>
      case Left =>
      case Right =>
      case Hold =>
    }
  }

  /** `Puzzle::moves`: the directions that keep the blank on the grid, in the order
      Up, Down, Left, Right. */
  method Moves(p: Puzzle) returns (ms: seq<Move>)
    requires p.n > 0 && 0 in p.flat
    ensures ms == Directions(p.n, Blank(p), Hold)
    ensures forall m :: m in ms <==> OnGrid(p.n, Blank(p), m)
    ensures forall i, j :: 0 <= i < j < |ms| ==> Rank(ms[i]) < Rank(ms[j])
  {
    var blank := Blank(p);
    var row := blank / p.n + 1;
    var column := blank % p.n + 1;
    ms := [];
    if row != 1 {
      ms := ms + [Up];
    }
    if row != p.n {
      ms := ms + [Down];
    }
    if column != 1 {
      ms := ms + [Left];
    }
    if column != p.n {
      ms := ms + [Right];
    }
    assert ms == Selected(row != 1, row != p.n, column != 1, column != p.n);
    assert Directions(p.n, blank, Hold) == Selected(row != 1, row != p.n, column != 1, column != p.n);
    DirectionsMeaning(p.n, blank, Hold);
  }

  // ---------------------------------------------------------------- swaps and new_state

  /** The board after `swap_up`/`swap_down`/`swap_left`/`swap_right`: the blank found by
      `blank` traded with the cell in direction `m`; nothing else changes. */
  function Slid(p: Puzzle, m: Move): Puzzle
    requires 0 in p.flat && TargetInRange(|p.flat|, p.n, Blank(p), m)
  {
    var b := Blank(p);
    p.(flat := Swapped(p.flat, b, Target(p.n, b, m) as nat))
  }

  /** A puzzle held in a mutable array, for the operations the source performs in place. */
  class Board {
    var n: nat
    var flat: array<nat>
    var end: seq<nat>
    var blank: nat
    var was: Move

    /** The puzzle the board currently holds. */
    function Snapshot(): Puzzle
      reads this, flat
    {
      Puzzle(n, flat[..], end, blank, was)
    }

    /** `Clone::clone` into a fresh board. */
    constructor Clone(p: Puzzle)
      ensures fresh(flat)
      ensures Snapshot() == p
    {
      n, end, blank, was := p.n, p.end, p.blank, p.was;
      flat := new nat[|p.flat|](i requires 0 <= i < |p.flat| => p.flat[i]);
    }

    /** `swap_up`, `swap_down`, `swap_left` and `swap_right`: swap the first 0 of `flat`
        with its neighbour in direction `m`, in place. */
    method Swap(m: Move)
      requires m != Hold && 0 in flat[..]
      requires TargetInRange(flat.Length, n, Blank(Snapshot()), m)
      modifies flat
      ensures Snapshot() == Slid(old(Snapshot()), m)
    {
      var b := Blank(Snapshot());
      var t := Target(n, b, m) as nat;
      flat[b], flat[t] := flat[t], flat[b];
      assert flat[..] == Swapped(old(flat[..]), b, t);
    }
  }

  /** `Puzzle::new_state`: a clone of `p` with the blank slid in direction `m`. The
      clone differs from `p` only at the blank and the target, which are exchanged,
      so it holds the same labels. */
  method NewState(p: Puzzle, m: Move) returns (q: Puzzle)
    requires m != Hold && 0 in p.flat && TargetInRange(|p.flat|, p.n, Blank(p), m)
    ensures q == Slid(p, m)
    ensures var b, t := Blank(p), Target(p.n, Blank(p), m);
      |q.flat| == |p.flat| && q.flat[t] == 0 && q.flat[b] == p.flat[t] &&
      forall k :: 0 <= k < |p.flat| && k != b && k != t ==> q.flat[k] == p.flat[k]
    ensures multiset(q.flat) == multiset(p.flat)
    ensures q.n == p.n && q.end == p.end && q.blank == p.blank && q.was == p.was
  {
    var board := new Board.Clone(p);
    board.Swap(m);
    q := board.Snapshot();
  }

  // ---------------------------------------------------------------- neighbors

  /** Every direction the grid test accepts can be played without a panic. */
  predicate CanExpand(p: Puzzle)
  {
    p.n > 0 && 0 in p.flat &&
    forall m :: OnGrid(p.n, Blank(p), m) ==> TargetInRange(|p.flat|, p.n, Blank(p), m)
  }

  /** A square board with a blank can always be expanded. */
  lemma SquareCanExpand(p: Puzzle)
    requires p.n > 0 && |p.flat| == p.n * p.n && 0 in p.flat
    ensures CanExpand(p)
  {
    forall m | OnGrid(p.n, Blank(p), m)
      ensures TargetInRange(|p.flat|, p.n, Blank(p), m)
    {
      OnGridMeaning(p.n, Blank(p), m);
    }
  }

  /** The boards `neighbors` returns: one per listed direction, in that order. */
  function Successors(p: Puzzle): seq<Puzzle>
    requires CanExpand(p)
  {
    var ds := Directions(p.n, Blank(p), Hold);
    DirectionsMeaning(p.n, Blank(p), Hold);
    seq(|ds|, i requires 0 <= i < |ds| => Slid(p, ds[i]))
  }

  /** Every legal slide of `p` gives one of its successors. */
  lemma SuccessorsComplete(p: Puzzle, m: Move)
    requires CanExpand(p) && OnGrid(p.n, Blank(p), m)
    ensures Slid(p, m) in Successors(p)
  {
    var ds := Directions(p.n, Blank(p), Hold);
    DirectionsMeaning(p.n, Blank(p), Hold);
    var i :| 0 <= i < |ds| && ds[i] == m;
    assert Successors(p)[i] == Slid(p, m);
  }

  /** The successors are at most four, each reached by one legal slide, and each
      holds the same labels on the same grid as `p`. */
  lemma SuccessorsSound(p: Puzzle, q: Puzzle)
    requires CanExpand(p) && q in Successors(p)
    ensures |Successors(p)| <= 4
    ensures exists m :: OnGrid(p.n, Blank(p), m) && q == Slid(p, m)
    ensures multiset(q.flat) == multiset(p.flat) && q.n == p.n && q.end == p.end
  {
    var ds := Directions(p.n, Blank(p), Hold);
    DirectionsMeaning(p.n, Blank(p), Hold);
    var ss := Successors(p);
    var i :| 0 <= i < |ss| && ss[i] == q;
    assert ds[i] in ds;
    assert q == Slid(p, ds[i]);
  }

  /** `Puzzle::neighbors`: one new board per move of `moves`, in that order. */
  method Neighbors(p: Puzzle) returns (ns: seq<Puzzle>)
    requires CanExpand(p)
    ensures ns == Successors(p)
  {
    var moves := Moves(p);
    ghost var ss := Successors(p);
    ns := [];
    for i := 0 to |moves|
      invariant |ns| == i
      invariant forall k :: 0 <= k < i ==> ns[k] == ss[k]
    {
      assert moves[i] in moves;
      var neighbor := NewState(p, moves[i]);
      ns := ns + [neighbor];
    }
  }

  // ---------------------------------------------------------------- equality and order

  /** `PartialEq::eq`: two puzzles are equal when their tile arrays are. */
  predicate Same(p: Puzzle, q: Puzzle)
  {
    p.flat == q.flat
  }

  /** Lexicographic order on label sequences, a proper prefix coming first (`Vec::cmp`). */
  function LexCompare(a: seq<nat>, b: seq<nat>): Ordering
  {
    if a == [] && b == [] then Equal
    else if a == [] then Less
    else if b == [] then Greater
    else if a[0] < b[0] then Less
    else if a[0] > b[0] then Greater
    else LexCompare(a[1..], b[1..])
  }

  /** `Ord::cmp` on puzzles: the order of their tile arrays. */
  function Compare(p: Puzzle, q: Puzzle): Ordering
  {
    LexCompare(p.flat, q.flat)
  }

  function Flip(o: Ordering): Ordering
  {
    match o
    case Less => Greater
    case Equal => Equal
    case Greater => Less
  }

  /** The lexicographic order says `Equal` exactly on equal sequences. */
  lemma {:induction false} LexCompareEqual(a: seq<nat>, b: seq<nat>)
    ensures LexCompare(a, b) == Equal <==> a == b
  {
    if a != [] && b != [] && a[0] == b[0] {
      LexCompareEqual(a[1..], b[1..]);
      if a[1..] == b[1..] {
        assert a == [a[0]] + a[1..] && b == [b[0]] + b[1..];
      }
    }
  }

  /** Swapping the arguments flips the answer. */
  lemma {:induction false} LexCompareFlip(a: seq<nat>, b: seq<nat>)
    ensures LexCompare(b, a) == Flip(LexCompare(a, b))
  {
    if a != [] && b != [] && a[0] == b[0] {
      LexCompareFlip(a[1..], b[1..]);
    }
  }

  /** `Less` is transitive. */
  lemma {:induction false} LexCompareTransitive(a: seq<nat>, b: seq<nat>, c: seq<nat>)
    requires LexCompare(a, b) == Less && LexCompare(b, c) == Less
    ensures LexCompare(a, c) == Less
  {
    if a != [] && b != [] && c != [] && a[0] == b[0] && b[0] == c[0] {
      LexCompareTransitive(a[1..], b[1..], c[1..]);
    }
  }

  /** Equality and order see only the tile arrays: `Compare` says `Equal` exactly when
      `Same` holds, and two puzzles with the same arrays compare alike whatever their
      goal tables, cached blanks and last moves. */
  lemma CompareAgreesWithSame(p: Puzzle, q: Puzzle, p': Puzzle, q': Puzzle)
    requires p'.flat == p.flat && q'.flat == q.flat
    ensures Compare(p, q) == Equal <==> Same(p, q)
    ensures Compare(p', q') == Compare(p, q) && Same(p', q') == Same(p, q)
  {
    LexCompareEqual(p.flat, q.flat);
  }
}
