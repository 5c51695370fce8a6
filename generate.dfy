/**
  Board generators: the classic goal (tiles in reading order, blank last),
  its reverse, and the snail goal (tiles along a clockwise inward spiral,
  blank on the last cell of the spiral).

  The snail generator is proved against `SnailAt`, a closed form that
  gives the number written on each cell from the ring it lies on and its
  position along that ring.
*/
module Generate {
  import opened Seqs
  import opened Puzzles
  import opened Validity

  /** Every cell holds a number below the cell count, and no number twice:
      the cells hold `0 .. |s|-1` each exactly once. */
  predicate Arrangement(s: seq<nat>)
  {
    (forall i :: 0 <= i < |s| ==> s[i] < |s|) && Distinct(s)
  }

  // ---------------------------------------------------------------- classic

  /** `generate_classic`: pushes `1 .. n*n` one by one. */
  method GenerateClassic(n: nat) returns (flat: seq<nat>)
    ensures |flat| == n * n
    ensures forall i :: 0 <= i < |flat| ==> flat[i] == i + 1
  {
    flat := [];
    for i := 0 to n * n
      invariant |flat| == i
      invariant forall j :: 0 <= j < i ==> flat[j] == j + 1
    {
      flat := flat + [i + 1];
    }
  }

  /** The classic goal: `1 .. n*n-1` in reading order, then the blank. */
  function Classic(n: nat): seq<nat>
  {
    seq(n * n, i requires 0 <= i < n * n => if i == n * n - 1 then 0 else i + 1)
  }

  /** A board of `len` zeros (the unused `end` vector). */
  function Zeros(len: nat): seq<nat>
  {
    seq(len, _ => 0)
  }

  /** `new_classic`: the blank replaces the last tile; the source computes
      `flat.len() - 1`, which underflows on an empty board, hence `n > 0`. */
  method NewClassic(n: nat) returns (p: Puzzle)
    requires n > 0
    ensures p.n == n && p.flat == Classic(n) && p.end == Zeros(n * n)
    ensures p.blank == n * n - 1 && p.was == Hold
  {
    var flat := GenerateClassic(n);
    var end := Zeros(|flat|);
    var blank := |flat| - 1;
    flat := flat[blank := 0];
    p := Puzzle(n, flat, end, blank, Hold);
  }

  /** The classic goal is an arrangement of `0 .. n*n-1`. */
  lemma ClassicArrangement(n: nat)
    ensures Arrangement(Classic(n))
  {
    var s := Classic(n);
    forall i, j | 0 <= i < j < |s|
      ensures s[i] != s[j]
    {
      if j == n * n - 1 {
        assert s[i] == i + 1;
      }
    }
  }

  /** The blank of the classic goal is its last cell, and every other cell
      holds the number one above its index. */
  lemma ClassicBlank(n: nat)
    requires n > 0
    ensures IndexOf(Classic(n), 0) == n * n - 1
    ensures forall i :: 0 <= i < n * n - 1 ==> Classic(n)[i] == i + 1
  {
    var s := Classic(n);
    assert n * n >= 1 by { MulAtLeast(n, n); }
    assert s[n * n - 1] == 0;
    assert forall j :: 0 <= j < n * n - 1 ==> s[j] != 0;
  }

  /** `new_reverse`: the classic board reversed, blank looked up again. */
  method NewReverse(n: nat) returns (p: Puzzle)
    requires n > 0
    ensures p.n == n && p.flat == Reversed(Classic(n)) && p.end == Zeros(n * n)
    ensures p.blank == 0 && p.was == Hold
  {
    p := NewClassic(n);
    p := p.(flat := Reversed(p.flat));
    ReverseBlank(n);
    p := p.(blank := IndexOf(p.flat, 0));
  }

  /** The reversed classic board starts with the blank and counts down from
      `n*n - 1`. */
  lemma ReverseBlank(n: nat)
    requires n > 0
    ensures IndexOf(Reversed(Classic(n)), 0) == 0
    ensures forall i :: 0 < i < n * n ==> Reversed(Classic(n))[i] == n * n - i
  {
    ClassicBlank(n);
  }

  /** Reversing keeps a board an arrangement. */
  lemma ReversedArrangement(s: seq<nat>)
    requires Arrangement(s)
    ensures Arrangement(Reversed(s))
  {
    var r := Reversed(s);
    forall i, j | 0 <= i < j < |r|
      ensures r[i] != r[j]
    {
      assert r[i] == s[|s| - 1 - i] && r[j] == s[|s| - 1 - j];
    }
  }

  // ------------------------------------------------------------------ snail

  /** The ring of cell `(r, c)`: its distance to the nearest edge. */
  function Ring(n: nat, r: nat, c: nat): (d: nat)
    requires r < n && c < n
    ensures 2 * d < n
  {
    var top := if r <= c then r else c;
    var bottom := if n - 1 - r <= n - 1 - c then n - 1 - r else n - 1 - c;
    if top <= bottom then top else bottom
  }

  /** Number of cells on ring `d`: four sides of `m - 1` cells each, where
      `m = n - 2d` is the ring's side, and one cell for a centre ring. */
  function RingSize(n: nat, d: nat): nat
  {
    if n < 2 * d + 1 then 0
    else if n == 2 * d + 1 then 1
    else 4 * (n - 2 * d) - 4
  }

  /** Number of cells on the rings outside ring `d`. */
  function Before(n: nat, d: nat): nat
  {
    if d == 0 then 0 else Before(n, d - 1) + RingSize(n, d - 1)
  }

  /** Number written on cell `(r, c)` by the spiral: the rings outside come
      first, then this ring clockwise from its top-left corner (top row left
      to right, right column down, bottom row right to left, left column
      up). */
  function SnailAt(n: nat, r: nat, c: nat): nat
    requires r < n && c < n
  {
    var d := Ring(n, r, c);
    var m := n - 2 * d;
    if r == d then Before(n, d) + (c - d) + 1
    else if c == n - 1 - d then Before(n, d) + m + (r - d)
    else if r == n - 1 - d then Before(n, d) + 2 * m - 1 + (n - 1 - d - c)
    else Before(n, d) + 3 * m - 2 + (n - 1 - d - r)
  }

  /** Row and column of cell `k` of an `n` by `n` board. */
  lemma RowCol(n: nat, k: nat)
    requires k < n * n
    ensures n > 0 && k / n < n && k % n < n && k == k / n * n + k % n
  {
    assert n != 0;
  }

  /** Number the spiral writes on cell `k`, in reading order. */
  function SnailOf(n: nat, k: nat): nat
    requires k < n * n
  {
    RowCol(n, k);
    SnailAt(n, k / n, k % n)
  }

  /** The snail board before its blank is placed, in reading order. */
  function Snail(n: nat): seq<nat>
  {
    seq(n * n, k requires 0 <= k < n * n => SnailOf(n, k))
  }

  /** A cell's number lies in the range of its own ring. */
  lemma SnailInRing(n: nat, r: nat, c: nat)
    requires r < n && c < n
    ensures Before(n, Ring(n, r, c)) < SnailAt(n, r, c) <= Before(n, Ring(n, r, c) + 1)
  {
  }

  /** Outer rings come first: `Before` never decreases. */
  lemma {:induction false} BeforeGrows(n: nat, d: nat, e: nat)
    requires d <= e
    ensures Before(n, d) <= Before(n, e)
    decreases e - d
  {
    if d < e {
      BeforeGrows(n, d, e - 1);
    }
  }

  /** Two cells on the same ring with the same number are one cell: the
      four sides of a ring cover disjoint ranges of numbers. */
  lemma RingPosition(n: nat, r: nat, c: nat, r': nat, c': nat)
    requires r < n && c < n && r' < n && c' < n
    requires Ring(n, r, c) == Ring(n, r', c')
    requires SnailAt(n, r, c) == SnailAt(n, r', c')
    ensures r == r' && c == c'
  {
  }

  /** The rings' ranges of numbers do not overlap. */
  lemma RingsApart(n: nat, d: nat, d': nat, v: nat)
    requires Before(n, d) < v <= Before(n, d + 1)
    requires Before(n, d') < v <= Before(n, d' + 1)
    ensures d == d'
  {
    if d < d' {
      BeforeGrows(n, d + 1, d');
    } else if d' < d {
      BeforeGrows(n, d' + 1, d);
    }
  }

  /** Cells with the same number lie on the same ring. */
  lemma SameRing(n: nat, r: nat, c: nat, r': nat, c': nat)
    requires r < n && c < n && r' < n && c' < n
    requires SnailAt(n, r, c) == SnailAt(n, r', c')
    ensures Ring(n, r, c) == Ring(n, r', c')
  {
    SnailInRing(n, r, c);
    SnailInRing(n, r', c');
    RingsApart(n, Ring(n, r, c), Ring(n, r', c'), SnailAt(n, r, c));
  }

  /** No two cells get the same number. */
  lemma SnailInjective(n: nat, r: nat, c: nat, r': nat, c': nat)
    requires r < n && c < n && r' < n && c' < n
    requires SnailAt(n, r, c) == SnailAt(n, r', c')
    ensures r == r' && c == c'
  {
    SameRing(n, r, c, r', c');
    RingPosition(n, r, c, r', c');
  }

  /** The board after the numbers below `nb` have been written: the cells
      the spiral reaches first hold their numbers, the others still 0. */
  function Shown(n: nat, nb: nat): seq<nat>
  {
    seq(n * n, k requires 0 <= k < n * n => if SnailOf(n, k) < nb then SnailOf(n, k) else 0)
  }

  /** Only cell `r * n + c` carries the number of cell `(r, c)`. */
  lemma OnlyCell(n: nat, r: nat, c: nat, k: nat)
    requires r < n && c < n && k < n * n && k != r * n + c
    ensures SnailOf(n, k) != SnailAt(n, r, c)
  {
    RowCol(n, k);
    if SnailOf(n, k) == SnailAt(n, r, c) {
      SnailInjective(n, k / n, k % n, r, c);
    }
  }

  /** Writing `nb` on the cell whose number is `nb` shows one more number. */
  lemma WriteStep(n: nat, nb: nat, r: nat, c: nat)
    requires r < n && c < n && SnailAt(n, r, c) == nb
    ensures 0 <= r * n + c < n * n
    ensures Shown(n, nb)[r * n + c := nb] == Shown(n, nb + 1)
  {
    CellBelowSquare(n, r, c);
    DivModUnique(r * n + c, n, r, c);
    forall k | 0 <= k < n * n && k != r * n + c
      ensures SnailOf(n, k) != nb
    {
      OnlyCell(n, r, c, k);
    }
  }

  /** Every number lies on a ring outside ring `d` once `d` reaches the centre. */
  lemma BeforeCentre(n: nat, d: nat, k: nat)
    requires n <= 2 * d && k < n * n
    ensures SnailOf(n, k) <= Before(n, d)
  {
    RowCol(n, k);
    var r, c := k / n, k % n;
    SnailInRing(n, r, c);
    BeforeGrows(n, Ring(n, r, c) + 1, d);
  }

  /** Once every ring has been walked, the whole spiral is shown. */
  lemma AllShown(n: nat, d: nat)
    requires n <= 2 * d
    ensures Shown(n, Before(n, d) + 1) == Snail(n)
  {
    forall k | 0 <= k < n * n
      ensures SnailOf(n, k) <= Before(n, d)
    {
      BeforeCentre(n, d, k);
    }
  }

  /** The four sides of ring `d`, in the order the spiral visits them. */
  lemma TopSide(n: nat, d: nat, i: nat)
    requires d <= i < n - d
    ensures SnailAt(n, d, i) == Before(n, d) + 1 + (i - d)
  {
  }

  lemma RightSide(n: nat, d: nat, i: nat)
    requires d < i < n - d
    ensures SnailAt(n, i, n - 1 - d) == Before(n, d) + (n - 2 * d) + (i - d)
  {
  }

  lemma BottomSide(n: nat, d: nat, i: nat)
    requires d <= i < n - 1 - d
    ensures SnailAt(n, n - 1 - d, i) == Before(n, d) + 2 * (n - 2 * d) - 1 + (n - 1 - d - i)
  {
  }

  lemma LeftSide(n: nat, d: nat, i: nat)
    requires d < i < n - 1 - d
    ensures SnailAt(n, i, d) == Before(n, d) + 3 * (n - 2 * d) - 2 + (n - 1 - d - i)
  {
  }

  /** Cell `(row, col)` lies on ring `d` and the spiral gives it number `nb`,
      stated side by side. */
  predicate Due(n: nat, d: nat, row: nat, col: nat, nb: nat)
  {
    var m := n - 2 * d;
    2 * d < n &&
    ((row == d && d <= col < n - d && nb == Before(n, d) + 1 + (col - d)) ||
     (col == n - 1 - d && d < row < n - d && nb == Before(n, d) + m + (row - d)) ||
     (row == n - 1 - d && d <= col < n - 1 - d && nb == Before(n, d) + 2 * m - 1 + (n - 1 - d - col)) ||
     (col == d && d < row < n - 1 - d && nb == Before(n, d) + 3 * m - 2 + (n - 1 - d - row)))
  }

  lemma DueSnail(n: nat, d: nat, row: nat, col: nat, nb: nat)
    requires Due(n, d, row, col, nb)
    ensures row < n && col < n && SnailAt(n, row, col) == nb
  {
    if row == d && d <= col < n - d {
      TopSide(n, d, col);
    } else if col == n - 1 - d && d < row < n - d {
      RightSide(n, d, row);
    } else if row == n - 1 - d && d <= col < n - 1 - d {
      BottomSide(n, d, col);
    } else {
      LeftSide(n, d, row);
    }
  }

  /** `flat[row * n + col] = nb`, on the cell whose spiral number is `nb`. */
  method Put(a: array<nat>, n: nat, ghost d: nat, row: nat, col: nat, nb: nat)
    requires Due(n, d, row, col, nb)
    requires a[..] == Shown(n, nb)
    modifies a
    ensures a[..] == Shown(n, nb + 1)
  {
    DueSnail(n, d, row, col, nb);
    WriteStep(n, nb, row, col);
    a[row * n + col] := nb;
  }

  /** One turn of the `while` loop of `generate_snail`: writes ring `d`
      (the top row left to right, the right column down, the bottom row
      right to left, the left column up) and shrinks the four bounds. */
  method SnailRound(a: array<nat>, n: nat, startRow0: nat, startCol0: nat, endRow0: nat, endCol0: nat, nb0: nat)
    returns (startRow: nat, startCol: nat, endRow: nat, endCol: nat, nb: nat)
    requires startCol0 == startRow0 < endRow0 == endCol0 && endRow0 + startRow0 == n
    requires nb0 == Before(n, startRow0) + 1 && a[..] == Shown(n, nb0)
    modifies a
    ensures startRow == startCol == startRow0 + 1 && endRow == endCol == endRow0 - 1
    ensures nb == Before(n, startRow) + 1 && a[..] == Shown(n, nb)
  {
    startRow, startCol, endRow, endCol, nb := startRow0, startCol0, endRow0, endCol0, nb0;
    ghost var d, m := startRow, n - 2 * startRow;
    for i := startCol to endCol
      invariant nb == Before(n, d) + 1 + (i - d)
      invariant a[..] == Shown(n, nb)
    {
      Put(a, n, d, startRow, i, nb);
      nb := nb + 1;
    }
    startRow := startRow + 1;
    for i := startRow to endRow
      invariant nb == Before(n, d) + m + (i - d)
      invariant a[..] == Shown(n, nb)
    {
      Put(a, n, d, i, endCol - 1, nb);
      nb := nb + 1;
    }
    endCol := endCol - 1;
    for i := endCol downto startCol
      invariant nb == Before(n, d) + 2 * m + (n - 1 - d - i)
      invariant a[..] == Shown(n, nb)
    {
      Put(a, n, d, endRow - 1, i, nb);
      nb := nb + 1;
    }
    endRow := endRow - 1;
    // `(start_row..end_row).rev()`: empty once the rows have crossed
    var i := endRow;
    while startRow < i
      invariant i <= endRow && (startRow <= i || i == endRow)
      invariant nb == Before(n, d) + 3 * m - 1 + (n - 1 - d - i)
      invariant a[..] == Shown(n, nb)
    {
      i := i - 1;
      Put(a, n, d, i, startCol, nb);
      nb := nb + 1;
    }
    startCol := startCol + 1;
  }

  /** `generate_snail`: walks the rings from the outside in until the four
      bounds meet. */
  method GenerateSnail(n: nat) returns (flat: seq<nat>)
    ensures flat == Snail(n)
  {
    var a := new nat[n * n](_ => 0);
    var startRow: nat, startCol: nat, endRow: nat, endCol: nat := 0, 0, n, n;
    var nb := 1;
    assert a[..] == Shown(n, nb);
    while startRow < endRow && startCol < endCol
      invariant startCol == startRow && endCol == endRow
      invariant endRow + startRow == n && 2 * startRow <= n + 1
      invariant nb == Before(n, startRow) + 1
      invariant a[..] == Shown(n, nb)
      decreases endRow - startRow
    {
      startRow, startCol, endRow, endCol, nb := SnailRound(a, n, startRow, startCol, endRow, endCol, nb);
    }
    AllShown(n, startRow);
    flat := a[..];
  }

  /** Cell holding the last number of the spiral: the middle cell of an odd
      board, the cell left of and below the middle of an even one. */
  function Centre(n: nat): (k: nat)
    requires n > 0
    ensures k < n * n
  {
    CellBelowSquare(n, n / 2, (n - 1) / 2);
    (n / 2) * n + (n - 1) / 2
  }

  /** The rings outside ring `d` hold `n*n - (n - 2d)^2` cells. */
  lemma {:induction false} BeforeClosed(n: nat, d: nat)
    requires 2 * d <= n
    ensures Before(n, d) == n * n - (n - 2 * d) * (n - 2 * d)
  {
    if d > 0 {
      BeforeClosed(n, d - 1);
      var m := n - 2 * (d - 1);
      assert (m - 2) * (m - 2) == m * m - 4 * m + 4;
    }
  }

  /** All `n*n` cells lie on the rings outside ring `d` once `2d >= n`. */
  lemma BeforeAll(n: nat, d: nat)
    requires n <= 2 * d
    ensures Before(n, d) == n * n
    decreases d
  {
    if d == 0 {
    } else if n <= 2 * (d - 1) {
      BeforeAll(n, d - 1);
    } else {
      BeforeClosed(n, d - 1);
    }
  }

  /** The spiral ends in the middle of an odd board ... */
  lemma CentreOdd(h: nat)
    ensures SnailAt(2 * h + 1, h, h) == (2 * h + 1) * (2 * h + 1)
  {
    BeforeClosed(2 * h + 1, h);
  }

  /** ... and left of and below the middle of an even one. */
  lemma CentreEven(h: nat)
    requires h > 0
    ensures SnailAt(2 * h, h, h - 1) == 2 * h * (2 * h)
  {
    BeforeClosed(2 * h, h - 1);
  }

  /** The spiral ends on `Centre(n)` with the number `n*n`. */
  lemma CentreLast(n: nat)
    requires n > 0
    ensures SnailOf(n, Centre(n)) == n * n
  {
    var r, c := n / 2, (n - 1) / 2;
    DivModUnique(Centre(n), n, r, c);
    if n % 2 == 1 {
      CentreOdd(r);
    } else {
      CentreEven(r);
    }
  }

  /** Every cell gets a number in `1 .. n*n`. */
  lemma SnailRange(n: nat, k: nat)
    requires k < n * n
    ensures 1 <= SnailOf(n, k) <= n * n
  {
    RowCol(n, k);
    SnailInRing(n, k / n, k % n);
    BeforeGrows(n, Ring(n, k / n, k % n) + 1, (n + 1) / 2);
    BeforeAll(n, (n + 1) / 2);
  }

  /** The spiral numbers the cells `1 .. n*n`, each number once. */
  lemma SnailNumbers(n: nat)
    ensures forall k :: 0 <= k < n * n ==> 1 <= Snail(n)[k] <= n * n
    ensures Distinct(Snail(n))
  {
    var s := Snail(n);
    forall k | 0 <= k < n * n
      ensures 1 <= s[k] <= n * n
    {
      SnailRange(n, k);
    }
    forall i, j | 0 <= i < j < n * n
      ensures s[i] != s[j]
    {
      SnailApart(n, i, j);
    }
  }

  /** Distinct cells get distinct numbers, in reading order. */
  lemma SnailApart(n: nat, i: nat, j: nat)
    requires i < n * n && j < n * n && i != j
    ensures SnailOf(n, i) != SnailOf(n, j)
  {
    RowCol(n, j);
    OnlyCell(n, j / n, j % n, i);
  }

  /** The last number sits on `Centre(n)` and nowhere else. */
  lemma SnailCentre(n: nat)
    requires n > 0
    ensures IndexOf(Snail(n), n * n) == Centre(n)
  {
    CentreLast(n);
    var s, c := Snail(n), Centre(n);
    assert s[c] == n * n;
    var k := IndexOf(s, n * n);
    if k != c {
      SnailApart(n, k, c);
    }
  }

  /** `new_snail`: the blank replaces the number `n*n`. The source looks
      the number up with a search that fails on an empty board, hence
      `n > 0`. */
  method NewSnail(n: nat) returns (p: Puzzle)
    requires n > 0
    ensures p.n == n && p.flat == Snail(n)[Centre(n) := 0] && p.end == Zeros(n * n)
    ensures p.blank == Centre(n) && p.was == Hold
  {
    var flat := GenerateSnail(n);
    var end := Zeros(|flat|);
    SnailCentre(n);
    var blank := IndexOf(flat, n * n);
    flat := flat[blank := 0];
    p := Puzzle(n, flat, end, blank, Hold);
  }

  /** On the snail goal every cell but the centre keeps a number below
      `n*n`, and the centre holds the blank. */
  lemma SnailBoardCell(n: nat, k: nat)
    requires n > 0 && k < n * n
    ensures Snail(n)[Centre(n) := 0][k] < n * n
    ensures Snail(n)[Centre(n) := 0][k] == 0 <==> k == Centre(n)
  {
    SnailNumbers(n);
    if k != Centre(n) {
      CentreLast(n);
      SnailApart(n, k, Centre(n));
    }
  }

  /** The snail goal is an arrangement of `0 .. n*n-1`. */
  lemma SnailBoard(n: nat)
    requires n > 0
    ensures Arrangement(Snail(n)[Centre(n) := 0])
  {
    SnailNumbers(n);
    var s := Snail(n)[Centre(n) := 0];
    forall k | 0 <= k < n * n
      ensures s[k] < n * n && (s[k] == 0 <==> k == Centre(n))
    {
      SnailBoardCell(n, k);
    }
  }

  /** The blank of the snail goal is found on the centre cell. */
  lemma SnailBlank(n: nat)
    requires n > 0
    ensures IndexOf(Snail(n)[Centre(n) := 0], 0) == Centre(n)
  {
    var s := Snail(n)[Centre(n) := 0];
    assert s[Centre(n)] == 0;
    var k := IndexOf(s, 0);
    SnailBoardCell(n, k);
  }

  /** Cell `(r, c)` of the snail board sits at `r * n + c` of the flat board. */
  lemma SnailCell(n: nat, r: nat, c: nat)
    requires r < n && c < n
    ensures r * n + c < n * n && Snail(n)[r * n + c] == SnailAt(n, r, c)
  {
    CellBelowSquare(n, r, c);
    DivModUnique(r * n + c, n, r, c);
  }

  /** The snail board is fixed by the number of each cell. */
  lemma SnailIs(n: nat, t: seq<nat>)
    requires |t| == n * n
    requires forall r, c :: 0 <= r < n && 0 <= c < n ==> r * n + c < n * n && SnailAt(n, r, c) == t[r * n + c]
    ensures Snail(n) == t
  {
    forall k | 0 <= k < n * n
      ensures Snail(n)[k] == t[k]
    {
      RowCol(n, k);
    }
  }

  /** The snail goal of the source's test of size 3, as a flat board (the
      size is a parameter equal to 3 rather than the constant, so that the
      board is not unfolded as a constant expression). */
  lemma SnailGoalThree(n: nat)
    requires n == 3
    ensures Centre(n) == 4 && Snail(n)[Centre(n) := 0] == [1, 2, 3, 8, 0, 4, 7, 6, 5]
  {
    SnailIs(n, [1, 2, 3, 8, 9, 4, 7, 6, 5]);
  }

  /** The snail goal of the source's test of size 4, row by row (with
      `SnailCell`, cell `(r, c)` is entry `r * 4 + c` of the flat board); the
      blank replaces the number 16 on cell 9. */
  lemma SnailGoalFour()
    ensures Centre(4) == 9
    ensures SnailAt(4, 0, 0) == 1 && SnailAt(4, 0, 1) == 2 && SnailAt(4, 0, 2) == 3 && SnailAt(4, 0, 3) == 4 &&
      SnailAt(4, 1, 0) == 12 && SnailAt(4, 1, 1) == 13 && SnailAt(4, 1, 2) == 14 && SnailAt(4, 1, 3) == 5 &&
      SnailAt(4, 2, 0) == 11 && SnailAt(4, 2, 1) == 16 && SnailAt(4, 2, 2) == 15 && SnailAt(4, 2, 3) == 6 &&
      SnailAt(4, 3, 0) == 10 && SnailAt(4, 3, 1) == 9 && SnailAt(4, 3, 2) == 8 && SnailAt(4, 3, 3) == 7
  {
  }

  /** The snail goal of the source's test of size 5, row by row (with
      `SnailCell`, cell `(r, c)` is entry `r * 5 + c` of the flat board); the
      blank replaces the number 25 on cell 12. */
  lemma SnailGoalFive()
    ensures Centre(5) == 12
    ensures SnailAt(5, 0, 0) == 1 && SnailAt(5, 0, 1) == 2 && SnailAt(5, 0, 2) == 3 && SnailAt(5, 0, 3) == 4 && SnailAt(5, 0, 4) == 5 &&
      SnailAt(5, 1, 0) == 16 && SnailAt(5, 1, 1) == 17 && SnailAt(5, 1, 2) == 18 && SnailAt(5, 1, 3) == 19 && SnailAt(5, 1, 4) == 6 &&
      SnailAt(5, 2, 0) == 15 && SnailAt(5, 2, 1) == 24 && SnailAt(5, 2, 2) == 25 && SnailAt(5, 2, 3) == 20 && SnailAt(5, 2, 4) == 7 &&
      SnailAt(5, 3, 0) == 14 && SnailAt(5, 3, 1) == 23 && SnailAt(5, 3, 2) == 22 && SnailAt(5, 3, 3) == 21 && SnailAt(5, 3, 4) == 8 &&
      SnailAt(5, 4, 0) == 13 && SnailAt(5, 4, 1) == 12 && SnailAt(5, 4, 2) == 11 && SnailAt(5, 4, 3) == 10 && SnailAt(5, 4, 4) == 9
  {
  }
}
