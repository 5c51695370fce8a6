/**
  The solvability test of `src/validity.rs`: the inversions among the tiles (the
  blank `0` ignored), the row of the blank counted from the bottom, and the parity
  rule that combines them. The rule is justified here by proving that it gives the
  same answer before and after every legal slide of the blank.
*/
module Validity {
  import opened Seqs
  import opened Puzzles
  import opened Inversions

  // ---------------------------------------------------------------- get_inversion_count

  /** The tiles of `t` below `v`, counting nothing when `v` is the blank. */
  function TilesBelow(v: nat, t: seq<nat>): nat
  {
    if t == [] then 0
    else TilesBelow(v, t[..|t| - 1]) + (if t[|t| - 1] != 0 && v != 0 && v > t[|t| - 1] then 1 else 0)
  }

  /** The pairs `i < j` of tiles, neither the blank, with `s[i] > s[j]`. */
  function TileInversions(s: seq<nat>): nat
  {
    if s == [] then 0 else TilesBelow(s[0], s[1..]) + TileInversions(s[1..])
  }

  /** `get_inversion_count`: the double loop over `i < j`. The source computes
      `arr.len() - 1` first, which underflows on an empty input. */
  method InversionCount(arr: seq<nat>) returns (inversions: nat)
    requires |arr| > 0
    ensures inversions == TileInversions(arr)
  {
    inversions := 0;
    for i := 0 to |arr| - 1
      invariant inversions + TileInversions(arr[i..]) == TileInversions(arr)
    {
      ghost var before := inversions;
      for j := i + 1 to |arr|
        invariant inversions == before + TilesBelow(arr[i], arr[i + 1..j])
      {
        assert arr[i + 1..j + 1][..j - i - 1] == arr[i + 1..j];
        if arr[j] != 0 && arr[i] != 0 && arr[i] > arr[j] {
          inversions := inversions + 1;
        }
      }
      assert arr[i..][1..] == arr[i + 1..] == arr[i + 1..|arr|];
    }
    assert arr[|arr| - 1..][1..] == [];
  }

  lemma {:induction false} FilterConcat(a: seq<nat>, b: seq<nat>)
    ensures Filter(a + b, 0) == Filter(a, 0) + Filter(b, 0)
    decreases |a|
  {
    if a != [] {
      assert (a + b)[1..] == a[1..] + b;
      FilterConcat(a[1..], b);
    } else {
      assert a + b == b;
    }
  }

  lemma {:induction false} TilesBelowFilter(v: nat, t: seq<nat>)
    ensures TilesBelow(v, t) == if v == 0 then 0 else Smaller(v, Filter(t, 0))
    decreases |t|
  {
    if t != [] {
      var front, y := t[..|t| - 1], t[|t| - 1];
      TilesBelowFilter(v, front);
      assert t == front + [y];
      FilterConcat(front, [y]);
      assert Filter([y], 0) == if y == 0 then [] else [y] by {
        assert [y][1..] == [];
      }
      SmallerConcat(v, Filter(front, 0), Filter([y], 0));
      if y != 0 {
        assert [y][..0] == [];
      }
    }
  }

  /** The count of `get_inversion_count` is the inversion count of the tiles taken
      in board order with the blank left out. */
  lemma {:induction false} TileInversionsFilter(s: seq<nat>)
    ensures TileInversions(s) == Pairs(Filter(s, 0))
    decreases |s|
  {
    if s != [] {
      TileInversionsFilter(s[1..]);
      TilesBelowFilter(s[0], s[1..]);
      var rest := Filter(s[1..], 0);
      if s[0] != 0 {
        assert ([s[0]] + rest)[1..] == rest;
      }
    }
  }

  // ---------------------------------------------------------------- a slide of the blank

  /** No label occurs twice. */
  predicate Distinct(s: seq<nat>)
  {
    forall i, j :: 0 <= i < j < |s| ==> s[i] != s[j]
  }

  lemma {:induction false} SmallerBigger(x: nat, m: seq<nat>)
    requires x !in m
    ensures Smaller(x, m) + Bigger(x, m) == |m|
    decreases |m|
  {
    if m != [] {
      var front, y := m[..|m| - 1], m[|m| - 1];
      assert m == front + [y];
      assert y in m;
      assert forall z :: z in front ==> z in m;
      SmallerBigger(x, front);
      BiggerConcat(x, front, [y]);
      assert [y][1..] == [];
    }
  }

  lemma PairsMovedLast(m: seq<nat>, x: nat)
    ensures Pairs(m + [x]) == Pairs(m) + Bigger(x, m)
  {
    PairsConcat(m, [x]);
    CrossAppend(m, [], x);
    CrossZero(m, []);
    assert [] + [x] == [x];
    assert [x][1..] == [];
  }

  lemma PairsMovedFirst(m: seq<nat>, x: nat)
    ensures Pairs([x] + m) == Smaller(x, m) + Pairs(m)
  {
    assert ([x] + m)[1..] == m;
  }

  /** The inversions of three consecutive parts. */
  lemma PairsThree(a: seq<nat>, c: seq<nat>, b: seq<nat>)
    ensures Pairs(a + c + b) == Pairs(a) + Pairs(c) + Pairs(b) + Cross(a, c) + Cross(a, b) + Cross(c, b)
  {
    PairsConcat(a + c, b);
    PairsConcat(a, c);
    CrossConcatLeft(a, c, b);
  }

  /** Moving a tile `x` across the run `m` changes the inversion count by
      `|m| - 2 * (entries of m above x)`: the parity of the sum of the two counts is
      the parity of `|m|`. */
  lemma PairsAcross(a: seq<nat>, m: seq<nat>, b: seq<nat>, x: nat) returns (k: nat)
    requires x !in m
    ensures Pairs(a + (m + [x]) + b) + Pairs(a + ([x] + m) + b) == 2 * k + |m|
  {
    var mx, xm := m + [x], [x] + m;
    assert multiset(mx) == multiset(xm);
    PairsThree(a, mx, b);
    PairsThree(a, xm, b);
    CrossPermutation(a, a, mx, xm);
    CrossPermutation(mx, xm, b, b);
    PairsMovedLast(m, x);
    PairsMovedFirst(m, x);
    SmallerBigger(x, m);
    k := Pairs(a) + Pairs(m) + Pairs(b) + Cross(a, mx) + Cross(a, b) + Cross(mx, b);
  }

  /** A swap of positions `i < j` split around the two positions. */
  lemma SwapSplit(s: seq<nat>, i: nat, j: nat)
    requires i < j < |s|
    ensures s == s[..i] + ([s[i]] + s[i + 1..j] + [s[j]]) + s[j + 1..]
    ensures Swapped(s, i, j) == s[..i] + ([s[j]] + s[i + 1..j] + [s[i]]) + s[j + 1..]
  {
  }

  lemma FilterOne(x: nat)
    ensures Filter([x], 0) == if x == 0 then [] else [x]
  {
    assert [x][1..] == [];
  }

  /** The tiles of `a + [0] + m + [x] + b`, with no blank in `m`. */
  lemma FilterBlankFirst(a: seq<nat>, m: seq<nat>, b: seq<nat>, x: nat)
    requires x != 0 && 0 !in m
    ensures Filter(a + ([0] + m + [x]) + b, 0) == Filter(a, 0) + (m + [x]) + Filter(b, 0)
  {
    FilterAbsent(m, 0);
    FilterOne(0);
    FilterOne(x);
    FilterConcat(a + ([0] + m + [x]), b);
    FilterConcat(a, [0] + m + [x]);
    FilterConcat([0] + m, [x]);
    FilterConcat([0], m);
  }

  /** The tiles of `a + [x] + m + [0] + b`, with no blank in `m`. */
  lemma FilterBlankLast(a: seq<nat>, m: seq<nat>, b: seq<nat>, x: nat)
    requires x != 0 && 0 !in m
    ensures Filter(a + ([x] + m + [0]) + b, 0) == Filter(a, 0) + ([x] + m) + Filter(b, 0)
  {
    FilterAbsent(m, 0);
    FilterOne(0);
    FilterOne(x);
    FilterConcat(a + ([x] + m + [0]), b);
    FilterConcat(a, [x] + m + [0]);
    FilterConcat([x] + m, [0]);
    FilterConcat([x], m);
  }

  /** The blank and a tile trading places across a run `m` of other tiles. */
  lemma AcrossParity(s: seq<nat>, t: seq<nat>, a: seq<nat>, m: seq<nat>, b: seq<nat>, y: nat, z: nat)
      returns (k: nat)
    requires (y == 0 || z == 0) && y != z && y !in m && z !in m
    requires s == a + ([y] + m + [z]) + b && t == a + ([z] + m + [y]) + b
    ensures TileInversions(s) + TileInversions(t) == 2 * k + |m|
  {
    var x := if y == 0 then z else y;
    var fa, fb := Filter(a, 0), Filter(b, 0);
    FilterBlankFirst(a, m, b, x);
    FilterBlankLast(a, m, b, x);
    TileInversionsFilter(s);
    TileInversionsFilter(t);
    k := PairsAcross(fa, m, fb, x);
    var last, first := Pairs(fa + (m + [x]) + fb), Pairs(fa + ([x] + m) + fb);
    if y == 0 {
      assert TileInversions(s) == last && TileInversions(t) == first;
    } else {
      assert TileInversions(s) == first && TileInversions(t) == last;
    }
  }

  /** Neither end of a swap occurs between the two positions. */
  lemma DistinctBetween(s: seq<nat>, i: nat, j: nat)
    requires i < j < |s| && Distinct(s)
    ensures s[i] != s[j] && s[i] !in s[i + 1..j] && s[j] !in s[i + 1..j]
  {
    var m := s[i + 1..j];
    forall k | 0 <= k < |m|
      ensures m[k] != s[i] && m[k] != s[j]
    {
      assert m[k] == s[i + 1 + k];
    }
  }

  /** The parts of a board around the two positions of a swap. */
  lemma SplitAt(s: seq<nat>, i: nat, j: nat) returns (a: seq<nat>, m: seq<nat>, b: seq<nat>)
    requires i < j < |s| && s[i] !in s[i + 1..j] && s[j] !in s[i + 1..j]
    ensures s == a + ([s[i]] + m + [s[j]]) + b
    ensures Swapped(s, i, j) == a + ([s[j]] + m + [s[i]]) + b
    ensures |m| == j - i - 1 && s[i] !in m && s[j] !in m
  {
    a, m, b := s[..i], s[i + 1..j], s[j + 1..];
    SwapSplit(s, i, j);
  }

  /** Swapping the blank with a tile `j - i` places away changes the parity of the
      tile inversions exactly when `j - i - 1`, the number of tiles it passes, is
      odd. */
  lemma SwapParity(s: seq<nat>, i: nat, j: nat) returns (k: nat)
    requires i < j < |s| && Distinct(s) && (s[i] == 0 || s[j] == 0)
    ensures TileInversions(s) + TileInversions(Swapped(s, i, j)) == 2 * k + (j - i - 1)
  {
    DistinctBetween(s, i, j);
    k := SwapParityApart(s, i, j);
  }

  lemma SwapParityApart(s: seq<nat>, i: nat, j: nat) returns (k: nat)
    requires i < j < |s| && s[i] != s[j] && (s[i] == 0 || s[j] == 0)
    requires s[i] !in s[i + 1..j] && s[j] !in s[i + 1..j]
    ensures TileInversions(s) + TileInversions(Swapped(s, i, j)) == 2 * k + (j - i - 1)
  {
    var a, m, b := SplitAt(s, i, j);
    k := AcrossParity(s, Swapped(s, i, j), a, m, b, s[i], s[j]);
  }

  // ---------------------------------------------------------------- get_blank_index

  /** `get_blank_index`: the first index holding the blank (the source panics when
      there is none). */
  method BlankIndex(arr: seq<nat>) returns (i: nat)
    requires 0 in arr
    ensures i < |arr| && arr[i] == 0
    ensures forall k :: 0 <= k < i ==> arr[k] != 0
    ensures i == IndexOf(arr, 0)
  {
    i := 0;
    while i < |arr|
      invariant i <= IndexOf(arr, 0)
    {
      if arr[i] == 0 {
        return;
      }
      i := i + 1;
    }
  }

  /** On a board with distinct labels the blank found is the only one. */
  lemma DistinctBlank(s: seq<nat>, k: nat)
    requires Distinct(s) && k < |s| && s[k] == 0
    ensures IndexOf(s, 0) == k
  {
  }

  // ---------------------------------------------------------------- get_blank_row_from_bottom

  /** The row of the blank counted from the bottom, the bottom row being 1. */
  function BlankRow(flat: seq<nat>, msize: nat): int
    requires msize > 0
  {
    msize - IndexOf(flat, 0) / msize
  }

  /** On a square board the blank row lies in `1..msize`, so the source's `usize`
      subtraction does not underflow. */
  lemma BlankRowRange(flat: seq<nat>, msize: nat)
    requires msize > 0 && 0 in flat && |flat| == msize * msize
    ensures IndexOf(flat, 0) / msize < msize
    ensures 1 <= BlankRow(flat, msize) <= msize
  {
    RowBelowSide(msize, IndexOf(flat, 0));
  }

  /** `get_blank_row_from_bottom`. It panics, as the source does, when there is no
      blank or the blank lies past the `msize`-th row. */
  method BlankRowFromBottom(flat: seq<nat>, msize: nat) returns (row: nat)
    requires msize > 0 && 0 in flat && IndexOf(flat, 0) / msize <= msize
    ensures row == BlankRow(flat, msize)
  {
    var b := BlankIndex(flat);
    row := msize - b / msize;
  }

  // ---------------------------------------------------------------- is_solvable

  predicate IsEven(n: int)
  {
    n % 2 == 0
  }

  /** The parity rule on an inversion count and a blank row. */
  predicate Rule(n: nat, inversions: int, row: int)
  {
    if !IsEven(n) then IsEven(inversions) else IsEven(inversions) == !IsEven(row)
  }

  /** The parity rule: on an odd width the tile inversions are even; on an even
      width their parity is the opposite of the blank row's. */
  predicate Solvable(flat: seq<nat>, msize: nat)
    requires msize > 0
  {
    Rule(msize, TileInversions(flat), BlankRow(flat, msize))
  }

  /** `is_solvable`. The inversion count needs a non-empty board and, on an even
      width, the blank row needs a blank within the board's rows. */
  method IsSolvable(flat: seq<nat>, msize: nat) returns (ok: bool)
    requires |flat| > 0 && msize > 0
    requires IsEven(msize) ==> 0 in flat && IndexOf(flat, 0) / msize <= msize
    ensures ok == Solvable(flat, msize)
  {
    var inversions := InversionCount(flat);
    if !IsEven(msize) {
      ok := IsEven(inversions);
    } else {
      var blankRow := BlankRowFromBottom(flat, msize);
      ok := IsEven(inversions) == !IsEven(blankRow);
    }
  }

  /** The row of the cell the blank slides to: one up or down for a vertical
      slide, the same for a horizontal one. */
  lemma TargetRow(n: nat, b: nat, m: Move)
    requires n > 0 && m != Hold && OnGrid(n, b, m)
    ensures 0 <= Target(n, b, m)
    ensures m == Up ==> Target(n, b, m) / n == b / n - 1
    ensures m == Down ==> Target(n, b, m) / n == b / n + 1
    ensures m == Left || m == Right ==> Target(n, b, m) / n == b / n
  {
    var q, r := b / n, b % n;
    DivModUnique(b, n, q, r);
    match m
    case Up => DivModUnique(b - n, n, q - 1, r);
    case Down => DivModUnique(b + n, n, q + 1, r);
    case Left => DivModUnique(b - 1, n, q, r - 1);
    case Right => DivModUnique(b + 1, n, q, r + 1);
  }

  /** The distance between the blank and the cell it slides to. */
  lemma TargetDistance(n: nat, b: nat, m: Move)
    requires m != Hold
    ensures m == Up ==> b - Target(n, b, m) == n
    ensures m == Down ==> Target(n, b, m) - b == n
    ensures m == Left ==> b - Target(n, b, m) == 1
    ensures m == Right ==> Target(n, b, m) - b == 1
  {
  }

  /** Two boards whose inversion counts differ by `d` modulo 2, with `d` the blank's
      passes: none on a horizontal slide, `n - 1` on a vertical one, which also moves
      the blank one row. */
  lemma RuleKept(n: nat, inv: int, inv': int, row: int, row': int, k: int, d: int)
    requires inv + inv' == 2 * k + d
    requires (d == 0 && row' == row) || (d == n - 1 && (row' == row + 1 || row' == row - 1))
    ensures Rule(n, inv', row') == Rule(n, inv, row)
  {
  }

  /** Swapping two labels of a board with distinct labels keeps them distinct. */
  lemma SwappedDistinct(s: seq<nat>, i: nat, j: nat)
    requires i < |s| && j < |s| && Distinct(s)
    ensures Distinct(Swapped(s, i, j))
  {
    var r := Swapped(s, i, j);
    forall x, y | 0 <= x < y < |r|
      ensures r[x] != r[y]
    {
    }
  }

  /** A legal slide of the blank does not change the answer of the parity rule: on
      an odd width the inversion parity is kept; on an even width a vertical slide
      flips both the inversion parity and the blank row parity. */
  lemma SolvableKept(flat: seq<nat>, n: nat, m: Move)
    requires n > 0 && |flat| == n * n && Distinct(flat) && 0 in flat
    requires m != Hold && OnGrid(n, IndexOf(flat, 0), m)
    requires 0 <= Target(n, IndexOf(flat, 0), m) < |flat|
    ensures Solvable(Swapped(flat, IndexOf(flat, 0), Target(n, IndexOf(flat, 0), m) as nat), n)
        == Solvable(flat, n)
  {
    var b := IndexOf(flat, 0);
    var t := Target(n, b, m) as nat;
    var s := Swapped(flat, b, t);
    TargetRow(n, b, m);
    TargetDistance(n, b, m);
    SwappedDistinct(flat, b, t);
    DistinctBlank(s, t);
    var k;
    if b < t {
      k := SwapParity(flat, b, t);
    } else {
      assert s == Swapped(flat, t, b);
      k := SwapParity(flat, t, b);
    }
    var d := if b < t then t - b - 1 else b - t - 1;
    RuleKept(n, TileInversions(flat), TileInversions(s), BlankRow(flat, n), BlankRow(s, n), k, d);
  }

  // ---------------------------------------------------------------- is_format_coherent and check_puzzle

  /** `is_format_coherent`: `msize` rows of `msize` entries each; the flattened
      board then holds `msize * msize` cells. */
  function IsFormatCoherent(matrix: seq<seq<nat>>, msize: nat): (r: bool)
    ensures r <==> |matrix| == msize && forall k :: 0 <= k < |matrix| ==> |matrix[k]| == msize
    ensures r ==> |Flatten(matrix)| == msize * msize
  {
    if |matrix| == msize && Uniform(matrix, msize) then
      FlattenLength(matrix, msize);
      true
    else
      false
  }

  /** `check_puzzle`: the matrix is square and its row-major board passes the
      parity rule. A square board of side 0, or an even side with no blank, makes
      the source panic. */
  method CheckPuzzle(matrix: seq<seq<nat>>, msize: nat) returns (ok: bool)
    requires IsFormatCoherent(matrix, msize) ==> msize > 0 && (IsEven(msize) ==> 0 in Flatten(matrix))
    ensures ok <==> IsFormatCoherent(matrix, msize) && Solvable(Flatten(matrix), msize)
  {
    var flat := Flatten(matrix);
    if !IsFormatCoherent(matrix, msize) {
      return false;
    }
    MulAtLeast(msize, msize);
    if IsEven(msize) {
      BlankRowRange(flat, msize);
    }
    ok := IsSolvable(flat, msize);
  }

  // ---------------------------------------------------------------- test vectors

  /** With one blank between blank-free parts, the count is the inversion count of
      the two parts joined. */
  lemma OneBlankCount(a: seq<nat>, b: seq<nat>)
    requires 0 !in a && 0 !in b
    ensures TileInversions(a + [0] + b) == Pairs(a + b)
  {
    FilterAbsent(a, 0);
    FilterAbsent(b, 0);
    FilterOne(0);
    FilterConcat(a, [0]);
    assert Filter(a + [0], 0) == a by {
      assert a + [] == a;
    }
    FilterConcat(a + [0], b);
    TileInversionsFilter(a + [0] + b);
  }

  /** The first blank of `s` is at `k` when none comes before. */
  lemma FirstBlankAt(s: seq<nat>, k: nat)
    requires k < |s| && s[k] == 0 && 0 !in s[..k]
    ensures IndexOf(s, 0) == k
  {
  }

  /** `get_inversion_count` on the blank-free test vectors. */
  lemma BlankFreeCounts()
    ensures TileInversions([3, 1, 2]) == 2 && TileInversions([8, 4, 2, 1]) == 6
  {
    TileInversionsFilter([3, 1, 2]);
    FilterAbsent([3, 1, 2], 0);
    PairsByPosition([3, 1, 2], 0);
    assert [3, 1, 2][0..] == [3, 1, 2];
    TileInversionsFilter([8, 4, 2, 1]);
    FilterAbsent([8, 4, 2, 1], 0);
    PairsByPosition([8, 4, 2, 1], 0);
    assert [8, 4, 2, 1][0..] == [8, 4, 2, 1];
  }

  const Blanked1: seq<nat> := [12, 1, 10, 2, 7, 11, 4, 14, 5, 0, 9, 15, 8, 13, 6, 3]
  const Blanked2: seq<nat> := [12, 1, 10, 2, 7, 0, 4, 14, 5, 11, 9, 15, 8, 13, 6, 3]
  const Blanked3: seq<nat> := [7, 1, 2, 5, 3, 9, 8, 0, 6]
  const Blanked4: seq<nat> := [7, 1, 2, 5, 0, 9, 8, 3, 6]

  /** A blank inserted at position `k` of a blank-free board is its first blank, and
      leaves the count at the inversion count of the board. */
  lemma InsertBlank(s: seq<nat>, k: nat)
    requires 0 !in s && k <= |s|
    ensures IndexOf(s[..k] + [0] + s[k..], 0) == k
    ensures TileInversions(s[..k] + [0] + s[k..]) == Pairs(s)
  {
    SplitBlankFree(s, k);
    OneBlankCount(s[..k], s[k..]);
    BlankBetween(s[..k], s[k..]);
  }

  /** The two parts of a blank-free board around position `k` are blank-free and join back to it. */
  lemma SplitBlankFree(s: seq<nat>, k: nat)
    requires 0 !in s && k <= |s|
    ensures 0 !in s[..k] && 0 !in s[k..] && s[..k] + s[k..] == s
  {
    assert forall x :: x in s[..k] ==> x in s;
    assert forall x :: x in s[k..] ==> x in s;
  }

  /** The blank between two blank-free parts is the first one. */
  lemma BlankBetween(a: seq<nat>, b: seq<nat>)
    requires 0 !in a && 0 !in b
    ensures IndexOf(a + [0] + b, 0) == |a|
  {
    assert (a + [0] + b)[..|a|] == a;
    FirstBlankAt(a + [0] + b, |a|);
  }

  /** `get_inversion_count` on a test vector with a blank: the count of the
      same vector without it. */
  lemma Blanked1Count()
    ensures TileInversions(Blanked1) == 49
  {
    assert Blanked1 == Known1[..9] + [0] + Known1[9..];
    InsertBlank(Known1, 9);
    Known1Count();
  }

  lemma Blanked2Count()
    ensures TileInversions(Blanked2) == 48
  {
    assert Blanked2 == Known2[..5] + [0] + Known2[5..];
    InsertBlank(Known2, 5);
    Known2Count();
  }

  lemma Blanked3Count()
    ensures TileInversions(Blanked3) == 9
  {
    assert Blanked3 == Known3[..7] + [0] + Known3[7..];
    InsertBlank(Known3, 7);
    Known3Count();
  }

  lemma Blanked4Count()
    ensures TileInversions(Blanked4) == 11
  {
    assert Blanked4 == Known4[..4] + [0] + Known4[4..];
    InsertBlank(Known4, 4);
    Known4Count();
  }

  /** The row of a blank inserted at position `k`, counted from the bottom. */
  lemma InsertedBlankRow(s: seq<nat>, k: nat, msize: nat)
    requires 0 !in s && k <= |s| && msize > 0
    ensures BlankRow(s[..k] + [0] + s[k..], msize) == msize - k / msize
  {
    InsertBlank(s, k);
  }

  /** `get_blank_row_from_bottom` on the two 4x4 vectors with a blank inside. */
  lemma BlankRow1()
    ensures BlankRow(Blanked1, 4) == 2
  {
    assert Blanked1 == Known1[..9] + [0] + Known1[9..];
    InsertedBlankRow(Known1, 9, 4);
  }

  lemma BlankRow2()
    ensures BlankRow(Blanked2, 4) == 3
  {
    assert Blanked2 == Known2[..5] + [0] + Known2[5..];
    InsertedBlankRow(Known2, 5, 4);
  }

  /** `get_blank_row_from_bottom` with the blank in the top-left corner: the
      bottom-most row counts as 1, so the top row is `msize`. */
  lemma BlankRowsCorner()
    ensures BlankRow([0, 1, 2, 3, 4, 5, 6, 7, 8], 3) == 3
    ensures BlankRow([0, 1, 2, 3, 4, 5, 6, 7, 8, 9, 10, 11, 12, 13, 14, 15], 4) == 4
  {
    FirstBlankAt([0, 1, 2, 3, 4, 5, 6, 7, 8], 0);
    FirstBlankAt([0, 1, 2, 3, 4, 5, 6, 7, 8, 9, 10, 11, 12, 13, 14, 15], 0);
  }

  /** The tiles 1 to 15 in order. */
  const Ascending: seq<nat> := seq(15, i requires 0 <= i < 15 => i + 1)

  /** The two boards of the `check_puzzle` test. */
  const SolvedMatrix: seq<seq<nat>> := [[1, 2, 3, 4], [5, 6, 7, 8], [9, 10, 11, 12], [13, 14, 15, 0]]
  const SwappedMatrix: seq<seq<nat>> := [[1, 2, 3, 4], [5, 6, 7, 8], [9, 10, 11, 12], [13, 15, 14, 0]]

  /** The parity rule on a board made of blank-free tiles with one blank inserted. */
  lemma InsertedSolvable(s: seq<nat>, k: nat, msize: nat, row: int)
    requires 0 !in s && k <= |s| && msize > 0 && row == msize - k / msize
    ensures Solvable(s[..k] + [0] + s[k..], msize) == Rule(msize, Pairs(s), row)
  {
    InsertBlank(s, k);
    SolvableFrom(s[..k] + [0] + s[k..], msize, k, Pairs(s), row);
  }

  /** The parity rule read off a board's blank position and inversion count. */
  lemma SolvableFrom(t: seq<nat>, msize: nat, k: nat, inversions: int, row: int)
    requires msize > 0 && IndexOf(t, 0) == k && TileInversions(t) == inversions
    requires row == msize - k / msize
    ensures Solvable(t, msize) == Rule(msize, inversions, row)
  {
  }

  /** `check_puzzle` accepts the solved 4x4 board. */
  lemma CheckSolved()
    ensures IsFormatCoherent(SolvedMatrix, 4) && Solvable(Flatten(SolvedMatrix), 4)
  {
    assert Flatten(SolvedMatrix) == Ascending[..15] + [0] + Ascending[15..];
    InsertedSolvable(Ascending, 15, 4, 1);
    assert Sorted(Ascending);
    PairsZero(Ascending);
  }

  /** The tiles 1 to 15 with the last two exchanged. */
  const LastTwoSwapped: seq<nat> := Ascending[..13] + [15, 14]

  lemma LastTwoSwappedCount()
    ensures Pairs(LastTwoSwapped) == 1
  {
    var a := Ascending[..13];
    PairsConcat(a, [15, 14]);
    assert Sorted(a);
    PairsZero(a);
    CrossZero(a, [15, 14]);
    assert [15, 14][1..] == [14];
  }

  /** `check_puzzle` rejects the solved 4x4 board with 14 and 15 exchanged. */
  lemma CheckSwapped()
    ensures IsFormatCoherent(SwappedMatrix, 4) && !Solvable(Flatten(SwappedMatrix), 4)
  {
    assert Flatten(SwappedMatrix) == LastTwoSwapped[..15] + [0] + LastTwoSwapped[15..];
    InsertedSolvable(LastTwoSwapped, 15, 4, 1);
    LastTwoSwappedCount();
  }
}
