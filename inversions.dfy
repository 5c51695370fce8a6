/**
  The two inversion counters of `src/inversions.rs`: a double loop (`naive`) and a
  merge sort that counts the pairs it puts in order (`merge_sort`). Both are proved
  to count the pairs `i < j` with `arr[i] > arr[j]`, so they agree on every input.
*/
module Inversions {
  import opened Seqs

  /** The entries of `t` below `v`. */
  function Smaller(v: nat, t: seq<nat>): nat
  {
    if t == [] then 0 else Smaller(v, t[..|t| - 1]) + (if v > t[|t| - 1] then 1 else 0)
  }

  /** The entries of `l` above `y`. */
  function Bigger(y: nat, l: seq<nat>): nat
  {
    if l == [] then 0 else (if l[0] > y then 1 else 0) + Bigger(y, l[1..])
  }

  /** The pairs `i < j` with `s[i] > s[j]`: the inversions of `s`. */
  function Pairs(s: seq<nat>): nat
  {
    if s == [] then 0 else Smaller(s[0], s[1..]) + Pairs(s[1..])
  }

  /** The pairs of an entry of `l` above an entry of `r`. */
  function Cross(l: seq<nat>, r: seq<nat>): nat
  {
    if l == [] then 0 else Smaller(l[0], r) + Cross(l[1..], r)
  }

  predicate Sorted(s: seq<nat>)
  {
    forall i, j :: 0 <= i < j < |s| ==> s[i] <= s[j]
  }

  // ---------------------------------------------------------------- counting lemmas

  lemma {:induction false} SmallerConcat(v: nat, a: seq<nat>, b: seq<nat>)
    ensures Smaller(v, a + b) == Smaller(v, a) + Smaller(v, b)
    decreases |b|
  {
    if b != [] {
      assert (a + b)[..|a + b| - 1] == a + b[..|b| - 1];
      SmallerConcat(v, a, b[..|b| - 1]);
    } else {
      assert a + b == a;
    }
  }

  /** No entry is below `v` exactly when `v` is at most every entry. */
  lemma {:induction false} SmallerZero(v: nat, t: seq<nat>)
    ensures Smaller(v, t) == 0 <==> forall x :: x in t ==> v <= x
    decreases |t|
  {
    if t != [] {
      var front, y := t[..|t| - 1], t[|t| - 1];
      SmallerZero(v, front);
      assert t == front + [y];
      if forall x :: x in t ==> v <= x {
        assert y in t;
        forall x | x in front
          ensures v <= x
        {
          assert x in t;
        }
      }
    }
  }

  lemma {:induction false} BiggerConcat(y: nat, a: seq<nat>, b: seq<nat>)
    ensures Bigger(y, a + b) == Bigger(y, a) + Bigger(y, b)
    decreases |a|
  {
    if a != [] {
      assert (a + b)[1..] == a[1..] + b;
      BiggerConcat(y, a[1..], b);
    } else {
      assert a + b == b;
    }
  }

  /** With `l` sorted and `l[..i]` at most `y` and `l[i..]` above it, exactly
      `|l| - i` entries are above `y`. */
  lemma {:induction false} BiggerSplit(y: nat, l: seq<nat>, i: nat)
    requires i <= |l|
    requires forall k :: 0 <= k < i ==> l[k] <= y
    requires forall k :: i <= k < |l| ==> l[k] > y
    ensures Bigger(y, l) == |l| - i
    decreases |l|
  {
    if l != [] {
      BiggerSplit(y, l[1..], if i == 0 then 0 else i - 1);
    }
  }

  lemma {:induction false} CrossConcatLeft(a: seq<nat>, b: seq<nat>, r: seq<nat>)
    ensures Cross(a + b, r) == Cross(a, r) + Cross(b, r)
    decreases |a|
  {
    if a != [] {
      assert (a + b)[1..] == a[1..] + b;
      CrossConcatLeft(a[1..], b, r);
    } else {
      assert a + b == b;
    }
  }

  lemma {:induction false} CrossConcatRight(l: seq<nat>, a: seq<nat>, b: seq<nat>)
    ensures Cross(l, a + b) == Cross(l, a) + Cross(l, b)
    decreases |l|
  {
    if l != [] {
      SmallerConcat(l[0], a, b);
      CrossConcatRight(l[1..], a, b);
    }
  }

  /** One more entry `y` on the right adds the entries of `l` above it. */
  lemma {:induction false} CrossAppend(l: seq<nat>, r: seq<nat>, y: nat)
    ensures Cross(l, r + [y]) == Cross(l, r) + Bigger(y, l)
    decreases |l|
  {
    if l != [] {
      assert (r + [y])[..|r|] == r;
      CrossAppend(l[1..], r, y);
    }
  }

  /** No pair crosses when every entry on the left is at most every entry on the
      right. */
  lemma {:induction false} CrossZero(l: seq<nat>, r: seq<nat>)
    requires forall x, y :: x in l && y in r ==> x <= y
    ensures Cross(l, r) == 0
    decreases |l|
  {
    if l != [] {
      assert l[0] in l;
      SmallerZero(l[0], r);
      forall x | x in l[1..]
        ensures x in l
      {
      }
      CrossZero(l[1..], r);
    }
  }

  /** The inversions of a concatenation: those inside each part and those across. */
  lemma {:induction false} PairsConcat(a: seq<nat>, b: seq<nat>)
    ensures Pairs(a + b) == Pairs(a) + Pairs(b) + Cross(a, b)
    decreases |a|
  {
    if a != [] {
      assert (a + b)[1..] == a[1..] + b;
      SmallerConcat(a[0], a[1..], b);
      PairsConcat(a[1..], b);
    } else {
      assert a + b == b;
    }
  }

  /** Taking out one occurrence of `x` on the left removes the entries of `r` below
      it. */
  lemma CrossRemoveLeft(l: seq<nat>, x: nat, r: seq<nat>)
    requires x in l
    ensures Cross(l, r) == Smaller(x, r) + Cross(RemoveFirst(l, x), r)
  {
    var i := IndexOf(l, x);
    RemoveFirstAt(l, x);
    assert l == l[..i] + ([x] + l[i + 1..]);
    CrossConcatLeft(l[..i], [x] + l[i + 1..], r);
    CrossConcatLeft(l[..i], l[i + 1..], r);
  }

  /** Taking out one occurrence of `y` on the right. */
  lemma SmallerRemove(v: nat, t: seq<nat>, y: nat)
    requires y in t
    ensures Smaller(v, t) == Smaller(v, RemoveFirst(t, y)) + (if v > y then 1 else 0)
  {
    var i := IndexOf(t, y);
    RemoveFirstAt(t, y);
    assert t == (t[..i] + [y]) + t[i + 1..];
    SmallerConcat(v, t[..i] + [y], t[i + 1..]);
    SmallerConcat(v, t[..i], [y]);
    SmallerConcat(v, t[..i], t[i + 1..]);
    assert [y][..0] == [];
  }

  /** How many entries are below `v` depends only on the multiset of entries. */
  lemma {:induction false} SmallerPermutation(v: nat, t: seq<nat>, u: seq<nat>)
    requires multiset(t) == multiset(u)
    ensures Smaller(v, t) == Smaller(v, u)
    decreases |t|
  {
    if t != [] {
      var y := t[|t| - 1];
      assert t == t[..|t| - 1] + [y];
      assert y in multiset(u);
      SmallerRemove(v, u, y);
      RemoveFirstMultiset(u, y);
      SmallerPermutation(v, t[..|t| - 1], RemoveFirst(u, y));
    } else {
      assert |u| == |multiset(u)| == 0;
    }
  }

  /** The pairs across two parts depend only on the multisets of the two parts. */
  lemma {:induction false} CrossPermutation(l: seq<nat>, l': seq<nat>, r: seq<nat>, r': seq<nat>)
    requires multiset(l) == multiset(l') && multiset(r) == multiset(r')
    ensures Cross(l, r) == Cross(l', r')
    decreases |l|
  {
    if l != [] {
      assert l == [l[0]] + l[1..];
      assert l[0] in multiset(l');
      CrossRemoveLeft(l', l[0], r');
      RemoveFirstMultiset(l', l[0]);
      SmallerPermutation(l[0], r, r');
      CrossPermutation(l[1..], RemoveFirst(l', l[0]), r, r');
    } else {
      assert |l'| == |multiset(l')| == 0;
    }
  }

  /** A sequence has no inversion exactly when it is sorted. */
  lemma {:induction false} PairsZero(s: seq<nat>)
    ensures Pairs(s) == 0 <==> Sorted(s)
    decreases |s|
  {
    if s != [] {
      PairsZero(s[1..]);
      SmallerZero(s[0], s[1..]);
      if Sorted(s) {
        forall x | x in s[1..]
          ensures s[0] <= x
        {
          var k :| 0 <= k < |s[1..]| && s[1..][k] == x;
          assert s[k + 1] == x;
        }
      }
      if Sorted(s[1..]) && forall x :: x in s[1..] ==> s[0] <= x {
        forall i, j | 0 <= i < j < |s|
          ensures s[i] <= s[j]
        {
          assert s[j] == s[1..][j - 1] && s[1..][j - 1] in s[1..];
          if i > 0 {
            assert s[i] == s[1..][i - 1];
          }
        }
      }
    }
  }

  // ---------------------------------------------------------------- merging

  /** The merge of `l[i..]` and `r[j..]`, the left entry first on ties. */
  function MergeFrom(l: seq<nat>, r: seq<nat>, i: nat, j: nat): seq<nat>
    requires i <= |l| && j <= |r|
    decreases |l| - i + |r| - j
  {
    if i == |l| then r[j..]
    else if j == |r| then l[i..]
    else if l[i] <= r[j] then [l[i]] + MergeFrom(l, r, i + 1, j)
    else [r[j]] + MergeFrom(l, r, i, j + 1)
  }

  /** The merge of two sequences. */
  function Merge(l: seq<nat>, r: seq<nat>): seq<nat>
  {
    MergeFrom(l, r, 0, 0)
  }

  lemma SortedCons(h: nat, m: seq<nat>)
    requires Sorted(m) && forall x :: x in m ==> h <= x
    ensures Sorted([h] + m)
  {
    forall i, j | 0 <= i < j < |[h] + m|
      ensures ([h] + m)[i] <= ([h] + m)[j]
    {
      assert ([h] + m)[j] == m[j - 1] && m[j - 1] in m;
    }
  }

  /** The first entry of a sorted suffix is its least. */
  lemma SortedFrom(s: seq<nat>, i: nat)
    requires Sorted(s) && i < |s|
    ensures forall x :: x in s[i..] ==> s[i] <= x
  {
    forall x | x in s[i..]
      ensures s[i] <= x
    {
      var k :| 0 <= k < |s[i..]| && s[i..][k] == x;
      assert s[i + k] == x;
    }
  }

  /** The merge holds the entries of both sides. */
  lemma {:induction false} MergeFromPermutation(l: seq<nat>, r: seq<nat>, i: nat, j: nat)
    requires i <= |l| && j <= |r|
    ensures multiset(MergeFrom(l, r, i, j)) == multiset(l[i..]) + multiset(r[j..])
    decreases |l| - i + |r| - j
  {
    if i < |l| && j < |r| {
      if l[i] <= r[j] {
        MergeFromPermutation(l, r, i + 1, j);
        TakeFirst(l[i..], MergeFrom(l, r, i + 1, j), r[j..]);
        assert l[i..][1..] == l[i + 1..];
      } else {
        MergeFromPermutation(l, r, i, j + 1);
        TakeFirst(r[j..], MergeFrom(l, r, i, j + 1), l[i..]);
        assert r[j..][1..] == r[j + 1..];
      }
    } else if i == |l| {
      assert l[i..] == [];
    } else {
      assert r[j..] == [];
    }
  }

  /** Taking the head of `a` before a merge of the rest keeps the entries. */
  lemma TakeFirst(a: seq<nat>, m: seq<nat>, b: seq<nat>)
    requires a != [] && multiset(m) == multiset(a[1..]) + multiset(b)
    ensures multiset([a[0]] + m) == multiset(a) + multiset(b)
  {
    assert a == [a[0]] + a[1..];
  }

  /** Merging sorted sides gives a sorted sequence. */
  lemma {:induction false} MergeFromSorted(l: seq<nat>, r: seq<nat>, i: nat, j: nat)
    requires Sorted(l) && Sorted(r) && i <= |l| && j <= |r|
    ensures Sorted(MergeFrom(l, r, i, j))
    decreases |l| - i + |r| - j
  {
    if i < |l| && j < |r| {
      SortedFrom(l, i);
      SortedFrom(r, j);
      if l[i] <= r[j] {
        MergeFromSorted(l, r, i + 1, j);
        MergeFromPermutation(l, r, i + 1, j);
        var m := MergeFrom(l, r, i + 1, j);
        forall x | x in m
          ensures l[i] <= x
        {
          assert x in multiset(m);
          if x in l[i + 1..] {
            assert x in l[i..];
          } else {
            assert x in r[j..];
          }
        }
        SortedCons(l[i], m);
      } else {
        MergeFromSorted(l, r, i, j + 1);
        MergeFromPermutation(l, r, i, j + 1);
        var m := MergeFrom(l, r, i, j + 1);
        forall x | x in m
          ensures r[j] <= x
        {
          assert x in multiset(m);
          if x in r[j + 1..] {
            assert x in r[j..];
          } else {
            assert x in l[i..];
          }
        }
        SortedCons(r[j], m);
      }
    } else if i == |l| {
      forall a, b | 0 <= a < b < |r[j..]|
        ensures r[j..][a] <= r[j..][b]
      {
        assert r[j..][a] == r[j + a] && r[j..][b] == r[j + b];
      }
    } else {
      forall a, b | 0 <= a < b < |l[i..]|
        ensures l[i..][a] <= l[i..][b]
      {
        assert l[i..][a] == l[i + a] && l[i..][b] == l[i + b];
      }
    }
  }

  /** Merging two sorted sequences gives a sorted sequence holding the entries of
      both. */
  lemma MergeMeaning(l: seq<nat>, r: seq<nat>)
    requires Sorted(l) && Sorted(r)
    ensures Sorted(Merge(l, r))
    ensures multiset(Merge(l, r)) == multiset(l) + multiset(r)
  {
    MergeFromSorted(l, r, 0, 0);
    MergeFromPermutation(l, r, 0, 0);
    assert l[0..] == l && r[0..] == r;
  }

  /** One step of the merge loop: the entry taken next is the head of the rest. */
  lemma MergeStep(l: seq<nat>, r: seq<nat>, i: nat, j: nat, done: seq<nat>)
    requires i < |l| && j < |r| && done + MergeFrom(l, r, i, j) == Merge(l, r)
    ensures l[i] <= r[j] ==> (done + [l[i]]) + MergeFrom(l, r, i + 1, j) == Merge(l, r)
    ensures l[i] > r[j] ==> (done + [r[j]]) + MergeFrom(l, r, i, j + 1) == Merge(l, r)
  {
    if l[i] <= r[j] {
      assert (done + [l[i]]) + MergeFrom(l, r, i + 1, j) == done + ([l[i]] + MergeFrom(l, r, i + 1, j));
    } else {
      assert (done + [r[j]]) + MergeFrom(l, r, i, j + 1) == done + ([r[j]] + MergeFrom(l, r, i, j + 1));
    }
  }

  /** Once one side is used up, the rest of the merge is what is left of both. */
  lemma MergeDone(l: seq<nat>, r: seq<nat>, i: nat, j: nat, done: seq<nat>)
    requires i <= |l| && j <= |r| && (i == |l| || j == |r|)
    requires done + MergeFrom(l, r, i, j) == Merge(l, r)
    ensures done + l[i..] + r[j..] == Merge(l, r)
  {
    assert done + l[i..] + r[j..] == done + (l[i..] + r[j..]);
  }

  /** An entry of `r` that goes before `l[i..]` is below exactly `|l| - i` entries
      of `l`. */
  lemma CountTakeRight(l: seq<nat>, r: seq<nat>, i: nat, j: nat)
    requires Sorted(l) && i < |l| && j < |r| && l[i] > r[j]
    requires 0 < i ==> l[i - 1] <= r[j]
    ensures Cross(l, r[..j + 1]) == Cross(l, r[..j]) + (|l| - i)
  {
    BiggerSplit(r[j], l, i);
    CrossAppend(l, r[..j], r[j]);
    assert r[..j + 1] == r[..j] + [r[j]];
  }

  /** Once `l` is used up below `r[j]`, the rest of `r` crosses nothing. */
  lemma CountRest(l: seq<nat>, r: seq<nat>, j: nat)
    requires Sorted(l) && Sorted(r) && j < |r|
    requires l != [] ==> l[|l| - 1] <= r[j]
    ensures Cross(l, r) == Cross(l, r[..j])
  {
    assert r == r[..j] + r[j..];
    CrossConcatRight(l, r[..j], r[j..]);
    forall x, y | x in l && y in r[j..]
      ensures x <= y
    {
      var k :| 0 <= k < |l| && l[k] == x;
      var m :| 0 <= m < |r[j..]| && r[j..][m] == y;
      assert r[j + m] == y;
    }
    CrossZero(l, r[j..]);
  }

  /** `merge_count_split_inversion`: the merge of two sorted halves, and the pairs
      across them, counted `|left| - i` at a time whenever an entry of `right` goes
      first. */
  method MergeCountSplit(left: seq<nat>, right: seq<nat>) returns (result: seq<nat>, count: nat)
    requires Sorted(left) && Sorted(right)
    ensures result == Merge(left, right)
    ensures count == Cross(left, right)
  {
    result, count := [], 0;
    var i, j := 0, 0;
    assert right[..0] == [];
    CrossZero(left, []);
    while i < |left| && j < |right|
      invariant i <= |left| && j <= |right|
      invariant result + MergeFrom(left, right, i, j) == Merge(left, right)
      invariant count == Cross(left, right[..j])
      invariant 0 < i && j < |right| ==> left[i - 1] <= right[j]
      decreases |left| - i + |right| - j
    {
      MergeStep(left, right, i, j, result);
      if left[i] <= right[j] {
        result := result + [left[i]];
        i := i + 1;
      } else {
        CountTakeRight(left, right, i, j);
        result := result + [right[j]];
        count := count + (|left| - i);
        j := j + 1;
      }
    }
    if j < |right| {
      CountRest(left, right, j);
    } else {
      assert right[..j] == right;
    }
    MergeDone(left, right, i, j, result);
    result := result + left[i..];
    result := result + right[j..];
  }

  /** `merge_count_inversion`: a sorted copy of `arr` and the number of its
      inversions, the halves counted recursively and the pairs across them by the
      merge. */
  method MergeCountInversion(arr: seq<nat>) returns (sorted: seq<nat>, count: nat)
    ensures Sorted(sorted) && multiset(sorted) == multiset(arr)
    ensures count == Pairs(arr)
    decreases |arr|
  {
    if |arr| <= 1 {
      assert arr == [] || arr[1..] == [];
      return arr, 0;
    }
    var middle := |arr| / 2;
    var left, a := MergeCountInversion(arr[..middle]);
    var right, b := MergeCountInversion(arr[middle..]);
    var c;
    sorted, c := MergeCountSplit(left, right);
    count := a + b + c;
    MergeMeaning(left, right);
    assert arr == arr[..middle] + arr[middle..];
    PairsConcat(arr[..middle], arr[middle..]);
    CrossPermutation(left, arr[..middle], right, arr[middle..]);
  }

  /** `merge_sort`: the count of `merge_count_inversion`. */
  method MergeSort(arr: seq<nat>) returns (inversions: nat)
    ensures inversions == Pairs(arr)
  {
    var _, count := MergeCountInversion(arr);
    inversions := count;
  }

  /** `naive`: every pair `i < j` compared. The source computes `arr.len() - 1`
      first, which underflows on an empty input. */
  method Naive(arr: seq<nat>) returns (inversions: nat)
    requires |arr| > 0
    ensures inversions == Pairs(arr)
  {
    inversions := 0;
    for i := 0 to |arr| - 1
      invariant inversions + Pairs(arr[i..]) == Pairs(arr)
    {
      ghost var before := inversions;
      for j := i + 1 to |arr|
        invariant inversions == before + Smaller(arr[i], arr[i + 1..j])
      {
        assert arr[i + 1..j + 1][..j - i - 1] == arr[i + 1..j];
        if arr[i] > arr[j] {
          inversions := inversions + 1;
        }
      }
      assert arr[i..][1..] == arr[i + 1..] == arr[i + 1..|arr|];
    }
    assert arr[|arr| - 1..][1..] == [];
  }

  // ---------------------------------------------------------------- by position

  /** The entries of `s[j..]` below `s[i]`, by position. */
  function BelowFrom(s: seq<nat>, i: nat, j: nat): nat
    requires i < |s|
    decreases |s| - j
  {
    if j >= |s| then 0 else (if s[i] > s[j] then 1 else 0) + BelowFrom(s, i, j + 1)
  }

  /** The inversions of `s[i..]`, by position. */
  function PairsFrom(s: seq<nat>, i: nat): nat
    decreases |s| - i
  {
    if i >= |s| then 0 else BelowFrom(s, i, i + 1) + PairsFrom(s, i + 1)
  }

  lemma {:induction false} BelowFromSmaller(s: seq<nat>, i: nat, j: nat)
    requires i < |s| && j <= |s|
    ensures BelowFrom(s, i, j) == Smaller(s[i], s[j..])
    decreases |s| - j
  {
    if j < |s| {
      BelowFromSmaller(s, i, j + 1);
      assert s[j..] == [s[j]] + s[j + 1..];
      SmallerConcat(s[i], [s[j]], s[j + 1..]);
      assert [s[j]][..0] == [];
    }
  }

  /** The inversion count read off position by position, as the double loop of
      `naive` reads it. */
  lemma {:induction false} PairsByPosition(s: seq<nat>, i: nat)
    requires i <= |s|
    ensures PairsFrom(s, i) == Pairs(s[i..])
    decreases |s| - i
  {
    if i < |s| {
      PairsByPosition(s, i + 1);
      BelowFromSmaller(s, i, i + 1);
      assert s[i..][1..] == s[i + 1..];
    }
  }

  // ---------------------------------------------------------------- test vectors

  const Known1: seq<nat> := [12, 1, 10, 2, 7, 11, 4, 14, 5, 9, 15, 8, 13, 6, 3]
  const Known2: seq<nat> := [12, 1, 10, 2, 7, 4, 14, 5, 11, 9, 15, 8, 13, 6, 3]
  const Known3: seq<nat> := [7, 1, 2, 5, 3, 9, 8, 6]
  const Known4: seq<nat> := [7, 1, 2, 5, 9, 8, 3, 6]

  lemma Known1RowsA()
    ensures BelowFrom(Known1, 0, 1) == 11
      && BelowFrom(Known1, 1, 2) == 0
      && BelowFrom(Known1, 2, 3) == 8
  {
  }

  lemma Known1RowsB()
    ensures BelowFrom(Known1, 3, 4) == 0
      && BelowFrom(Known1, 4, 5) == 4
      && BelowFrom(Known1, 5, 6) == 6
      && BelowFrom(Known1, 6, 7) == 1
  {
  }

  lemma Known1RowsC()
    ensures BelowFrom(Known1, 7, 8) == 6
      && BelowFrom(Known1, 8, 9) == 1
      && BelowFrom(Known1, 9, 10) == 3
      && BelowFrom(Known1, 10, 11) == 4
      && BelowFrom(Known1, 11, 12) == 2
      && BelowFrom(Known1, 12, 13) == 2
      && BelowFrom(Known1, 13, 14) == 1
      && BelowFrom(Known1, 14, 15) == 0
  {
  }

  /** The count the tests expect of both counters on this vector. */
  lemma Known1Count()
    ensures Pairs(Known1) == 49
  {
    Known1RowsA();
    Known1RowsB();
    Known1RowsC();
    assert PairsFrom(Known1, 14) == 0;
    assert PairsFrom(Known1, 13) == 1;
    assert PairsFrom(Known1, 12) == 3;
    assert PairsFrom(Known1, 11) == 5;
    assert PairsFrom(Known1, 10) == 9;
    assert PairsFrom(Known1, 9) == 12;
    assert PairsFrom(Known1, 8) == 13;
    assert PairsFrom(Known1, 7) == 19;
    assert PairsFrom(Known1, 6) == 20;
    assert PairsFrom(Known1, 5) == 26;
    assert PairsFrom(Known1, 4) == 30;
    assert PairsFrom(Known1, 3) == 30;
    assert PairsFrom(Known1, 2) == 38;
    assert PairsFrom(Known1, 1) == 38;
    assert PairsFrom(Known1, 0) == 49;
    PairsByPosition(Known1, 0);
    assert Known1[0..] == Known1;
  }

  lemma Known2RowsA()
    ensures BelowFrom(Known2, 0, 1) == 11
      && BelowFrom(Known2, 1, 2) == 0
      && BelowFrom(Known2, 2, 3) == 8
  {
  }

  lemma Known2RowsB()
    ensures BelowFrom(Known2, 3, 4) == 0
      && BelowFrom(Known2, 4, 5) == 4
      && BelowFrom(Known2, 5, 6) == 1
      && BelowFrom(Known2, 6, 7) == 7
  {
  }

  lemma Known2RowsC()
    ensures BelowFrom(Known2, 7, 8) == 1
      && BelowFrom(Known2, 8, 9) == 4
      && BelowFrom(Known2, 9, 10) == 3
      && BelowFrom(Known2, 10, 11) == 4
      && BelowFrom(Known2, 11, 12) == 2
      && BelowFrom(Known2, 12, 13) == 2
      && BelowFrom(Known2, 13, 14) == 1
      && BelowFrom(Known2, 14, 15) == 0
  {
  }

  /** The count the tests expect of both counters on this vector. */
  lemma Known2Count()
    ensures Pairs(Known2) == 48
  {
    Known2RowsA();
    Known2RowsB();
    Known2RowsC();
    assert PairsFrom(Known2, 14) == 0;
    assert PairsFrom(Known2, 13) == 1;
    assert PairsFrom(Known2, 12) == 3;
    assert PairsFrom(Known2, 11) == 5;
    assert PairsFrom(Known2, 10) == 9;
    assert PairsFrom(Known2, 9) == 12;
    assert PairsFrom(Known2, 8) == 16;
    assert PairsFrom(Known2, 7) == 17;
    assert PairsFrom(Known2, 6) == 24;
    assert PairsFrom(Known2, 5) == 25;
    assert PairsFrom(Known2, 4) == 29;
    assert PairsFrom(Known2, 3) == 29;
    assert PairsFrom(Known2, 2) == 37;
    assert PairsFrom(Known2, 1) == 37;
    assert PairsFrom(Known2, 0) == 48;
    PairsByPosition(Known2, 0);
    assert Known2[0..] == Known2;
  }

  lemma Known3Rows()
    ensures BelowFrom(Known3, 0, 1) == 5
      && BelowFrom(Known3, 1, 2) == 0
      && BelowFrom(Known3, 2, 3) == 0
      && BelowFrom(Known3, 3, 4) == 1
      && BelowFrom(Known3, 4, 5) == 0
      && BelowFrom(Known3, 5, 6) == 2
      && BelowFrom(Known3, 6, 7) == 1
      && BelowFrom(Known3, 7, 8) == 0
  {
  }

  /** The count the tests expect of both counters on this vector. */
  lemma Known3Count()
    ensures Pairs(Known3) == 9
  {
    Known3Rows();
    assert PairsFrom(Known3, 7) == 0;
    assert PairsFrom(Known3, 6) == 1;
    assert PairsFrom(Known3, 5) == 3;
    assert PairsFrom(Known3, 4) == 3;
    assert PairsFrom(Known3, 3) == 4;
    assert PairsFrom(Known3, 2) == 4;
    assert PairsFrom(Known3, 1) == 4;
    assert PairsFrom(Known3, 0) == 9;
    PairsByPosition(Known3, 0);
    assert Known3[0..] == Known3;
  }

  lemma Known4Rows()
    ensures BelowFrom(Known4, 0, 1) == 5
      && BelowFrom(Known4, 1, 2) == 0
      && BelowFrom(Known4, 2, 3) == 0
      && BelowFrom(Known4, 3, 4) == 1
      && BelowFrom(Known4, 4, 5) == 3
      && BelowFrom(Known4, 5, 6) == 2
      && BelowFrom(Known4, 6, 7) == 0
      && BelowFrom(Known4, 7, 8) == 0
  {
  }

  /** The count the tests expect of both counters on this vector. */
  lemma Known4Count()
    ensures Pairs(Known4) == 11
  {
    Known4Rows();
    assert PairsFrom(Known4, 7) == 0;
    assert PairsFrom(Known4, 6) == 0;
    assert PairsFrom(Known4, 5) == 2;
    assert PairsFrom(Known4, 4) == 5;
    assert PairsFrom(Known4, 3) == 6;
    assert PairsFrom(Known4, 2) == 6;
    assert PairsFrom(Known4, 1) == 6;
    assert PairsFrom(Known4, 0) == 11;
    PairsByPosition(Known4, 0);
    assert Known4[0..] == Known4;
  }
}
