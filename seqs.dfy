/**
  Sequence helpers shared by several models: the standard-library calls the
  source makes on vectors (`position`, `swap`, `remove`, `reverse`) stated as
  functions, plus the counting and filtering the proofs talk about.
*/
module Seqs {

  /** Position of the first occurrence of `v` in `s`, or `|s|` when there is none
      (`Iterator::position`, with `None` as `|s|`). */
  function IndexOf<T(==)>(s: seq<T>, v: T): (r: nat)
    ensures r <= |s|
    ensures r < |s| <==> v in s
    ensures r < |s| ==> s[r] == v
    ensures forall j :: 0 <= j < r ==> s[j] != v
  {
    if s == [] then 0
    else if s[0] == v then 0
    else 1 + IndexOf(s[1..], v)
  }

  /** `slice::swap(i, j)`. */
  function Swapped<T>(s: seq<T>, i: nat, j: nat): (r: seq<T>)
    requires i < |s| && j < |s|
    ensures |r| == |s| && r[i] == s[j] && r[j] == s[i]
    ensures forall k :: 0 <= k < |s| && k != i && k != j ==> r[k] == s[k]
    ensures multiset(r) == multiset(s)
  {
    s[i := s[j]][j := s[i]]
  }

  /** `s` without its first occurrence of `v`; `s` itself when `v` does not occur. */
  function RemoveFirst<T(==)>(s: seq<T>, v: T): (r: seq<T>)
    ensures v in s ==> |r| == |s| - 1
    ensures v !in s ==> r == s
  {
    if s == [] then []
    else if s[0] == v then s[1..]
    else [s[0]] + RemoveFirst(s[1..], v)
  }

  /** Removing an occurring `v` takes exactly one `v` out of the multiset. */
  lemma {:induction false} RemoveFirstMultiset<T>(s: seq<T>, v: T)
    requires v in s
    ensures multiset(RemoveFirst(s, v)) == multiset(s) - multiset{v}
  {
    assert s == [s[0]] + s[1..];
    if s[0] != v {
      RemoveFirstMultiset(s[1..], v);
    }
  }

  /** `Vec::remove` at the `position` of `v`: the entries before the first `v`
      followed by those after it. */
  lemma {:induction false} RemoveFirstAt<T>(s: seq<T>, v: T)
    requires v in s
    ensures RemoveFirst(s, v) == s[..IndexOf(s, v)] + s[IndexOf(s, v) + 1..]
  {
    if s[0] != v {
      assert v in s[1..];
      RemoveFirstAt(s[1..], v);
      SlicesAfterHead(s, IndexOf(s[1..], v));
    }
  }

  /** Slices of `s` around position `j + 1`, in terms of its tail. */
  lemma SlicesAfterHead<T>(s: seq<T>, j: nat)
    requires j + 1 < |s|
    ensures s[..j + 1] == [s[0]] + s[1..][..j]
    ensures s[j + 2..] == s[1..][j + 1..]
  {
  }

  /** `s` without any occurrence of `v`, order kept. */
  function Filter<T(==, !new)>(s: seq<T>, v: T): (r: seq<T>)
    ensures v !in r
    ensures forall x :: x != v ==> multiset(r)[x] == multiset(s)[x]
    ensures |r| <= |s|
  {
    if s == [] then []
    else
      assert s == [s[0]] + s[1..];
      if s[0] == v then Filter(s[1..], v) else [s[0]] + Filter(s[1..], v)
  }

  /** `s` reversed (`Vec::reverse`). */
  function Reversed<T>(s: seq<T>): (r: seq<T>)
    ensures |r| == |s|
    ensures forall i :: 0 <= i < |s| ==> r[i] == s[|s| - 1 - i]
  {
    seq(|s|, i requires 0 <= i < |s| => s[|s| - 1 - i])
  }

  /** Removing the first occurrence of `v` keeps every other occurrence in order:
      filtering `v` out afterwards gives the same sequence. */
  lemma {:induction false} FilterRemoveFirst<T(!new)>(s: seq<T>, v: T)
    ensures Filter(RemoveFirst(s, v), v) == Filter(s, v)
  {
    if s != [] && s[0] != v && v in s {
      FilterRemoveFirst(s[1..], v);
      assert RemoveFirst(s, v)[1..] == RemoveFirst(s[1..], v);
    }
  }

  /** A sequence with no occurrence of `v` is its own filter. */
  lemma {:induction false} FilterAbsent<T(!new)>(s: seq<T>, v: T)
    requires v !in s
    ensures Filter(s, v) == s
  {
    if s != [] {
      FilterAbsent(s[1..], v);
    }
  }

  /** `s` after removing the first occurrence of `v` `k` times. */
  function RemoveFirstTimes<T(==)>(s: seq<T>, v: T, k: nat): (r: seq<T>)
  {
    if k == 0 then s else RemoveFirst(RemoveFirstTimes(s, v, k - 1), v)
  }

  /** Removing the first occurrence of `v` `k` times leaves `k` fewer of them. */
  lemma {:induction false} RemoveFirstTimesCount<T(!new)>(s: seq<T>, v: T, k: nat)
    requires k <= multiset(s)[v]
    ensures multiset(RemoveFirstTimes(s, v, k))[v] == multiset(s)[v] - k
  {
    if k > 0 {
      RemoveFirstTimesCount(s, v, k - 1);
      var t := RemoveFirstTimes(s, v, k - 1);
      assert v in t;
      RemoveFirstMultiset(t, v);
    }
  }

  /** ... and keeps the filter of `v`. */
  lemma {:induction false} RemoveFirstTimesIsFilter<T(!new)>(s: seq<T>, v: T, k: nat)
    requires k <= multiset(s)[v]
    ensures Filter(RemoveFirstTimes(s, v, k), v) == Filter(s, v)
  {
    if k > 0 {
      RemoveFirstTimesIsFilter(s, v, k - 1);
      FilterRemoveFirst(RemoveFirstTimes(s, v, k - 1), v);
    }
  }

  /** When every occurrence has been removed, the result is exactly the filter. */
  lemma RemoveAllIsFilter<T(!new)>(s: seq<T>, v: T)
    ensures RemoveFirstTimes(s, v, multiset(s)[v]) == Filter(s, v)
  {
    var r := RemoveFirstTimes(s, v, multiset(s)[v]);
    RemoveFirstTimesCount(s, v, multiset(s)[v]);
    RemoveFirstTimesIsFilter(s, v, multiset(s)[v]);
    assert v !in r by { assert multiset(r)[v] == 0; }
    FilterAbsent(r, v);
  }
}
