/**
  The conflict graph of `src/graph.rs`: a map from a tile label to the list of
  labels it is in conflict with, one entry per recorded conflict. The
  linear-conflict heuristic fills it pair by pair and then removes, while the
  map is not empty, a label of largest degree.
*/
module Graph {
  import opened Seqs

  type Adjacency = map<nat, seq<nat>>

  /** How many times `b` is listed under `a`. */
  function Count(m: Adjacency, a: nat, b: nat): nat
  {
    if a in m then multiset(m[a])[b] else 0
  }

  /** The invariant `push_conflict` and `remove_conflict_with` keep: every conflict is
      listed on both sides equally often, no list is empty, and no label lists itself. */
  ghost predicate WellFormed(m: Adjacency)
  {
    (forall a, b :: Count(m, a, b) == Count(m, b, a))
    && (forall a :: a in m ==> m[a] != [] && a !in m[a])
  }

  /** `b` appended to the list of `a`, the entry created if needed. */
  function Pushed(m: Adjacency, a: nat, b: nat): Adjacency
  {
    m[a := (if a in m then m[a] else []) + [b]]
  }

  /** Both directions of a conflict recorded. */
  function PushedPair(m: Adjacency, a: nat, b: nat): Adjacency
  {
    Pushed(Pushed(m, a, b), b, a)
  }

  /** The graph without `t`: its entry dropped, every occurrence of `t` removed from
      the other lists, and the lists left empty dropped. */
  function Removed(m: Adjacency, t: nat): (r: Adjacency)
    ensures r.Keys <= m.Keys - {t}
  {
    map x | x in m && x != t && Filter(m[x], t) != [] :: Filter(m[x], t)
  }

  /** `k` is a label whose list is as long as any. */
  ghost predicate IsMaxDegree(m: Adjacency, k: nat)
  {
    k in m && forall x :: x in m ==> |m[x]| <= |m[k]|
  }

  /** `c` is a number of removals the greedy loop of the heuristic can make starting
      from `m`: remove some label of largest degree until the map is empty. */
  ghost predicate IsGreedyCount(m: Adjacency, c: nat)
    decreases m.Keys
  {
    if m == map[] then c == 0
    else c > 0 && exists k :: IsMaxDegree(m, k) && IsGreedyCount(Removed(m, k), c - 1)
  }

  /** `m` after removing, for each label `x`, the first `t` of its list once per
      occurrence of `x` in `done`, lists left empty being dropped: the state of
      `remove_conflict_with(t)` after it has handled the links in `done`. */
  ghost function Stage(m: Adjacency, t: nat, done: seq<nat>): Adjacency
  {
    map x | x in m && RemoveFirstTimes(m[x], t, multiset(done)[x]) != []
      :: RemoveFirstTimes(m[x], t, multiset(done)[x])
  }

  /** Before any link is handled, the stage is the graph without `t`'s entry. */
  lemma StageStart(m: Adjacency, t: nat)
    requires WellFormed(m)
    ensures Stage(m - {t}, t, []) == m - {t}
  {
  }

  /** Handling `l` changes no list but the one of `l`. */
  lemma StageOther(m: Adjacency, t: nat, done: seq<nat>, l: nat, x: nat)
    requires x != l
    ensures x in Stage(m, t, done + [l]) <==> x in Stage(m, t, done)
    ensures x in Stage(m, t, done) ==> Stage(m, t, done + [l])[x] == Stage(m, t, done)[x]
  {
    assert multiset(done + [l])[x] == multiset(done)[x];
  }

  /** Handling `l` once more keeps its entry exactly when its list, shortened by its
      first `t`, is not empty. */
  lemma StageSameKey(m: Adjacency, t: nat, done: seq<nat>, l: nat)
    requires l in Stage(m, t, done)
    ensures l in Stage(m, t, done + [l]) <==> RemoveFirst(Stage(m, t, done)[l], t) != []
  {
    assert multiset(done + [l])[l] == multiset(done)[l] + 1;
  }

  /** Handling `l` once more shortens its list by its first `t`. */
  lemma StageSameList(m: Adjacency, t: nat, done: seq<nat>, l: nat)
    requires l in Stage(m, t, done) && l in Stage(m, t, done + [l])
    ensures Stage(m, t, done + [l])[l] == RemoveFirst(Stage(m, t, done)[l], t)
  {
    var k := multiset(done)[l];
    assert multiset(done + [l])[l] == k + 1;
    assert Stage(m, t, done)[l] == RemoveFirstTimes(m[l], t, k);
    assert Stage(m, t, done + [l])[l] == RemoveFirstTimes(m[l], t, k + 1);
  }

  /** Two maps with the same keys and the same value at each key are equal. */
  lemma MapsEqual(a: Adjacency, b: Adjacency)
    requires forall x :: x in a <==> x in b
    requires forall x :: x in a ==> a[x] == b[x]
    ensures a == b
  {
  }

  /** Handling one more link `l` whose list then runs out of `t`s and of everything
      else drops the entry of `l`. */
  lemma StageDrop(m: Adjacency, t: nat, done: seq<nat>, l: nat)
    requires l in Stage(m, t, done) && RemoveFirst(Stage(m, t, done)[l], t) == []
    ensures Stage(m, t, done + [l]) == Stage(m, t, done) - {l}
  {
    var s := Stage(m, t, done);
    var s' := Stage(m, t, done + [l]);
    StageSameKey(m, t, done, l);
    forall x: nat | x != l
      ensures x in s' <==> x in s
      ensures x in s ==> s'[x] == s[x]
    {
      StageOther(m, t, done, l, x);
    }
    MapsEqual(s', s - {l});
  }

  /** Handling one more link `l` otherwise removes the first `t` from the list of `l`. */
  lemma StageShrink(m: Adjacency, t: nat, done: seq<nat>, l: nat)
    requires l in Stage(m, t, done) && RemoveFirst(Stage(m, t, done)[l], t) != []
    ensures Stage(m, t, done + [l]) == Stage(m, t, done)[l := RemoveFirst(Stage(m, t, done)[l], t)]
  {
    var s := Stage(m, t, done);
    var s' := Stage(m, t, done + [l]);
    StageSameKey(m, t, done, l);
    StageSameList(m, t, done, l);
    forall x: nat | x != l
      ensures x in s' <==> x in s
      ensures x in s ==> s'[x] == s[x]
    {
      StageOther(m, t, done, l, x);
    }
    MapsEqual(s', s[l := RemoveFirst(s[l], t)]);
  }

  /** While `remove_conflict_with(t)` walks the links of `t`, the next link `l` still
      has an entry that lists `t`: it has been handled fewer times than it occurs. */
  lemma StageHasLink(m: Adjacency, t: nat, i: nat)
    requires WellFormed(m) && t in m && i < |m[t]|
    ensures var l := m[t][i];
      l in Stage(m - {t}, t, m[t][..i]) && t in Stage(m - {t}, t, m[t][..i])[l]
  {
    var links := m[t];
    var l := links[i];
    var k := multiset(links[..i])[l];
    assert links[..i + 1] == links[..i] + [l];
    assert multiset(links[..i + 1]) <= multiset(links) by {
      assert links == links[..i + 1] + links[i + 1..];
    }
    assert Count(m, l, t) == Count(m, t, l) >= k + 1;
    assert l != t by {
      assert t !in m[t];
      assert l in m[t];
    }
    assert l in m;
    assert multiset(m[l])[t] >= k + 1;
    RemoveFirstTimesCount<nat>(m[l], t, k);
    var before: seq<nat> := RemoveFirstTimes(m[l], t, k);
    assert multiset(before)[t] == multiset(m[l])[t] - k;
    assert t in before;
    assert (m - {t})[l] == m[l];
  }

  /** Once every link is handled, the stage is the graph with `t` removed. */
  lemma StageEnd(m: Adjacency, t: nat)
    requires WellFormed(m) && t in m
    ensures Stage(m - {t}, t, m[t]) == Removed(m, t)
  {
    var m0 := m - {t};
    forall x | x in m0
      ensures RemoveFirstTimes(m0[x], t, multiset(m[t])[x]) == Filter(m0[x], t)
    {
      assert Count(m, t, x) == Count(m, x, t);
      RemoveAllIsFilter(m0[x], t);
    }
  }

  lemma SubsetSmaller(a: set<nat>, b: set<nat>, t: nat)
    requires a <= b - {t} && t in b
    ensures |a| < |b|
  {
    assert |b - {t}| == |b| - 1;
    assert a + (b - {t} - a) == b - {t};
  }

  /** A subset is no larger. */
  lemma SubsetNoLarger(a: set<nat>, b: set<nat>)
    requires a <= b
    ensures |a| <= |b|
  {
    assert b == a + (b - a);
  }

  /** One push adds one listing of `b` under `a`. */
  lemma PushedCount(m: Adjacency, a: nat, b: nat, x: nat, y: nat)
    ensures Count(Pushed(m, a, b), x, y) == Count(m, x, y) + (if x == a && y == b then 1 else 0)
  {
  }

  lemma PushedPairCounts(m: Adjacency, a: nat, b: nat)
    ensures PushedPair(m, a, b).Keys == m.Keys + {a, b}
    ensures forall x, y ::
              Count(PushedPair(m, a, b), x, y) ==
              Count(m, x, y) + (if x == a && y == b then 1 else 0) + (if x == b && y == a then 1 else 0)
  {
    forall x, y
      ensures Count(PushedPair(m, a, b), x, y) ==
              Count(m, x, y) + (if x == a && y == b then 1 else 0) + (if x == b && y == a then 1 else 0)
    {
      PushedCount(m, a, b, x, y);
      PushedCount(Pushed(m, a, b), b, a, x, y);
    }
  }

  /** Recording a conflict between two different labels keeps the graph well formed. */
  lemma PushedPairWellFormed(m: Adjacency, a: nat, b: nat)
    requires WellFormed(m) && a != b
    ensures WellFormed(PushedPair(m, a, b))
  {
    PushedPairCounts(m, a, b);
    var r := PushedPair(m, a, b);
    forall x | x in r
      ensures r[x] != [] && x !in r[x]
    {
      if x == a || x == b {
        assert Count(r, x, x) == Count(m, x, x);
        assert x !in r[x] by {
          assert multiset(r[x])[x] == 0;
        }
      }
    }
  }

  /** On a well-formed graph, removing `t` takes away exactly the conflicts of `t`:
      the counts between the other labels stay, `t` loses its entry, the number of
      entries drops, and the graph stays well formed. */
  lemma RemovedCounts(m: Adjacency, t: nat)
    requires WellFormed(m) && t in m
    ensures t !in Removed(m, t) && |Removed(m, t).Keys| < |m.Keys|
    ensures forall a, b ::
              Count(Removed(m, t), a, b) == if a == t || b == t then 0 else Count(m, a, b)
    ensures WellFormed(Removed(m, t))
  {
    var r := Removed(m, t);
    SubsetSmaller(r.Keys, m.Keys, t);
    forall a, b
      ensures Count(r, a, b) == if a == t || b == t then 0 else Count(m, a, b)
    {
      if a in m && a != t && a !in r {
        assert Filter(m[a], t) == [];
        assert multiset(Filter(m[a], t)) == multiset{};
      }
    }
    forall a | a in r
      ensures r[a] != [] && a !in r[a]
    {
      assert multiset(r[a])[a] == multiset(m[a])[a] == 0;
    }
  }

  /** The greedy loop makes at least one removal exactly when the graph has an entry,
      and never more removals than there are entries. */
  lemma {:induction false} GreedyBound(m: Adjacency, c: nat)
    requires IsGreedyCount(m, c)
    ensures c == 0 <==> m == map[]
    ensures c <= |m.Keys|
  {
    if m != map[] {
      var k :| IsMaxDegree(m, k) && IsGreedyCount(Removed(m, k), c - 1);
      GreedyBound(Removed(m, k), c - 1);
      SubsetSmaller(Removed(m, k).Keys, m.Keys, k);
    }
  }

  /** One removal of a label of largest degree extends a greedy run. */
  lemma GreedyStep(m: Adjacency, k: nat, c: nat)
    requires m != map[] && IsMaxDegree(m, k) && IsGreedyCount(Removed(m, k), c)
    ensures IsGreedyCount(m, c + 1)
  {
  }

  /** Removing the labels of `ks` in turn, each of largest degree when removed,
      takes `m` to `last`. */
  ghost predicate GreedyRun(m: Adjacency, ks: seq<nat>, last: Adjacency)
    decreases |ks|
  {
    if ks == [] then last == m
    else m != map[] && IsMaxDegree(m, ks[0]) && GreedyRun(Removed(m, ks[0]), ks[1..], last)
  }

  /** A run extends by one more removal of a label of largest degree. */
  lemma {:induction false} GreedyRunExtend(m: Adjacency, ks: seq<nat>, last: Adjacency, k: nat)
    requires GreedyRun(m, ks, last) && last != map[] && IsMaxDegree(last, k)
    ensures GreedyRun(m, ks + [k], Removed(last, k))
    decreases |ks|
  {
    if ks != [] {
      GreedyRunExtend(Removed(m, ks[0]), ks[1..], last, k);
      assert (ks + [k])[1..] == ks[1..] + [k];
    }
  }

  /** A run that empties the graph makes a greedy count of removals. */
  lemma {:induction false} GreedyRunCount(m: Adjacency, ks: seq<nat>)
    requires GreedyRun(m, ks, map[])
    ensures IsGreedyCount(m, |ks|)
    decreases |ks|
  {
    if ks != [] {
      GreedyRunCount(Removed(m, ks[0]), ks[1..]);
    }
  }

  /** A graph holding a single conflict, between `a` and `b`. */
  predicate IsEdge(m: Adjacency, a: nat, b: nat)
  {
    a != b && m.Keys == {a, b} && m[a] == [b] && m[b] == [a]
  }

  /** Removing either end of a single conflict leaves no entry. */
  lemma RemovedEdge(m: Adjacency, a: nat, b: nat, k: nat)
    requires IsEdge(m, a, b) && k in m
    ensures Removed(m, k) == map[]
  {
    assert Filter([a], a) == [] && Filter([b], b) == [];
    assert Removed(m, k).Keys == {};
  }

  /** A single conflict costs one removal, whichever end is removed. */
  lemma GreedyOneEdge(m: Adjacency, a: nat, b: nat, c: nat)
    requires IsEdge(m, a, b) && IsGreedyCount(m, c)
    ensures c == 1
  {
    assert a in m;
    var k :| IsMaxDegree(m, k) && IsGreedyCount(Removed(m, k), c - 1);
    RemovedEdge(m, a, b, k);
  }

  /** `[x, y]` without `v`. */
  lemma FilterTwo(x: nat, y: nat, v: nat)
    ensures Filter([x, y], v) == (if x == v then [] else [x]) + (if y == v then [] else [y])
  {
    assert [x, y][1..] == [y];
    assert [y][1..] == [];
  }

  /** Three labels in mutual conflict, each listing the other two. */
  predicate IsTriangle(m: Adjacency, a: nat, b: nat, d: nat)
  {
    a != b && b != d && a != d && m.Keys == {a, b, d}
    && m[a] == [b, d] && m[b] == [a, d] && m[d] == [a, b]
  }

  /** Removing `k` from a graph on `k`, `x`, `y` where, without `k`, `x` lists just `y`
      and `y` just `x`, leaves the conflict between `x` and `y`. */
  lemma RemovedCorner(m: Adjacency, k: nat, x: nat, y: nat)
    requires k != x && k != y && x != y && m.Keys == {k, x, y}
    requires Filter(m[x], k) == [y] && Filter(m[y], k) == [x]
    ensures IsEdge(Removed(m, k), x, y)
  {
    var r := Removed(m, k);
    assert x in r && y in r;
    assert r.Keys == {x, y};
  }

  /** Three labels in mutual conflict cost two removals whichever label is removed
      first. */
  lemma GreedyTriangle(m: Adjacency, a: nat, b: nat, d: nat, c: nat)
    requires IsTriangle(m, a, b, d) && IsGreedyCount(m, c)
    ensures c == 2
  {
    assert a in m;
    var k :| IsMaxDegree(m, k) && IsGreedyCount(Removed(m, k), c - 1);
    FilterTwo(b, d, k);
    FilterTwo(a, d, k);
    FilterTwo(a, b, k);
    if k == a {
      RemovedCorner(m, a, b, d);
      GreedyOneEdge(Removed(m, k), b, d, c - 1);
    } else if k == b {
      RemovedCorner(m, b, a, d);
      GreedyOneEdge(Removed(m, k), a, d, c - 1);
    } else {
      RemovedCorner(m, d, a, b);
      GreedyOneEdge(Removed(m, k), a, b, c - 1);
    }
  }

  /** The conflict graph of `src/graph.rs`. */
  class LinearConflictGraph {
    var conflicts: Adjacency

    /** `LinearConflictGraph::new`: no entry. */
    constructor ()
      ensures conflicts == map[]
      ensures WellFormed(conflicts) && !IsConflicts()
    {
      conflicts := map[];
    }

    /** `push`: `t2` appended to the list of `t1`, the entry created if needed. */
    method Push(t1: nat, t2: nat)
      modifies this
      ensures conflicts == Pushed(old(conflicts), t1, t2)
    {
      if t1 !in conflicts {
        conflicts := conflicts[t1 := []];
      }
      conflicts := conflicts[t1 := conflicts[t1] + [t2]];
    }

    /** `push_conflict`: the conflict recorded on both sides. */
    method PushConflict(t1: nat, t2: nat)
      modifies this
      ensures conflicts == PushedPair(old(conflicts), t1, t2)
      ensures WellFormed(old(conflicts)) && t1 != t2 ==> WellFormed(conflicts)
    {
      Push(t1, t2);
      Push(t2, t1);
      if WellFormed(old(conflicts)) && t1 != t2 {
        PushedPairWellFormed(old(conflicts), t1, t2);
      }
    }

    /** `is_conflicts`: the graph has an entry. */
    function IsConflicts(): (r: bool)
      reads this
      ensures r <==> conflicts != map[]
    {
      |conflicts| > 0
    }

    /** `remove_conflict_with`: drop the entry of `tile`, remove `tile` once from the list
        of each label it lists, and drop the lists left empty. The source panics when
        `tile` has no entry or a listed label does not list it back, which the graph's
        invariant rules out. */
    method RemoveConflictWith(tile: nat)
      requires WellFormed(conflicts) && tile in conflicts
      modifies this
      ensures conflicts == Removed(old(conflicts), tile)
    {
      ghost var m := conflicts;
      var links := conflicts[tile];
      conflicts := conflicts - {tile};
      StageStart(m, tile);
      for i := 0 to |links|
        invariant conflicts == Stage(m - {tile}, tile, links[..i])
      {
        var l := links[i];
        StageHasLink(m, tile, i);
        var others := conflicts[l];
        var idx := IndexOf(others, tile);
        others := others[..idx] + others[idx + 1..];
        RemoveFirstAt(conflicts[l], tile);
        assert others == RemoveFirst(conflicts[l], tile);
        assert links[..i + 1] == links[..i] + [l];
        if |others| == 0 {
          StageDrop(m - {tile}, tile, links[..i], l);
          conflicts := conflicts - {l};
        } else {
          StageShrink(m - {tile}, tile, links[..i], l);
          conflicts := conflicts[l := others];
        }
      }
      assert links[..|links|] == links;
      StageEnd(m, tile);
    }

    /** `most_conflicts`: a label whose list is the longest (`max_by` keeps the last of
        equal maxima in the map's iteration order, which is unspecified). The source
        panics on an empty graph. */
    method MostConflicts() returns (tile: nat)
      requires conflicts != map[]
      ensures IsMaxDegree(conflicts, tile)
    {
      var keys := conflicts.Keys;
      tile :| tile in keys;
      keys := keys - {tile};
      while keys != {}
        invariant keys <= conflicts.Keys && tile in conflicts
        invariant forall k :: k in conflicts && k !in keys ==> |conflicts[k]| <= |conflicts[tile]|
        decreases keys
      {
        var k :| k in keys;
        if |conflicts[k]| >= |conflicts[tile]| {
          tile := k;
        }
        keys := keys - {k};
      }
    }
  }

  /** Recording the conflict `a`-`b` in a graph where neither label has an entry. */
  lemma PushedPairFresh(m: Adjacency, a: nat, b: nat)
    requires a !in m && b !in m && a != b
    ensures PushedPair(m, a, b) == m[a := [b]][b := [a]]
  {
    assert [] + [b] == [b] && [] + [a] == [a];
  }

  /** The graph the tests build with `push_conflict(1, 2)` and `push_conflict(1, 3)`. */
  lemma PushConflictExample()
    ensures PushedPair(PushedPair(map[], 1, 2), 1, 3) == map[1 := [2, 3], 2 := [1], 3 := [1]]
  {
    var e: Adjacency := map[];
    PushedPairFresh(e, 1, 2);
    var g: Adjacency := map[1 := [2], 2 := [1]];
    assert PushedPair(e, 1, 2) == g;
    assert [2] + [3] == [2, 3] && [] + [1] == [1];
    assert 3 !in g;
  }

  /** On that graph, removing 2 and then 3 leaves it empty, and so does removing 1. */
  lemma RemoveConflictExamples()
    ensures var g := map[1 := [2, 3], 2 := [1], 3 := [1]];
      Removed(Removed(g, 2), 3) == map[] && Removed(g, 1) == map[]
  {
    var g: Adjacency := map[1 := [2, 3], 2 := [1], 3 := [1]];
    FilterTwo(2, 3, 2);
    assert Filter([1], 2) == [1];
    RemovedCorner(g, 2, 1, 3);
    RemovedEdge(Removed(g, 2), 1, 3, 3);
    assert Filter([1], 1) == [];
    assert Removed(g, 1).Keys == {};
  }

  /** With conflicts 1-2, 1-3, 2-3 and 1-4, label 1 is the only one of largest degree. */
  lemma MostConflictsExample(k: nat)
    requires IsMaxDegree(PushedPair(PushedPair(PushedPair(PushedPair(map[], 1, 2), 1, 3), 2, 3), 1, 4), k)
    ensures k == 1
  {
    PushConflictExample();
    var g3: Adjacency := map[1 := [2, 3], 2 := [1], 3 := [1]];
    assert [1] + [3] == [1, 3] && [1] + [2] == [1, 2];
    var g4: Adjacency := map[1 := [2, 3], 2 := [1, 3], 3 := [1, 2]];
    assert PushedPair(g3, 2, 3) == g4;
    assert [2, 3] + [4] == [2, 3, 4] && [] + [1] == [1];
    assert 4 !in g4;
    var g := map[1 := [2, 3, 4], 2 := [1, 3], 3 := [1, 2], 4 := [1]];
    assert PushedPair(g4, 1, 4) == g;
    assert |g[1]| == 3;
  }
}
