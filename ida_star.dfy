/**
  Iterative deepening A* (`src/ida_star.rs`). `search` is a depth-first search cut
  off where `g + h` passes `bound`, over a path of boards kept in a vector it pushes
  to and pops from; `ida_star` raises the bound to the least estimate that went past
  it, until the goal is found or nothing is left to explore.

  The heuristic is the parameter `h` (the source's `&dyn Heuristic`, of which only
  `first_time` is called) and the neighbour generator the parameter `next` (the
  source's `get_neighbors`); `Expand` is the one the puzzle gives, and
  `IdaStarRun` searches with it. `Outcome` and `Explore` state what `search`
  computes, with the path it leaves behind; the method `Search` is proved to
  compute it.
*/
module IdaStar {
  import opened Wrappers
  import opened Puzzles

  datatype SearchResult = Found | NotFound | Minimum(m: nat)

  /** The record `ida_star` returns; only the fields it sets. */
  datatype Solution = Solution(totalOpened: nat, maxStates: nat, path: seq<Puzzle>)

  /** `Heuristic::first_time(p, end)`. */
  type Heuristic = (Puzzle, Puzzle) -> nat

  /** `Puzzle::get_neighbors`. */
  type Expander = Puzzle -> seq<Puzzle>

  /** A board the search can expand: square, with a blank, every slide the grid
      allows landing inside the array. */
  predicate Square(p: Puzzle)
  {
    p.n > 0 && |p.flat| == p.n * p.n && 0 in p.flat && CanExpand(p)
  }

  /** The successors of a square board are square. */
  lemma SquareSuccessors(p: Puzzle, q: Puzzle)
    requires Square(p) && q in Successors(p)
    ensures Square(q)
  {
    SuccessorsSound(p, q);
    assert |q.flat| == |multiset(q.flat)| == |multiset(p.flat)| == |p.flat|;
    assert 0 in multiset(q.flat);
    SquareCanExpand(q);
  }

  /** The neighbours of a board: its successors when it can be expanded, which every
      board reached from a square one can (`SquareSuccessors`). */
  function Expand(p: Puzzle): (r: seq<Puzzle>)
    ensures Square(p) ==> forall q :: q in r ==> Square(q) && q in Successors(p)
  {
    if CanExpand(p) then
      assert Square(p) ==> forall q :: q in Successors(p) ==> Square(q) by {
        if Square(p) {
          forall q | q in Successors(p)
            ensures Square(q)
          {
            SquareSuccessors(p, q);
          }
        }
      }
      Successors(p)
    else []
  }

  function Last(path: seq<Puzzle>): Puzzle
    requires path != []
  {
    path[|path| - 1]
  }

  /** `path.contains(&p)`: puzzles are compared on `flat` only. */
  predicate OnPath(path: seq<Puzzle>, p: Puzzle)
  {
    exists i :: 0 <= i < |path| && Same(path[i], p)
  }

  /** No two boards of the path are equal. */
  predicate NoRepeat(path: seq<Puzzle>)
  {
    forall i, j :: 0 <= i < j < |path| ==> !Same(path[i], path[j])
  }

  /** From position `from` on, each board of the path is a neighbour of the one before. */
  predicate Steps(path: seq<Puzzle>, from: nat, next: Expander)
  {
    forall i :: from <= i < |path| - 1 ==> path[i + 1] in next(path[i])
  }

  // ---------------------------------------------------------------- the children of a board

  /** The `filter_map` of `search`: each board of `ns` not on the path, paired with the
      estimate `g + h(child) + 1` of a path through it. */
  function Fresh(ns: seq<Puzzle>, path: seq<Puzzle>, g: nat, end: Puzzle, h: Heuristic): seq<(Puzzle, nat)>
  {
    if ns == [] then []
    else
      var rest := Fresh(ns[1..], path, g, end, h);
      if OnPath(path, ns[0]) then rest else [(ns[0], g + h(ns[0], end) + 1)] + rest
  }

  /** The boards kept are exactly those of `ns` not on the path, each with its estimate. */
  lemma {:induction false} FreshMeaning(ns: seq<Puzzle>, path: seq<Puzzle>, g: nat, end: Puzzle, h: Heuristic)
    ensures forall k :: k in Fresh(ns, path, g, end, h) ==>
      k.0 in ns && !OnPath(path, k.0) && k.1 == g + h(k.0, end) + 1
    ensures forall q :: q in ns && !OnPath(path, q) ==> (q, g + h(q, end) + 1) in Fresh(ns, path, g, end, h)
  {
    if ns != [] {
      assert ns == [ns[0]] + ns[1..];
      FreshMeaning(ns[1..], path, g, end, h);
    }
  }

  /** Ascending estimates. */
  predicate ByCost(s: seq<(Puzzle, nat)>)
  {
    forall i, j :: 0 <= i < j < |s| ==> s[i].1 <= s[j].1
  }

  /** The entries of `s` with estimate `c`, in order. */
  function OfCost(s: seq<(Puzzle, nat)>, c: nat): seq<(Puzzle, nat)>
  {
    if s == [] then [] else (if s[0].1 == c then [s[0]] else []) + OfCost(s[1..], c)
  }

  /** `x` placed before the first entry of estimate at least its own. */
  function Insert(x: (Puzzle, nat), s: seq<(Puzzle, nat)>): (r: seq<(Puzzle, nat)>)
    ensures multiset(r) == multiset(s) + multiset{x}
  {
    if s == [] || x.1 <= s[0].1 then [x] + s
    else
      assert s == [s[0]] + s[1..];
      [s[0]] + Insert(x, s[1..])
  }

  /** Inserting into a sorted sequence keeps it sorted. */
  lemma {:induction false} InsertByCost(x: (Puzzle, nat), s: seq<(Puzzle, nat)>)
    requires ByCost(s)
    ensures ByCost(Insert(x, s))
  {
    if s != [] && x.1 > s[0].1 {
      var tail := s[1..];
      ByCostTail(s);
      InsertByCost(x, tail);
      InsertAbove(x, tail, s[0].1);
      ByCostCons(s[0], Insert(x, tail));
    } else if s != [] {
      ByCostCons(x, s);
    }
  }

  /** The tail of a sorted sequence is sorted, and no entry lies below its head. */
  lemma ByCostTail(s: seq<(Puzzle, nat)>)
    requires ByCost(s) && s != []
    ensures ByCost(s[1..])
    ensures forall j :: 0 <= j < |s[1..]| ==> s[0].1 <= s[1..][j].1
  {
    assert forall j :: 0 <= j < |s[1..]| ==> s[1..][j] == s[j + 1];
  }

  /** An entry no larger than the first of a sorted sequence can be put in front. */
  lemma ByCostCons(a: (Puzzle, nat), t: seq<(Puzzle, nat)>)
    requires ByCost(t) && forall j :: 0 <= j < |t| ==> a.1 <= t[j].1
    ensures ByCost([a] + t)
  {
    var r := [a] + t;
    forall i, j | 0 <= i < j < |r|
      ensures r[i].1 <= r[j].1
    {
      assert r[j] == t[j - 1];
      if i > 0 {
        assert r[i] == t[i - 1];
      }
    }
  }

  /** A lower bound on `x` and on every entry of `s` bounds every entry of the insertion. */
  lemma InsertAbove(x: (Puzzle, nat), s: seq<(Puzzle, nat)>, c: nat)
    requires c <= x.1 && forall j :: 0 <= j < |s| ==> c <= s[j].1
    ensures forall j :: 0 <= j < |Insert(x, s)| ==> c <= Insert(x, s)[j].1
  {
    var t := Insert(x, s);
    forall j | 0 <= j < |t|
      ensures c <= t[j].1
    {
      assert t[j] in multiset(s) + multiset{x};
      if t[j] != x {
        var k :| 0 <= k < |s| && s[k] == t[j];
      }
    }
  }

  /** `sort_by_key` on the estimate, an insertion sort. */
  function SortByCost(s: seq<(Puzzle, nat)>): seq<(Puzzle, nat)>
  {
    if s == [] then [] else Insert(s[0], SortByCost(s[1..]))
  }

  /** The sort only reorders. */
  lemma {:induction false} SortPermutes(s: seq<(Puzzle, nat)>)
    ensures multiset(SortByCost(s)) == multiset(s)
  {
    if s != [] {
      assert s == [s[0]] + s[1..];
      SortPermutes(s[1..]);
    }
  }

  /** The sort leaves the estimates ascending. */
  lemma {:induction false} SortSorted(s: seq<(Puzzle, nat)>)
    ensures ByCost(SortByCost(s))
  {
    if s != [] {
      SortSorted(s[1..]);
      InsertByCost(s[0], SortByCost(s[1..]));
    }
  }

  /** Inserting into a sorted sequence keeps the entries of each estimate in order,
      `x` first among those of its own. */
  lemma {:induction false} InsertStable(x: (Puzzle, nat), s: seq<(Puzzle, nat)>, c: nat)
    requires ByCost(s)
    ensures OfCost(Insert(x, s), c) == (if x.1 == c then [x] else []) + OfCost(s, c)
  {
    if s != [] && x.1 > s[0].1 {
      InsertStable(x, s[1..], c);
      assert ([s[0]] + Insert(x, s[1..]))[1..] == Insert(x, s[1..]);
    } else {
      assert ([x] + s)[1..] == s;
    }
  }

  /** The sort is stable, as `sort_by_key` is: the entries of each estimate keep their
      order. */
  lemma {:induction false} SortStable(s: seq<(Puzzle, nat)>, c: nat)
    ensures OfCost(SortByCost(s), c) == OfCost(s, c)
  {
    if s != [] {
      SortStable(s[1..], c);
      SortSorted(s[1..]);
      InsertStable(s[0], SortByCost(s[1..]), c);
    }
  }

  /** The children `search` explores, in the order it explores them. */
  function Children(path: seq<Puzzle>, g: nat, end: Puzzle, h: Heuristic, next: Expander): seq<(Puzzle, nat)>
    requires path != []
  {
    SortByCost(Fresh(next(Last(path)), path, g, end, h))
  }

  /** The children are exactly the neighbours of the last board that are not on the
      path, each with the estimate `g + h(child) + 1`. */
  lemma ChildrenMeaning(path: seq<Puzzle>, g: nat, end: Puzzle, h: Heuristic, next: Expander)
    requires path != []
    ensures forall k :: k in Children(path, g, end, h, next) ==>
      k.0 in next(Last(path)) && !OnPath(path, k.0) && k.1 == g + h(k.0, end) + 1
    ensures forall q :: q in next(Last(path)) && !OnPath(path, q) ==>
      (q, g + h(q, end) + 1) in Children(path, g, end, h, next)
  {
    var unseen := Fresh(next(Last(path)), path, g, end, h);
    FreshMeaning(next(Last(path)), path, g, end, h);
    SortPermutes(unseen);
    assert forall k :: k in Children(path, g, end, h, next) <==> k in multiset(unseen);
  }

  /** ... explored in ascending order of estimate. */
  lemma ChildrenSorted(path: seq<Puzzle>, g: nat, end: Puzzle, h: Heuristic, next: Expander)
    requires path != []
    ensures ByCost(Children(path, g, end, h, next))
  {
    SortSorted(Fresh(next(Last(path)), path, g, end, h));
  }

  // ---------------------------------------------------------------- what search computes

  /** The `match` on a child's result: a `Minimum` below the least so far replaces it. */
  function Lower(min: Option<nat>, t: SearchResult): (r: Option<nat>)
    ensures min.Some? ==> r.Some? && r.value <= min.value
    ensures t.Minimum? ==> r.Some? && r.value <= t.m
    ensures r == min || (t.Minimum? && r == Some(t.m))
  {
    match t
    case Minimum(m) =>
      (match min
       case None => Some(m)
       case Some(n) => if m < n then Some(m) else min)
    case _ => min
  }

  /** What `search(path, g, bound, end, h)` returns, with the path it leaves behind.
      The path only grows, and only on `Found`; a `Minimum` is past the bound. */
  function Outcome(path: seq<Puzzle>, g: nat, bound: nat, end: Puzzle, h: Heuristic, next: Expander)
    : (r: (SearchResult, seq<Puzzle>))
    requires path != []
    ensures |r.1| >= |path| && r.1[..|path|] == path
    ensures r.0 != Found ==> r.1 == path
    ensures r.0.Minimum? ==> r.0.m > bound
    decreases if g <= bound then bound + 1 - g else 0, 0
  {
    var start := Last(path);
    var f := g + h(start, end);
    if f > bound then (Minimum(f), path)
    else if Same(start, end) then (Found, path)
    else Explore(path, g, bound, end, h, next, Children(path, g, end, h, next), 0, None)
  }

  /** The loop of `search` over the children from the `i`-th on, `min` being the least
      `Minimum` they have reported so far: each child is pushed, searched one level
      deeper, and popped unless it found the goal. */
  function Explore(path: seq<Puzzle>, g: nat, bound: nat, end: Puzzle, h: Heuristic, next: Expander,
                   kids: seq<(Puzzle, nat)>, i: nat, min: Option<nat>): (r: (SearchResult, seq<Puzzle>))
    requires path != [] && g <= bound && i <= |kids|
    requires min.Some? ==> min.value > bound
    ensures |r.1| >= |path| && r.1[..|path|] == path
    ensures r.0 != Found ==> r.1 == path
    ensures r.0.Minimum? ==> r.0.m > bound
    decreases bound - g, |kids| - i
  {
    if i == |kids| then (if min.Some? then Minimum(min.value) else NotFound, path)
    else
      var t := Outcome(path + [kids[i].0], g + 1, bound, end, h, next);
      if t.0 == Found then
        assert (path + [kids[i].0])[..|path|] == path;
        t
      else Explore(path, g, bound, end, h, next, kids, i + 1, Lower(min, t.0))
  }

  // ---------------------------------------------------------------- properties of the search

  /** On `Found` the path ends at a board equal to `end`, each board it added being a
      neighbour of the one before; a path without repeats keeps none. */
  lemma {:induction false} OutcomeFound(path: seq<Puzzle>, g: nat, bound: nat, end: Puzzle, h: Heuristic,
                                        next: Expander)
    requires path != []
    requires Outcome(path, g, bound, end, h, next).0 == Found
    ensures var p := Outcome(path, g, bound, end, h, next).1;
      Same(Last(p), end) && Steps(p, |path| - 1, next) && (NoRepeat(path) ==> NoRepeat(p))
    decreases if g <= bound then bound + 1 - g else 0, 0
  {
    var start := Last(path);
    if !Same(start, end) {
      var kids := Children(path, g, end, h, next);
      ChildrenMeaning(path, g, end, h, next);
      var j := FoundBy(path, g, bound, end, h, next, kids, 0, None);
      ChildFound(path, g, bound, end, h, next, kids[j].0);
    }
  }

  /** A loop that found the goal did so through one of its children: the loop's result
      is that child's search result. */
  lemma {:induction false} FoundBy(path: seq<Puzzle>, g: nat, bound: nat, end: Puzzle, h: Heuristic, next: Expander,
                                   kids: seq<(Puzzle, nat)>, i: nat, min: Option<nat>) returns (j: nat)
    requires path != [] && g <= bound && i <= |kids|
    requires min.Some? ==> min.value > bound
    requires Explore(path, g, bound, end, h, next, kids, i, min).0 == Found
    ensures i <= j < |kids| && kids[j] in kids
    ensures Outcome(path + [kids[j].0], g + 1, bound, end, h, next) == Explore(path, g, bound, end, h, next, kids, i, min)
    decreases |kids| - i
  {
    var t := Outcome(path + [kids[i].0], g + 1, bound, end, h, next);
    if t.0 == Found {
      j := i;
    } else {
      j := FoundBy(path, g, bound, end, h, next, kids, i + 1, Lower(min, t.0));
    }
  }

  /** A child that found the goal extends the path by itself and then by steps. */
  lemma {:induction false} ChildFound(path: seq<Puzzle>, g: nat, bound: nat, end: Puzzle, h: Heuristic,
                                      next: Expander, kid: Puzzle)
    requires path != [] && g <= bound
    requires kid in next(Last(path)) && !OnPath(path, kid)
    requires Outcome(path + [kid], g + 1, bound, end, h, next).0 == Found
    ensures var p := Outcome(path + [kid], g + 1, bound, end, h, next).1;
      Same(Last(p), end) && Steps(p, |path| - 1, next) && (NoRepeat(path) ==> NoRepeat(p))
    decreases bound - g, 1
  {
    var child := path + [kid];
    OutcomeFound(child, g + 1, bound, end, h, next);
    var p := Outcome(child, g + 1, bound, end, h, next).1;
    assert p[..|child|] == child;
    assert p[|path| - 1] == child[|path| - 1] == Last(path);
    assert p[|path|] == child[|path|] == kid;
    StepsExtend(p, |path| - 1, next);
    if NoRepeat(path) {
      FreshKeepsNoRepeat(path, kid);
    }
  }

  /** One more step in front of a chain of steps. */
  lemma StepsExtend(p: seq<Puzzle>, k: nat, next: Expander)
    requires k + 1 < |p| && Steps(p, k + 1, next) && p[k + 1] in next(p[k])
    ensures Steps(p, k, next)
  {
  }

  /** A board not on a path without repeats extends it without repeats. */
  lemma FreshKeepsNoRepeat(path: seq<Puzzle>, kid: Puzzle)
    requires NoRepeat(path) && !OnPath(path, kid)
    ensures NoRepeat(path + [kid])
  {
    var child := path + [kid];
    forall a, b | 0 <= a < b < |child|
      ensures !Same(child[a], child[b])
    {
      if b == |path| {
        assert child[a] == path[a];
      } else {
        assert child[a] == path[a] && child[b] == path[b];
      }
    }
  }

  /** A `Minimum` from the loop is at most every `Minimum` a remaining child reported;
      `NotFound` means no remaining child reported one. */
  lemma {:induction false} ExploreLeast(path: seq<Puzzle>, g: nat, bound: nat, end: Puzzle, h: Heuristic,
                                        next: Expander, kids: seq<(Puzzle, nat)>, i: nat, min: Option<nat>)
    requires path != [] && g <= bound && i <= |kids|
    requires min.Some? ==> min.value > bound
    ensures var r := Explore(path, g, bound, end, h, next, kids, i, min).0;
      forall j :: i <= j < |kids| ==>
        var t := Outcome(path + [kids[j].0], g + 1, bound, end, h, next).0;
        (r.Minimum? && t.Minimum? ==> r.m <= t.m) && (r == NotFound ==> t == NotFound)
    decreases |kids| - i
  {
    if i < |kids| {
      var t := Outcome(path + [kids[i].0], g + 1, bound, end, h, next);
      if t.0 != Found {
        ExploreLeast(path, g, bound, end, h, next, kids, i + 1, Lower(min, t.0));
        ExploreCarried(path, g, bound, end, h, next, kids, i + 1, Lower(min, t.0));
      }
    }
  }

  /** ... and at most the `Minimum` carried in; `NotFound` means none was carried in. */
  lemma {:induction false} ExploreCarried(path: seq<Puzzle>, g: nat, bound: nat, end: Puzzle, h: Heuristic,
                                          next: Expander, kids: seq<(Puzzle, nat)>, i: nat, min: Option<nat>)
    requires path != [] && g <= bound && i <= |kids|
    requires min.Some? ==> min.value > bound
    ensures var r := Explore(path, g, bound, end, h, next, kids, i, min).0;
      (r.Minimum? && min.Some? ==> r.m <= min.value) && (r == NotFound ==> min == None)
    decreases |kids| - i
  {
    if i < |kids| {
      var t := Outcome(path + [kids[i].0], g + 1, bound, end, h, next);
      if t.0 != Found {
        ExploreCarried(path, g, bound, end, h, next, kids, i + 1, Lower(min, t.0));
      }
    }
  }

  /** A `Minimum` from the loop is the one carried in or one a remaining child reported. */
  lemma {:induction false} ExploreAttained(path: seq<Puzzle>, g: nat, bound: nat, end: Puzzle, h: Heuristic,
                                           next: Expander, kids: seq<(Puzzle, nat)>, i: nat, min: Option<nat>)
    requires path != [] && g <= bound && i <= |kids|
    requires min.Some? ==> min.value > bound
    ensures var r := Explore(path, g, bound, end, h, next, kids, i, min).0;
      r.Minimum? ==>
        (min == Some(r.m) ||
         exists j :: i <= j < |kids| && Outcome(path + [kids[j].0], g + 1, bound, end, h, next).0 == Minimum(r.m))
    decreases |kids| - i
  {
    if i < |kids| {
      var t := Outcome(path + [kids[i].0], g + 1, bound, end, h, next);
      if t.0 != Found {
        ExploreAttained(path, g, bound, end, h, next, kids, i + 1, Lower(min, t.0));
      }
    }
  }

  /** The loop returns `Found` as soon as a remaining child does, and `NotFound` when
      nothing was carried in and every remaining child reported `NotFound`. */
  lemma {:induction false} ExploreDecided(path: seq<Puzzle>, g: nat, bound: nat, end: Puzzle, h: Heuristic,
                                          next: Expander, kids: seq<(Puzzle, nat)>, i: nat, min: Option<nat>)
    requires path != [] && g <= bound && i <= |kids|
    requires min.Some? ==> min.value > bound
    ensures (exists j :: i <= j < |kids| && Outcome(path + [kids[j].0], g + 1, bound, end, h, next).0 == Found) ==>
      Explore(path, g, bound, end, h, next, kids, i, min).0 == Found
    ensures (min == None && forall j :: i <= j < |kids| ==> Outcome(path + [kids[j].0], g + 1, bound, end, h, next).0 == NotFound) ==>
      Explore(path, g, bound, end, h, next, kids, i, min).0 == NotFound
    decreases |kids| - i
  {
    if i < |kids| {
      var t := Outcome(path + [kids[i].0], g + 1, bound, end, h, next);
      if t.0 != Found {
        ExploreDecided(path, g, bound, end, h, next, kids, i + 1, Lower(min, t.0));
      }
    }
  }

  /** `search` on a board within the bound that is not the goal: `Found` exactly when
      some child found it, otherwise the least `Minimum` the children reported, and
      `NotFound` exactly when every child reported `NotFound`. */
  lemma OutcomeOfChildren(path: seq<Puzzle>, g: nat, bound: nat, end: Puzzle, h: Heuristic, next: Expander)
    requires path != [] && g + h(Last(path), end) <= bound && !Same(Last(path), end)
    ensures var r := Outcome(path, g, bound, end, h, next).0;
      var kids := Children(path, g, end, h, next);
      (r == Found <==> exists j :: 0 <= j < |kids| && Outcome(path + [kids[j].0], g + 1, bound, end, h, next).0 == Found) &&
      (r == NotFound <==> forall j :: 0 <= j < |kids| ==> Outcome(path + [kids[j].0], g + 1, bound, end, h, next).0 == NotFound) &&
      (r.Minimum? ==> exists j :: 0 <= j < |kids| && Outcome(path + [kids[j].0], g + 1, bound, end, h, next).0 == r) &&
      (r.Minimum? ==> forall j :: 0 <= j < |kids| ==>
         var t := Outcome(path + [kids[j].0], g + 1, bound, end, h, next).0; t.Minimum? ==> r.m <= t.m)
  {
    var kids := Children(path, g, end, h, next);
    ExploreLeast(path, g, bound, end, h, next, kids, 0, None);
    ExploreAttained(path, g, bound, end, h, next, kids, 0, None);
    ExploreDecided(path, g, bound, end, h, next, kids, 0, None);
    if Outcome(path, g, bound, end, h, next).0 == Found {
      var j := FoundBy(path, g, bound, end, h, next, kids, 0, None);
    }
  }

  /** The boards of a path that starts square and steps through `Expand` are square,
      each a successor of the one before. */
  lemma {:induction false} ExpandSteps(path: seq<Puzzle>, k: nat)
    requires k < |path| && Square(path[0]) && Steps(path, 0, Expand)
    ensures Square(path[k])
    ensures k + 1 < |path| ==> path[k + 1] in Successors(path[k])
  {
    if k > 0 {
      ExpandSteps(path, k - 1);
    }
  }

  // ---------------------------------------------------------------- the imperative search

  /** The vector of boards `search` pushes to and pops from. */
  class PathStack {
    var boards: seq<Puzzle>

    constructor (start: Puzzle)
      ensures boards == [start]
    {
      boards := [start];
    }
  }

  /** `search`: computes `Outcome` on the boards of `stack`, pushing each child before
      searching it and popping it afterwards unless the goal was found below it. */
  method Search(stack: PathStack, g: nat, bound: nat, end: Puzzle, h: Heuristic, next: Expander)
      returns (r: SearchResult)
    requires stack.boards != []
    modifies stack
    ensures r == Outcome(old(stack.boards), g, bound, end, h, next).0
    ensures stack.boards == Outcome(old(stack.boards), g, bound, end, h, next).1
    decreases if g <= bound then bound + 1 - g else 0, 0
  {
    var start := Last(stack.boards);
    var f := g + h(start, end);
    if f > bound {
      return Minimum(f);
    }
    if Same(start, end) {
      return Found;
    }
    var neighbors := next(start);
    var kids := SortByCost(Fresh(neighbors, stack.boards, g, end, h));
    r := SearchChildren(stack, g, bound, end, h, next, kids);
  }

  /** The `for` loop of `search` over the sorted children: push each, search it one
      level deeper, return on `Found`, otherwise keep the least `Minimum` and pop. */
  method SearchChildren(stack: PathStack, g: nat, bound: nat, end: Puzzle, h: Heuristic, next: Expander,
                        kids: seq<(Puzzle, nat)>) returns (r: SearchResult)
    requires stack.boards != [] && g <= bound
    modifies stack
    ensures r == Explore(old(stack.boards), g, bound, end, h, next, kids, 0, None).0
    ensures stack.boards == Explore(old(stack.boards), g, bound, end, h, next, kids, 0, None).1
    decreases bound - g, 1
  {
    ghost var path := stack.boards;
    var min: Option<nat> := None;
    for i := 0 to |kids|
      invariant stack.boards == path
      invariant min.Some? ==> min.value > bound
      invariant Explore(path, g, bound, end, h, next, kids, i, min) == Explore(path, g, bound, end, h, next, kids, 0, None)
    {
      var node := kids[i].0;
      stack.boards := stack.boards + [node];
      var t := Search(stack, g + 1, bound, end, h, next);
      ghost var min0 := min;
      match t {
        case Minimum(m) =>
          match min {
            case None => min := Some(m);
            case Some(n) =>
              if m < n {
                min := Some(m);
              }
          }
        case Found =>
          return Found;
        case NotFound =>
      }
      assert min == Lower(min0, t);
      stack.boards := stack.boards[..|stack.boards| - 1];
    }
    r := if min.Some? then Minimum(min.value) else NotFound;
  }

  /** A search from the start board alone that finds the goal leaves a path without
      repeats from the start to a board equal to `end`; from a square start each step
      is a legal slide. */
  lemma FoundSolution(start: Puzzle, bound: nat, end: Puzzle, h: Heuristic)
    requires Outcome([start], 0, bound, end, h, Expand).0 == Found
    ensures var path := Outcome([start], 0, bound, end, h, Expand).1;
      path != [] && path[0] == start && Same(Last(path), end) && NoRepeat(path) && Steps(path, 0, Expand)
    ensures var path := Outcome([start], 0, bound, end, h, Expand).1;
      Square(start) ==> forall k :: 0 <= k < |path| - 1 ==> Square(path[k]) && path[k + 1] in Successors(path[k])
  {
    OutcomeFound([start], 0, bound, end, h, Expand);
    var path := Outcome([start], 0, bound, end, h, Expand).1;
    assert path[..1] == [start];
    if Square(start) {
      forall k | 0 <= k < |path| - 1
        ensures Square(path[k]) && path[k + 1] in Successors(path[k])
      {
        ExpandSteps(path, k);
      }
    }
  }

  /** `ida_star` from a square start (on any other board `neighbors` panics), allowed
      at most `rounds` calls to `search` (the source loops until `search` returns
      `Found` or `NotFound`): `done` is false when the rounds ran out.
      `bounds` lists the bounds tried, the first being `h(start, end)` and each next
      one the `Minimum` the search under the previous one returned. */
  method IdaStarRun(start: Puzzle, end: Puzzle, h: Heuristic, rounds: nat)
      returns (result: Option<Solution>, done: bool, ghost bounds: seq<nat>)
    requires Square(start)
    ensures bounds != [] && bounds[0] == h(start, end)
    ensures forall k :: 0 <= k < |bounds| - 1 ==>
      Outcome([start], 0, bounds[k], end, h, Expand).0 == Minimum(bounds[k + 1]) && bounds[k] < bounds[k + 1]
    ensures done ==> result == (match Outcome([start], 0, bounds[|bounds| - 1], end, h, Expand)
                                case (Found, path) => Some(Solution(0, 0, path))
                                case _ => None)
    ensures done ==> !Outcome([start], 0, bounds[|bounds| - 1], end, h, Expand).0.Minimum?
    ensures !done ==> result == None && |bounds| == rounds + 1
    ensures result.Some? ==> var path := result.value.path;
      path != [] && path[0] == start && Same(Last(path), end) && NoRepeat(path) && Steps(path, 0, Expand)
    ensures result.Some? ==> var path := result.value.path;
      forall k :: 0 <= k < |path| - 1 ==> Square(path[k]) && path[k + 1] in Successors(path[k])
  {
    var bound := h(start, end);
    var stack := new PathStack(start);
    bounds := [bound];
    for round := 0 to rounds
      invariant stack.boards == [start]
      invariant |bounds| == round + 1 && bounds[0] == h(start, end) && bounds[round] == bound
      invariant forall k :: 0 <= k < |bounds| - 1 ==>
        Outcome([start], 0, bounds[k], end, h, Expand).0 == Minimum(bounds[k + 1]) && bounds[k] < bounds[k + 1]
    {
      var r := Search(stack, 0, bound, end, h, Expand);
      match r {
        case Found =>
          FoundSolution(start, bound, end, h);
          return Some(Solution(0, 0, stack.boards)), true, bounds;
        case Minimum(m) =>
          bound := m;
          bounds := bounds + [m];
        case NotFound =>
          return None, true, bounds;
      }
    }
    return None, false, bounds;
  }
}
