/** The shortest-path query the map service delegates to an A* library.
    The library's cost rule is kept exactly: entering a hex costs 1 when it
    is free or is the goal, and is impossible (infinite cost) when another
    unit occupies it; neighbours are the grid hexes on the radius-1 ring.
    With unit costs and an admissible heuristic A* returns a shortest path,
    so the model computes the same length by breadth-first layers and
    proves that a path of that length exists and that none is shorter. */
module Paths {
  import opened Results
  import opened Hex
  import opened Entities
  import opened Tiles

  /** A projected grid: the hexes of the board with their tiles. */
  type Grid = map<Coord, Tile>

  /** `actualCostToMove` is finite for `c`: it is a grid hex, and it is
      free or it is the goal. */
  predicate Enterable(g: Grid, goal: Coord, c: Coord) {
    c in g && (c == goal || !IsOccupied(g[c]))
  }

  /** One step: to a radius-1 neighbour that may be entered. */
  predicate Step(g: Grid, goal: Coord, x: Coord, y: Coord) {
    Adjacent(x, y) && Enterable(g, goal, y)
  }

  /** A finite-cost walk from `start` to `end` while searching for `goal`. */
  predicate IsWalk(g: Grid, goal: Coord, start: Coord, end: Coord, p: seq<Coord>) {
    && |p| > 0 && p[0] == start && p[|p| - 1] == end
    && forall i :: 0 <= i < |p| - 1 ==> Step(g, goal, p[i], p[i + 1])
  }

  /** Dropping the last hex of a walk leaves a walk to the hex before it. */
  lemma WalkPrefix(g: Grid, goal: Coord, start: Coord, end: Coord, p: seq<Coord>)
    requires IsWalk(g, goal, start, end, p) && |p| > 1
    ensures IsWalk(g, goal, start, p[|p| - 2], p[..|p| - 1])
    ensures Step(g, goal, p[|p| - 2], end)
  {
    var q := p[..|p| - 1];
    assert forall i :: 0 <= i < |q| ==> q[i] == p[i];
  }

  /** Extending a walk by one step gives a walk. */
  lemma WalkExtend(g: Grid, goal: Coord, start: Coord, x: Coord, y: Coord, q: seq<Coord>)
    requires IsWalk(g, goal, start, x, q) && Step(g, goal, x, y)
    ensures IsWalk(g, goal, start, y, q + [y])
  {
    var p := q + [y];
    assert forall i :: 0 <= i < |q| ==> p[i] == q[i];
  }

  /** A path the search may return: a finite-cost walk ending at the goal.
      Consecutive hexes are ring-1 neighbours and every hex after the start
      other than the goal is free. */
  predicate IsPath(g: Grid, start: Coord, goal: Coord, p: seq<Coord>) {
    IsWalk(g, goal, start, goal, p)
  }

  /** `y` may be entered and one of its six neighbours is in `reached`;
      the neighbours are listed explicitly so that the layers below stay
      free of quantifiers. */
  predicate EnteredFrom(g: Grid, goal: Coord, reached: set<Coord>, y: Coord) {
    && Enterable(g, goal, y)
    && (|| Coord(y.q - 1, y.r) in reached || Coord(y.q - 1, y.r + 1) in reached
        || Coord(y.q, y.r + 1) in reached || Coord(y.q + 1, y.r) in reached
        || Coord(y.q + 1, y.r - 1) in reached || Coord(y.q, y.r - 1) in reached)
  }

  /** A step from a reached hex enters its target. */
  lemma StepEnters(g: Grid, goal: Coord, reached: set<Coord>, x: Coord, y: Coord)
    requires x in reached && Step(g, goal, x, y)
    ensures EnteredFrom(g, goal, reached, y)
  {
  }

  /** The hexes one more step can add to `reached`. */
  function Expand(g: Grid, goal: Coord, reached: set<Coord>): set<Coord> {
    reached + set y | y in g.Keys && EnteredFrom(g, goal, reached, y)
  }

  /** A hex that `Expand` added was entered from a hex already reached. */
  lemma ExpandWitness(g: Grid, goal: Coord, reached: set<Coord>, y: Coord) returns (x: Coord)
    requires y in Expand(g, goal, reached) && y !in reached
    ensures x in reached && Step(g, goal, x, y)
  {
    assert EnteredFrom(g, goal, reached, y);
    x :| x in reached && Adjacent(x, y) && x in [
      Coord(y.q - 1, y.r), Coord(y.q - 1, y.r + 1), Coord(y.q, y.r + 1),
      Coord(y.q + 1, y.r), Coord(y.q + 1, y.r - 1), Coord(y.q, y.r - 1)];
  }

  /** The hexes reachable from `start` in at most `k` steps. */
  function Reach(g: Grid, goal: Coord, start: Coord, k: nat): set<Coord>
    decreases k
  {
    if k == 0 then {start} else Expand(g, goal, Reach(g, goal, start, k - 1))
  }

  lemma {:induction false} ReachWithinGrid(g: Grid, goal: Coord, start: Coord, k: nat)
    ensures Reach(g, goal, start, k) <= g.Keys + {start}
    decreases k
  {
    if k > 0 {
      ReachWithinGrid(g, goal, start, k - 1);
    }
  }

  lemma {:induction false} ReachMonotone(g: Grid, goal: Coord, start: Coord, i: nat, j: nat)
    requires i <= j
    ensures Reach(g, goal, start, i) <= Reach(g, goal, start, j)
    decreases j - i
  {
    if i < j {
      ReachMonotone(g, goal, start, i, j - 1);
    }
  }

  /** Every hex of layer `k` is the end of a walk of at most `k` steps. */
  lemma {:induction false} ReachSound(g: Grid, goal: Coord, start: Coord, k: nat, y: Coord) returns (p: seq<Coord>)
    requires y in Reach(g, goal, start, k)
    ensures IsWalk(g, goal, start, y, p) && |p| <= k + 1
    decreases k
  {
    if k == 0 {
      p := [start];
    } else if y in Reach(g, goal, start, k - 1) {
      p := ReachSound(g, goal, start, k - 1, y);
    } else {
      var x := ExpandWitness(g, goal, Reach(g, goal, start, k - 1), y);
      var q := ReachSound(g, goal, start, k - 1, x);
      p := q + [y];
      WalkExtend(g, goal, start, x, y, q);
    }
  }

  /** The end of a walk of `n` steps is in layer `n`. */
  lemma {:induction false} ReachComplete(g: Grid, goal: Coord, start: Coord, y: Coord, p: seq<Coord>)
    requires IsWalk(g, goal, start, y, p)
    ensures y in Reach(g, goal, start, |p| - 1)
    decreases |p|
  {
    if |p| > 1 {
      var q := p[..|p| - 1];
      var x := p[|p| - 2];
      WalkPrefix(g, goal, start, y, p);
      ReachComplete(g, goal, start, x, q);
      StepEnters(g, goal, Reach(g, goal, start, |p| - 2), x, y);
      assert y in Expand(g, goal, Reach(g, goal, start, |p| - 2));
    }
  }

  /** Once a layer adds nothing, no later layer does. */
  lemma {:induction false} ReachStable(g: Grid, goal: Coord, start: Coord, k: nat, n: nat)
    requires Expand(g, goal, Reach(g, goal, start, k)) == Reach(g, goal, start, k)
    requires k <= n
    ensures Reach(g, goal, start, n) == Reach(g, goal, start, k)
    decreases n - k
  {
    if k < n {
      ReachStable(g, goal, start, k, n - 1);
    }
  }

  /** A walk of `n` steps covers at most `n` hexes of distance. */
  lemma {:induction false} WalkCoversDistance(g: Grid, goal: Coord, start: Coord, y: Coord, p: seq<Coord>)
    requires IsWalk(g, goal, start, y, p)
    ensures Distance(start, y) <= |p| - 1
    decreases |p|
  {
    if |p| == 1 {
      DistanceZeroIffEqual(start, y);
    } else {
      var q := p[..|p| - 1];
      var x := p[|p| - 2];
      WalkPrefix(g, goal, start, y, p);
      WalkCoversDistance(g, goal, start, x, q);
      AdjacentIsUnitDistance(x, y);
      TriangleInequality(start, x, y);
    }
  }

  lemma SubsetCardinality<T>(a: set<T>, b: set<T>)
    requires a <= b
    ensures |a| <= |b|
    ensures a != b ==> |a| < |b|
  {
    assert b == a + (b - a);
    if a != b {
      var x :| x in b && x !in a;
      assert x in b - a;
    }
  }

  /** When layer `k` adds nothing and misses the goal, no layer reaches it. */
  lemma GoalNeverReached(g: Grid, goal: Coord, start: Coord, k: nat)
    requires |Reach(g, goal, start, k + 1)| == |Reach(g, goal, start, k)|
    requires !InLayer(g, goal, start, k)
    ensures forall n: nat :: !InLayer(g, goal, start, n)
  {
    ReachMonotone(g, goal, start, k, k + 1);
    SubsetCardinality(Reach(g, goal, start, k), Reach(g, goal, start, k + 1));
    forall n: nat ensures !InLayer(g, goal, start, n) {
      if n <= k {
        ReachMonotone(g, goal, start, n, k);
      } else {
        ReachStable(g, goal, start, k, n);
      }
    }
  }

  /** A layer that adds something is strictly larger, and no layer is
      larger than the grid plus the start. */
  lemma LayerGrows(g: Grid, goal: Coord, start: Coord, k: nat)
    requires |Reach(g, goal, start, k + 1)| != |Reach(g, goal, start, k)|
    ensures |Reach(g, goal, start, k)| < |Reach(g, goal, start, k + 1)| <= |g.Keys + {start}|
  {
    ReachMonotone(g, goal, start, k, k + 1);
    ReachWithinGrid(g, goal, start, k + 1);
    SubsetCardinality(Reach(g, goal, start, k), Reach(g, goal, start, k + 1));
    SubsetCardinality(Reach(g, goal, start, k + 1), g.Keys + {start});
  }

  /** The goal is in layer `n`. */
  predicate InLayer(g: Grid, goal: Coord, start: Coord, n: nat) {
    goal in Reach(g, goal, start, n)
  }

  /** Layer `n` is the first to hold the goal. */
  predicate FirstLayer(g: Grid, goal: Coord, start: Coord, n: nat) {
    InLayer(g, goal, start, n) && (n > 0 ==> !InLayer(g, goal, start, n - 1))
  }

  /** No layer from `k` up to, not including, `d` holds the goal. */
  predicate MissedFrom(g: Grid, goal: Coord, start: Coord, k: nat, d: nat) {
    forall n: nat :: k <= n < d ==> !InLayer(g, goal, start, n)
  }

  lemma MissedOneMore(g: Grid, goal: Coord, start: Coord, k: nat, d: nat)
    requires !InLayer(g, goal, start, k) && MissedFrom(g, goal, start, k + 1, d)
    ensures MissedFrom(g, goal, start, k, d)
  {
  }

  /** Breadth-first search from layer `k`, given as `layer`, on: the number
      of the first layer from `k` on holding the goal, or `None` when the
      layers stop growing without reaching it. */
  function Search(g: Grid, start: Coord, goal: Coord, k: nat, layer: set<Coord>): (r: Option<nat>)
    requires layer == Reach(g, goal, start, k)
    ensures r.Some? ==> r.value >= k && InLayer(g, goal, start, r.value)
    ensures r.Some? ==> MissedFrom(g, goal, start, k, r.value)
    ensures r.None? ==> forall n: nat :: !InLayer(g, goal, start, n)
    decreases |g.Keys + {start}| - |layer|
  {
    if goal in layer then Some(k)
    else
      var next := Expand(g, goal, layer);
      if |next| == |layer| then
        GoalNeverReached(g, goal, start, k);
        None
      else
        LayerGrows(g, goal, start, k);
        var r := Search(g, start, goal, k + 1, next);
        if r.Some? then MissedOneMore(g, goal, start, k, r.value); r else r
  }

  /** `shortestPath` reduced to what its callers read, `path.length - 1`:
      `Some(d)` when a path of `d` steps exists and none is shorter, `None`
      when no finite-cost path exists. A path never has fewer steps than the
      hex distance between its ends. */
  function ShortestDistance(g: Grid, start: Coord, goal: Coord): (r: Option<nat>)
    ensures r.Some? ==> exists p :: IsPath(g, start, goal, p) && |p| == r.value + 1
    ensures r.Some? ==> forall p :: IsPath(g, start, goal, p) ==> |p| >= r.value + 1
    ensures r.Some? ==> r.value >= Distance(start, goal)
    ensures r.None? <==> forall p :: !IsPath(g, start, goal, p)
  {
    var r := Search(g, start, goal, 0, {start});
    if r.Some? then
      FirstLayerIsShortest(g, start, goal, r.value);
      r
    else
      NoLayerNoPath(g, start, goal);
      r
  }

  /** A goal in layer `n` is in every later layer. */
  lemma LayerMonotone(g: Grid, start: Coord, goal: Coord, n: nat, m: nat)
    requires n <= m && InLayer(g, goal, start, n)
    ensures InLayer(g, goal, start, m)
  {
    ReachMonotone(g, goal, start, n, m);
  }

  /** No path is shorter than the first layer holding the goal. */
  lemma NoPathBelowFirstLayer(g: Grid, start: Coord, goal: Coord, d: nat, q: seq<Coord>)
    requires FirstLayer(g, goal, start, d) && IsPath(g, start, goal, q)
    ensures |q| >= d + 1
  {
    ReachComplete(g, goal, start, goal, q);
    if |q| < d + 1 {
      LayerMonotone(g, start, goal, |q| - 1, d - 1);
    }
  }

  /** The first layer holding the goal gives a shortest path. */
  lemma FirstLayerIsShortest(g: Grid, start: Coord, goal: Coord, d: nat)
    requires FirstLayer(g, goal, start, d)
    ensures exists p :: IsPath(g, start, goal, p) && |p| == d + 1
    ensures forall p :: IsPath(g, start, goal, p) ==> |p| >= d + 1
    ensures d >= Distance(start, goal)
  {
    var p := ReachSound(g, goal, start, d, goal);
    forall q | IsPath(g, start, goal, q) ensures |q| >= d + 1 {
      NoPathBelowFirstLayer(g, start, goal, d, q);
    }
    NoPathBelowFirstLayer(g, start, goal, d, p);
    WalkCoversDistance(g, goal, start, goal, p);
  }

  /** A goal in no layer has no path. */
  lemma NoLayerNoPath(g: Grid, start: Coord, goal: Coord)
    requires forall n: nat :: !InLayer(g, goal, start, n)
    ensures forall p :: !IsPath(g, start, goal, p)
  {
    forall q | IsPath(g, start, goal, q) ensures false {
      ReachComplete(g, goal, start, goal, q);
      assert InLayer(g, goal, start, |q| - 1);
    }
  }
}
