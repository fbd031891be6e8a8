/** How `build` in src/core/kdtree.h chooses a split plane for a node: the surface area
    heuristic, the axis it tries first, and the loop that tries up to three axes, stopping at
    the first one whose best candidate beats the cost of making the node a leaf. */
module KdSplits {
  import opened Numeric
  import opened Vectors
  import opened Boxes
  import opened KdEdges

  /** Axis `i` of `d` is strictly longer than both others. */
  predicate StrictlyLongest(d: Vector, i: nat)
    requires i < 3
  {
    forall j :: 0 <= j < 3 && j != i ==> At(d, j) < At(d, i)
  }

  /** The diagonal `node_bounds.max - node_bounds.min`; for the two infinite boxes every
      component is infinite with the same sign, so no axis is strictly longest. */
  function Diagonal(b: BBox): Option<Vector> {
    if b.Box? then Some(Sub(b.max, b.min)) else None
  }

  /** The first axis `build` tries: Y or Z when that axis is strictly longer than both others,
      X otherwise, so X also wins every tie, even when Y and Z tie for the longest. */
  function StartAxis(b: BBox): (r: nat)
    ensures r < 3
    ensures r != 0 ==> Diagonal(b).Some? && StrictlyLongest(Diagonal(b).value, r)
    ensures r == 0 <==> Diagonal(b).None? || (!StrictlyLongest(Diagonal(b).value, 1) && !StrictlyLongest(Diagonal(b).value, 2))
  {
    if !b.Box? then 0
    else
      var d := Sub(b.max, b.min);
      assert At(d, 0) == d.x && At(d, 1) == d.y && At(d, 2) == d.z;
      if d.y > d.x && d.y > d.z then 1
      else if d.z > d.x && d.z > d.y then 2
      else 0
  }

  /** With Y and Z tied for the longest extent, the search starts on X, the shortest. */
  lemma StartAxisTie(lo: real, x: real, yz: real)
    requires x < yz
    ensures StartAxis(Box(Vec3(lo, lo, lo), Vec3(lo + x, lo + yz, lo + yz))) == 0
  {
  }

  /** The axis after `a` in the cycle X, Y, Z, X: `(axis + 1) % 3`. */
  function NextAxis(a: nat): (r: nat)
    requires a < 3
    ensures r < 3 && r == (a + 1) % 3
  {
    if a == 2 then 0 else a + 1
  }

  /** The axis `k` steps after `start` in the cycle. */
  function AxisAfter(start: nat, k: nat): (r: nat)
    requires start < 3
    ensures r < 3
  {
    if k == 0 then start else NextAxis(AxisAfter(start, k - 1))
  }

  /** Three steps from any axis visit three different axes. */
  lemma AxesDistinct(start: nat)
    requires start < 3
    ensures AxisAfter(start, 0) != AxisAfter(start, 1)
    ensures AxisAfter(start, 0) != AxisAfter(start, 2)
    ensures AxisAfter(start, 1) != AxisAfter(start, 2)
  {
    assert AxisAfter(start, 2) == NextAxis(AxisAfter(start, 1));
  }

  /** Attempts `i` and `j` of three are on different axes. */
  lemma AxesDiffer(start: nat, i: nat, j: nat)
    requires start < 3 && i < j < 3
    ensures AxisAfter(start, i) != AxisAfter(start, j)
  {
    AxesDistinct(start);
  }

  /** The surface area heuristic of `build` for splitting `b` at `split` on `axis`, with
      `numBelow` geometries below and `numAbove` above. The source divides by the node's surface;
      when that is zero (a flat node), or the node is one of the infinite boxes, every product is
      infinite or not a number, no candidate compares below the best cost, and the model charges
      +inf. */
  function SahCost(isecCost: real, travCost: real, b: BBox, axis: nat, split: real,
                   numBelow: int, numAbove: int): (r: ExtReal)
    requires axis < 3
    ensures r.PosInf? <==> !b.Box? || Surface(b) == 0.0
  {
    if !b.Box? || Surface(b) == 0.0 then PosInf
    else
      var invTotalSurf := 1.0 / Surface(b);
      var probBelow := SideArea(b, axis, split, true) * invTotalSurf;
      var probAbove := SideArea(b, axis, split, false) * invTotalSurf;
      Fin(travCost + isecCost * (probBelow * numBelow as real + probAbove * numAbove as real))
  }

  /** A finite cost is the traversal cost plus the intersection cost weighted by the surfaces
      of the two sides over the node's surface. */
  lemma SahCostFormula(isecCost: real, travCost: real, b: BBox, axis: nat, split: real,
                       numBelow: int, numAbove: int)
    requires axis < 3 && b.Box? && Surface(b) != 0.0
    ensures SahCost(isecCost, travCost, b, axis, split, numBelow, numAbove)
            == Fin(travCost + isecCost * (SideArea(b, axis, split, true) * numBelow as real
                                          + SideArea(b, axis, split, false) * numAbove as real) / Surface(b))
  {
    var s, below, above := Surface(b), SideArea(b, axis, split, true), SideArea(b, axis, split, false);
    var nb, na := numBelow as real, numAbove as real;
    var r := SahCost(isecCost, travCost, b, axis, split, numBelow, numAbove);
    assert r.Fin?;
    assert r.r == travCost + isecCost * (below * (1.0 / s) * nb + above * (1.0 / s) * na);
    DivideAsReciprocal(isecCost, below, above, nb, na, s);
  }

  /** The surface of the part of a finite box below (or above) the plane at `split`. */
  function SideArea(b: BBox, axis: nat, split: real, below: bool): real
    requires b.Box? && axis < 3
  {
    var d := Sub(b.max, b.min);
    var d2, d3 := At(d, (axis + 1) % 3), At(d, (axis + 2) % 3);
    var extent := if below then split - At(b.min, axis) else At(b.max, axis) - split;
    2.0 * (d2 * d3 + extent * (d2 + d3))
  }

  lemma DivideAsReciprocal(c: real, sb: real, sa: real, nb: real, na: real, s: real)
    requires s != 0.0
    ensures c * (sb * (1.0 / s) * nb + sa * (1.0 / s) * na) == c * (sb * nb + sa * na) / s
  {
    var inv := 1.0 / s;
    assert sb * inv * nb + sa * inv * na == (sb * nb + sa * na) * inv;
    assert c * ((sb * nb + sa * na) * inv) == c * (sb * nb + sa * na) * inv;
    assert c * (sb * nb + sa * na) * inv == c * (sb * nb + sa * na) / s;
  }

  /** The cost of every event of one axis, as `Sweep` is given it. */
  function AxisCost(isecCost: real, travCost: real, b: BBox, axis: nat): (real, int, int) -> ExtReal
    requires axis < 3
  {
    (split: real, numBelow: int, numAbove: int) => SahCost(isecCost, travCost, b, axis, split, numBelow, numAbove)
  }

  /** The cost functions of the three axes of the node `b`. */
  function SahCosts(isecCost: real, travCost: real, b: BBox): nat -> ((real, int, int) -> ExtReal) {
    (axis: nat) => AxisCost(isecCost, travCost, b, axis % 3)
  }

  /** The cost the sweep of `axis` charges for event `j` of the sorted events `s`. */
  function Candidate(cost: (real, int, int) -> ExtReal, b: BBox, axis: nat, s: seq<Edge>, n: nat, j: int): ExtReal
    requires axis < 3 && 0 <= j < |s|
  {
    CandidateCost(s, n, j, Lo(b, axis), Hi(b, axis), cost)
  }

  /** `s` holds the events of `ids` on `axis`, sorted. */
  predicate SortedEvents(s: seq<Edge>, ids: seq<nat>, bounds: seq<BBox>, axis: nat) {
    axis < 3 && ValidIds(ids, bounds) && |s| == 2 * |ids| && Sorted(s)
    && multiset(s) == EdgeBag(ids, bounds, axis)
  }

  /** The three scratch event arrays `edges[0..3)`, distinct and each with room for the events of
      `n` geometries. */
  predicate EdgeBuffers(edges: seq<array<Edge>>, n: nat) {
    |edges| == 3 && (forall i, j :: 0 <= i < 3 && 0 <= j < 3 && i != j ==> edges[i] != edges[j])
    && forall i :: 0 <= i < 3 ==> 2 * n <= edges[i].Length
  }

  /** No candidate of the sweep `s` of `axis` costs less than `best`. */
  predicate Bounded(cost: (real, int, int) -> ExtReal, b: BBox, axis: nat, s: seq<Edge>, n: nat, best: ExtReal)
    requires axis < 3 && 2 * n <= |s|
  {
    forall j :: 0 <= j < 2 * n ==> Le(best, Candidate(cost, b, axis, s, n, j))
  }

  /** No candidate of the sweep `s` of `axis` costs less than `curr`. */
  predicate NoneBelow(cost: (real, int, int) -> ExtReal, b: BBox, axis: nat, s: seq<Edge>, n: nat, curr: real)
    requires axis < 3 && 2 * n <= |s|
  {
    forall j :: 0 <= j < 2 * n ==> !Lt(Candidate(cost, b, axis, s, n, j), Fin(curr))
  }

  /** Event `e` is the first of the sweep `s` of `axis` whose candidate costs `best`, and every
      event before it costs more. */
  predicate FirstCheapest(cost: (real, int, int) -> ExtReal, b: BBox, axis: nat, s: seq<Edge>, n: nat,
                          best: ExtReal, e: int)
    requires axis < 3 && 2 * n <= |s|
  {
    0 <= e < 2 * n && best == Candidate(cost, b, axis, s, n, e)
    && forall j :: 0 <= j < e ==> Lt(best, Candidate(cost, b, axis, s, n, j))
  }

  /** One attempt of the axis loop of `build`: the events of `axis` prepared from `overlapping`,
      sorted, and swept with the best cost so far. The sorted events `s` stay in `a`; the new
      best is bounded by every candidate of `s`, and it changes only to the first cheapest
      candidate of `s` when that one is strictly cheaper. */
  method Attempt(cost: (real, int, int) -> ExtReal, nodeBounds: BBox, bounds: seq<BBox>, a: array<Edge>,
                 ov: array<nat>, ovOff: nat, n: nat, axis: nat, best: ExtReal, bestAxis: int, bestEdge: int,
                 ghost ids: seq<nat>)
    returns (best': ExtReal, bestAxis': int, bestEdge': int, ghost s: seq<Edge>)
    requires axis < 3 && 2 * n <= a.Length
    requires ovOff + n <= ov.Length && ids == ov[ovOff..ovOff + n] && ValidIds(ids, bounds)
    modifies a
    ensures a[..2 * n] == s && SortedEvents(s, ids, bounds, axis)
    ensures Le(best', best) && Bounded(cost, nodeBounds, axis, s, n, best')
    ensures !Lt(best', best) ==> best' == best && bestAxis' == bestAxis && bestEdge' == bestEdge
    ensures Lt(best', best) ==> bestAxis' == axis && FirstCheapest(cost, nodeBounds, axis, s, n, best', bestEdge')
  {
    PrepareEdges(a, ov, ovOff, n, bounds, axis, ids);
    SortEdges(a, 2 * n);
    s := a[..2 * n];
    EdgeBagOfList(ids, bounds, axis);
    best', bestAxis', bestEdge' := Sweep(a, n, Lo(nodeBounds, axis), Hi(nodeBounds, axis), axis,
                                         cost, best, bestAxis, bestEdge);
  }

  /** The attempts made so far, with sorted events `sweeps[k]` for attempt `k`: attempt `k` is on
      the axis `k` steps after `StartAxis`, its events are those of `ids` on that axis, sorted, and
      `best` bounds every candidate of it, each axis charged by its own cost function. */
  ghost predicate Searched(costs: nat -> ((real, int, int) -> ExtReal), nb: BBox, ids: seq<nat>, bounds: seq<BBox>,
                           sweeps: seq<seq<Edge>>, best: ExtReal)
    decreases |sweeps|
  {
    |sweeps| == 0
    || (var k := |sweeps| - 1; var axis := AxisAfter(StartAxis(nb), k);
        Searched(costs, nb, ids, bounds, sweeps[..k], best)
        && SortedEvents(sweeps[k], ids, bounds, axis)
        && Bounded(costs(axis), nb, axis, sweeps[k], |ids|, best))
  }

  /** Every attempt of the search holds the sorted events of its axis. */
  lemma {:induction false} SearchedSorted(costs: nat -> ((real, int, int) -> ExtReal), nb: BBox, ids: seq<nat>,
                                          bounds: seq<BBox>, sweeps: seq<seq<Edge>>, best: ExtReal, k: int)
    requires Searched(costs, nb, ids, bounds, sweeps, best) && 0 <= k < |sweeps|
    ensures SortedEvents(sweeps[k], ids, bounds, AxisAfter(StartAxis(nb), k))
    decreases |sweeps|
  {
    var prefix := sweeps[..|sweeps| - 1];
    if k < |sweeps| - 1 {
      SearchedSorted(costs, nb, ids, bounds, prefix, best, k);
      assert prefix[k] == sweeps[k];
    }
  }

  /** None of the attempts `sweeps` found a candidate below `curr`. */
  ghost predicate Closed(costs: nat -> ((real, int, int) -> ExtReal), nb: BBox, n: nat, curr: real,
                         sweeps: seq<seq<Edge>>)
    decreases |sweeps|
  {
    |sweeps| == 0
    || (var k := |sweeps| - 1; var axis := AxisAfter(StartAxis(nb), k);
        Closed(costs, nb, n, curr, sweeps[..k])
        && 2 * n <= |sweeps[k]| && NoneBelow(costs(axis), nb, axis, sweeps[k], n, curr))
  }

  /** Lowering the best cost keeps it a bound of every attempt. */
  lemma {:induction false} SearchedLower(costs: nat -> ((real, int, int) -> ExtReal), nb: BBox, ids: seq<nat>,
                                         bounds: seq<BBox>, sweeps: seq<seq<Edge>>, prev: ExtReal, best: ExtReal)
    requires Le(best, prev) && Searched(costs, nb, ids, bounds, sweeps, prev)
    ensures Searched(costs, nb, ids, bounds, sweeps, best)
    decreases |sweeps|
  {
    if |sweeps| > 0 {
      var k := |sweeps| - 1;
      var axis := AxisAfter(StartAxis(nb), k);
      SearchedLower(costs, nb, ids, bounds, sweeps[..k], prev, best);
      BoundedByLower(costs(axis), nb, axis, sweeps[k], |ids|, prev, best);
    }
  }

  /** An attempt appended to the search: its events are sorted and bounded by the new best,
      which is no more than the old one. */
  lemma SearchedAppend(costs: nat -> ((real, int, int) -> ExtReal), nb: BBox, ids: seq<nat>,
                       bounds: seq<BBox>, sweeps: seq<seq<Edge>>, prev: ExtReal, s: seq<Edge>, best: ExtReal)
    requires Le(best, prev) && Searched(costs, nb, ids, bounds, sweeps, prev)
    requires SortedEvents(s, ids, bounds, AxisAfter(StartAxis(nb), |sweeps|))
    requires Bounded(costs(AxisAfter(StartAxis(nb), |sweeps|)), nb, AxisAfter(StartAxis(nb), |sweeps|), s, |ids|, best)
    ensures Searched(costs, nb, ids, bounds, sweeps + [s], best)
  {
    SearchedLower(costs, nb, ids, bounds, sweeps, prev, best);
    assert (sweeps + [s])[..|sweeps|] == sweeps;
  }

  /** When the best cost bounding the last attempt is not below `curr`, that attempt closes too. */
  lemma ClosedLast(costs: nat -> ((real, int, int) -> ExtReal), nb: BBox, ids: seq<nat>, bounds: seq<BBox>,
                   curr: real, sweeps: seq<seq<Edge>>, best: ExtReal)
    requires |sweeps| > 0 && Searched(costs, nb, ids, bounds, sweeps, best)
    requires Closed(costs, nb, |ids|, curr, sweeps[..|sweeps| - 1]) && !Lt(best, Fin(curr))
    ensures Closed(costs, nb, |ids|, curr, sweeps)
  {
    var k := |sweeps| - 1;
    var axis := AxisAfter(StartAxis(nb), k);
    NoneBelowBest(costs(axis), nb, axis, sweeps[k], |ids|, best, curr);
  }

  /** What the attempts `sweeps` of the axis loop have established: they hold the sorted events
      of their axes and are bounded by `best`, every one but the last found no candidate below
      `curr`, the best cost is +inf exactly when no axis was chosen, and a chosen candidate is
      the first cheapest event of attempt `bestK`, on that attempt's axis. */
  ghost predicate SearchState(costs: nat -> ((real, int, int) -> ExtReal), nb: BBox, ids: seq<nat>,
                              bounds: seq<BBox>, curr: real, sweeps: seq<seq<Edge>>,
                              best: ExtReal, bestAxis: int, bestEdge: int, bestK: int)
  {
    var n := |ids|;
    |sweeps| <= 3 && Searched(costs, nb, ids, bounds, sweeps, best)
    && (|sweeps| > 0 ==> Closed(costs, nb, n, curr, sweeps[..|sweeps| - 1]))
    && (bestAxis == -1 <==> best == PosInf)
    && (bestAxis != -1 ==>
          0 <= bestK < |sweeps| && bestAxis == AxisAfter(StartAxis(nb), bestK) && 2 * n <= |sweeps[bestK]|
          && FirstCheapest(costs(bestAxis), nb, bestAxis, sweeps[bestK], n, best, bestEdge))
  }

  /** The sorted events of the chosen attempt `bestK` are still in the array of its axis. */
  predicate Kept(edges: seq<array<Edge>>, n: nat, sweeps: seq<seq<Edge>>, bestAxis: int, bestK: int)
    reads edges
  {
    bestAxis != -1 ==>
      0 <= bestAxis < |edges| && 0 <= bestK < |sweeps| && 2 * n <= edges[bestAxis].Length
      && edges[bestAxis][..2 * n] == sweeps[bestK]
  }

  /** What one attempt on `axis` establishes: its events `s` are those of `ids`, sorted; the new
      best `best'` is no more than `best` and bounds every candidate of it; when it is not
      lower, the chosen axis, event and attempt stay; when it is, the chosen axis is `axis`,
      the chosen attempt is this one (number `k`), and the chosen event its first cheapest. */
  ghost predicate Outcome(cost: (real, int, int) -> ExtReal, nb: BBox, axis: nat, s: seq<Edge>, ids: seq<nat>,
                          bounds: seq<BBox>, n: nat, k: nat, best: ExtReal, bestAxis: int, bestEdge: int,
                          bestK: int, best': ExtReal, bestAxis': int, bestEdge': int, bestK': int)
  {
    |ids| == n && SortedEvents(s, ids, bounds, axis)
    && Le(best', best) && Bounded(cost, nb, axis, s, n, best')
    && (!Lt(best', best) ==> best' == best && bestAxis' == bestAxis && bestEdge' == bestEdge && bestK' == bestK)
    && (Lt(best', best) ==> bestAxis' == axis && bestK' == k && FirstCheapest(cost, nb, axis, s, n, best', bestEdge'))
  }

  /** The search state after one more attempt on the next axis, whose new best is bounded by
      the attempt's candidates, and is its first cheapest candidate when it improved. */
  lemma StepState(costs: nat -> ((real, int, int) -> ExtReal), nb: BBox, ids: seq<nat>, bounds: seq<BBox>,
                  curr: real, sweeps: seq<seq<Edge>>, best: ExtReal, bestAxis: int, bestEdge: int, bestK: int,
                  axis: nat, s: seq<Edge>, best': ExtReal, bestAxis': int, bestEdge': int, bestK': int)
    requires |sweeps| < 3 && axis == AxisAfter(StartAxis(nb), |sweeps|)
    requires SearchState(costs, nb, ids, bounds, curr, sweeps, best, bestAxis, bestEdge, bestK)
    requires |sweeps| > 0 ==> !Lt(best, Fin(curr))
    requires Outcome(costs(axis), nb, axis, s, ids, bounds, |ids|, |sweeps|, best, bestAxis, bestEdge, bestK,
                     best', bestAxis', bestEdge', bestK')
    ensures SearchState(costs, nb, ids, bounds, curr, sweeps + [s], best', bestAxis', bestEdge', bestK')
  {
    if |sweeps| > 0 {
      ClosedLast(costs, nb, ids, bounds, curr, sweeps, best);
    }
    SearchedAppend(costs, nb, ids, bounds, sweeps, best, s, best');
    assert (sweeps + [s])[..|sweeps|] == sweeps;
  }

  /** One pass of the axis loop of `build`: the attempt on the next axis of the cycle, the new
      best carried over, and whether the loop stops after it (its best cost is below `curr`).
      The only array the attempt overwrites is that of its own axis, so the events of an
      earlier chosen attempt on another axis stay where they are. */
  method AttemptStep(cost: (real, int, int) -> ExtReal, nodeBounds: BBox, bounds: seq<BBox>,
                    edges: seq<array<Edge>>, ov: array<nat>, ovOff: nat, n: nat, curr: real, axis: nat,
                    ghost sweeps: seq<seq<Edge>>, bestCost: ExtReal, bestAxis: int, bestEdge: int, ghost bestK: int,
                    ghost ids: seq<nat>)
    returns (best': ExtReal, bestAxis': int, bestEdge': int, ghost s: seq<Edge>, ghost bestK': int, stop: bool)
    requires EdgeBuffers(edges, n) && axis < 3 && bestAxis != axis
    requires ovOff + n <= ov.Length && ids == ov[ovOff..ovOff + n] && ValidIds(ids, bounds)
    requires Kept(edges, n, sweeps, bestAxis, bestK)
    modifies edges[axis]
    ensures Outcome(cost, nodeBounds, axis, s, ids, bounds, n, |sweeps|, bestCost, bestAxis, bestEdge, bestK,
                    best', bestAxis', bestEdge', bestK')
    ensures Kept(edges, n, sweeps + [s], bestAxis', bestK')
    ensures stop <==> Lt(best', Fin(curr))
  {
    best', bestAxis', bestEdge', s := Attempt(cost, nodeBounds, bounds, edges[axis], ov, ovOff, n,
                                              axis, bestCost, bestAxis, bestEdge, ids);
    stop := Lt(best', Fin(curr));
    if Lt(best', bestCost) {
      bestK' := |sweeps|;
      assert (sweeps + [s])[bestK'] == s;
    } else {
      bestK' := bestK;
      if bestAxis != -1 {
        assert (sweeps + [s])[bestK] == sweeps[bestK];
        assert edges[bestAxis] != edges[axis];
      }
    }
  }

  /** One pass of the axis loop of `build`, with the search state it keeps: the attempt on the
      next axis of the cycle after attempts that did not reach `curr`, and whether the loop stops
      after it (its best cost is below `curr`). */
  method SearchStep(costs: nat -> ((real, int, int) -> ExtReal), nodeBounds: BBox, bounds: seq<BBox>,
                    edges: seq<array<Edge>>, ov: array<nat>, ovOff: nat, n: nat, curr: real, axis: nat,
                    ghost sweeps: seq<seq<Edge>>, bestCost: ExtReal, bestAxis: int, bestEdge: int, ghost bestK: int,
                    ghost ids: seq<nat>)
    returns (best': ExtReal, bestAxis': int, bestEdge': int, ghost sweeps': seq<seq<Edge>>, ghost bestK': int,
             stop: bool)
    requires EdgeBuffers(edges, n)
    requires ovOff + n <= ov.Length && ids == ov[ovOff..ovOff + n] && ValidIds(ids, bounds)
    requires |sweeps| < 3 && axis == AxisAfter(StartAxis(nodeBounds), |sweeps|)
    requires SearchState(costs, nodeBounds, ids, bounds, curr, sweeps, bestCost, bestAxis, bestEdge, bestK)
    requires Kept(edges, n, sweeps, bestAxis, bestK)
    requires |sweeps| > 0 ==> !Lt(bestCost, Fin(curr))
    modifies edges[axis]
    ensures |sweeps'| == |sweeps| + 1
    ensures SearchState(costs, nodeBounds, ids, bounds, curr, sweeps', best', bestAxis', bestEdge', bestK')
    ensures Kept(edges, n, sweeps', bestAxis', bestK')
    ensures stop <==> Lt(best', Fin(curr))
  {
    if bestAxis != -1 {
      AxesDiffer(StartAxis(nodeBounds), bestK, |sweeps|);
    }
    ghost var s;
    var cost := costs(axis);
    best', bestAxis', bestEdge', s, bestK', stop :=
      AttemptStep(cost, nodeBounds, bounds, edges, ov, ovOff, n, curr, axis,
                  sweeps, bestCost, bestAxis, bestEdge, bestK, ids);
    StepState(costs, nodeBounds, ids, bounds, curr, sweeps, bestCost, bestAxis, bestEdge, bestK,
              axis, s, best', bestAxis', bestEdge', bestK');
    sweeps' := sweeps + [s];
  }

  /** The axis loop of `build`. Starting from `StartAxis`, each attempt prepares, sorts and sweeps
      the events of the next axis of the cycle, carrying the best cost over; the loop stops after
      the first attempt whose best cost is below `curr` (the cost of a leaf), and otherwise after
      three. `sweeps` records the sorted events of the attempts, and the search state holds of
      them. */
  method FindSplit(costs: nat -> ((real, int, int) -> ExtReal), nodeBounds: BBox, bounds: seq<BBox>,
                   edges: seq<array<Edge>>, ov: array<nat>, ovOff: nat, n: nat, curr: real,
                   ghost ids: seq<nat>)
    returns (bestCost: ExtReal, bestAxis: int, bestEdge: int, ghost sweeps: seq<seq<Edge>>, ghost bestK: int)
    requires EdgeBuffers(edges, n)
    requires ovOff + n <= ov.Length && ids == ov[ovOff..ovOff + n] && ValidIds(ids, bounds)
    modifies edges[0], edges[1], edges[2]
    ensures 1 <= |sweeps| && (|sweeps| < 3 ==> Lt(bestCost, Fin(curr)))
    ensures SearchState(costs, nodeBounds, ids, bounds, curr, sweeps, bestCost, bestAxis, bestEdge, bestK)
    ensures Kept(edges, n, sweeps, bestAxis, bestK)
  {
    bestCost, bestAxis, bestEdge := PosInf, -1, -1;
    sweeps := [];
    bestK := -1;
    var axis := StartAxis(nodeBounds);
    var attempt := 0;
    while attempt < 3
      invariant 0 <= attempt <= 3 && |sweeps| == attempt
      invariant attempt < 3 ==> axis == AxisAfter(StartAxis(nodeBounds), attempt)
      invariant SearchState(costs, nodeBounds, ids, bounds, curr, sweeps, bestCost, bestAxis, bestEdge, bestK)
      invariant Kept(edges, n, sweeps, bestAxis, bestK)
      invariant attempt > 0 ==> !Lt(bestCost, Fin(curr))
    {
      var stop;
      bestCost, bestAxis, bestEdge, sweeps, bestK, stop :=
        SearchStep(costs, nodeBounds, bounds, edges, ov, ovOff, n, curr, axis, sweeps, bestCost, bestAxis, bestEdge, bestK,
                   ids);
      if stop {
        break;
      }
      axis := NextAxis(axis);
      attempt := attempt + 1;
    }
  }

  /** A lower bound stays a lower bound when it decreases. */
  lemma BoundedByLower(cost: (real, int, int) -> ExtReal, b: BBox, axis: nat, s: seq<Edge>, n: nat,
                       prev: ExtReal, best: ExtReal)
    requires axis < 3 && 2 * n <= |s|
    requires Le(best, prev) && Bounded(cost, b, axis, s, n, prev)
    ensures Bounded(cost, b, axis, s, n, best)
  {
    forall j | 0 <= j < 2 * n
      ensures Le(best, Candidate(cost, b, axis, s, n, j))
    {
      LeTotalOrder(best, prev, Candidate(cost, b, axis, s, n, j));
    }
  }

  /** When the best cost is not below `curr`, no candidate it bounds is either. */
  lemma NoneBelowBest(cost: (real, int, int) -> ExtReal, b: BBox, axis: nat, s: seq<Edge>, n: nat,
                      best: ExtReal, curr: real)
    requires axis < 3 && 2 * n <= |s|
    requires Bounded(cost, b, axis, s, n, best) && !Lt(best, Fin(curr))
    ensures NoneBelow(cost, b, axis, s, n, curr)
  {
    forall j | 0 <= j < 2 * n
      ensures !Lt(Candidate(cost, b, axis, s, n, j), Fin(curr))
    {
      LeTotalOrder(Fin(curr), best, Candidate(cost, b, axis, s, n, j));
    }
  }
}
