/** The kd-tree accelerator of src/core/kdtree.h: the builder that splits the scene along the
    surface area heuristic, the stack-based traversal that finds the first leaf hit along a ray,
    and the cache file. */
module KdTrees {
  import opened Numeric
  import opened Vectors
  import opened Boxes
  import opened KdNodes
  import opened KdEdges
  import opened KdSplits
  import opened KdWalks
  import opened KdFiles

  /** The capacity of the traversal's segment stack. */
  const MaxTreeSegments: int := 64

  /** One entry of the traversal's segment stack: a node and the ray's parametric range in it. */
  datatype TreeSegment = TreeSegment(node: int, tmin: ExtReal, tmax: ExtReal)

  /** The bounds of every geometry, in order, as the constructor collects them. */
  function BoundsOf(geoms: seq<Geom>): (r: seq<BBox>)
    ensures |r| == |geoms| && forall i :: 0 <= i < |geoms| ==> r[i] == geoms[i].bounds
  {
    if |geoms| == 0 then [] else BoundsOf(geoms[..|geoms| - 1]) + [geoms[|geoms| - 1].bounds]
  }

  /** `total_bounds` after `total_bounds += bounds` for each of `bs` in turn, from the default
      (empty) box. */
  function MergeAll(bs: seq<BBox>): BBox {
    if |bs| == 0 then Empty else Merge(MergeAll(bs[..|bs| - 1]), bs[|bs| - 1])
  }

  /** The merged bounds contain every point of every box, and stay proper when the boxes are. */
  lemma {:induction false} MergeAllContains(bs: seq<BBox>, i: int, p: Point)
    requires 0 <= i < |bs| && Contains(bs[i], p)
    ensures Contains(MergeAll(bs), p)
    decreases |bs|
  {
    var last := |bs| - 1;
    if i < last {
      assert bs[..last][i] == bs[i];
      MergeAllContains(bs[..last], i, p);
    }
    UnionContainsOperands(MergeAll(bs[..last]), bs[last], p);
  }

  /** Merging proper boxes yields the empty box (no boxes) or a proper box. */
  lemma {:induction false} MergeAllProper(bs: seq<BBox>)
    requires forall i :: 0 <= i < |bs| ==> Proper(bs[i])
    ensures MergeAll(bs) == Empty || Proper(MergeAll(bs))
    decreases |bs|
  {
    if |bs| > 0 {
      var last := |bs| - 1;
      MergeAllProper(bs[..last]);
      var p := bs[last].min;
      assert Contains(bs[last], p);
      UnionContainsOperands(MergeAll(bs[..last]), bs[last], p);
    }
  }

  // ---------------------------------------------------------------------------------------
  // Splitting a node's box

  /** `bounds_below`: the node box with its `max` moved down to the split on `axis`. */
  function BelowBox(b: BBox, axis: nat, split: real): BBox
    requires b.Box? && axis < 3
  {
    Box(b.min, With(b.max, axis, split))
  }

  /** `bounds_above`: the node box with its `min` moved up to the split on `axis`. */
  function AboveBox(b: BBox, axis: nat, split: real): BBox
    requires b.Box? && axis < 3
  {
    Box(With(b.min, axis, split), b.max)
  }

  /** The two children of a split strictly inside a proper box are proper, lie inside it, and
      together cover it: a point is in the node exactly when it is in one of the children. */
  lemma ChildBoxes(b: BBox, axis: nat, split: real, p: Point)
    requires Proper(b) && axis < 3 && At(b.min, axis) < split < At(b.max, axis)
    ensures Proper(BelowBox(b, axis, split)) && Proper(AboveBox(b, axis, split))
    ensures Contains(b, p) <==> Contains(BelowBox(b, axis, split), p) || Contains(AboveBox(b, axis, split), p)
    ensures Contains(BelowBox(b, axis, split), p) ==> At(p, axis) <= split
    ensures Contains(AboveBox(b, axis, split), p) ==> split <= At(p, axis)
  {
    var lo, hi := BelowBox(b, axis, split), AboveBox(b, axis, split);
    assert At(b.min, 0) == b.min.x && At(b.min, 1) == b.min.y && At(b.min, 2) == b.min.z;
    assert At(b.max, 0) == b.max.x && At(b.max, 1) == b.max.y && At(b.max, 2) == b.max.z;
    assert At(lo.max, 0) == lo.max.x && At(lo.max, 1) == lo.max.y && At(lo.max, 2) == lo.max.z;
    assert At(hi.min, 0) == hi.min.x && At(hi.min, 1) == hi.min.y && At(hi.min, 2) == hi.min.z;
    if Contains(b, p) && !Contains(lo, p) {
      assert Le(Fin(At(p, axis)), Hi(b, axis));
      assert !Le(Fin(At(p, axis)), Hi(lo, axis)) by {
        forall i | 0 <= i < 3 && i != axis
          ensures Le(Lo(lo, i), Fin(At(p, i))) && Le(Fin(At(p, i)), Hi(lo, i))
        {
          assert Le(Lo(b, i), Fin(At(p, i))) && Le(Fin(At(p, i)), Hi(b, i));
        }
        assert Le(Lo(lo, axis), Fin(At(p, axis))) by {
          assert Le(Lo(b, axis), Fin(At(p, axis)));
        }
      }
      forall i | 0 <= i < 3
        ensures Le(Lo(hi, i), Fin(At(p, i))) && Le(Fin(At(p, i)), Hi(hi, i))
      {
        assert Le(Lo(b, i), Fin(At(p, i))) && Le(Fin(At(p, i)), Hi(b, i));
      }
    }
    if Contains(lo, p) {
      forall i | 0 <= i < 3
        ensures Le(Lo(b, i), Fin(At(p, i))) && Le(Fin(At(p, i)), Hi(b, i))
      {
        assert Le(Lo(lo, i), Fin(At(p, i))) && Le(Fin(At(p, i)), Hi(lo, i));
      }
      assert Le(Fin(At(p, axis)), Hi(lo, axis));
    }
    if Contains(hi, p) {
      forall i | 0 <= i < 3
        ensures Le(Lo(b, i), Fin(At(p, i))) && Le(Fin(At(p, i)), Hi(b, i))
      {
        assert Le(Lo(hi, i), Fin(At(p, i))) && Le(Fin(At(p, i)), Hi(hi, i));
      }
      assert Le(Lo(hi, axis), Fin(At(p, axis)));
    }
  }

  // ---------------------------------------------------------------------------------------
  // Classification

  /** `belowIds` and `aboveIds` are geometries of `ids` (so they have proper bounds), and
      together they hold every geometry of `ids`. */
  predicate Partitioned(ids: seq<nat>, bounds: seq<BBox>, belowIds: seq<nat>, aboveIds: seq<nat>) {
    ValidIds(belowIds, bounds) && ValidIds(aboveIds, bounds)
    && Members(belowIds) + Members(aboveIds) == Members(ids)
  }

  /** The classification at the event `e` of the sorted events `s`: the START events before it
      give `belowIds`, the END events after it give `aboveIds`, and these partition `ids`. */
  predicate SplitIds(s: seq<Edge>, e: nat, ids: seq<nat>, bounds: seq<BBox>, belowIds: seq<nat>, aboveIds: seq<nat>)
    requires e < |s|
  {
    belowIds == StartIds(s[..e]) && aboveIds == EndIds(s[e + 1..])
    && Partitioned(ids, bounds, belowIds, aboveIds)
  }

  /** The two classification loops of `build` over the sorted events of the chosen axis: the
      START events before the chosen event `e` into `below`, the END events after it into
      `above` from `aboveOff` on. */
  method Classify(a: array<Edge>, n: nat, e: nat, below: array<nat>, above: array<nat>, aboveOff: nat,
                  ghost s: seq<Edge>, ghost ids: seq<nat>, ghost bounds: seq<BBox>, ghost axis: nat)
    returns (numBelow: nat, numAbove: nat)
    requires e < 2 * n <= a.Length && a[..2 * n] == s && |ids| == n && SortedEvents(s, ids, bounds, axis)
    requires n <= below.Length && aboveOff + n <= above.Length && below != above
    modifies below, above
    ensures numBelow <= n && numAbove <= n
    ensures SplitIds(s, e, ids, bounds, below[..numBelow], above[aboveOff..aboveOff + numAbove])
    ensures forall k :: 0 <= k < aboveOff ==> above[k] == old(above[k])
  {
    SortedCounts(s, ids, bounds, axis);
    ClassifiedPartition(ids, bounds, axis, s, e);
    numBelow := CollectBelow(a, n, e, below);
    numAbove := CollectAbove(a, n, e, above, aboveOff);
    assert s[..e] == a[..e];
    assert s[e + 1..] == a[e + 1..2 * n];
  }

  /** The sorted events of `n` geometries hold `n` START and `n` END events. */
  lemma SortedCounts(s: seq<Edge>, ids: seq<nat>, bounds: seq<BBox>, axis: nat)
    requires SortedEvents(s, ids, bounds, axis)
    ensures |StartIds(s)| == |ids| && |EndIds(s)| == |ids|
  {
    EdgeBagOfList(ids, bounds, axis);
    CountsOfPermutation(s, EdgeList(ids, bounds, axis));
    CountsOfEdgeList(ids, bounds, axis);
  }

  /** The ids of the START events before event `e` and of the END events after it partition the
      geometries whose sorted events `s` are. */
  lemma ClassifiedPartition(ids: seq<nat>, bounds: seq<BBox>, axis: nat, s: seq<Edge>, e: int)
    requires SortedEvents(s, ids, bounds, axis) && 0 <= e < |s|
    ensures Partitioned(ids, bounds, StartIds(s[..e]), EndIds(s[e + 1..]))
  {
    assert s[0..e] == s[..e] && s[e + 1..|s|] == s[e + 1..];
    EdgeBagOfList(ids, bounds, axis);
    PartitionCovers(ids, bounds, axis, s, e);
    ClassifiedIds(ids, bounds, axis, s, 0, e);
    ClassifiedIds(ids, bounds, axis, s, e + 1, |s|);
    SubIdsValid(ids, bounds, StartIds(s[..e]));
    SubIdsValid(ids, bounds, EndIds(s[e + 1..]));
  }

  /** Ids drawn from geometries with proper bounds have proper bounds. */
  lemma SubIdsValid(ids: seq<nat>, bounds: seq<BBox>, sub: seq<nat>)
    requires ValidIds(ids, bounds) && forall x :: x in sub ==> x in ids
    ensures ValidIds(sub, bounds)
  {
    forall i | 0 <= i < |sub|
      ensures sub[i] < |bounds| && Proper(bounds[sub[i]])
    {
      assert sub[i] in sub;
      var j :| 0 <= j < |ids| && ids[j] == sub[i];
    }
  }

  /** A candidate whose surface area cost is finite lies strictly inside a finite node box. */
  lemma ChosenInside(isecCost: real, travCost: real, nb: BBox, axis: nat, s: seq<Edge>, n: nat, e: int)
    requires axis < 3 && 0 <= e < |s|
    requires Candidate(SahCosts(isecCost, travCost, nb)(axis), nb, axis, s, n, e) != PosInf
    ensures nb.Box? && At(nb.min, axis) < s[e].split < At(nb.max, axis)
  {
  }

  // ---------------------------------------------------------------------------------------
  // The room the builder's `above` buffer needs

  /** The `above` ids a subtree of `k` more levels over `n` geometries may hold at once: one
      level's worth of `n` for each level. */
  function Room(k: nat, n: nat): nat {
    if k == 0 then 0 else n + Room(k - 1, n)
  }

  lemma {:induction false} RoomMonotone(k: nat, n: nat, n': nat)
    requires n' <= n
    ensures Room(k, n') <= Room(k, n)
  {
    if k > 0 {
      RoomMonotone(k - 1, n, n');
    }
  }

  lemma {:induction false} RoomIsProduct(k: nat, n: nat)
    ensures Room(k, n) == k * n
  {
    if k > 0 {
      RoomIsProduct(k - 1, n);
    }
  }

  /** `n + Room(k - 1, n')`: a node's own `n` ids in front of the room of a child over fewer. */
  lemma RoomStep(k: nat, n: nat, n': nat)
    requires k >= 1 && n' <= n
    ensures n + Room(k - 1, n') <= Room(k, n)
  {
    RoomMonotone(k - 1, n, n');
  }

  // ---------------------------------------------------------------------------------------
  // Choosing the split of a node

  /** The cost of making a node of `n` geometries a leaf, `isec_cost * num_overlapping`. */
  function LeafCost(isecCost: real, n: nat): real {
    isecCost * n as real
  }

  /** The split search `build` ran on a node: none, for a node its size or depth makes a leaf,
      or the attempts of the axis loop with the best cost, axis, event and attempt it chose. */
  datatype SplitSearch =
    | Unsearched
    | SearchRun(sweeps: seq<seq<Edge>>, bestCost: ExtReal, bestAxis: int, bestEdge: int, bestK: int)

  /** `search` is a run of the axis loop over the node's geometries `ids`, with the surface area
      costs of the node and the cost of a leaf, `isec_cost * num_overlapping`, as the bar. */
  ghost predicate SearchRan(isecCost: real, travCost: real, nodeBounds: BBox, ids: seq<nat>, n: nat,
                            bounds: seq<BBox>, search: SplitSearch)
  {
    search.SearchRun? && |ids| == n
    && SearchState(SahCosts(isecCost, travCost, nodeBounds), nodeBounds, ids, bounds, LeafCost(isecCost, n),
                   search.sweeps, search.bestCost, search.bestAxis, search.bestEdge, search.bestK)
  }

  /** The split search of `build` for a node that neither its size nor its depth makes a
      leaf: the axis loop runs with the surface area costs of the node and
      `curr = isec_cost * num_overlapping`, the cost of making the node a leaf, and the node is
      split (`found`) unless `curr` is strictly below the best cost. A split is the chosen event
      of the chosen attempt, whose sorted events are still in the array of its axis, and its
      plane lies strictly inside the node box. */
  method SearchSplit(isecCost: real, travCost: real, nodeBounds: BBox, bounds: seq<BBox>,
                     edges: seq<array<Edge>>, ov: array<nat>, ovOff: nat, n: nat, ghost ids: seq<nat>)
    returns (found: bool, bestCost: ExtReal, bestAxis: int, bestEdge: int, ghost search: SplitSearch)
    requires EdgeBuffers(edges, n)
    requires ovOff + n <= ov.Length && ids == ov[ovOff..ovOff + n] && ValidIds(ids, bounds)
    modifies edges[0], edges[1], edges[2]
    ensures SearchRan(isecCost, travCost, nodeBounds, ids, n, bounds, search)
    ensures search.bestCost == bestCost && search.bestAxis == bestAxis && search.bestEdge == bestEdge
    ensures 1 <= |search.sweeps| && (|search.sweeps| < 3 ==> Lt(bestCost, Fin(LeafCost(isecCost, n))))
    ensures found <==> !Lt(Fin(LeafCost(isecCost, n)), bestCost)
    ensures found ==>
      0 <= bestAxis < 3 && 0 <= search.bestK < |search.sweeps| && 0 <= bestEdge < 2 * n
      && edges[bestAxis][..2 * n] == search.sweeps[search.bestK]
      && SortedEvents(search.sweeps[search.bestK], ids, bounds, bestAxis)
      && nodeBounds.Box?
      && At(nodeBounds.min, bestAxis) < search.sweeps[search.bestK][bestEdge].split < At(nodeBounds.max, bestAxis)
  {
    var curr := LeafCost(isecCost, n);
    var costs := SahCosts(isecCost, travCost, nodeBounds);
    ghost var sweeps, bestK;
    bestCost, bestAxis, bestEdge, sweeps, bestK := FindSplit(costs, nodeBounds, bounds, edges, ov, ovOff, n, curr, ids);
    search := SearchRun(sweeps, bestCost, bestAxis, bestEdge, bestK);
    found := !Lt(Fin(curr), bestCost);
    if found {
      SearchedSorted(costs, nodeBounds, ids, bounds, sweeps, bestCost, bestK);
      ChosenInside(isecCost, travCost, nodeBounds, bestAxis, sweeps[bestK], n, bestEdge);
    }
  }

  /** The split search and the classification of `build`: when the node is split, the
      overlapping geometries are classified below and above the chosen plane into
      `below[0 ..)` and `above[aboveOff ..)`; otherwise neither buffer changes. */
  method ChooseSplit(isecCost: real, travCost: real, nodeBounds: BBox, bounds: seq<BBox>,
                     edges: seq<array<Edge>>, ov: array<nat>, ovOff: nat, n: nat,
                     below: array<nat>, above: array<nat>, aboveOff: nat, ghost ids: seq<nat>)
    returns (found: bool, bestCost: ExtReal, bestAxis: int, bestEdge: int, split: real,
             numBelow: nat, numAbove: nat, ghost chosen: seq<Edge>, ghost search: SplitSearch)
    requires EdgeBuffers(edges, n)
    requires ovOff + n <= ov.Length && ov[ovOff..ovOff + n] == ids && ValidIds(ids, bounds)
    requires n <= below.Length && aboveOff + n <= above.Length && below != above
    modifies edges[0], edges[1], edges[2], below, above
    ensures SearchRan(isecCost, travCost, nodeBounds, ids, n, bounds, search)
    ensures search.bestCost == bestCost && search.bestAxis == bestAxis && search.bestEdge == bestEdge
    ensures found <==> !Lt(Fin(LeafCost(isecCost, n)), bestCost)
    ensures found ==> chosen == search.sweeps[search.bestK]
    ensures !found ==> below[..] == old(below[..]) && above[..] == old(above[..])
    ensures found ==>
      0 <= bestAxis < 3 && |chosen| == 2 * n && SortedEvents(chosen, ids, bounds, bestAxis)
      && 0 <= bestEdge < 2 * n && split == chosen[bestEdge].split
      && nodeBounds.Box? && At(nodeBounds.min, bestAxis) < split < At(nodeBounds.max, bestAxis)
    ensures found ==>
      numBelow <= n && numAbove <= n && 0 <= bestEdge < |chosen|
      && SplitIds(chosen, bestEdge, ids, bounds, below[..numBelow], above[aboveOff..aboveOff + numAbove])
    ensures forall k :: 0 <= k < aboveOff ==> above[k] == old(above[k])
  {
    found, bestCost, bestAxis, bestEdge, search :=
      SearchSplit(isecCost, travCost, nodeBounds, bounds, edges, ov, ovOff, n, ids);
    split, numBelow, numAbove, chosen := 0.0, 0, 0, [];
    if !found {
      return;
    }
    chosen := search.sweeps[search.bestK];
    var a := edges[bestAxis];
    assert a[..2 * n] == chosen;
    split := a[bestEdge].split;
    assert split == chosen[bestEdge].split;
    numBelow, numAbove := Classify(a, n, bestEdge, below, above, aboveOff, chosen, ids, bounds, bestAxis);
  }

  /** What `build` at `depth` (of at most `maxDepth`) leaves behind: the node `lo` it returns,
      and, while the indices fit in the headers, one subtree from `lo` to the end of the nodes,
      of height `maxDepth - depth`, whose leaves reference exactly the geometries `ids`. */
  ghost predicate Built(ns: seq<Node>, refs: seq<nat>, lo: int, maxDepth: int, depth: int, ids: seq<nat>) {
    0 <= depth <= maxDepth && 0 <= lo < |ns|
    && (|ns| < HeaderLimit && |refs| < HeaderLimit ==>
          Subtree(ns, lo, |ns|, |refs|, maxDepth - depth)
          && Referenced(ns, refs, lo, |ns|, maxDepth - depth) == Members(ids))
  }

  /** Two subtrees built one after the other behind a reserved node, joined by patching that
      node: the below child keeps its layout and references while the above child is appended,
      and the patched node is the root of both. */
  lemma JoinChildren(nodes1: seq<Node>, refs1: seq<nat>, nodes2: seq<Node>, refs2: seq<nat>, r: nat, a: nat,
                     axis: nat, split: real, maxDepth: int, depth: int,
                     belowIds: seq<nat>, aboveIds: seq<nat>, ids: seq<nat>)
    requires r + 1 < a == |nodes1| < |nodes2| && nodes2[..a] == nodes1 && refs1 <= refs2 && axis < 3 && 0 <= depth
    requires Built(nodes1, refs1, r + 1, maxDepth, depth + 1, belowIds)
    requires Built(nodes2, refs2, a, maxDepth, depth + 1, aboveIds)
    requires Members(belowIds) + Members(aboveIds) == Members(ids)
    ensures Built(nodes2[r := InternalNode(axis, split, a)], refs2, r, maxDepth, depth, ids)
  {
    var ns := nodes2[r := InternalNode(axis, split, a)];
    if |ns| < HeaderLimit && |refs2| < HeaderLimit {
      var h := maxDepth - depth;
      assert forall k :: r + 1 <= k < a ==> nodes2[k] == nodes1[k];
      ReferencedFrame(nodes1, nodes2, refs1, refs2, r + 1, a, h - 1);
      JoinSubtrees(nodes2, refs2, r, a, axis, split, h);
    }
  }

  // ---------------------------------------------------------------------------------------
  // The tree

  /** The geometry ids `0 .. n - 1`. */
  function AllIds(n: nat): (r: set<nat>)
    ensures forall i :: i in r <==> 0 <= i < n
  {
    if n == 0 then {} else AllIds(n - 1) + {n - 1}
  }

  /** The initial `overlapping` array, `i` at index `i`, holds every geometry once. */
  lemma IotaMembers(ids: seq<nat>)
    requires forall i :: 0 <= i < |ids| ==> ids[i] == i
    ensures Members(ids) == AllIds(|ids|)
  {
    forall x | x in Members(ids) ensures 0 <= x < |ids| {
      var k :| 0 <= k < |ids| && ids[k] == x;
    }
    forall x | 0 <= x < |ids| ensures x in Members(ids) {
      assert ids[x] == x;
    }
  }

  /** The first loop of the constructor: the bounds of each geometry, in order, and their merge
      from the default box. */
  method CollectBounds(geoms: seq<Geom>) returns (geomBounds: seq<BBox>, total: BBox)
    ensures geomBounds == BoundsOf(geoms) && total == MergeAll(geomBounds)
  {
    geomBounds, total := [], Empty;
    for i := 0 to |geoms|
      invariant geomBounds == BoundsOf(geoms[..i]) && total == MergeAll(geomBounds)
    {
      assert geoms[..i + 1][..i] == geoms[..i];
      geomBounds := geomBounds + [geoms[i].bounds];
      total := Merge(total, geoms[i].bounds);
    }
    assert geoms[..|geoms|] == geoms;
  }

  /** The constructor's buffers for `n` geometries: `overlapping` holding `0 .. n - 1`, `below`
      of `n` ids, `above` of `(max_depth + 1) * n` ids, and three event arrays of `2 * n`. */
  method ScratchBuffers(n: nat, maxDepth: nat)
    returns (overlapping: array<nat>, below: array<nat>, above: array<nat>, edges: seq<array<Edge>>)
    ensures fresh(overlapping) && fresh(below) && fresh(above)
    ensures overlapping.Length == n && forall i :: 0 <= i < n ==> overlapping[i] == i
    ensures below.Length == n && above.Length == (maxDepth + 1) * n && Room(maxDepth, n) <= above.Length
    ensures below != above && overlapping != above
    ensures EdgeBuffers(edges, n) && forall i :: 0 <= i < |edges| ==> fresh(edges[i])
  {
    overlapping := new nat[n](i => i);
    below := new nat[n];
    above := new nat[(maxDepth + 1) * n];
    assert (maxDepth + 1) * n == maxDepth * n + n;
    RoomIsProduct(maxDepth, n);
    var e0 := new Edge[2 * n](_ => Edge(0.0, 0, Start));
    var e1 := new Edge[2 * n](_ => Edge(0.0, 0, Start));
    var e2 := new Edge[2 * n](_ => Edge(0.0, 0, Start));
    edges := [e0, e1, e2];
  }

  class KdTree {
    var isecCost: real
    var travCost: real
    var maxGeoms: int
    var maxDepth: int
    var totalBounds: BBox
    var nodes: seq<Node>
    var geomRefs: seq<nat>

    /** The tree the builder lays out over `numGeoms` geometries: the nodes form one subtree from
        the root whose paths pass at most `max_depth` internal nodes, and every reference names
        a geometry. */
    predicate Valid(numGeoms: nat)
      reads this
    {
      0 <= maxDepth && 0 < |nodes| && Subtree(nodes, 0, |nodes|, |geomRefs|, maxDepth)
      && forall k :: 0 <= k < |geomRefs| ==> geomRefs[k] < numGeoms
    }

    /** `leaf_node`: the overlapping ids are appended to the references, and the leaf points at
        the first of them. */
    method MakeLeaf(ov: array<nat>, ovOff: nat, n: nat) returns (node: Node)
      requires ovOff + n <= ov.Length
      modifies this`geomRefs
      ensures geomRefs == old(geomRefs) + ov[ovOff..ovOff + n]
      ensures node == LeafNode(|old(geomRefs)|, n)
    {
      var index := |geomRefs|;
      geomRefs := geomRefs + ov[ovOff..ovOff + n];
      node := LeafNode(index, n);
    }

    /** `nodes.push_back(leaf_node(overlapping, num_overlapping))`: a one-node subtree whose leaf
        references exactly the overlapping geometries. */
    method PushLeaf(ov: array<nat>, ovOff: nat, n: nat, ghost bounds: seq<BBox>, ghost depth: int)
      requires 0 <= depth <= maxDepth
      requires ovOff + n <= ov.Length && ValidIds(ov[ovOff..ovOff + n], bounds)
      requires forall k :: 0 <= k < |geomRefs| ==> geomRefs[k] < |bounds|
      modifies this`nodes, this`geomRefs
      ensures nodes == old(nodes) + [LeafNode(old(|geomRefs|), n)]
      ensures geomRefs == old(geomRefs) + ov[ovOff..ovOff + n]
      ensures forall k :: 0 <= k < |geomRefs| ==> geomRefs[k] < |bounds|
      ensures Built(nodes, geomRefs, old(|nodes|), maxDepth, depth, ov[ovOff..ovOff + n])
    {
      ghost var refs := geomRefs;
      var leaf := MakeLeaf(ov, ovOff, n);
      nodes := nodes + [leaf];
      if |geomRefs| < HeaderLimit {
        LeafReferenced(old(nodes), refs, ov[ovOff..ovOff + n], maxDepth - depth);
      }
    }

    /** `build`: the subtree for the `n` geometries `ov[ovOff ..)` in the box `nodeBounds`, at
        `depth`, appended to the nodes; its index is returned. A node becomes a leaf when it
        holds at most `max_geoms` geometries, at `max_depth`, or when no split is found that
        costs no more than a leaf; otherwise it is an internal node on the chosen split, whose
        below child follows it and whose above child it points to. While the indices fit in the
        headers, the nodes appended form one subtree of height `max_depth - depth` whose leaves
        reference exactly the overlapping geometries. The children's ids live in `below` and in
        `above` past `aboveOff + n`; the part of `above` before `aboveOff` is left alone. */
    method Build(nodeBounds: BBox, bounds: seq<BBox>, edges: seq<array<Edge>>, ov: array<nat>, ovOff: nat, n: nat,
                 below: array<nat>, above: array<nat>, aboveOff: nat, depth: int, ghost ids: seq<nat>)
      returns (r: nat, ghost search: SplitSearch)
      requires 0 <= depth <= maxDepth
      requires EdgeBuffers(edges, n)
      requires ovOff + n <= ov.Length && ov[ovOff..ovOff + n] == ids && ValidIds(ids, bounds)
      requires n <= below.Length && below != above
      requires aboveOff + Room(maxDepth - depth, n) <= above.Length
      requires ov == above ==> ovOff + n <= aboveOff
      requires forall k :: 0 <= k < |geomRefs| ==> geomRefs[k] < |bounds|
      modifies this`nodes, this`geomRefs, edges[0], edges[1], edges[2], below, above
      decreases maxDepth - depth, 4
      ensures r == old(|nodes|) < |nodes| && nodes[..r] == old(nodes) && old(geomRefs) <= geomRefs
      ensures forall k :: 0 <= k < |geomRefs| ==> geomRefs[k] < |bounds|
      ensures Built(nodes, geomRefs, r, maxDepth, depth, ids)
      ensures n <= maxGeoms || depth == maxDepth <==> search.Unsearched?
      ensures search.SearchRun? ==> SearchRan(isecCost, travCost, nodeBounds, ids, n, bounds, search)
      ensures IsLeaf(nodes[r]) <==> search.Unsearched? || Lt(Fin(LeafCost(isecCost, n)), search.bestCost)
      ensures IsLeaf(nodes[r]) ==>
        nodes == old(nodes) + [LeafNode(old(|geomRefs|), n)] && geomRefs == old(geomRefs) + ids
      ensures !IsLeaf(nodes[r]) ==>
        SplitAxis(nodes[r]) == search.bestAxis
        && nodes[r].payload == Split(search.sweeps[search.bestK][search.bestEdge].split)
      ensures !IsLeaf(nodes[r]) ==>
        n > maxGeoms && depth < maxDepth && nodeBounds.Box? && nodes[r].payload.Split?
        && At(nodeBounds.min, SplitAxis(nodes[r])) < nodes[r].payload.split < At(nodeBounds.max, SplitAxis(nodes[r]))
      ensures forall k :: 0 <= k < aboveOff ==> above[k] == old(above[k])
    {
      r, search := |nodes|, Unsearched;
      if n <= maxGeoms || depth == maxDepth {
        PushLeaf(ov, ovOff, n, bounds, depth);
        assert nodes[r] == LeafNode(old(|geomRefs|), n);
        return;
      }
      r, search := SplitNode(nodeBounds, bounds, edges, ov, ovOff, n, below, above, aboveOff, depth, ids);
    }

    /** `build` on a child of a split node, with what the parent relies on: the child's subtree is
        appended after the nodes there were, and `above` before its offset is kept. */
    method BuildChild(nodeBounds: BBox, bounds: seq<BBox>, edges: seq<array<Edge>>, ov: array<nat>, ovOff: nat,
                      n: nat, below: array<nat>, above: array<nat>, aboveOff: nat, depth: int, ghost ids: seq<nat>)
      returns (r: nat)
      requires 0 <= depth <= maxDepth
      requires EdgeBuffers(edges, n)
      requires ovOff + n <= ov.Length && ov[ovOff..ovOff + n] == ids && ValidIds(ids, bounds)
      requires n <= below.Length && below != above
      requires aboveOff + Room(maxDepth - depth, n) <= above.Length
      requires ov == above ==> ovOff + n <= aboveOff
      requires forall k :: 0 <= k < |geomRefs| ==> geomRefs[k] < |bounds|
      modifies this`nodes, this`geomRefs, edges[0], edges[1], edges[2], below, above
      decreases maxDepth - depth, 5
      ensures r == old(|nodes|) < |nodes| && nodes[..r] == old(nodes) && old(geomRefs) <= geomRefs
      ensures forall k :: 0 <= k < |geomRefs| ==> geomRefs[k] < |bounds|
      ensures Built(nodes, geomRefs, r, maxDepth, depth, ids)
      ensures forall k :: 0 <= k < aboveOff ==> above[k] == old(above[k])
    {
      ghost var search;
      r, search := Build(nodeBounds, bounds, edges, ov, ovOff, n, below, above, aboveOff, depth, ids);
    }

    /** `build` for a node that neither its size nor its depth makes a leaf: the split search
        runs, and the node becomes a leaf when the leaf costs strictly less than the best split,
        and otherwise an internal node on the chosen event's plane. */
    method SplitNode(nodeBounds: BBox, bounds: seq<BBox>, edges: seq<array<Edge>>, ov: array<nat>, ovOff: nat, n: nat,
                     below: array<nat>, above: array<nat>, aboveOff: nat, depth: int, ghost ids: seq<nat>)
      returns (r: nat, ghost search: SplitSearch)
      requires 0 <= depth < maxDepth && n > maxGeoms
      requires EdgeBuffers(edges, n)
      requires ovOff + n <= ov.Length && ov[ovOff..ovOff + n] == ids && ValidIds(ids, bounds)
      requires n <= below.Length && below != above
      requires aboveOff + Room(maxDepth - depth, n) <= above.Length
      requires ov == above ==> ovOff + n <= aboveOff
      requires forall k :: 0 <= k < |geomRefs| ==> geomRefs[k] < |bounds|
      modifies this`nodes, this`geomRefs, edges[0], edges[1], edges[2], below, above
      decreases maxDepth - depth, 3
      ensures r == old(|nodes|) < |nodes| && nodes[..r] == old(nodes) && old(geomRefs) <= geomRefs
      ensures forall k :: 0 <= k < |geomRefs| ==> geomRefs[k] < |bounds|
      ensures Built(nodes, geomRefs, r, maxDepth, depth, ids)
      ensures SearchRan(isecCost, travCost, nodeBounds, ids, n, bounds, search)
      ensures IsLeaf(nodes[r]) <==> Lt(Fin(LeafCost(isecCost, n)), search.bestCost)
      ensures IsLeaf(nodes[r]) ==>
        nodes == old(nodes) + [LeafNode(old(|geomRefs|), n)] && geomRefs == old(geomRefs) + ids
      ensures !IsLeaf(nodes[r]) ==>
        SplitAxis(nodes[r]) == search.bestAxis
        && nodes[r].payload == Split(search.sweeps[search.bestK][search.bestEdge].split)
      ensures !IsLeaf(nodes[r]) ==>
        nodeBounds.Box? && nodes[r].payload.Split?
        && At(nodeBounds.min, SplitAxis(nodes[r])) < nodes[r].payload.split < At(nodeBounds.max, SplitAxis(nodes[r]))
      ensures forall k :: 0 <= k < aboveOff ==> above[k] == old(above[k])
    {
      var found, bestCost, axis, bestEdge, split, numBelow, numAbove;
      ghost var chosen;
      found, bestCost, axis, bestEdge, split, numBelow, numAbove, chosen, search :=
        ChooseSplit(isecCost, travCost, nodeBounds, bounds, edges, ov, ovOff, n, below, above, aboveOff, ids);
      if !found {
        assert ov[ovOff..ovOff + n] == ids;
      }
      r := PlaceNode(found, nodeBounds, bounds, edges, ov, ovOff, n, below, above, aboveOff, depth,
                     axis, split, numBelow, numAbove, ids, search);
    }

    /** The node `build` makes once the split search has run: a leaf of the `n` geometries at
        `ov[ovOff..]` when no split was `found`, and otherwise an internal node on `split`
        along `axis` whose children hold the `numBelow` and `numAbove` geometries that the
        search left in `below` and `above`. */
    method PlaceNode(found: bool, nodeBounds: BBox, bounds: seq<BBox>, edges: seq<array<Edge>>,
                     ov: array<nat>, ovOff: nat, n: nat, below: array<nat>, above: array<nat>, aboveOff: nat,
                     depth: int, axis: int, split: real, numBelow: nat, numAbove: nat, ghost ids: seq<nat>,
                     ghost search: SplitSearch)
      returns (r: nat)
      requires 0 <= depth < maxDepth
      requires EdgeBuffers(edges, n)
      requires n <= below.Length && below != above
      requires aboveOff + Room(maxDepth - depth, n) <= above.Length
      requires !found ==> ovOff + n <= ov.Length && ov[ovOff..ovOff + n] == ids && ValidIds(ids, bounds)
      requires found ==>
        0 <= axis < 3 && nodeBounds.Box? && At(nodeBounds.min, axis) < split < At(nodeBounds.max, axis)
        && numBelow <= n && numAbove <= n
        && Partitioned(ids, bounds, below[..numBelow], above[aboveOff..aboveOff + numAbove])
      requires search.SearchRun? && (found <==> !Lt(Fin(LeafCost(isecCost, n)), search.bestCost))
      requires found ==>
        axis == search.bestAxis && 0 <= search.bestK < |search.sweeps|
        && 0 <= search.bestEdge < |search.sweeps[search.bestK]|
        && split == search.sweeps[search.bestK][search.bestEdge].split
      requires forall k :: 0 <= k < |geomRefs| ==> geomRefs[k] < |bounds|
      modifies this`nodes, this`geomRefs, edges[0], edges[1], edges[2], below, above
      decreases maxDepth - depth, 2
      ensures r == old(|nodes|) < |nodes| && nodes[..r] == old(nodes) && old(geomRefs) <= geomRefs
      ensures forall k :: 0 <= k < |geomRefs| ==> geomRefs[k] < |bounds|
      ensures Built(nodes, geomRefs, r, maxDepth, depth, ids)
      ensures IsLeaf(nodes[r]) <==> !found
      ensures IsLeaf(nodes[r]) <==> Lt(Fin(LeafCost(isecCost, n)), search.bestCost)
      ensures IsLeaf(nodes[r]) ==>
        nodes == old(nodes) + [LeafNode(old(|geomRefs|), n)] && geomRefs == old(geomRefs) + ids
      ensures !IsLeaf(nodes[r]) ==>
        SplitAxis(nodes[r]) == search.bestAxis
        && nodes[r].payload == Split(search.sweeps[search.bestK][search.bestEdge].split)
      ensures !IsLeaf(nodes[r]) ==>
        nodeBounds.Box? && nodes[r].payload.Split?
        && At(nodeBounds.min, SplitAxis(nodes[r])) < nodes[r].payload.split < At(nodeBounds.max, SplitAxis(nodes[r]))
      ensures forall k :: 0 <= k < aboveOff ==> above[k] == old(above[k])
    {
      r := |nodes|;
      if !found {
        PushLeaf(ov, ovOff, n, bounds, depth);
        assert nodes[r] == LeafNode(old(|geomRefs|), n);
        return;
      }
      r := BuildInterior(nodeBounds, bounds, edges, below, above, aboveOff, n, depth, axis, split,
                         numBelow, numAbove, ids);
    }

    /** The end of `build` for a node that is split on `axis` at `split`, with the ids below
        the split in `below[0 ..)` and those above it in `above[aboveOff ..)`: a placeholder
        node is pushed, the below child is built right after it from `below`, the above child
        after that from `above`, both with their ids past `aboveOff + n`, and the placeholder
        is overwritten with the internal node pointing at the above child. */
    method BuildInterior(nodeBounds: BBox, bounds: seq<BBox>, edges: seq<array<Edge>>,
                         below: array<nat>, above: array<nat>, aboveOff: nat, n: nat, depth: int,
                         axis: nat, split: real, numBelow: nat, numAbove: nat, ghost ids: seq<nat>)
      returns (r: nat)
      requires 0 <= depth < maxDepth
      requires EdgeBuffers(edges, n)
      requires n <= below.Length && below != above
      requires aboveOff + Room(maxDepth - depth, n) <= above.Length
      requires axis < 3 && nodeBounds.Box? && At(nodeBounds.min, axis) < split < At(nodeBounds.max, axis)
      requires numBelow <= n && numAbove <= n
      requires Partitioned(ids, bounds, below[..numBelow], above[aboveOff..aboveOff + numAbove])
      requires forall k :: 0 <= k < |geomRefs| ==> geomRefs[k] < |bounds|
      modifies this`nodes, this`geomRefs, edges[0], edges[1], edges[2], below, above
      decreases maxDepth - depth, 1
      ensures r == old(|nodes|) < |nodes| && nodes[..r] == old(nodes) && old(geomRefs) <= geomRefs
      ensures forall k :: 0 <= k < |geomRefs| ==> geomRefs[k] < |bounds|
      ensures Built(nodes, geomRefs, r, maxDepth, depth, ids)
      ensures !IsLeaf(nodes[r]) && SplitAxis(nodes[r]) == axis && nodes[r].payload == Split(split)
      ensures forall k :: 0 <= k < aboveOff ==> above[k] == old(above[k])
    {
      r := |nodes|;
      nodes := nodes + [Placeholder];
      ghost var belowIds, aboveIds := below[0..numBelow], above[aboveOff..aboveOff + numAbove];
      assert Partitioned(ids, bounds, belowIds, aboveIds);
      RoomStep(maxDepth - depth, n, numBelow);
      RoomStep(maxDepth - depth, n, numAbove);
      var aboveChild, nodes1, refs1 := BuildChildren(nodeBounds, bounds, edges, below, above, aboveOff, n, depth,
                                                     axis, split, numBelow, numAbove, belowIds, aboveIds);
      ghost var nodes2 := nodes;
      nodes := nodes[r := InternalNode(axis, split, aboveChild)];
      assert nodes[..r] == nodes2[..r] == nodes1[..r];
      JoinChildren(nodes1, refs1, nodes2, geomRefs, r, aboveChild, axis, split, maxDepth, depth,
                   belowIds, aboveIds, ids);
    }

    /** The two recursive calls of `build` for a split node whose placeholder is already pushed:
        the below child from `below[0 .. numBelow)`, then the above child from
        `above[aboveOff .. aboveOff + numAbove)`, both one level deeper with their own ids past
        `aboveOff + n`. The below child is what the nodes and references are after the first
        call (`nodes1`, `refs1`), and the above child starts where it ends. */
    method BuildChildren(nodeBounds: BBox, bounds: seq<BBox>, edges: seq<array<Edge>>,
                         below: array<nat>, above: array<nat>, aboveOff: nat, n: nat, depth: int,
                         axis: nat, split: real, numBelow: nat, numAbove: nat,
                         ghost belowIds: seq<nat>, ghost aboveIds: seq<nat>)
      returns (aboveChild: nat, ghost nodes1: seq<Node>, ghost refs1: seq<nat>)
      requires 0 <= depth < maxDepth
      requires EdgeBuffers(edges, n)
      requires n <= below.Length && below != above && numBelow <= n && numAbove <= n
      requires aboveOff + n + Room(maxDepth - (depth + 1), numBelow) <= above.Length
      requires aboveOff + n + Room(maxDepth - (depth + 1), numAbove) <= above.Length
      requires axis < 3 && nodeBounds.Box?
      requires belowIds == below[0..numBelow] && ValidIds(belowIds, bounds)
      requires aboveIds == above[aboveOff..aboveOff + numAbove] && ValidIds(aboveIds, bounds)
      requires forall k :: 0 <= k < |geomRefs| ==> geomRefs[k] < |bounds|
      modifies this`nodes, this`geomRefs, edges[0], edges[1], edges[2], below, above
      decreases maxDepth - depth, 0
      ensures old(|nodes|) < |nodes1| == aboveChild < |nodes| && nodes1[..old(|nodes|)] == old(nodes)
      ensures nodes[..aboveChild] == nodes1 && old(geomRefs) <= refs1 <= geomRefs
      ensures Built(nodes1, refs1, old(|nodes|), maxDepth, depth + 1, belowIds)
      ensures Built(nodes, geomRefs, aboveChild, maxDepth, depth + 1, aboveIds)
      ensures forall k :: 0 <= k < |geomRefs| ==> geomRefs[k] < |bounds|
      ensures forall k :: 0 <= k < aboveOff ==> above[k] == old(above[k])
    {
      var belowChild := BuildChild(BelowBox(nodeBounds, axis, split), bounds, edges, below, 0, numBelow,
                                   below, above, aboveOff + n, depth + 1, belowIds);
      nodes1, refs1 := nodes, geomRefs;
      assert above[aboveOff..aboveOff + numAbove] == aboveIds;
      aboveChild := BuildChild(AboveBox(nodeBounds, axis, split), bounds, edges, above, aboveOff, numAbove,
                               below, above, aboveOff + n, depth + 1, aboveIds);
    }

    /** The constructor: the bounds of every geometry are collected and merged into
        `total_bounds`, and the tree is built from the root over all the geometries, in order,
        with scratch buffers sized as the source sizes them (`above` holds `max_depth + 1` times
        the geometry count). The result references every geometry, and while the indices fit in
        the headers it is a valid tree whose leaves together reference exactly all of them. */
    constructor (geoms: seq<Geom>, isecCost: real, travCost: real, maxGeoms: int, maxDepth: int)
      requires 0 <= maxDepth
      requires forall i :: 0 <= i < |geoms| ==> Proper(geoms[i].bounds)
      ensures this.isecCost == isecCost && this.travCost == travCost
      ensures this.maxGeoms == maxGeoms && this.maxDepth == maxDepth
      ensures totalBounds == MergeAll(BoundsOf(geoms))
      ensures 0 < |nodes| && RefsIn(geomRefs, |geoms|)
      ensures |nodes| < HeaderLimit && |geomRefs| < HeaderLimit ==>
        Valid(|geoms|) && Referenced(nodes, geomRefs, 0, |nodes|, maxDepth) == AllIds(|geoms|)
      ensures |geoms| <= maxGeoms || maxDepth == 0 ==>
        nodes == [LeafNode(0, |geoms|)] && geomRefs == seq(|geoms|, i requires 0 <= i => i)
    {
      this.isecCost, this.travCost := isecCost, travCost;
      this.maxGeoms, this.maxDepth := maxGeoms, maxDepth;
      nodes, geomRefs := [], [];
      var geomBounds, total := CollectBounds(geoms);
      totalBounds := total;
      new;
      BuildAll(geomBounds);
    }

    /** The rest of the constructor: the scratch buffers, sized as the source sizes them, and
        the build from the root over all geometries, in order, at depth 0. */
    method BuildAll(geomBounds: seq<BBox>)
      requires nodes == [] && geomRefs == [] && 0 <= maxDepth
      requires forall i :: 0 <= i < |geomBounds| ==> Proper(geomBounds[i])
      modifies this`nodes, this`geomRefs
      ensures 0 < |nodes| && RefsIn(geomRefs, |geomBounds|)
      ensures |nodes| < HeaderLimit && |geomRefs| < HeaderLimit ==>
        Valid(|geomBounds|) && Referenced(nodes, geomRefs, 0, |nodes|, maxDepth) == AllIds(|geomBounds|)
      ensures |geomBounds| <= maxGeoms || maxDepth == 0 ==>
        nodes == [LeafNode(0, |geomBounds|)] && geomRefs == seq(|geomBounds|, i requires 0 <= i => i)
    {
      var n := |geomBounds|;
      var overlapping, below, above, edges := ScratchBuffers(n, maxDepth);
      ghost var ids := overlapping[0..n];
      assert ids == seq(n, i requires 0 <= i => i);
      IotaMembers(ids);
      assert ValidIds(ids, geomBounds);
      var root, rootSearch := Build(totalBounds, geomBounds, edges, overlapping, 0, n, below, above, 0, 0, ids);
    }

    /** What `intersect` finds, as a value: nothing when the ray misses the total bounds, and
        otherwise the walk from the root over the ray's range inside them. */
    function Traverse(geoms: seq<Geom>, ray: Ray): Found
      reads this
      requires Valid(|geoms|)
    {
      match SlabTest(totalBounds, ray)
      case Miss => NoHit
      case Hit(lo, hi) => Walk(geoms, ray, nodes, geomRefs, Pending(0, |nodes|, maxDepth, lo, hi))
    }

    /** `intersect`: the slab test against the total bounds, then the loop over a stack of at
        most `MaxTreeSegments` segments, which pops a segment, reports a leaf's distance when
        it lies in the segment, and pushes an internal node's children as `Expand` says. It finds
        what `Traverse` says; `t` is written only on a hit. The stack holds at most
        `max_depth + 1` segments, so it fits when `max_depth < MaxTreeSegments`. */
    method Intersect(geoms: seq<Geom>, ray: Ray, t0: ExtReal) returns (hit: bool, t: ExtReal)
      requires Valid(|geoms|) && maxDepth < MaxTreeSegments
      ensures hit <==> Traverse(geoms, ray).FoundAt?
      ensures t == if hit then Traverse(geoms, ray).t else t0
    {
      t := t0;
      var inside, tmin, tmax := Intersects(totalBounds, ray);
      if !inside {
        return false, t;
      }
      var segments := new TreeSegment[MaxTreeSegments](_ => TreeSegment(0, Fin(0.0), Fin(0.0)));
      segments[0] := TreeSegment(0, tmin, tmax);
      var numSegments := 1;
      ghost var stack := [Pending(0, |nodes|, maxDepth, tmin, tmax)];
      ghost var goal := Traverse(geoms, ray);
      ResumeOne(geoms, ray, nodes, geomRefs, stack[0]);
      while numSegments > 0
        invariant StackInv(segments, numSegments, stack, maxDepth, nodes, |geomRefs|)
        invariant Resume(geoms, ray, nodes, geomRefs, stack) == goal
        decreases Weight(stack)
      {
        var found, d;
        found, d, numSegments, stack := TraversalStep(geoms, ray, nodes, geomRefs, maxDepth, segments, numSegments, stack);
        if found {
          return true, d;
        }
      }
      hit := false;
    }

    /** The fields `save` writes. */
    function Image(): TreeImage
      reads this
    {
      TreeImage(isecCost, travCost, maxGeoms, maxDepth, totalBounds, nodes, geomRefs)
    }

    /** `save`: the records of the tree's fields, in the order of the file. */
    method Save() returns (file: seq<Field>)
      ensures file == Encode(Image())
      ensures Decode(file) == Some(Image())
    {
      file := [IntField(KdTreeFileMagic), FloatField(isecCost), FloatField(travCost),
               IntField(maxGeoms), IntField(maxDepth), BoxField(totalBounds),
               SizeField(|nodes|), SizeField(|geomRefs|)]
              + NodeFields(nodes) + RefFields(geomRefs);
      DecodeEncode(Image());
    }

    /** `load`: the fields read back from the records. A file that does not start with the
        magic number, or whose records do not have the saved layout, is refused and the tree is
        left as it was. */
    method Load(file: seq<Field>) returns (ok: bool)
      modifies this
      ensures ok <==> Decode(file).Some?
      ensures ok ==> Image() == Decode(file).value
      ensures !ok ==> Image() == old(Image())
    {
      var r := Decode(file);
      if r.None? {
        return false;
      }
      var im := r.value;
      isecCost, travCost, maxGeoms, maxDepth := im.isecCost, im.travCost, im.maxGeoms, im.maxDepth;
      totalBounds, nodes, geomRefs := im.totalBounds, im.nodes, im.refs;
      ok := true;
    }
  }

  /** The segment stack of `intersect` mirrors the ghost stack: one entry per pending segment,
      each with its node and range, and an entry at position `j` has a subtree at most
      `max_depth - j` high, so the stack never holds more than `max_depth + 1` entries. */
  ghost predicate StackInv(segments: array<TreeSegment>, numSegments: int, stack: seq<Pending>, maxDepth: int,
                           ns: seq<Node>, refCount: nat)
    reads segments
  {
    0 <= numSegments <= segments.Length && |stack| == numSegments && StackOk(ns, refCount, stack)
    && (forall j :: 0 <= j < numSegments ==> j + stack[j].height <= maxDepth)
    && forall j :: 0 <= j < numSegments ==> segments[j] == TreeSegment(stack[j].lo, stack[j].tmin, stack[j].tmax)
  }

  /** The leaf loop of `intersect`: `_t` from +inf, updated by each geometry the leaf
      references, as its hit policy says. */
  method LeafDistance(geoms: seq<Geom>, ray: Ray, refs: seq<nat>, start: nat, count: nat) returns (t: ExtReal)
    requires start + count <= |refs| && RefsIn(refs, |geoms|)
    ensures RefsIn(refs[start..start + count], |geoms|)
    ensures t == LeafT(geoms, refs[start..start + count], ray)
  {
    t := PosInf;
    for i := start to start + count
      invariant RefsIn(refs[start..i], |geoms|)
      invariant t == LeafT(geoms, refs[start..i], ray)
    {
      assert refs[start..i + 1][..i - start] == refs[start..i];
      var geom := geoms[refs[i]];
      var h := geom.hit(ray);
      if h.Some? && (geom.policy == Overwrite || Lt(Fin(h.value), t)) {
        t := Fin(h.value);
      }
    }
  }

  /** One iteration of the loop of `intersect`: the top segment is popped; a leaf's distance
      inside the segment ends the search, and otherwise a leaf is dropped and an internal node's
      children are pushed. Either the search ends with what the stack would find, or the new,
      smaller stack finds the same as the old one. */
  method TraversalStep(geoms: seq<Geom>, ray: Ray, ns: seq<Node>, refs: seq<nat>, maxDepth: int,
                       segments: array<TreeSegment>, numSegments: int, ghost stack: seq<Pending>)
    returns (found: bool, t: ExtReal, count: int, ghost stack': seq<Pending>)
    requires RefsIn(refs, |geoms|) && maxDepth < segments.Length && 0 < numSegments
    requires StackInv(segments, numSegments, stack, maxDepth, ns, |refs|)
    modifies segments
    ensures found ==> Resume(geoms, ray, ns, refs, stack) == FoundAt(t)
    ensures !found ==>
      StackInv(segments, count, stack', maxDepth, ns, |refs|)
      && Resume(geoms, ray, ns, refs, stack') == Resume(geoms, ray, ns, refs, stack)
      && Weight(stack') < Weight(stack)
  {
    count := numSegments - 1;
    var segment := segments[count];
    ghost var top, rest := stack[count], stack[..count];
    assert stack == rest + [top];
    assert PendingOk(ns, |refs|, top) && segment == TreeSegment(top.lo, top.tmin, top.tmax);
    assert StackInv(segments, count, rest, maxDepth, ns, |refs|) by {
      forall j | 0 <= j < count ensures rest[j] == stack[j] { }
    }
    var node := ns[segment.node];
    if IsLeaf(node) {
      found, t := LeafStep(geoms, ray, ns, refs, segment, rest, top);
      stack' := rest;
    } else {
      found, t := false, PosInf;
      count, stack' := InteriorStep(segments, count, ray, segment, node, geoms, ns, refs, maxDepth, rest, top);
    }
  }

  /** A popped leaf: its distance, which ends the search when it lies in the segment. */
  method LeafStep(geoms: seq<Geom>, ray: Ray, ns: seq<Node>, refs: seq<nat>, segment: TreeSegment,
                  ghost rest: seq<Pending>, ghost top: Pending) returns (found: bool, t: ExtReal)
    requires RefsIn(refs, |geoms|) && StackOk(ns, |refs|, rest) && PendingOk(ns, |refs|, top)
    requires IsLeaf(ns[top.lo]) && segment == TreeSegment(top.lo, top.tmin, top.tmax)
    ensures StackOk(ns, |refs|, rest + [top]) && Weight(rest) < Weight(rest + [top])
    ensures Resume(geoms, ray, ns, refs, rest + [top])
         == if found then FoundAt(t) else Resume(geoms, ray, ns, refs, rest)
  {
    var node := ns[segment.node];
    ResumeLeaf(geoms, ray, ns, refs, rest, top);
    t := LeafDistance(geoms, ray, refs, HeaderIndex(node), node.payload.geomCount);
    found := Le(segment.tmin, t) && Le(t, segment.tmax);
  }

  /** A popped internal node: its children's segments are pushed where it was, and the stack
      still finds the same, with fewer nodes left to visit. */
  method InteriorStep(segments: array<TreeSegment>, k: int, ray: Ray, segment: TreeSegment, node: Node,
                      ghost geoms: seq<Geom>, ghost ns: seq<Node>, ghost refs: seq<nat>, ghost maxDepth: int,
                      ghost rest: seq<Pending>, ghost top: Pending)
    returns (count: int, ghost stack': seq<Pending>)
    requires RefsIn(refs, |geoms|) && StackInv(segments, k, rest, maxDepth, ns, |refs|)
    requires PendingOk(ns, |refs|, top) && ns[top.lo] == node && !IsLeaf(node)
    requires segment == TreeSegment(top.lo, top.tmin, top.tmax)
    requires k + top.height <= maxDepth < segments.Length
    modifies segments
    ensures StackInv(segments, count, stack', maxDepth, ns, |refs|)
    ensures StackOk(ns, |refs|, rest + [top])
    ensures Resume(geoms, ray, ns, refs, stack') == Resume(geoms, ray, ns, refs, rest + [top])
    ensures Weight(stack') < Weight(rest + [top])
  {
    ghost var e := Expand(ray, ns, |refs|, top);
    count := PushChildren(segments, k, ray, segment, node, ns, |refs|, top);
    ExpandResume(geoms, ray, ns, refs, rest, top);
    ExpandWeight(ray, ns, |refs|, rest, top);
    stack' := rest + e;
    StackInvPush(segments, k, rest, e, maxDepth, ns, |refs|);
  }

  /** The stack invariant after pushing `e` on `rest`, from the entries below and above `k`. */
  lemma StackInvPush(segments: array<TreeSegment>, k: nat, rest: seq<Pending>, e: seq<Pending>, maxDepth: int,
                     ns: seq<Node>, refCount: nat)
    requires k == |rest| && k + |e| <= segments.Length && StackOk(ns, refCount, rest + e)
    requires forall j :: 0 <= j < k ==> j + rest[j].height <= maxDepth
    requires forall j :: 0 <= j < k ==> segments[j] == TreeSegment(rest[j].lo, rest[j].tmin, rest[j].tmax)
    requires forall j :: 0 <= j < |e| ==> k + j + e[j].height <= maxDepth
    requires forall j :: 0 <= j < |e| ==> segments[k + j] == TreeSegment(e[j].lo, e[j].tmin, e[j].tmax)
    ensures StackInv(segments, k + |e|, rest + e, maxDepth, ns, refCount)
  {
    var s := rest + e;
    forall j | 0 <= j < k + |e|
      ensures j + s[j].height <= maxDepth
      ensures segments[j] == TreeSegment(s[j].lo, s[j].tmin, s[j].tmax)
    {
      if j < k {
        assert s[j] == rest[j];
      } else {
        assert s[j] == e[j - k];
      }
    }
  }

  /** Which child `intersect` enters first: the below child (right after the node) when the
      origin lies below the plane or on it heading down, the above child otherwise. */
  method PushOrder(ray: Ray, index: int, node: Node) returns (first: int, last: int)
    requires !IsLeaf(node) && node.payload.Split?
    ensures BelowFirst(ray, SplitAxis(node), node.payload.split) ==> first == index + 1 && last == HeaderIndex(node)
    ensures !BelowFirst(ray, SplitAxis(node), node.payload.split) ==> first == HeaderIndex(node) && last == index + 1
  {
    var split, axis := node.payload.split, SplitAxis(node);
    var ro, rd := At(ray.o, axis), At(ray.d, axis);
    if ro < split || (ro == split && rd < 0.0) {
      first, last := index + 1, HeaderIndex(node);
    } else {
      first, last := HeaderIndex(node), index + 1;
    }
  }

  /** The pushes of `intersect` for the internal `node` of `segment`, on top of the first
      `numSegments` entries of the stack: the entries `Expand` gives, in its order. */
  method PushChildren(segments: array<TreeSegment>, numSegments: nat, ray: Ray, segment: TreeSegment, node: Node,
                      ghost ns: seq<Node>, ghost refCount: nat, ghost p: Pending) returns (count: nat)
    requires PendingOk(ns, refCount, p) && !IsLeaf(ns[p.lo]) && ns[p.lo] == node
    requires segment == TreeSegment(p.lo, p.tmin, p.tmax) && numSegments + 2 <= segments.Length
    modifies segments
    ensures count == numSegments + |Expand(ray, ns, refCount, p)|
    ensures forall j :: 0 <= j < numSegments ==> segments[j] == old(segments[j])
    ensures forall j :: 0 <= j < |Expand(ray, ns, refCount, p)| ==>
      segments[numSegments + j] == TreeSegment(Expand(ray, ns, refCount, p)[j].lo,
                                               Expand(ray, ns, refCount, p)[j].tmin,
                                               Expand(ray, ns, refCount, p)[j].tmax)
  {
    var first, last := PushOrder(ray, segment.node, node);
    var split, axis := node.payload.split, SplitAxis(node);
    var ro, rd := At(ray.o, axis), At(ray.d, axis);
    count := numSegments;
    if AlmostZero(rd) {
      segments[count] := TreeSegment(first, segment.tmin, segment.tmax);
      count := count + 1;
    } else {
      var tsplit := (split - ro) / rd;
      if Lt(segment.tmax, Fin(tsplit)) || tsplit <= 0.0 {
        segments[count] := TreeSegment(first, segment.tmin, segment.tmax);
        count := count + 1;
      } else if Lt(Fin(tsplit), segment.tmin) {
        segments[count] := TreeSegment(last, segment.tmin, segment.tmax);
        count := count + 1;
      } else {
        segments[count] := TreeSegment(last, Fin(tsplit), segment.tmax);
        segments[count + 1] := TreeSegment(first, segment.tmin, Fin(tsplit));
        count := count + 2;
      }
    }
  }

  /** What the traversal reports lies inside the ray's range in the total bounds, so never
      behind the ray's origin, and a finite distance is where the ray hits a geometry one of the
      leaves references. */
  lemma TraverseHit(tree: KdTree, geoms: seq<Geom>, ray: Ray)
    requires tree.Valid(|geoms|)
    ensures var f := tree.Traverse(geoms, ray);
      f.FoundAt? ==>
        SlabTest(tree.totalBounds, ray).Hit? && Le(SlabTest(tree.totalBounds, ray).tmin, f.t)
        && Le(f.t, SlabTest(tree.totalBounds, ray).tmax) && Le(Fin(0.0), f.t)
    ensures var f := tree.Traverse(geoms, ray);
      f.FoundAt? && f.t.Fin? ==>
        exists id :: id in Referenced(tree.nodes, tree.geomRefs, 0, |tree.nodes|, tree.maxDepth)
          && id < |geoms| && geoms[id].hit(ray) == Some(f.t.r)
  {
    match SlabTest(tree.totalBounds, ray)
    case Miss =>
    case Hit(lo, hi) =>
      var p := Pending(0, |tree.nodes|, tree.maxDepth, lo, hi);
      SlabHitRange(tree.totalBounds, ray);
      WalkInRange(geoms, ray, tree.nodes, tree.geomRefs, p);
      WalkHitsReferenced(geoms, ray, tree.nodes, tree.geomRefs, p);
      var f := tree.Traverse(geoms, ray);
      if f.FoundAt? {
        LeTotalOrder(Fin(0.0), lo, f.t);
      }
  }
}
