/** The traversal of `KdTree::intersect` in src/core/kdtree.h, as values: the distance found inside
    a leaf, the front-to-back walk of a laid-out subtree, and the segment stack the method keeps
    while it walks.

    The tree is generic in its geometry. A geometry is modelled by its bounds, by the distance
    at which a ray hits it, if it does, and by what its `intersect(ray, t, isec)` does with the
    distance `t` it is handed. */
module KdWalks {
  import opened Numeric
  import opened Vectors
  import opened Boxes
  import opened KdNodes

  /** What a geometry's `intersect(ray, t, isec)` does with `t` when the ray hits it. Both kinds
      are in the repository: the triangle of src/geometry/mesh.cpp keeps a hit only when it is
      strictly closer than `t`; the triangle of src/core/mesh.cpp overwrites `t` with every hit. */
  datatype HitPolicy = KeepCloser | Overwrite

  /** A geometry the tree holds: its bounds, where a ray hits it (`None` when it misses), and how
      its `intersect` updates the distance. */
  datatype Geom = Geom(bounds: BBox, hit: Ray -> Option<real>, policy: HitPolicy)

  /** Every reference names one of `numGeoms` geometries. */
  predicate RefsIn(refs: seq<nat>, numGeoms: nat) {
    forall k :: 0 <= k < |refs| ==> refs[k] < numGeoms
  }

  /** A hit strictly closer than `t` replaces it. */
  function Lower(t: ExtReal, h: Option<real>): (r: ExtReal)
    ensures Le(r, t)
    ensures r == t || (h.Some? && r == Fin(h.value))
  {
    if h.Some? && Lt(Fin(h.value), t) then Fin(h.value) else t
  }

  /** `geom.intersect(ray, t, isec)` on the distance `t` alone: a miss leaves `t`; a hit replaces
      it, always or only when strictly closer, by the geometry's policy. */
  function Update(g: Geom, ray: Ray, t: ExtReal): (r: ExtReal)
    ensures g.hit(ray).None? ==> r == t
    ensures g.hit(ray).Some? && g.policy == Overwrite ==> r == Fin(g.hit(ray).value)
    ensures g.policy == KeepCloser ==> Le(r, t)
    ensures r == t || (g.hit(ray).Some? && r == Fin(g.hit(ray).value))
  {
    match g.policy
    case KeepCloser => Lower(t, g.hit(ray))
    case Overwrite => if g.hit(ray).Some? then Fin(g.hit(ray).value) else t
  }

  // ---------------------------------------------------------------------------------------
  // Leaves

  /** The leaf loop of `intersect`: `_t` starts at +inf and each referenced geometry updates it
      in turn. */
  function LeafT(geoms: seq<Geom>, ids: seq<nat>, ray: Ray): ExtReal
    requires RefsIn(ids, |geoms|)
  {
    if |ids| == 0 then PosInf
    else Update(geoms[ids[|ids| - 1]], ray, LeafT(geoms, ids[..|ids| - 1], ray))
  }

  /** Whatever the policies, the leaf distance is finite exactly when one of the leaf's
      geometries is hit, and then it is the distance of one of those hits; otherwise it is +inf. */
  lemma {:induction false} LeafTIsAHit(geoms: seq<Geom>, ids: seq<nat>, ray: Ray)
    requires RefsIn(ids, |geoms|)
    ensures LeafT(geoms, ids, ray) != NegInf
    ensures LeafT(geoms, ids, ray).Fin? <==> exists k :: 0 <= k < |ids| && geoms[ids[k]].hit(ray).Some?
    ensures LeafT(geoms, ids, ray).Fin? ==>
      exists k :: 0 <= k < |ids| && geoms[ids[k]].hit(ray) == Some(LeafT(geoms, ids, ray).r)
    decreases |ids|
  {
    if |ids| > 0 {
      var init := ids[..|ids| - 1];
      var last := |ids| - 1;
      LeafTIsAHit(geoms, init, ray);
      var c, t := LeafT(geoms, init, ray), LeafT(geoms, ids, ray);
      if exists k :: 0 <= k < |init| && geoms[init[k]].hit(ray).Some? {
        var k :| 0 <= k < |init| && geoms[init[k]].hit(ray).Some?;
        assert ids[k] == init[k];
      }
      if exists k :: 0 <= k < |ids| && geoms[ids[k]].hit(ray).Some? {
        var k :| 0 <= k < |ids| && geoms[ids[k]].hit(ray).Some?;
        if k < last { assert ids[k] == init[k]; }
      }
      if t.Fin? {
        if t == c {
          var k :| 0 <= k < |init| && geoms[init[k]].hit(ray) == Some(c.r);
          assert ids[k] == init[k];
        } else {
          assert geoms[ids[last]].hit(ray) == Some(t.r);
        }
      }
    }
  }

  /** When every geometry of the leaf keeps only strictly closer hits, the leaf distance is the
      nearest hit: at most the distance of every hit. */
  lemma {:induction false} LeafTIsNearest(geoms: seq<Geom>, ids: seq<nat>, ray: Ray)
    requires RefsIn(ids, |geoms|)
    requires forall k :: 0 <= k < |ids| ==> geoms[ids[k]].policy == KeepCloser
    ensures forall k :: 0 <= k < |ids| && geoms[ids[k]].hit(ray).Some? ==>
      Le(LeafT(geoms, ids, ray), Fin(geoms[ids[k]].hit(ray).value))
    decreases |ids|
  {
    if |ids| > 0 {
      var init := ids[..|ids| - 1];
      var last := |ids| - 1;
      LeafTIsNearest(geoms, init, ray);
      var c, t := LeafT(geoms, init, ray), LeafT(geoms, ids, ray);
      forall k | 0 <= k < |ids| && geoms[ids[k]].hit(ray).Some?
        ensures Le(t, Fin(geoms[ids[k]].hit(ray).value))
      {
        if k < last {
          assert ids[k] == init[k];
          LeTotalOrder(t, c, Fin(geoms[ids[k]].hit(ray).value));
        }
      }
    }
  }

  /** When every geometry of the leaf overwrites the distance, the leaf distance is the hit of
      the last geometry that is hit, closer or not. */
  lemma {:induction false} LeafTIsLastHit(geoms: seq<Geom>, ids: seq<nat>, ray: Ray, k: nat)
    requires RefsIn(ids, |geoms|)
    requires forall j :: 0 <= j < |ids| ==> geoms[ids[j]].policy == Overwrite
    requires k < |ids| && geoms[ids[k]].hit(ray).Some?
    requires forall j :: k < j < |ids| ==> geoms[ids[j]].hit(ray).None?
    ensures LeafT(geoms, ids, ray) == Fin(geoms[ids[k]].hit(ray).value)
    decreases |ids|
  {
    var init := ids[..|ids| - 1];
    if k < |ids| - 1 {
      forall j | 0 <= j < |init| ensures init[j] == ids[j] { }
      LeafTIsLastHit(geoms, init, ray, k);
    }
  }

  /** With a geometry that overwrites, the leaf distance can be farther than a hit found before
      it: the nearest-hit reading of the leaf holds only for geometries that keep closer hits. */
  lemma OverwriteCanRaise(geoms: seq<Geom>, ray: Ray)
    requires |geoms| == 2 && geoms[0].hit(ray) == Some(1.0) && geoms[1].hit(ray) == Some(2.0)
    requires geoms[1].policy == Overwrite
    ensures RefsIn([0, 1], |geoms|) && LeafT(geoms, [0, 1], ray) == Fin(2.0)
    ensures Lt(Fin(geoms[0].hit(ray).value), LeafT(geoms, [0, 1], ray))
  {
    assert [0, 1][..1] == [0];
    assert [0][..0] == [];
  }

  // ---------------------------------------------------------------------------------------
  // The walk

  /** The outcome of a walk: no leaf hit, or the distance of the first leaf hit. */
  datatype Found = NoHit | FoundAt(t: ExtReal)

  /** The node's below child is entered first: the origin is below the plane, or on it and the
      ray heads down. */
  predicate BelowFirst(ray: Ray, axis: nat, split: real)
    requires axis < 3
  {
    At(ray.o, axis) < split || (At(ray.o, axis) == split && At(ray.d, axis) < 0.0)
  }

  /** Where the ray crosses the split plane of `axis`, when it is not parallel to it. */
  function CrossAt(ray: Ray, axis: nat, split: real): real
    requires axis < 3 && !AlmostZero(At(ray.d, axis))
  {
    (split - At(ray.o, axis)) / At(ray.d, axis)
  }

  /** One segment of the walk: the subtree `ns[lo .. hi)` of height at most `height`, and the
      parametric range `[tmin, tmax]` of the ray inside its box. */
  datatype Pending = Pending(lo: int, hi: int, height: nat, tmin: ExtReal, tmax: ExtReal)

  /** `p` is a subtree of the nodes. */
  predicate PendingOk(ns: seq<Node>, refCount: nat, p: Pending) {
    0 <= p.lo < p.hi <= |ns| && Subtree(ns, p.lo, p.hi, refCount, p.height)
  }

  /** `c` is the below child (right after the node) or the above child (at the node's index) of
      the internal node of `p`, one level lower. */
  predicate ChildOf(ns: seq<Node>, p: Pending, c: Pending)
    requires 0 <= p.lo < |ns|
  {
    c.height + 1 == p.height
    && ((c.lo == p.lo + 1 && c.hi == HeaderIndex(ns[p.lo])) || (c.lo == HeaderIndex(ns[p.lo]) && c.hi == p.hi))
  }

  /** The segments the loop of `intersect` pushes for an internal node, in push order, so the
      last one is walked first. The near child is the below one when `BelowFirst`. When the ray
      is parallel to the plane, crosses it beyond `tmax`, or at or behind the origin, only the
      near child is pushed, on the whole segment; when it crosses before `tmin`, only the far
      child; otherwise the far child on `[tsplit, tmax]` and then the near child on
      `[tmin, tsplit]`. */
  function Expand(ray: Ray, ns: seq<Node>, refCount: nat, p: Pending): (r: seq<Pending>)
    requires PendingOk(ns, refCount, p) && !IsLeaf(ns[p.lo])
    ensures 1 <= |r| <= 2 && StackOk(ns, refCount, r)
    ensures forall j :: 0 <= j < |r| ==> ChildOf(ns, p, r[j]) && r[j].hi - r[j].lo < p.hi - p.lo
    ensures |r| == 1 ==> r[0].tmin == p.tmin && r[0].tmax == p.tmax
    ensures |r| == 2 ==>
      r[1].tmin == p.tmin && r[1].tmax == r[0].tmin && r[0].tmax == p.tmax
      && Le(p.tmin, r[0].tmin) && Le(r[0].tmin, p.tmax)
      && r[0].hi - r[0].lo + r[1].hi - r[1].lo < p.hi - p.lo
  {
    var n := ns[p.lo];
    var a, axis, split := HeaderIndex(n), SplitAxis(n), n.payload.split;
    var belowFirst := BelowFirst(ray, axis, split);
    var below, above := Pending(p.lo + 1, a, p.height - 1, p.tmin, p.tmax), Pending(a, p.hi, p.height - 1, p.tmin, p.tmax);
    var first, last := if belowFirst then below else above, if belowFirst then above else below;
    if AlmostZero(At(ray.d, axis)) then [first]
    else
      var tsplit := CrossAt(ray, axis, split);
      if Lt(p.tmax, Fin(tsplit)) || tsplit <= 0.0 then [first]
      else if Lt(Fin(tsplit), p.tmin) then [last]
      else [last.(tmin := Fin(tsplit)), first.(tmax := Fin(tsplit))]
  }

  /** The walk of `intersect` over the subtree of `p`, front to back: a leaf reports its distance
      when that lies in the segment; an internal node walks the segments it pushes, the near
      one first and the far one only when the near one finds nothing. */
  function Walk(geoms: seq<Geom>, ray: Ray, ns: seq<Node>, refs: seq<nat>, p: Pending): Found
    requires PendingOk(ns, |refs|, p) && RefsIn(refs, |geoms|)
    decreases p.hi - p.lo
  {
    var n := ns[p.lo];
    if IsLeaf(n) then
      var start := HeaderIndex(n);
      var t := LeafT(geoms, refs[start..start + n.payload.geomCount], ray);
      if Le(p.tmin, t) && Le(t, p.tmax) then FoundAt(t) else NoHit
    else
      var e := Expand(ray, ns, |refs|, p);
      if |e| == 1 then Walk(geoms, ray, ns, refs, e[0])
      else
        match Walk(geoms, ray, ns, refs, e[1])
        case FoundAt(t) => FoundAt(t)
        case NoHit => Walk(geoms, ray, ns, refs, e[0])
  }

  /** A walk only reports a distance inside its segment. */
  lemma {:induction false} WalkInRange(geoms: seq<Geom>, ray: Ray, ns: seq<Node>, refs: seq<nat>, p: Pending)
    requires PendingOk(ns, |refs|, p) && RefsIn(refs, |geoms|)
    ensures Walk(geoms, ray, ns, refs, p).FoundAt? ==>
      Le(p.tmin, Walk(geoms, ray, ns, refs, p).t) && Le(Walk(geoms, ray, ns, refs, p).t, p.tmax)
    decreases p.hi - p.lo
  {
    if !IsLeaf(ns[p.lo]) {
      var e := Expand(ray, ns, |refs|, p);
      WalkInRange(geoms, ray, ns, refs, e[0]);
      if |e| == 2 {
        WalkInRange(geoms, ray, ns, refs, e[1]);
        var w := Walk(geoms, ray, ns, refs, p);
        if w.FoundAt? {
          LeTotalOrder(p.tmin, e[0].tmin, w.t);
          LeTotalOrder(w.t, e[0].tmin, p.tmax);
        }
      }
    }
  }

  /** A finite distance a walk reports is where the ray hits one of the geometries its leaves
      reference. */
  lemma {:induction false} WalkHitsReferenced(geoms: seq<Geom>, ray: Ray, ns: seq<Node>, refs: seq<nat>, p: Pending)
    requires PendingOk(ns, |refs|, p) && RefsIn(refs, |geoms|)
    ensures Walk(geoms, ray, ns, refs, p).FoundAt? && Walk(geoms, ray, ns, refs, p).t.Fin? ==>
      exists id :: id in Referenced(ns, refs, p.lo, p.hi, p.height)
        && id < |geoms| && geoms[id].hit(ray) == Some(Walk(geoms, ray, ns, refs, p).t.r)
    decreases p.hi - p.lo
  {
    if IsLeaf(ns[p.lo]) {
      LeafHitsReferenced(geoms, ray, ns, refs, p);
    } else {
      var e := Expand(ray, ns, |refs|, p);
      ExpandReferenced(ray, ns, refs, p);
      WalkHitsReferenced(geoms, ray, ns, refs, e[0]);
      if |e| == 2 {
        WalkHitsReferenced(geoms, ray, ns, refs, e[1]);
      }
    }
  }

  /** The leaf case of `WalkHitsReferenced`. */
  lemma LeafHitsReferenced(geoms: seq<Geom>, ray: Ray, ns: seq<Node>, refs: seq<nat>, p: Pending)
    requires PendingOk(ns, |refs|, p) && RefsIn(refs, |geoms|) && IsLeaf(ns[p.lo])
    ensures Walk(geoms, ray, ns, refs, p).FoundAt? && Walk(geoms, ray, ns, refs, p).t.Fin? ==>
      exists id :: id in Referenced(ns, refs, p.lo, p.hi, p.height)
        && id < |geoms| && geoms[id].hit(ray) == Some(Walk(geoms, ray, ns, refs, p).t.r)
  {
    var n := ns[p.lo];
    var w := Walk(geoms, ray, ns, refs, p);
    var start := HeaderIndex(n);
    var ids := refs[start..start + n.payload.geomCount];
    assert RefsIn(ids, |geoms|);
    LeafTIsAHit(geoms, ids, ray);
    if w.FoundAt? && w.t.Fin? {
      var k :| 0 <= k < |ids| && geoms[ids[k]].hit(ray) == Some(w.t.r);
      assert ids[k] in Members(ids);
    }
  }

  /** The segments an internal node pushes cover subtrees of the node's. */
  lemma ExpandReferenced(ray: Ray, ns: seq<Node>, refs: seq<nat>, p: Pending)
    requires PendingOk(ns, |refs|, p) && !IsLeaf(ns[p.lo])
    ensures var e := Expand(ray, ns, |refs|, p);
      forall j :: 0 <= j < |e| ==>
        Referenced(ns, refs, e[j].lo, e[j].hi, e[j].height) <= Referenced(ns, refs, p.lo, p.hi, p.height)
  {
    var e := Expand(ray, ns, |refs|, p);
    forall j | 0 <= j < |e|
      ensures Referenced(ns, refs, e[j].lo, e[j].hi, e[j].height) <= Referenced(ns, refs, p.lo, p.hi, p.height)
    {
    }
  }

  /** A leaf whose geometries all miss still reports a hit, at +inf, when its segment is open
      towards +inf: the test `_t <= tmax` is true for two infinities. */
  lemma MissedLeafReportsInfinity(geoms: seq<Geom>, ray: Ray)
    requires forall i :: 0 <= i < |geoms| ==> geoms[i].hit(ray).None?
    ensures var ns := [LeafNode(0, |geoms|)];
      var refs := seq(|geoms|, i requires 0 <= i => i);
      PendingOk(ns, |refs|, Pending(0, 1, 0, Fin(0.0), PosInf))
      && Walk(geoms, ray, ns, refs, Pending(0, 1, 0, Fin(0.0), PosInf)) == FoundAt(PosInf)
  {
    var refs := seq(|geoms|, i requires 0 <= i => i);
    assert refs[0..|geoms|] == refs;
    LeafTIsAHit(geoms, refs, ray);
  }

  // ---------------------------------------------------------------------------------------
  // The segment stack

  /** Every segment on the stack is a subtree of the nodes. */
  predicate StackOk(ns: seq<Node>, refCount: nat, stack: seq<Pending>) {
    forall j :: 0 <= j < |stack| ==> PendingOk(ns, refCount, stack[j])
  }

  /** What the loop of `intersect` finds from a stack of segments: the top segment's walk, and
      when that finds nothing, the rest of the stack. */
  function Resume(geoms: seq<Geom>, ray: Ray, ns: seq<Node>, refs: seq<nat>, stack: seq<Pending>): Found
    requires StackOk(ns, |refs|, stack) && RefsIn(refs, |geoms|)
    decreases |stack|
  {
    if |stack| == 0 then NoHit
    else
      match Walk(geoms, ray, ns, refs, stack[|stack| - 1])
      case FoundAt(t) => FoundAt(t)
      case NoHit => Resume(geoms, ray, ns, refs, stack[..|stack| - 1])
  }

  /** The loop over a single segment is that segment's walk. */
  lemma ResumeOne(geoms: seq<Geom>, ray: Ray, ns: seq<Node>, refs: seq<nat>, p: Pending)
    requires PendingOk(ns, |refs|, p) && RefsIn(refs, |geoms|)
    ensures StackOk(ns, |refs|, [p]) && Resume(geoms, ray, ns, refs, [p]) == Walk(geoms, ray, ns, refs, p)
  {
    assert [p][..0] == [];
  }

  /** The walk of an internal node is the loop run over the segments it pushes. */
  lemma WalkExpand(geoms: seq<Geom>, ray: Ray, ns: seq<Node>, refs: seq<nat>, p: Pending)
    requires PendingOk(ns, |refs|, p) && RefsIn(refs, |geoms|) && !IsLeaf(ns[p.lo])
    ensures Walk(geoms, ray, ns, refs, p) == Resume(geoms, ray, ns, refs, Expand(ray, ns, |refs|, p))
  {
    var e := Expand(ray, ns, |refs|, p);
    ResumeOne(geoms, ray, ns, refs, e[0]);
    if |e| == 2 {
      assert e[..1] == [e[0]];
    }
  }

  /** Running the loop over a stack with `e` pushed on top of `rest` runs it over `e`, and over
      `rest` only when that finds nothing. */
  lemma {:induction false} ResumeAppend(geoms: seq<Geom>, ray: Ray, ns: seq<Node>, refs: seq<nat>,
                                        rest: seq<Pending>, e: seq<Pending>)
    requires StackOk(ns, |refs|, rest) && StackOk(ns, |refs|, e) && RefsIn(refs, |geoms|)
    ensures StackOk(ns, |refs|, rest + e)
    ensures Resume(geoms, ray, ns, refs, rest + e)
         == match Resume(geoms, ray, ns, refs, e)
            case FoundAt(t) => FoundAt(t)
            case NoHit => Resume(geoms, ray, ns, refs, rest)
    decreases |e|
  {
    var s := rest + e;
    assert StackOk(ns, |refs|, s) by {
      forall j | 0 <= j < |s| ensures PendingOk(ns, |refs|, s[j]) {
        if j < |rest| { assert s[j] == rest[j]; } else { assert s[j] == e[j - |rest|]; }
      }
    }
    if |e| == 0 {
      assert s == rest;
    } else {
      var init := e[..|e| - 1];
      assert s[..|s| - 1] == rest + init;
      assert s[|s| - 1] == e[|e| - 1];
      ResumeAppend(geoms, ray, ns, refs, rest, init);
    }
  }

  /** Replacing an internal node's segment on top of the stack by the segments it pushes leaves
      what the loop finds unchanged. */
  lemma ExpandResume(geoms: seq<Geom>, ray: Ray, ns: seq<Node>, refs: seq<nat>, rest: seq<Pending>, p: Pending)
    requires StackOk(ns, |refs|, rest) && PendingOk(ns, |refs|, p) && RefsIn(refs, |geoms|)
    requires !IsLeaf(ns[p.lo])
    ensures StackOk(ns, |refs|, rest + [p]) && StackOk(ns, |refs|, rest + Expand(ray, ns, |refs|, p))
    ensures Resume(geoms, ray, ns, refs, rest + Expand(ray, ns, |refs|, p))
         == Resume(geoms, ray, ns, refs, rest + [p])
  {
    var e := Expand(ray, ns, |refs|, p);
    WalkExpand(geoms, ray, ns, refs, p);
    ResumeAppend(geoms, ray, ns, refs, rest, e);
    var s := rest + [p];
    assert s[..|rest|] == rest;
    assert StackOk(ns, |refs|, s) by {
      forall j | 0 <= j < |s| ensures PendingOk(ns, |refs|, s[j]) {
        if j < |rest| { assert s[j] == rest[j]; }
      }
    }
  }

  /** Popping a leaf's segment: the loop finds the leaf's distance when it lies in the
      segment, and otherwise goes on with the rest of the stack, which is smaller. */
  lemma ResumeLeaf(geoms: seq<Geom>, ray: Ray, ns: seq<Node>, refs: seq<nat>, rest: seq<Pending>, p: Pending)
    requires StackOk(ns, |refs|, rest) && PendingOk(ns, |refs|, p) && RefsIn(refs, |geoms|)
    requires IsLeaf(ns[p.lo])
    ensures StackOk(ns, |refs|, rest + [p]) && Weight(rest) < Weight(rest + [p])
    ensures var start := HeaderIndex(ns[p.lo]);
      var ids := refs[start..start + ns[p.lo].payload.geomCount];
      RefsIn(ids, |geoms|)
      && Resume(geoms, ray, ns, refs, rest + [p])
         == if Le(p.tmin, LeafT(geoms, ids, ray)) && Le(LeafT(geoms, ids, ray), p.tmax)
            then FoundAt(LeafT(geoms, ids, ray)) else Resume(geoms, ray, ns, refs, rest)
  {
    var s := rest + [p];
    assert s[..|s| - 1] == rest;
    assert StackOk(ns, |refs|, s) by {
      forall j | 0 <= j < |s| ensures PendingOk(ns, |refs|, s[j]) {
        if j < |rest| { assert s[j] == rest[j]; }
      }
    }
  }

  /** The total size of the subtrees on the stack, which every iteration of the loop lowers. */
  function Weight(stack: seq<Pending>): nat {
    if |stack| == 0 then 0 else Weight(stack[..|stack| - 1]) + Size(stack[|stack| - 1])
  }

  /** The number of nodes of a segment's subtree. */
  function Size(p: Pending): nat {
    if p.lo < p.hi then p.hi - p.lo else 0
  }

  /** Pushing the children's segments in place of their node's lowers the total size. */
  lemma ExpandWeight(ray: Ray, ns: seq<Node>, refCount: nat, rest: seq<Pending>, p: Pending)
    requires PendingOk(ns, refCount, p) && !IsLeaf(ns[p.lo])
    ensures Weight(rest + Expand(ray, ns, refCount, p)) < Weight(rest + [p])
  {
    var e := Expand(ray, ns, refCount, p);
    assert (rest + [p])[..|rest|] == rest;
    assert (rest + e)[..|rest + e| - 1] == rest + e[..|e| - 1];
    if |e| == 2 {
      assert (rest + e[..1])[..|rest|] == rest;
    }
  }
}
