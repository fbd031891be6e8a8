/** The edge events of the kd-tree builder (src/core/kdtree.h): for every geometry overlapping
    a node, a START event at its box's lower bound on the split axis and an END event at its upper
    bound. The builder fills them into a scratch array, sorts them, sweeps them to find the
    cheapest split, and then classifies the geometry ids on either side of the chosen event. */
module KdEdges {
  import opened Numeric
  import opened Vectors
  import opened Boxes

  datatype EdgeKind = Start | End

  /** The enum's integer value: `START` is 0 and `END` is 1. */
  function Rank(k: EdgeKind): int {
    if k == Start then 0 else 1
  }

  datatype Edge = Edge(split: real, index: nat, kind: EdgeKind)

  /** `Edge::operator<`: by split position, and at equal positions START before END. */
  predicate Less(a: Edge, b: Edge) {
    if a.split == b.split then Rank(a.kind) < Rank(b.kind) else a.split < b.split
  }

  /** `Less` is a strict weak order, as `std::sort` requires: irreflexive, transitive, and with
      a transitive incomparability. */
  lemma LessIsStrictWeakOrder(a: Edge, b: Edge, c: Edge)
    ensures !Less(a, a)
    ensures Less(a, b) && Less(b, c) ==> Less(a, c)
    ensures !Less(a, b) && !Less(b, a) && !Less(b, c) && !Less(c, b) ==> !Less(a, c) && !Less(c, a)
    ensures Less(a, b) ==> !Less(b, a)
  {
  }

  /** Two events compare equal under `Less` exactly when they share position and kind. */
  lemma LessTies(a: Edge, b: Edge)
    ensures !Less(a, b) && !Less(b, a) <==> a.split == b.split && a.kind == b.kind
  {
  }

  /** The boxes whose edges can be taken: finite and ordered on every axis. */
  predicate ValidIds(ids: seq<nat>, bounds: seq<BBox>) {
    forall i :: 0 <= i < |ids| ==> ids[i] < |bounds| && Proper(bounds[ids[i]])
  }

  function StartEdge(bounds: seq<BBox>, id: nat, axis: nat): Edge
    requires id < |bounds| && bounds[id].Box? && axis < 3
  {
    Edge(At(bounds[id].min, axis), id, Start)
  }

  function EndEdge(bounds: seq<BBox>, id: nat, axis: nat): Edge
    requires id < |bounds| && bounds[id].Box? && axis < 3
  {
    Edge(At(bounds[id].max, axis), id, End)
  }

  /** A geometry's START event sorts before its own END event. */
  lemma StartBeforeEnd(bounds: seq<BBox>, id: nat, axis: nat)
    requires id < |bounds| && Proper(bounds[id]) && axis < 3
    ensures Less(StartEdge(bounds, id, axis), EndEdge(bounds, id, axis))
  {
  }

  /** The events of the geometries `ids` as the builder lays them out: geometry `i`'s START at
      `2 * i` and its END at `2 * i + 1`. */
  function EdgeList(ids: seq<nat>, bounds: seq<BBox>, axis: nat): (r: seq<Edge>)
    requires ValidIds(ids, bounds) && axis < 3
    ensures |r| == 2 * |ids|
  {
    if |ids| == 0 then []
    else
      var last := ids[|ids| - 1];
      EdgeList(ids[..|ids| - 1], bounds, axis) + [StartEdge(bounds, last, axis), EndEdge(bounds, last, axis)]
  }

  /** The events of the geometries `ids`, in no order: one START and one END per geometry. */
  function EdgeBag(ids: seq<nat>, bounds: seq<BBox>, axis: nat): multiset<Edge>
    requires ValidIds(ids, bounds) && axis < 3
  {
    if |ids| == 0 then multiset{}
    else
      var last := ids[|ids| - 1];
      EdgeBag(ids[..|ids| - 1], bounds, axis) + multiset{StartEdge(bounds, last, axis), EndEdge(bounds, last, axis)}
  }

  /** The event list holds exactly the events of the bag. */
  lemma {:induction false} EdgeBagOfList(ids: seq<nat>, bounds: seq<BBox>, axis: nat)
    requires ValidIds(ids, bounds) && axis < 3
    ensures multiset(EdgeList(ids, bounds, axis)) == EdgeBag(ids, bounds, axis)
  {
    if |ids| > 0 {
      var last := ids[|ids| - 1];
      EdgeBagOfList(ids[..|ids| - 1], bounds, axis);
      assert multiset(EdgeList(ids, bounds, axis))
          == multiset(EdgeList(ids[..|ids| - 1], bounds, axis))
             + multiset([StartEdge(bounds, last, axis), EndEdge(bounds, last, axis)]);
    }
  }

  /** In the event list, geometry `i`'s START is at `2 * i` and its END at `2 * i + 1`. */
  lemma {:induction false} EdgeListAt(ids: seq<nat>, bounds: seq<BBox>, axis: nat, i: int)
    requires ValidIds(ids, bounds) && axis < 3 && 0 <= i < |ids|
    ensures EdgeList(ids, bounds, axis)[2 * i] == StartEdge(bounds, ids[i], axis)
    ensures EdgeList(ids, bounds, axis)[2 * i + 1] == EndEdge(bounds, ids[i], axis)
  {
    var prefix := ids[..|ids| - 1];
    if i < |ids| - 1 {
      assert prefix[i] == ids[i];
      EdgeListAt(prefix, bounds, axis, i);
    }
  }

  /** The loop of `build` that prepares the events of one axis from `overlapping`. */
  method PrepareEdges(a: array<Edge>, ov: array<nat>, off: nat, n: nat, bounds: seq<BBox>, axis: nat,
                      ghost ids: seq<nat>)
    requires off + n <= ov.Length && 2 * n <= a.Length && axis < 3
    requires ids == ov[off..off + n] && ValidIds(ids, bounds)
    modifies a
    ensures a[..2 * n] == EdgeList(ids, bounds, axis)
    ensures a[2 * n..] == old(a[2 * n..])
  {
    var i := 0;
    while i < n
      invariant 0 <= i <= n
      invariant forall k :: 0 <= k < i ==>
        a[2 * k] == StartEdge(bounds, ids[k], axis) && a[2 * k + 1] == EndEdge(bounds, ids[k], axis)
      invariant forall k :: 2 * n <= k < a.Length ==> a[k] == old(a[k])
    {
      var index := ov[off + i];
      assert index == ids[i];
      var b := bounds[index];
      a[2 * i] := Edge(At(b.min, axis), index, Start);
      a[2 * i + 1] := Edge(At(b.max, axis), index, End);
      i := i + 1;
    }
    EdgeListByIndex(a[..2 * n], ids, bounds, axis);
  }

  /** A sequence with each geometry's START and END events at `2 * i` and `2 * i + 1` is the
      event list of those geometries. */
  lemma EdgeListByIndex(s: seq<Edge>, ids: seq<nat>, bounds: seq<BBox>, axis: nat)
    requires ValidIds(ids, bounds) && axis < 3 && |s| == 2 * |ids|
    requires forall k :: 0 <= k < |ids| ==>
      s[2 * k] == StartEdge(bounds, ids[k], axis) && s[2 * k + 1] == EndEdge(bounds, ids[k], axis)
    ensures s == EdgeList(ids, bounds, axis)
  {
    var r := EdgeList(ids, bounds, axis);
    forall j | 0 <= j < |s| ensures s[j] == r[j] {
      var k := j / 2;
      EdgeListAt(ids, bounds, axis, k);
      assert 0 <= k < |ids| && s[2 * k] == r[2 * k];
      if j != 2 * k {
        assert j == 2 * k + 1;
      }
    }
  }

  /** No event is followed by a smaller one. */
  predicate Sorted(s: seq<Edge>) {
    forall i, j :: 0 <= i < j < |s| ==> !Less(s[j], s[i])
  }

  /** `std::sort` over `a[0 .. len)`, as an insertion sort by adjacent swaps: the prefix ends up
      sorted and holds the same events; the rest of the array is untouched. */
  method SortEdges(a: array<Edge>, len: nat)
    requires len <= a.Length
    modifies a
    ensures Sorted(a[..len])
    ensures multiset(a[..len]) == multiset(old(a[..len]))
    ensures a[len..] == old(a[len..])
  {
    var i := 0;
    while i < len
      invariant 0 <= i <= len
      invariant Sorted(a[..i])
      invariant multiset(a[..]) == multiset(old(a[..]))
      invariant forall k :: len <= k < a.Length ==> a[k] == old(a[k])
    {
      InsertEdge(a, i);
      i := i + 1;
    }
    assert a[len..] == old(a[len..]);
    assert a[..] == a[..len] + a[len..] && old(a[..]) == old(a[..len]) + old(a[len..]);
    assert multiset(a[..]) == multiset(a[..len]) + multiset(a[len..]);
    assert multiset(old(a[..])) == multiset(old(a[..len])) + multiset(old(a[len..]));
    MultisetCancel(multiset(a[..len]), multiset(old(a[..len])), multiset(a[len..]));
  }

  /** One pass of the insertion sort: `a[i]` moves left past every larger event. */
  method InsertEdge(a: array<Edge>, i: nat)
    requires i < a.Length && Sorted(a[..i])
    modifies a
    ensures Sorted(a[..i + 1])
    ensures multiset(a[..]) == multiset(old(a[..]))
    ensures forall k :: i < k < a.Length ==> a[k] == old(a[k])
  {
    var j := i;
    while j > 0 && Less(a[j], a[j - 1])
      invariant 0 <= j <= i
      invariant Inserting(a[..], i, j)
      invariant multiset(a[..]) == multiset(old(a[..]))
      invariant forall k :: i < k < a.Length ==> a[k] == old(a[k])
    {
      ghost var s := a[..];
      a[j - 1], a[j] := a[j], a[j - 1];
      assert a[..] == s[j - 1 := s[j]][j := s[j - 1]];
      SwapStep(s, i, j);
      j := j - 1;
    }
    InsertDone(a[..], i, j);
  }

  /** The state of an insertion pass: `s[0 .. i]` is sorted apart from the element at `j`,
      which is smaller than everything after it. */
  predicate Inserting(s: seq<Edge>, i: int, j: int)
    requires 0 <= j <= i < |s|
  {
    (forall p, q :: 0 <= p < q <= i && q != j ==> !Less(s[q], s[p]))
    && (forall q :: j < q <= i ==> Less(s[j], s[q]))
  }

  lemma SwapStep(s: seq<Edge>, i: int, j: int)
    requires 0 < j <= i < |s| && Inserting(s, i, j) && Less(s[j], s[j - 1])
    ensures Inserting(s[j - 1 := s[j]][j := s[j - 1]], i, j - 1)
    ensures multiset(s[j - 1 := s[j]][j := s[j - 1]]) == multiset(s)
  {
    SwapKeepsMultiset(s, j - 1, j);
  }

  lemma InsertDone(s: seq<Edge>, i: int, j: int)
    requires 0 <= j <= i < |s| && Inserting(s, i, j)
    requires j == 0 || !Less(s[j], s[j - 1])
    ensures Sorted(s[..i + 1])
  {
    forall p, q | 0 <= p < q <= i
      ensures !Less(s[q], s[p])
    {
      if q == j && p < j - 1 {
        NotLessTransitive(s[j], s[j - 1], s[p]);
      }
    }
  }

  /** Not being smaller is transitive: `Less` compares a total preorder's keys. */
  lemma NotLessTransitive(x: Edge, y: Edge, z: Edge)
    requires !Less(x, y) && !Less(y, z)
    ensures !Less(x, z)
  {
  }

  lemma MultisetCancel(x: multiset<Edge>, y: multiset<Edge>, m: multiset<Edge>)
    requires x + m == y + m
    ensures x == y
  {
    forall e ensures x[e] == y[e] {
      assert (x + m)[e] == (y + m)[e];
    }
  }

  lemma SwapKeepsMultiset(s: seq<Edge>, p: int, q: int)
    requires 0 <= p < q < |s|
    ensures multiset(s[p := s[q]][q := s[p]]) == multiset(s)
  {
  }

  // ---------------------------------------------------------------------------------------
  // Counting events

  /** The geometry ids of the START events of `s`, in order. */
  function StartIds(s: seq<Edge>): seq<nat> {
    if |s| == 0 then []
    else StartIds(s[..|s| - 1]) + (if s[|s| - 1].kind == Start then [s[|s| - 1].index] else [])
  }

  /** The geometry ids of the END events of `s`, in order. */
  function EndIds(s: seq<Edge>): seq<nat> {
    if |s| == 0 then []
    else EndIds(s[..|s| - 1]) + (if s[|s| - 1].kind == End then [s[|s| - 1].index] else [])
  }

  lemma {:induction false} IdsOfConcat(s: seq<Edge>, t: seq<Edge>)
    ensures StartIds(s + t) == StartIds(s) + StartIds(t)
    ensures EndIds(s + t) == EndIds(s) + EndIds(t)
    decreases |t|
  {
    if |t| > 0 {
      assert (s + t)[..|s + t| - 1] == s + t[..|t| - 1];
      IdsOfConcat(s, t[..|t| - 1]);
    } else {
      assert s + t == s;
    }
  }

  lemma IdsOfSingle(x: Edge)
    ensures StartIds([x]) == if x.kind == Start then [x.index] else []
    ensures EndIds([x]) == if x.kind == End then [x.index] else []
  {
    assert [x][..0] == [];
  }

  /** Extending a prefix by one event adds that event's id to its kind's list. */
  lemma IdsOfPrefix(s: seq<Edge>, i: int)
    requires 0 <= i < |s|
    ensures StartIds(s[..i + 1]) == StartIds(s[..i]) + (if s[i].kind == Start then [s[i].index] else [])
    ensures EndIds(s[..i + 1]) == EndIds(s[..i]) + (if s[i].kind == End then [s[i].index] else [])
  {
    assert s[..i + 1][..i] == s[..i];
  }

  /** A prefix has no more ids of either kind than the whole sequence. */
  lemma IdsOfPart(s: seq<Edge>, i: int)
    requires 0 <= i <= |s|
    ensures |StartIds(s[..i])| <= |StartIds(s)| && |EndIds(s[i..])| <= |EndIds(s)|
    ensures |EndIds(s[..i])| <= |EndIds(s)|
  {
    assert s == s[..i] + s[i..];
    IdsOfConcat(s[..i], s[i..]);
  }

  /** An id is listed exactly when some event of that kind carries it. */
  lemma {:induction false} IdsMembership(s: seq<Edge>, x: nat)
    ensures x in StartIds(s) <==> exists k :: 0 <= k < |s| && s[k].kind == Start && s[k].index == x
    ensures x in EndIds(s) <==> exists k :: 0 <= k < |s| && s[k].kind == End && s[k].index == x
    decreases |s|
  {
    if |s| > 0 {
      var s' := s[..|s| - 1];
      IdsMembership(s', x);
      if x in StartIds(s') {
        var k :| 0 <= k < |s'| && s'[k].kind == Start && s'[k].index == x;
        assert s[k] == s'[k];
      }
      if x in EndIds(s') {
        var k :| 0 <= k < |s'| && s'[k].kind == End && s'[k].index == x;
        assert s[k] == s'[k];
      }
      if exists k :: 0 <= k < |s| && s[k].kind == Start && s[k].index == x {
        var k :| 0 <= k < |s| && s[k].kind == Start && s[k].index == x;
        if k < |s| - 1 {
          assert s'[k] == s[k];
        }
      }
      if exists k :: 0 <= k < |s| && s[k].kind == End && s[k].index == x {
        var k :| 0 <= k < |s| && s[k].kind == End && s[k].index == x;
        if k < |s| - 1 {
          assert s'[k] == s[k];
        }
      }
    }
  }

  /** Removing the element at `j` removes one copy of it from the multiset. */
  lemma RemoveOne(t: seq<Edge>, j: int)
    requires 0 <= j < |t|
    ensures multiset(t[..j] + t[j + 1..]) + multiset{t[j]} == multiset(t)
  {
    assert t == t[..j] + [t[j]] + t[j + 1..];
  }

  /** Reordering the events does not change how many of each kind there are. */
  lemma {:induction false} CountsOfPermutation(s: seq<Edge>, t: seq<Edge>)
    requires multiset(s) == multiset(t)
    ensures |StartIds(s)| == |StartIds(t)| && |EndIds(s)| == |EndIds(t)|
    decreases |s|
  {
    if |s| == 0 {
      assert |t| == |multiset(t)| == 0;
    } else {
      var s' := s[..|s| - 1];
      var x := s[|s| - 1];
      assert s == s' + [x];
      assert x in multiset(s);
      var j :| 0 <= j < |t| && t[j] == x;
      var t' := t[..j] + t[j + 1..];
      RemoveOne(t, j);
      MultisetCancel(multiset(s'), multiset(t'), multiset{x});
      CountsOfPermutation(s', t');
      assert t == t[..j] + ([x] + t[j + 1..]);
      IdsOfConcat(t[..j], [x] + t[j + 1..]);
      IdsOfConcat([x], t[j + 1..]);
      IdsOfConcat(t[..j], t[j + 1..]);
      IdsOfConcat(s', [x]);
      IdsOfSingle(x);
    }
  }

  /** The builder's event list holds one START and one END per geometry. */
  lemma {:induction false} CountsOfEdgeList(ids: seq<nat>, bounds: seq<BBox>, axis: nat)
    requires ValidIds(ids, bounds) && axis < 3
    ensures |StartIds(EdgeList(ids, bounds, axis))| == |ids|
    ensures |EndIds(EdgeList(ids, bounds, axis))| == |ids|
    decreases |ids|
  {
    if |ids| > 0 {
      var last := ids[|ids| - 1];
      var st, en := StartEdge(bounds, last, axis), EndEdge(bounds, last, axis);
      CountsOfEdgeList(ids[..|ids| - 1], bounds, axis);
      IdsOfConcat(EdgeList(ids[..|ids| - 1], bounds, axis), [st, en]);
      IdsOfConcat([st], [en]);
      assert [st, en] == [st] + [en];
      IdsOfSingle(st);
      IdsOfSingle(en);
    }
  }

  /** Every event of the builder's list carries one of the listed ids. */
  lemma {:induction false} EdgeListIds(ids: seq<nat>, bounds: seq<BBox>, axis: nat, e: Edge)
    requires ValidIds(ids, bounds) && axis < 3
    requires e in EdgeList(ids, bounds, axis)
    ensures e.index in ids
    decreases |ids|
  {
    var last := ids[|ids| - 1];
    var prefix := ids[..|ids| - 1];
    if e in EdgeList(prefix, bounds, axis) {
      EdgeListIds(prefix, bounds, axis, e);
    }
  }

  // ---------------------------------------------------------------------------------------
  // The sweep

  /** The number of START events among the first `i` events of `s`: the sweep's `num_below`
      when it reaches event `i`. */
  function CountStarts(s: seq<Edge>, i: int): nat
    requires 0 <= i <= |s|
  {
    if i == 0 then 0 else CountStarts(s, i - 1) + (if s[i - 1].kind == Start then 1 else 0)
  }

  /** The number of END events among the first `i` events of `s`. */
  function CountEnds(s: seq<Edge>, i: int): nat
    requires 0 <= i <= |s|
  {
    if i == 0 then 0 else CountEnds(s, i - 1) + (if s[i - 1].kind == End then 1 else 0)
  }

  /** The sweep's running counts are the numbers of ids the classification loops collect from
      the same events. */
  lemma {:induction false} CountsAreIds(s: seq<Edge>, i: int)
    requires 0 <= i <= |s|
    ensures CountStarts(s, i) == |StartIds(s[..i])| && CountEnds(s, i) == |EndIds(s[..i])|
  {
    if i > 0 {
      CountsAreIds(s, i - 1);
      IdsOfPrefix(s, i - 1);
    }
  }

  /** What the sweep charges for splitting at event `i` of the sorted events `s` of `n`
      geometries: the cost of the plane through it when it lies strictly inside `(lo, hi)`,
      with the geometries whose START comes before `i` below and the `n` geometries less those
      whose END is at `i` or before above; +inf for an event that is not a candidate. */
  function CandidateCost(s: seq<Edge>, n: int, i: int, lo: ExtReal, hi: ExtReal,
                         cost: (real, int, int) -> ExtReal): ExtReal
    requires 0 <= i < |s|
  {
    if Lt(lo, Fin(s[i].split)) && Lt(Fin(s[i].split), hi) then cost(s[i].split, CountStarts(s, i), n - CountEnds(s, i + 1))
    else PosInf
  }

  /** `b` is no more than the cost of any of the first `k` events of `s`. */
  predicate NoCheaper(s: seq<Edge>, n: int, k: int, lo: ExtReal, hi: ExtReal, cost: (real, int, int) -> ExtReal,
                      b: ExtReal)
    requires k <= |s|
  {
    forall j :: 0 <= j < k ==> Le(b, CandidateCost(s, n, j, lo, hi, cost))
  }

  /** `b` is strictly less than the cost of each of the first `k` events of `s`. */
  predicate Cheaper(s: seq<Edge>, n: int, k: int, lo: ExtReal, hi: ExtReal, cost: (real, int, int) -> ExtReal,
                    b: ExtReal)
    requires k <= |s|
  {
    forall j :: 0 <= j < k ==> Lt(b, CandidateCost(s, n, j, lo, hi, cost))
  }

  /** A bound of the first `i` events that is lowered to at most the cost of event `i` bounds
      the first `i + 1`. */
  lemma NoCheaperStep(s: seq<Edge>, n: int, i: int, lo: ExtReal, hi: ExtReal, cost: (real, int, int) -> ExtReal,
                      prev: ExtReal, b: ExtReal)
    requires 0 <= i < |s| && NoCheaper(s, n, i, lo, hi, cost, prev)
    requires Le(b, prev) && Le(b, CandidateCost(s, n, i, lo, hi, cost))
    ensures NoCheaper(s, n, i + 1, lo, hi, cost, b)
  {
    forall j | 0 <= j < i + 1
      ensures Le(b, CandidateCost(s, n, j, lo, hi, cost))
    {
      LeTotalOrder(b, prev, CandidateCost(s, n, j, lo, hi, cost));
    }
  }

  /** A cost strictly below a bound of the first `i` events is strictly below each of them. */
  lemma CheaperThanBound(s: seq<Edge>, n: int, i: int, lo: ExtReal, hi: ExtReal, cost: (real, int, int) -> ExtReal,
                         prev: ExtReal, c: ExtReal)
    requires 0 <= i <= |s| && NoCheaper(s, n, i, lo, hi, cost, prev) && Lt(c, prev)
    ensures Cheaper(s, n, i, lo, hi, cost, c)
  {
    forall j | 0 <= j < i
      ensures Lt(c, CandidateCost(s, n, j, lo, hi, cost))
    {
      LeTotalOrder(CandidateCost(s, n, j, lo, hi, cost), prev, c);
      LeTotalOrder(c, prev, c);
    }
  }

  /** After the first `i` events of `s`, starting from the best `(best, bestAxis, bestEdge)`:
      `best'` is no worse than `best` nor than any of those events, and when it is better than
      `best` it is the first cheapest of them, chosen on `axis`; otherwise nothing changed. */
  predicate SweptTo(s: seq<Edge>, n: int, i: int, lo: ExtReal, hi: ExtReal, cost: (real, int, int) -> ExtReal,
                    axis: int, best: ExtReal, bestAxis: int, bestEdge: int,
                    best': ExtReal, bestAxis': int, bestEdge': int)
    requires 0 <= i <= |s|
  {
    Le(best', best)
    && (!Lt(best', best) ==> best' == best && bestAxis' == bestAxis && bestEdge' == bestEdge)
    && (Lt(best', best) ==>
          bestAxis' == axis && 0 <= bestEdge' < i
          && best' == CandidateCost(s, n, bestEdge', lo, hi, cost)
          && Cheaper(s, n, bestEdge', lo, hi, cost, best'))
    && NoCheaper(s, n, i, lo, hi, cost, best')
  }

  /** Event `i` considered: the best moves to it exactly when its cost is strictly lower. */
  lemma SweptStep(s: seq<Edge>, n: int, i: int, lo: ExtReal, hi: ExtReal, cost: (real, int, int) -> ExtReal,
                  axis: int, best: ExtReal, bestAxis: int, bestEdge: int,
                  prev: ExtReal, prevAxis: int, prevEdge: int, best': ExtReal, bestAxis': int, bestEdge': int)
    requires 0 <= i < |s|
    requires SweptTo(s, n, i, lo, hi, cost, axis, best, bestAxis, bestEdge, prev, prevAxis, prevEdge)
    requires Lt(CandidateCost(s, n, i, lo, hi, cost), prev) ==>
      best' == CandidateCost(s, n, i, lo, hi, cost) && bestAxis' == axis && bestEdge' == i
    requires !Lt(CandidateCost(s, n, i, lo, hi, cost), prev) ==>
      best' == prev && bestAxis' == prevAxis && bestEdge' == prevEdge
    ensures SweptTo(s, n, i + 1, lo, hi, cost, axis, best, bestAxis, bestEdge, best', bestAxis', bestEdge')
  {
    var c := CandidateCost(s, n, i, lo, hi, cost);
    if Lt(c, prev) {
      CheaperThanBound(s, n, i, lo, hi, cost, prev, c);
    }
    LeTotalOrder(best', prev, best);
    LeTotalOrder(best', prev, c);
    LeTotalOrder(c, best', c);
    NoCheaperStep(s, n, i, lo, hi, cost, prev, best');
  }

  /** The sweep of one axis in `build`: it keeps the running counts of geometries below and
      above, and replaces the best split whenever a candidate is strictly cheaper. The result is
      never worse than the incoming best nor than any candidate of this axis; if it is better
      than the incoming best, it is the first cheapest candidate of this axis. */
  method Sweep(a: array<Edge>, n: nat, lo: ExtReal, hi: ExtReal, axis: int, cost: (real, int, int) -> ExtReal,
               best: ExtReal, bestAxis: int, bestEdge: int)
    returns (best': ExtReal, bestAxis': int, bestEdge': int)
    requires 2 * n <= a.Length
    ensures SweptTo(a[..2 * n], n, 2 * n, lo, hi, cost, axis, best, bestAxis, bestEdge, best', bestAxis', bestEdge')
  {
    ghost var s := a[..2 * n];
    best', bestAxis', bestEdge' := best, bestAxis, bestEdge;
    var numBelow: int, numAbove: int := 0, n;
    var i := 0;
    while i < 2 * n
      invariant 0 <= i <= 2 * n
      invariant numBelow == CountStarts(s, i) && numAbove == n - CountEnds(s, i)
      invariant SweptTo(s, n, i, lo, hi, cost, axis, best, bestAxis, bestEdge, best', bestAxis', bestEdge')
    {
      assert a[i] == s[i];
      if a[i].kind == End {
        numAbove := numAbove - 1;
      }
      var split := a[i].split;
      ghost var prev, prevAxis, prevEdge := best', bestAxis', bestEdge';
      if Lt(lo, Fin(split)) && Lt(Fin(split), hi) {
        var c := cost(split, numBelow, numAbove);
        assert c == CandidateCost(s, n, i, lo, hi, cost);
        if Lt(c, best') {
          best', bestAxis', bestEdge' := c, axis, i;
        }
      }
      SweptStep(s, n, i, lo, hi, cost, axis, best, bestAxis, bestEdge, prev, prevAxis, prevEdge,
                best', bestAxis', bestEdge');
      if a[i].kind == Start {
        numBelow := numBelow + 1;
      }
      i := i + 1;
    }
  }

  // ---------------------------------------------------------------------------------------
  // Classification

  /** The first classification loop of `build`: the ids of the START events before the chosen
      event `e`, in order, into `below`. There are at most as many as there are geometries. */
  method CollectBelow(a: array<Edge>, n: nat, e: nat, below: array<nat>) returns (numBelow: nat)
    requires e < 2 * n <= a.Length && |StartIds(a[..2 * n])| == n && n <= below.Length
    modifies below
    ensures numBelow <= n && below[..numBelow] == StartIds(a[..e])
    ensures forall k :: numBelow <= k < below.Length ==> below[k] == old(below[k])
  {
    IdsOfPart(a[..2 * n], e);
    assert a[..2 * n][..e] == a[..e];
    numBelow := CollectStarts(a[..e], below);
  }

  /** The loop of `CollectBelow` over the events before the chosen one. */
  method CollectStarts(t: seq<Edge>, below: array<nat>) returns (count: nat)
    requires |StartIds(t)| <= below.Length
    modifies below
    ensures count == |StartIds(t)| && below[..count] == StartIds(t)
    ensures forall k :: count <= k < below.Length ==> below[k] == old(below[k])
  {
    count := 0;
    ghost var written: seq<nat> := [];
    var k := 0;
    while k < |t|
      invariant 0 <= k <= |t|
      invariant written == StartIds(t[..k]) && count == |written| <= |StartIds(t)|
      invariant forall j :: 0 <= j < count ==> below[j] == written[j]
      invariant forall j :: count <= j < below.Length ==> below[j] == old(below[j])
    {
      IdsOfPrefix(t, k);
      IdsOfPart(t, k + 1);
      if t[k].kind == Start {
        below[count] := t[k].index;
        written := written + [t[k].index];
        count := count + 1;
      }
      k := k + 1;
    }
    assert t[..k] == t;
    assert below[..count] == written;
  }

  /** The second classification loop of `build`: the ids of the END events after the chosen
      event `e`, in order, into `above` from `aboveOff` on. There are at most as many as there
      are geometries. */
  method CollectAbove(a: array<Edge>, n: nat, e: nat, above: array<nat>, aboveOff: nat) returns (numAbove: nat)
    requires e < 2 * n <= a.Length && |EndIds(a[..2 * n])| == n && aboveOff + n <= above.Length
    modifies above
    ensures numAbove <= n && above[aboveOff..aboveOff + numAbove] == EndIds(a[e + 1..2 * n])
    ensures forall k :: 0 <= k < aboveOff ==> above[k] == old(above[k])
    ensures forall k :: aboveOff + numAbove <= k < above.Length ==> above[k] == old(above[k])
  {
    IdsOfPart(a[..2 * n], e + 1);
    assert a[..2 * n][e + 1..] == a[e + 1..2 * n];
    numAbove := CollectEnds(a[e + 1..2 * n], above, aboveOff);
  }

  /** The loop of `CollectAbove` over the events after the chosen one. */
  method CollectEnds(t: seq<Edge>, above: array<nat>, off: nat) returns (count: nat)
    requires off + |EndIds(t)| <= above.Length
    modifies above
    ensures count == |EndIds(t)| && above[off..off + count] == EndIds(t)
    ensures forall k :: 0 <= k < off ==> above[k] == old(above[k])
    ensures forall k :: off + count <= k < above.Length ==> above[k] == old(above[k])
  {
    count := 0;
    ghost var before := above[..];
    var k := 0;
    while k < |t|
      invariant 0 <= k <= |t| && EndsCollected(t, k, above[..], before, off, count)
    {
      count := CollectEndStep(t, k, above, before, off, count);
      k := k + 1;
    }
    assert t[..k] == t;
    forall j | 0 <= j < count ensures above[off..off + count][j] == EndIds(t)[j] {
      assert above[off + j] == EndIds(t)[j];
    }
  }

  /** The state of `CollectEnds` after the first `k` events: the END ids among them stored from
      `off` on, and every other slot as it was. */
  ghost predicate EndsCollected(t: seq<Edge>, k: nat, cur: seq<nat>, before: seq<nat>, off: nat, count: nat)
    requires k <= |t|
  {
    && |cur| == |before|
    && count == |EndIds(t[..k])| <= |EndIds(t)| && off + |EndIds(t)| <= |cur|
    && (forall j :: 0 <= j < count ==> cur[off + j] == EndIds(t[..k])[j])
    && (forall j :: 0 <= j < off ==> cur[j] == before[j])
    && (forall j :: off + count <= j < |cur| ==> cur[j] == before[j])
  }

  /** One pass of the loop of `CollectEnds`. */
  method CollectEndStep(t: seq<Edge>, k: nat, above: array<nat>, ghost before: seq<nat>, off: nat, count: nat)
    returns (count': nat)
    requires k < |t| && EndsCollected(t, k, above[..], before, off, count)
    modifies above
    ensures EndsCollected(t, k + 1, above[..], before, off, count')
  {
    IdsOfPrefix(t, k);
    IdsOfPart(t, k + 1);
    count' := count;
    if t[k].kind == End {
      above[off + count] := t[k].index;
      count' := count + 1;
    }
  }

  /** Every geometry lands below or above the chosen event (or both): its START event sorts
      before its END event, so either the START comes before the chosen event or the END comes
      after it. */
  lemma PartitionCovers(ids: seq<nat>, bounds: seq<BBox>, axis: nat, s: seq<Edge>, e: int)
    requires ValidIds(ids, bounds) && axis < 3
    requires multiset(s) == multiset(EdgeList(ids, bounds, axis)) && Sorted(s)
    requires 0 <= e < |s|
    ensures forall i :: 0 <= i < |ids| ==> ids[i] in StartIds(s[..e]) || ids[i] in EndIds(s[e + 1..])
  {
    var r := EdgeList(ids, bounds, axis);
    forall i | 0 <= i < |ids|
      ensures ids[i] in StartIds(s[..e]) || ids[i] in EndIds(s[e + 1..])
    {
      EdgeListAt(ids, bounds, axis, i);
      assert r[2 * i] in multiset(r) && r[2 * i + 1] in multiset(r);
      CoversOne(bounds, ids[i], axis, s, e);
    }
  }

  /** One geometry whose two events are among the sorted events `s` lands below or above `e`. */
  lemma CoversOne(bounds: seq<BBox>, id: nat, axis: nat, s: seq<Edge>, e: int)
    requires id < |bounds| && Proper(bounds[id]) && axis < 3
    requires StartEdge(bounds, id, axis) in multiset(s) && EndEdge(bounds, id, axis) in multiset(s)
    requires Sorted(s) && 0 <= e < |s|
    ensures id in StartIds(s[..e]) || id in EndIds(s[e + 1..])
  {
    var st, en := StartEdge(bounds, id, axis), EndEdge(bounds, id, axis);
    assert st in s && en in s;
    var p :| 0 <= p < |s| && s[p] == st;
    var q :| 0 <= q < |s| && s[q] == en;
    StartBeforeEnd(bounds, id, axis);
    LessIsStrictWeakOrder(st, en, st);
    assert p < q;
    if p < e {
      assert s[..e][p] == st;
      IdsMembership(s[..e], id);
    } else {
      assert s[e + 1..][q - e - 1] == en;
      IdsMembership(s[e + 1..], id);
    }
  }

  /** The ids the classification collects are ids of the geometries the events came from. */
  lemma ClassifiedIds(ids: seq<nat>, bounds: seq<BBox>, axis: nat, s: seq<Edge>, lo: int, hi: int)
    requires ValidIds(ids, bounds) && axis < 3
    requires multiset(s) == multiset(EdgeList(ids, bounds, axis))
    requires 0 <= lo <= hi <= |s|
    ensures forall x :: x in StartIds(s[lo..hi]) ==> x in ids
    ensures forall x :: x in EndIds(s[lo..hi]) ==> x in ids
  {
    forall x | x in StartIds(s[lo..hi]) || x in EndIds(s[lo..hi])
      ensures x in ids
    {
      IdsMembership(s[lo..hi], x);
      var k :| 0 <= k < hi - lo && s[lo..hi][k].index == x;
      assert s[lo + k] in multiset(s);
      assert s[lo + k] in multiset(EdgeList(ids, bounds, axis));
      EdgeListIds(ids, bounds, axis, s[lo + k]);
    }
  }
}
