/** The compact kd-tree node of src/core/kdtree.h. A node is a 32-bit `header` whose two low bits
    are the split axis (0, 1, 2) or 3 for a leaf, and whose 30 high bits are an index: the first
    geometry reference of a leaf, or the front (above) child of an internal node. The rest of the
    node is a union of the split position and the leaf's geometry count, modelled as the payload
    the node was built with. */
module KdNodes {

  /** Indices that fit in the header's 30 high bits are those below `2^30`. */
  const HeaderLimit: int := 0x4000_0000

  /** A `uint32_t`. On a word, `w & 3` is `w % 4`, `w >> 2` is `w / 4`, and or-ing a tag below 4
      into a word whose two low bits are clear adds it. */
  newtype Word = x: int | 0 <= x < 0x1_0000_0000

  /** The tag of a leaf. */
  const LeafTag: int := 3

  datatype Payload = Split(split: real) | Count(geomCount: nat)

  datatype Node = Node(header: Word, payload: Payload)

  /** `is_leaf()`: both tag bits set. */
  predicate IsLeaf(n: Node) {
    n.header % 4 == LeafTag as Word
  }

  /** `split_axis()`: the two tag bits. */
  function SplitAxis(n: Node): (r: int)
    ensures 0 <= r < 4
    ensures IsLeaf(n) <==> r == LeafTag
  {
    (n.header % 4) as int
  }

  /** `front_child_offset()`, also the first geometry reference of a leaf: `header >> 2`. */
  function HeaderIndex(n: Node): (r: int)
    ensures 0 <= r < HeaderLimit
  {
    (n.header / 4) as int
  }

  /** `tag | (index << 2)` on 32-bit words: the shift drops the index's two top bits. */
  function Header(tag: int, index: nat): (w: Word)
    requires 0 <= tag < 4
    ensures w as int % 4 == tag
    ensures w as int / 4 == index % HeaderLimit
  {
    (tag + 4 * (index % HeaderLimit)) as Word
  }

  /** The node `leaf_node` returns for a leaf whose references start at `index`. */
  function LeafNode(index: nat, count: nat): (n: Node)
    ensures IsLeaf(n) && n.payload == Count(count)
    ensures HeaderIndex(n) == index % HeaderLimit
    ensures index < HeaderLimit ==> HeaderIndex(n) == index
  {
    Node(Header(LeafTag, index), Count(count))
  }

  /** `internal_node(axis, split, above_child_index)`. */
  function InternalNode(axis: int, split: real, aboveChild: nat): (n: Node)
    requires 0 <= axis < 3
    ensures !IsLeaf(n) && SplitAxis(n) == axis && n.payload == Split(split)
    ensures HeaderIndex(n) == aboveChild % HeaderLimit
    ensures aboveChild < HeaderLimit ==> HeaderIndex(n) == aboveChild
  {
    Node(Header(axis, aboveChild), Split(split))
  }

  /** The node `nodes.push_back(Node())` reserves before the children are built; its contents
      are overwritten before `build` returns. */
  const Placeholder: Node := Node(0, Count(0))

  /** `nodes[lo .. hi)` is one subtree laid out depth first: a leaf alone, or an internal node
      followed by its below subtree, which ends where its above subtree (the node's front child)
      starts. Leaves reference a range of the `refCount` geometry references, and no path from
      `lo` passes more than `height` internal nodes. */
  predicate Subtree(ns: seq<Node>, lo: int, hi: int, refCount: int, height: nat)
    requires 0 <= lo < hi <= |ns|
    decreases hi - lo
  {
    var n := ns[lo];
    if IsLeaf(n) then
      hi == lo + 1 && n.payload.Count? && HeaderIndex(n) + n.payload.geomCount <= refCount
    else
      var a := HeaderIndex(n);
      SplitAxis(n) < 3 && n.payload.Split? && height >= 1 && lo + 1 < a < hi
      && Subtree(ns, lo + 1, a, refCount, height - 1) && Subtree(ns, a, hi, refCount, height - 1)
  }

  /** A subtree depends only on its own slice of nodes, and stays valid when more references
      are appended. */
  lemma {:induction false} SubtreeFrame(ns: seq<Node>, ns': seq<Node>, lo: int, hi: int,
                                        refCount: int, refCount': int, height: nat)
    requires 0 <= lo < hi <= |ns| && hi <= |ns'| && refCount <= refCount'
    requires forall k :: lo <= k < hi ==> ns'[k] == ns[k]
    requires Subtree(ns, lo, hi, refCount, height)
    ensures Subtree(ns', lo, hi, refCount', height)
    decreases hi - lo
  {
    var n := ns[lo];
    if !IsLeaf(n) {
      var a := HeaderIndex(n);
      SubtreeFrame(ns, ns', lo + 1, a, refCount, refCount', height - 1);
      SubtreeFrame(ns, ns', a, hi, refCount, refCount', height - 1);
    }
  }

  /** A subtree with a smaller height bound also satisfies a larger one. */
  lemma {:induction false} SubtreeTaller(ns: seq<Node>, lo: int, hi: int, refCount: int, height: nat, height': nat)
    requires 0 <= lo < hi <= |ns| && height <= height'
    requires Subtree(ns, lo, hi, refCount, height)
    ensures Subtree(ns, lo, hi, refCount, height')
    decreases hi - lo
  {
    var n := ns[lo];
    if !IsLeaf(n) {
      var a := HeaderIndex(n);
      SubtreeTaller(ns, lo + 1, a, refCount, height - 1, height' - 1);
      SubtreeTaller(ns, a, hi, refCount, height - 1, height' - 1);
    }
  }

  /** The ids held by a sequence of geometry references, as a set. */
  function Members(ids: seq<nat>): (r: set<nat>)
    ensures forall x :: x in r <==> x in ids
  {
    set x | x in ids
  }

  /** The geometry references of the leaves of the subtree `ns[lo .. hi)`. */
  ghost function Referenced(ns: seq<Node>, refs: seq<nat>, lo: int, hi: int, height: nat): set<nat>
    requires 0 <= lo < hi <= |ns| && Subtree(ns, lo, hi, |refs|, height)
    decreases hi - lo
  {
    var n := ns[lo];
    if IsLeaf(n) then
      Members(refs[HeaderIndex(n)..HeaderIndex(n) + n.payload.geomCount])
    else
      var a := HeaderIndex(n);
      Referenced(ns, refs, lo + 1, a, height - 1) + Referenced(ns, refs, a, hi, height - 1)
  }

  /** A subtree and the references of its leaves depend only on its own slice of nodes and on
      the references that existed when it was built: appending nodes after it, changing nodes
      before it, or appending references changes neither. */
  lemma {:induction false} ReferencedFrame(ns: seq<Node>, ns': seq<Node>, refs: seq<nat>, refs': seq<nat>,
                                           lo: int, hi: int, height: nat)
    requires 0 <= lo < hi <= |ns| && hi <= |ns'| && refs <= refs'
    requires forall k :: lo <= k < hi ==> ns'[k] == ns[k]
    requires Subtree(ns, lo, hi, |refs|, height)
    ensures Subtree(ns', lo, hi, |refs'|, height)
    ensures Referenced(ns', refs', lo, hi, height) == Referenced(ns, refs, lo, hi, height)
    decreases hi - lo
  {
    SubtreeFrame(ns, ns', lo, hi, |refs|, |refs'|, height);
    var n := ns[lo];
    if IsLeaf(n) {
      var start := HeaderIndex(n);
      assert refs'[start..start + n.payload.geomCount] == refs[start..start + n.payload.geomCount];
    } else {
      var a := HeaderIndex(n);
      ReferencedFrame(ns, ns', refs, refs', lo + 1, a, height - 1);
      ReferencedFrame(ns, ns', refs, refs', a, hi, height - 1);
    }
  }

  /** A leaf appended with references `ids` appended: a one-node subtree referencing exactly
      `ids`. */
  lemma LeafReferenced(ns: seq<Node>, refs: seq<nat>, ids: seq<nat>, height: nat)
    requires |refs| + |ids| < HeaderLimit
    ensures var ns' := ns + [LeafNode(|refs|, |ids|)];
      Subtree(ns', |ns|, |ns'|, |refs + ids|, height)
      && Referenced(ns', refs + ids, |ns|, |ns'|, height) == Members(ids)
  {
    var refs' := refs + ids;
    assert refs'[|refs|..|refs| + |ids|] == ids;
  }

  /** An internal node patched in front of a below subtree that ends where an above subtree
      starts: one subtree, one level taller, referencing what its two children reference. */
  lemma JoinSubtrees(ns: seq<Node>, refs: seq<nat>, lo: int, a: int, axis: int, split: real, height: nat)
    requires 0 <= lo && lo + 1 < a < |ns| && a < HeaderLimit && 0 <= axis < 3 && height >= 1
    requires Subtree(ns, lo + 1, a, |refs|, height - 1) && Subtree(ns, a, |ns|, |refs|, height - 1)
    ensures var ns' := ns[lo := InternalNode(axis, split, a)];
      Subtree(ns', lo, |ns'|, |refs|, height)
      && Referenced(ns', refs, lo, |ns'|, height)
         == Referenced(ns, refs, lo + 1, a, height - 1) + Referenced(ns, refs, a, |ns|, height - 1)
  {
    var ns' := ns[lo := InternalNode(axis, split, a)];
    ReferencedFrame(ns, ns', refs, refs, lo + 1, a, height - 1);
    ReferencedFrame(ns, ns', refs, refs, a, |ns|, height - 1);
  }
}
