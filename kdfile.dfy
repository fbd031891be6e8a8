/** The kd-tree cache file of `KdTree::save` and `KdTree::load` (src/core/kdtree.h), one record
    per `fwrite`: the magic number 0xacc1, the two costs, the two limits, the total bounds, the
    node and reference counts, then every node and every geometry reference. Records are typed
    values rather than bytes, since floats are modelled as reals. */
module KdFiles {
  import opened Numeric
  import opened Boxes
  import opened KdNodes

  /** The first record of a cache file. */
  const KdTreeFileMagic: int := 0xacc1

  /** One `fwrite` of the file: an `int`, a `float`, a box, a `size_t`, a node or a reference. */
  datatype Field = IntField(i: int) | FloatField(f: real) | BoxField(b: BBox) | SizeField(n: nat)
                 | NodeField(node: Node) | RefField(id: nat)

  /** Everything the file holds: the fields of a tree. */
  datatype TreeImage = TreeImage(isecCost: real, travCost: real, maxGeoms: int, maxDepth: int,
                                 totalBounds: BBox, nodes: seq<Node>, refs: seq<nat>)

  /** The records `save` writes, in order. */
  function Encode(im: TreeImage): (f: seq<Field>)
    ensures |f| == 8 + |im.nodes| + |im.refs|
    ensures f[0] == IntField(KdTreeFileMagic)
  {
    [IntField(KdTreeFileMagic), FloatField(im.isecCost), FloatField(im.travCost),
     IntField(im.maxGeoms), IntField(im.maxDepth), BoxField(im.totalBounds),
     SizeField(|im.nodes|), SizeField(|im.refs|)]
    + NodeFields(im.nodes) + RefFields(im.refs)
  }

  function NodeFields(ns: seq<Node>): (f: seq<Field>)
    ensures |f| == |ns| && forall i :: 0 <= i < |ns| ==> f[i] == NodeField(ns[i])
  {
    seq(|ns|, i requires 0 <= i < |ns| => NodeField(ns[i]))
  }

  function RefFields(refs: seq<nat>): (f: seq<Field>)
    ensures |f| == |refs| && forall i :: 0 <= i < |refs| ==> f[i] == RefField(refs[i])
  {
    seq(|refs|, i requires 0 <= i < |refs| => RefField(refs[i]))
  }

  /** The records `f[lo .. lo + count)` are all nodes. */
  predicate AllNodes(f: seq<Field>, lo: nat, count: nat)
    requires lo + count <= |f|
  {
    forall i :: lo <= i < lo + count ==> f[i].NodeField?
  }

  /** The records `f[lo .. lo + count)` are all references. */
  predicate AllRefs(f: seq<Field>, lo: nat, count: nat)
    requires lo + count <= |f|
  {
    forall i :: lo <= i < lo + count ==> f[i].RefField?
  }

  /** What `load` reads back: nothing when the first record is not the magic number (where
      `load` stops the program) or when the records do not have the layout `save` writes;
      otherwise the fields, with the node and reference counts read from the header. Records
      after the references are ignored. A read-back file starts with the magic number and is
      long enough for the counts its header gives. */
  function Decode(f: seq<Field>): (r: Option<TreeImage>)
    ensures r.Some? ==> |f| >= 8 && f[0] == IntField(KdTreeFileMagic)
    ensures r.Some? ==> |f| >= 8 + |r.value.nodes| + |r.value.refs|
  {
    if |f| < 8 || f[0] != IntField(KdTreeFileMagic) then None
    else if !(f[1].FloatField? && f[2].FloatField? && f[3].IntField? && f[4].IntField? && f[5].BoxField?
              && f[6].SizeField? && f[7].SizeField?) then None
    else
      var ncount, rcount := f[6].n, f[7].n;
      if |f| < 8 + ncount + rcount || !AllNodes(f, 8, ncount) || !AllRefs(f, 8 + ncount, rcount) then None
      else
        Some(TreeImage(f[1].f, f[2].f, f[3].i, f[4].i, f[5].b,
                       seq(ncount, i requires 0 <= i < ncount => f[8 + i].node),
                       seq(rcount, i requires 0 <= i < rcount => f[8 + ncount + i].id)))
  }

  /** `load` reads back exactly what `save` wrote. */
  lemma DecodeEncode(im: TreeImage)
    ensures Decode(Encode(im)) == Some(im)
  {
    DecodeIgnoresTrailing(im, []);
    assert Encode(im) + [] == Encode(im);
  }

  /** Records appended after a saved tree do not change what is read back. */
  lemma DecodeIgnoresTrailing(im: TreeImage, extra: seq<Field>)
    ensures Decode(Encode(im) + extra) == Some(im)
  {
    var g := Encode(im) + extra;
    var n, m := |im.nodes|, |im.refs|;
    EncodedRecords(im, extra);
    assert AllNodes(g, 8, n) && AllRefs(g, 8 + n, m);
    var r := Decode(g).value;
    assert r.nodes == im.nodes;
    assert r.refs == im.refs;
  }

  /** Where each record of a saved tree sits, whatever follows it. */
  lemma EncodedRecords(im: TreeImage, extra: seq<Field>)
    ensures var g, n := Encode(im) + extra, |im.nodes|;
      |g| >= 8 + n + |im.refs|
      && g[..8] == [IntField(KdTreeFileMagic), FloatField(im.isecCost), FloatField(im.travCost),
                    IntField(im.maxGeoms), IntField(im.maxDepth), BoxField(im.totalBounds),
                    SizeField(n), SizeField(|im.refs|)]
      && (forall i :: 0 <= i < n ==> g[8 + i] == NodeField(im.nodes[i]))
      && (forall i :: 0 <= i < |im.refs| ==> g[8 + n + i] == RefField(im.refs[i]))
  {
    var g, n := Encode(im) + extra, |im.nodes|;
    forall i | 0 <= i < n ensures g[8 + i] == NodeField(im.nodes[i]) {
      assert g[8 + i] == NodeFields(im.nodes)[i];
    }
    forall i | 0 <= i < |im.refs| ensures g[8 + n + i] == RefField(im.refs[i]) {
      assert g[8 + n + i] == RefFields(im.refs)[i];
    }
  }

  /** What `load` reads back, saved again, gives the file's records up to the last reference. */
  lemma EncodeDecode(f: seq<Field>)
    requires Decode(f).Some?
    ensures Encode(Decode(f).value) == f[..8 + |Decode(f).value.nodes| + |Decode(f).value.refs|]
  {
    var im := Decode(f).value;
    var g := Encode(im);
    var n := |im.nodes|;
    forall i | 0 <= i < |g| ensures g[i] == f[i] {
      if 8 <= i < 8 + n {
        assert g[i] == NodeFields(im.nodes)[i - 8];
      } else if 8 + n <= i {
        assert g[i] == RefFields(im.refs)[i - 8 - n];
      }
    }
  }
}
