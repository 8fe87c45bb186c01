/** The leaf chain as the table's range queries walk it, one node and one slot at a time. */
module LeafWalk {
  import opened TreeShape
  import opened TreeOrder
  import opened BPlusTree

  /** The leaves of a chain, where each one's entries start, and all entries in order. */
  datatype Walk = Walk(leaves: seq<Ptr>, start: seq<nat>, ks: seq<int>, vs: seq<Value>)

  /** The entries of leaf n are those of the walk from position o on. */
  ghost predicate Covers(w: Walk, n: Node, o: nat) {
    && o + n.numKeys <= |w.ks| == |w.vs|
    && forall i :: 0 <= i < n.numKeys ==> n.keys[i] == w.ks[o + i] && n.values[i] == w.vs[o + i]
  }

  ghost predicate WalkStep(nodes: seq<Node>, w: Walk, j: nat)
    requires j < |w.leaves| && |w.start| == |w.leaves| + 1
  {
    && 0 <= w.leaves[j] < |nodes|
    && var n := nodes[w.leaves[j]];
       && n.isLeaf && n.numKeys >= 1
       && n.next == (if j + 1 < |w.leaves| then w.leaves[j + 1] else NULL)
       && w.start[j + 1] == w.start[j] + n.numKeys
       && Covers(w, n, w.start[j])
  }

  /** w describes the whole leaf chain of the arena. */
  ghost predicate Walks(nodes: seq<Node>, w: Walk) {
    && w.leaves != [] && |w.start| == |w.leaves| + 1
    && w.start[0] == 0 && w.start[|w.leaves|] == |w.ks| == |w.vs|
    && Sorted(w.ks)
    && forall j :: 0 <= j < |w.leaves| ==> WalkStep(nodes, w, j)
  }

  lemma {:induction false} FlatStep(v: seq<NodeView>, l: seq<Ptr>, j: nat)
    requires Within(l, |v|) && j < |l|
    ensures KeysOf(v, l[..j + 1]) == KeysOf(v, l[..j]) + v[l[j]].keys
    ensures ValsOf(v, l[..j + 1]) == ValsOf(v, l[..j]) + v[l[j]].vals
  {
    assert l[..j + 1][..j] == l[..j];
  }

  lemma {:induction false} PrefixKeys(v: seq<NodeView>, l: seq<Ptr>, j: nat)
    requires Within(l, |v|) && j <= |l|
    ensures KeysOf(v, l[..j]) <= KeysOf(v, l) && ValsOf(v, l[..j]) <= ValsOf(v, l)
    decreases |l| - j
  {
    if j == |l| {
      assert l[..j] == l;
    } else {
      FlatStep(v, l, j);
      PrefixKeys(v, l, j + 1);
    }
  }

  ghost function WalkOf(v: seq<NodeView>, l: seq<Ptr>): Walk
    requires Within(l, |v|)
  {
    Walk(l, seq(|l| + 1, j requires 0 <= j <= |l| => |KeysOf(v, l[..j])|), KeysOf(v, l), ValsOf(v, l))
  }

  /** The entries of leaf j lie in the flat listing right after those of the leaves before it. */
  lemma FlatCovers(v: seq<NodeView>, l: seq<Ptr>, j: nat, n: Node)
    requires Within(l, |v|) && j < |l| && v[l[j]] == View(n) && n.isLeaf
    requires forall i :: 0 <= i < |l| ==> |v[l[i]].keys| == |v[l[i]].vals|
    ensures Covers(WalkOf(v, l), n, |KeysOf(v, l[..j])|)
    ensures |KeysOf(v, l[..j + 1])| == |KeysOf(v, l[..j])| + n.numKeys
  {
    hide KeysOf, ValsOf;
    var o := |KeysOf(v, l[..j])|;
    SameLength(v, l);
    SameLength(v, l[..j]);
    FlatStep(v, l, j);
    PrefixKeys(v, l, j + 1);
    forall i | 0 <= i < n.numKeys ensures n.keys[i] == KeysOf(v, l)[o + i] && n.values[i] == ValsOf(v, l)[o + i] {
      assert v[l[j]].keys[i] == KeysOf(v, l[..j + 1])[o + i];
      assert v[l[j]].vals[i] == ValsOf(v, l[..j + 1])[o + i];
    }
  }

  /** The in-order leaves of a settled tree can be walked, and list its map. */
  lemma TreeWalk(nodes: seq<Node>, a: Arena, m: map<int, Value>) returns (w: Walk)
    requires a.nodes == Views(nodes) && Inv(a, Settled) && Stores(a.nodes, m)
    ensures IsLeafChain(a, w.leaves) && Adjacent(a, w.leaves) && Walks(nodes, w) && Lists(w.ks, w.vs, m)
  {
    LeafChainComplete(a);
    var l := Leaves(a, a.root);
    w := WalkOf(a.nodes, l);
    ChainLists(a, l, m);
    ChainWalks(nodes, a, l);
  }

  lemma ChainWalks(nodes: seq<Node>, a: Arena, l: seq<Ptr>)
    requires a.nodes == Views(nodes) && Inv(a, Settled) && IsLeafChain(a, l) && Adjacent(a, l)
    ensures Within(l, |nodes|) && Walks(nodes, WalkOf(a.nodes, l))
  {
    AdjacentSorted(a, l);
    forall j | 0 <= j < |l|
      ensures |a.nodes[l[j]].keys| == |a.nodes[l[j]].vals| && nodes[l[j]].isLeaf && nodes[l[j]].numKeys >= 1
      ensures nodes[l[j]].next == if j + 1 < |l| then l[j + 1] else NULL
    {
      assert NodeOk(a, Settled, l[j]);
      assert a.nodes[l[j]] == View(nodes[l[j]]);
    }
    FlatWalks(nodes, a.nodes, l);
  }

  lemma FlatWalks(nodes: seq<Node>, v: seq<NodeView>, l: seq<Ptr>)
    requires v == Views(nodes) && l != [] && Within(l, |v|) && Sorted(KeysOf(v, l))
    requires forall j :: 0 <= j < |l| ==>
             |v[l[j]].keys| == |v[l[j]].vals| && nodes[l[j]].isLeaf && nodes[l[j]].numKeys >= 1
    requires forall j {:trigger l[j]} :: 0 <= j < |l| ==> nodes[l[j]].next == if j + 1 < |l| then l[j + 1] else NULL
    ensures Walks(nodes, WalkOf(v, l))
  {
    var w := WalkOf(v, l);
    assert l[..|l|] == l && l[..0] == [];
    SameLength(v, l);
    forall j | 0 <= j < |l| ensures WalkStep(nodes, w, j) {
      FlatWalkStep(nodes, v, l, j);
    }
  }

  lemma FlatWalkStep(nodes: seq<Node>, v: seq<NodeView>, l: seq<Ptr>, j: nat)
    requires v == Views(nodes) && Within(l, |v|) && j < |l|
    requires forall i :: 0 <= i < |l| ==> |v[l[i]].keys| == |v[l[i]].vals|
    requires nodes[l[j]].isLeaf && nodes[l[j]].numKeys >= 1
    requires nodes[l[j]].next == if j + 1 < |l| then l[j + 1] else NULL
    ensures WalkStep(nodes, WalkOf(v, l), j)
  {
    assert v[l[j]] == View(nodes[l[j]]);
    FlatCovers(v, l, j, nodes[l[j]]);
  }

  /** A leaf without a lower end is the first of the chain. */
  lemma LeftmostIsFirst(a: Arena, l: seq<Ptr>, p: Ptr)
    requires Inv(a, Settled) && IsLeafChain(a, l) && Adjacent(a, l)
    requires Live(a, p) && a.nodes[p].leaf && a.spans[p].lo == NegInf
    ensures p == l[0]
  {
    forall j | 0 < j < |l| ensures a.spans[l[j]].lo.Fin? {
      assert a.spans[l[j - 1]].hi == a.spans[l[j - 1 + 1]].lo;
    }
  }

  /** In the chain, a leaf with a predecessor starts at its span's lower end. */
  lemma ChainFirstKey(nodes: seq<Node>, a: Arena, l: seq<Ptr>, j: nat)
    requires a.nodes == Views(nodes) && Inv(a, Settled) && Adjacent(a, l) && 0 < j < |l|
    ensures nodes[l[j]].numKeys >= 1 && a.spans[l[j]].lo == a.spans[l[j - 1]].hi == Fin(nodes[l[j]].keys[0])
  {
    assert a.spans[l[j - 1]].hi == a.spans[l[j - 1 + 1]].lo;
    assert NodeOk(a, Settled, l[j]);
    assert a.nodes[l[j]] == View(nodes[l[j]]);
  }

  /** Everything before position cut is below key, everything from there on is not. */
  predicate CutsAt(ks: seq<int>, cut: nat, key: int) {
    && cut <= |ks|
    && (forall i :: 0 <= i < cut ==> ks[i] < key)
    && (forall i :: cut <= i < |ks| ==> key <= ks[i])
  }

  /** The slot found in the leaf responsible for key cuts the whole chain at key. */
  lemma LeafCut(nodes: seq<Node>, a: Arena, w: Walk, j: nat, key: int, index: nat)
    requires a.nodes == Views(nodes) && Inv(a, Settled) && Adjacent(a, w.leaves) && Walks(nodes, w)
    requires j < |w.leaves| && InSpan(key, a.spans[w.leaves[j]])
    requires index <= nodes[w.leaves[j]].numKeys
    requires forall i :: 0 <= i < index ==> nodes[w.leaves[j]].keys[i] < key
    requires index < nodes[w.leaves[j]].numKeys ==> key <= nodes[w.leaves[j]].keys[index]
    ensures CutsAt(w.ks, w.start[j] + index, key)
  {
    if j > 0 {
      ChainFirstKey(nodes, a, w.leaves, j);
    }
    if j + 1 < |w.leaves| {
      ChainFirstKey(nodes, a, w.leaves, j + 1);
    }
    WalkCut(nodes, w, j, key, index);
  }

  lemma WalkCut(nodes: seq<Node>, w: Walk, j: nat, key: int, index: nat)
    requires Walks(nodes, w) && j < |w.leaves| && WalkStep(nodes, w, j)
    requires j > 0 ==> nodes[w.leaves[j]].keys[0] <= key
    requires j + 1 < |w.leaves| ==> 0 <= w.leaves[j + 1] < |nodes| && key < nodes[w.leaves[j + 1]].keys[0]
    requires index <= nodes[w.leaves[j]].numKeys
    requires forall i :: 0 <= i < index ==> nodes[w.leaves[j]].keys[i] < key
    requires index < nodes[w.leaves[j]].numKeys ==> key <= nodes[w.leaves[j]].keys[index]
    ensures CutsAt(w.ks, w.start[j] + index, key)
  {
    var n, o := nodes[w.leaves[j]], w.start[j];
    assert n.keys[0] == w.ks[o + 0];
    if index > 0 {
      assert n.keys[index - 1] == w.ks[o + (index - 1)];
    }
    if index < n.numKeys {
      assert n.keys[index] == w.ks[o + index];
    } else if j + 1 < |w.leaves| {
      assert WalkStep(nodes, w, j + 1);
      assert nodes[w.leaves[j + 1]].keys[0] == w.ks[w.start[j + 1] + 0];
    }
  }

  /** Cursor position j of the walk: a leaf of the chain, or NULL past the end. */
  ghost predicate At(nodes: seq<Node>, w: Walk, j: nat, leaf: Ptr) {
    && Walks(nodes, w) && j <= |w.leaves|
    && leaf == (if j < |w.leaves| then w.leaves[j] else NULL)
    && (j < |w.leaves| ==> WalkStep(nodes, w, j) && WalkStep(nodes, w, |w.leaves| - 1))
  }

  /** Following `next` moves the cursor one position on. */
  lemma AtNext(nodes: seq<Node>, w: Walk, j: nat, leaf: Ptr)
    requires At(nodes, w, j, leaf) && j < |w.leaves|
    ensures 0 <= leaf < |nodes| && At(nodes, w, j + 1, nodes[leaf].next)
    ensures w.start[j] + nodes[leaf].numKeys == w.start[j + 1] <= |w.ks|
  {
  }

  /** Past the end there is nothing left, and before it there is a real leaf. */
  lemma AtEnd(nodes: seq<Node>, w: Walk, j: nat, leaf: Ptr)
    requires At(nodes, w, j, leaf)
    ensures leaf == NULL <==> j == |w.leaves|
    ensures leaf == NULL ==> w.start[j] == |w.ks|
  {
  }

  /** Advances past entries whose key is at most id; stops at the first larger one. */
  method SkipUpTo(nodes: seq<Node>, leaf0: Ptr, index0: nat, id: int, ghost w: Walk, ghost j0: nat)
    returns (leaf: Ptr, index: nat, ghost j: nat)
    requires At(nodes, w, j0, leaf0) && j0 < |w.leaves| && index0 <= nodes[leaf0].numKeys
    requires CutsAt(w.ks, w.start[j0] + index0, id)
    ensures At(nodes, w, j, leaf)
    ensures if leaf == NULL then index == 0 else index < nodes[leaf].numKeys
    ensures CutsAt(w.ks, w.start[j] + index, id + 1)
  {
    leaf, index, j := leaf0, index0, j0;
    while leaf != NULL
      invariant At(nodes, w, j, leaf)
      invariant if leaf == NULL then index == 0 else index <= nodes[leaf].numKeys
      invariant w.start[j] + index <= |w.ks|
      invariant forall i :: 0 <= i < w.start[j] + index ==> w.ks[i] < id + 1
      decreases |w.leaves| - j
    {
      AtEnd(nodes, w, j, leaf);
      AtNext(nodes, w, j, leaf);
      var n := nodes[leaf];
      while index < n.numKeys && n.keys[index] <= id
        invariant index <= n.numKeys
        invariant forall i :: 0 <= i < w.start[j] + index ==> w.ks[i] < id + 1
      {
        assert n.keys[index] == w.ks[w.start[j] + index];
        index := index + 1;
      }
      if index < n.numKeys {
        assert n.keys[index] == w.ks[w.start[j] + index];
        return;
      }
      leaf := n.next;
      index := 0;
      j := j + 1;
    }
    AtEnd(nodes, w, j, leaf);
  }

  /** Steps from the end of a leaf to the start of the next one. */
  method SkipEmpty(nodes: seq<Node>, leaf0: Ptr, index0: nat, ghost w: Walk, ghost j0: nat)
    returns (leaf: Ptr, index: nat, ghost j: nat)
    requires At(nodes, w, j0, leaf0) && j0 < |w.leaves| && index0 <= nodes[leaf0].numKeys
    ensures At(nodes, w, j, leaf)
    ensures if leaf == NULL then index == 0 else index < nodes[leaf].numKeys
    ensures w.start[j] + index == w.start[j0] + index0
  {
    leaf, index, j := leaf0, index0, j0;
    while leaf != NULL && index >= nodes[leaf].numKeys
      invariant At(nodes, w, j, leaf)
      invariant if leaf == NULL then index == 0 else index <= nodes[leaf].numKeys
      invariant w.start[j] + index == w.start[j0] + index0
      decreases |w.leaves| - j
    {
      AtEnd(nodes, w, j, leaf);
      AtNext(nodes, w, j, leaf);
      leaf := nodes[leaf].next;
      index := 0;
      j := j + 1;
    }
  }
}
