/**
 An insertion always has somewhere to go: for every tree at rest and every new
 key there is a tree at rest that stores one pair more, reached by the same
 fillings, splits and root growth that the code performs.
 */
module TreeGrowth {
  import opened TreeShape
  import opened TreeSteps
  import opened TreeOrder
  import opened BPlusTree
  import opened IndexRead

  /** A tree at rest that stores m. */
  ghost predicate Rests(a: Arena, m: map<int, Value>) {
    Inv(a, Settled) && Stores(a.nodes, m)
  }

  lemma {:induction false} FindSlot(ks: seq<int>, key: int) returns (pos: nat)
    requires Sorted(ks) && key !in ks
    ensures IsSlot(ks, pos, key)
  {
    pos := |ks|;
    if ks != [] {
      var n := |ks| - 1;
      if key < ks[n] {
        pos := FindSlot(ks[..n], key);
      }
    }
  }

  lemma {:induction false} FindHome(a: Arena, p: Ptr, key: int) returns (leaf: Ptr)
    requires Inv(a, Settled) && Live(a, p) && InSpan(key, a.spans[p])
    ensures Live(a, leaf) && a.nodes[leaf].leaf && InSpan(key, a.spans[leaf])
    decreases a.spans[p].height
  {
    assert NodeOk(a, Settled, p);
    if a.nodes[p].leaf {
      leaf := p;
    } else {
      var i := FindChild(a.nodes[p].keys, key, 0);
      DownSpan(a, p, i, key);
      leaf := FindHome(a, a.nodes[p].kids[i], key);
    }
  }

  lemma {:induction false} FindChild(ks: seq<int>, key: int, from: nat) returns (i: nat)
    requires from <= |ks| && forall j :: 0 <= j < from ==> ks[j] <= key
    ensures i <= |ks| && (forall j :: 0 <= j < i ==> ks[j] <= key) && (i < |ks| ==> key < ks[i])
    decreases |ks| - from
  {
    i := from;
    if from < |ks| && ks[from] <= key {
      i := FindChild(ks, key, from + 1);
    }
  }

  /** From every pending separator the cascade ends in a tree at rest. */
  lemma {:induction false} CascadeEnds(a: Arena, w: Pending, m: map<int, Value>) returns (b: Arena)
    requires Inv(a, w) && w.Pending? && Stores(a.nodes, m)
    ensures Rests(b, m)
    decreases a.spans[a.root].height - a.spans[w.left].height
  {
    ParentOf(a, w);
    var q := a.nodes[w.left].parent;
    if q == NULL {
      RootStep(a, w, m);
      b := RootGrown(a, w);
    } else {
      var idx: nat :| idx < |a.nodes[q].kids| && a.nodes[q].kids[idx] == w.left;
      assert NodeOk(a, w, q);
      if |a.nodes[q].keys| < MAX_KEYS {
        FillStep(a, w, idx, m);
        b := InnerFilled(a, w, idx);
      } else {
        SplitStep(a, w, idx, m);
        SplitSpans(a, w, idx);
        b := CascadeEnds(InnerSplit(a, w, idx), InnerSplitPending(a, w, idx), m);
      }
    }
  }

  /** An inner split leaves the root where it was and moves the pending separator one level up. */
  lemma SplitSpans(a: Arena, w: Pending, idx: nat)
    requires Inv(a, w) && SplitAt(a, w, idx)
    ensures var b, z := InnerSplit(a, w, idx), InnerSplitPending(a, w, idx);
            && b.root == a.root && z.left == a.nodes[w.left].parent
            && |b.spans| == |a.spans| + 1
            && b.spans[b.root].height == a.spans[a.root].height
            && b.spans[z.left].height == a.spans[z.left].height
  {
  }

  /** Every new key finds a leaf, and the leaf takes it in or splits. */
  lemma GrowsByOne(a: Arena, m: map<int, Value>, key: int, v: Value) returns (b: Arena)
    requires Rests(a, m) && key !in m
    ensures Rests(b, m[key := v])
  {
    RootSpan(a);
    var leaf := FindHome(a, a.root, key);
    LeafReady(a, leaf, key, m);
    assert NodeOk(a, Settled, leaf);
    var pos := FindSlot(a.nodes[leaf].keys, key);
    if |a.nodes[leaf].keys| < MAX_KEYS {
      LeafFillKeeps(a, leaf, pos, key, v);
      StoresFilled(a, leaf, pos, key, v, m);
      b := LeafFilled(a, leaf, pos, key, v);
    } else {
      LeafSplitPends(a, leaf, pos, key, v);
      StoresSplit(a, leaf, pos, key, v, m);
      b := CascadeEnds(LeafSplit(a, leaf, pos, key, v), LeafSplitPending(a, leaf, pos, key, v), m[key := v]);
    }
  }

  // ------------------------------------------------------------- from views to nodes

  /** What the buffers of a node can show. */
  predicate Showable(v: NodeView) {
    && |v.keys| <= MAX_KEYS
    && if v.leaf then |v.vals| == |v.keys| && v.kids == [] else v.vals == [] && |v.kids| == |v.keys| + 1
  }

  function Padded(s: seq<int>, n: nat): (r: seq<int>)
    requires |s| <= n
    ensures |r| == n && r[..|s|] == s
  {
    s + seq(n - |s|, _ => 0)
  }

  function NodeFor(v: NodeView): (n: Node)
    requires Showable(v)
    ensures View(n) == v
  {
    NodeBuffer(v.leaf, |v.keys|, Padded(v.keys, MAX_KEYS), Padded(v.vals, MAX_KEYS), Padded(v.kids, ORDER), v.parent,
        v.next)
  }

  /** Every tree at rest is the view of an arena of nodes. */
  lemma Realised(a: Arena, m: map<int, Value>) returns (ix: Index)
    requires Rests(a, m)
    ensures ix.root != NULL && Holding(ix, m)
  {
    forall p | 0 <= p < |a.nodes| ensures Showable(a.nodes[p]) {
      assert NodeOk(a, Settled, p);
    }
    ix := Index(seq(|a.nodes|, p requires 0 <= p < |a.nodes| => NodeFor(a.nodes[p])), a.root);
    assert Views(ix.nodes) == a.nodes;
    assert ArenaOf(ix, a.spans) == a;
    assert TreeOf(ix, a.spans, m);
  }

  /** The tree with one pair. */
  lemma Seedling(key: int, v: Value) returns (ix: Index)
    ensures Holding(ix, map[key := v])
  {
    var n := NodeView(true, [key], [v], [], NULL, NULL);
    var a := Arena([n], 0, [Span(0, NegInf, PosInf)]);
    forall p | Live(a, p) ensures NodeOk(a, Settled, p) {
      assert p == 0;
    }
    assert LeafHas(a.nodes, 0, key);
    ix := Realised(a, map[key := v]);
  }

  /** For every index at rest, key and value there is an outcome of the insertion. */
  lemma InsertionHasOutcome(before: Index, m: map<int, Value>, key: int, v: Value)
    returns (after: Index, inserted: bool)
    requires Holding(before, m)
    ensures InsertOutcome(before, key, v, after, inserted)
  {
    var spans :| TreeOf(before, spans, m);
    inserted := key !in m;
    if !inserted {
      after := before;
    } else if before.root == NULL {
      after := Seedling(key, v);
      assert m[key := v] == map[key := v];
    } else {
      var b := GrowsByOne(ArenaOf(before, spans), m, key, v);
      after := Realised(b, m[key := v]);
    }
    forall m' | Holding(before, m')
      ensures (inserted <==> key !in m') && Holding(after, if inserted then m'[key := v] else m')
    {
      HoldsOne(before, m, m');
    }
  }
}
