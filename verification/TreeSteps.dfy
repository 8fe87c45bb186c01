/**
 What each structural step of an insertion does to the arena, and that the
 invariant survives it: filling a leaf, splitting a leaf, filling an inner
 node, splitting an inner node, and growing a new root.
 */
module TreeSteps {
  import opened TreeShape

  const HALF: nat := ORDER / 2

  /** pos is where key belongs in the sorted sequence ks. */
  predicate IsSlot(ks: seq<int>, pos: nat, key: int) {
    && pos <= |ks|
    && (forall i :: 0 <= i < pos ==> ks[i] < key)
    && (forall i :: pos <= i < |ks| ==> key < ks[i])
  }

  lemma InsertKeepsSorted(ks: seq<int>, pos: nat, key: int)
    requires Sorted(ks) && IsSlot(ks, pos, key)
    ensures Sorted(InsertAt(ks, pos, key))
  {
  }

  // ---------------------------------------------------------------- leaves

  function FilledLeaf(n: NodeView, pos: nat, key: int, v: Value): NodeView
    requires pos <= |n.keys| == |n.vals|
  {
    n.(keys := InsertAt(n.keys, pos, key), vals := InsertAt(n.vals, pos, v))
  }

  function LeafFilled(a: Arena, p: Ptr, pos: nat, key: int, v: Value): Arena
    requires Live(a, p) && pos <= |a.nodes[p].keys| == |a.nodes[p].vals|
  {
    a.(nodes := a.nodes[p := FilledLeaf(a.nodes[p], pos, key, v)])
  }

  lemma LeafFillKeeps(a: Arena, p: Ptr, pos: nat, key: int, v: Value)
    requires Inv(a, Settled) && Live(a, p) && a.nodes[p].leaf
    requires |a.nodes[p].vals| == |a.nodes[p].keys| < MAX_KEYS
    requires InSpan(key, a.spans[p]) && IsSlot(a.nodes[p].keys, pos, key)
    ensures Inv(LeafFilled(a, p, pos, key, v), Settled)
  {
    var b := LeafFilled(a, p, pos, key, v);
    assert NodeOk(a, Settled, p);
    FilledShape(a.nodes[p], a.spans[p], p == a.root, pos, key, v);
    forall q | Live(b, q) ensures NodeOk(b, Settled, q) {
      assert NodeOk(a, Settled, q);
      LeafFillLinks(a, b, p, q);
    }
  }

  lemma FilledShape(n: NodeView, s: Span, isRoot: bool, pos: nat, key: int, v: Value)
    requires ShapeOk(n, s, isRoot) && n.leaf && |n.keys| < MAX_KEYS
    requires InSpan(key, s) && IsSlot(n.keys, pos, key)
    ensures ShapeOk(FilledLeaf(n, pos, key, v), s, isRoot)
  {
    InsertKeepsSorted(n.keys, pos, key);
  }

  /** Changing only the entries of one leaf leaves all links in order. */
  lemma LeafFillLinks(a: Arena, b: Arena, p: Ptr, q: Ptr)
    requires Inv(a, Settled) && Live(a, p) && Live(a, q) && a.nodes[p].leaf
    requires b.root == a.root && b.spans == a.spans && |b.nodes| == |a.nodes|
    requires forall r :: Live(a, r) && r != p ==> b.nodes[r] == a.nodes[r]
    requires b.nodes[p] == a.nodes[p].(keys := b.nodes[p].keys, vals := b.nodes[p].vals)
    ensures KidsOk(b, Settled, q) && LinkOk(b, Settled, q) && ChainOk(b, q)
  {
    assert NodeOk(a, Settled, p) && NodeOk(a, Settled, q);
    forall i | 0 <= i < |b.nodes[q].kids| ensures KidOk(b, Settled, q, i) {
      assert KidOk(a, Settled, q, i);
    }
    if q != b.root {
      assert NodeOk(a, Settled, a.nodes[q].parent);
    }
  }

  function LeftLeaf(n: NodeView, pos: nat, key: int, v: Value, right: Ptr): NodeView
    requires pos <= |n.keys| == |n.vals| == MAX_KEYS
  {
    n.(keys := InsertAt(n.keys, pos, key)[..HALF], vals := InsertAt(n.vals, pos, v)[..HALF], next := right)
  }

  function RightLeaf(n: NodeView, pos: nat, key: int, v: Value): NodeView
    requires pos <= |n.keys| == |n.vals| == MAX_KEYS
  {
    n.(keys := InsertAt(n.keys, pos, key)[HALF..], vals := InsertAt(n.vals, pos, v)[HALF..])
  }

  function LeafSplit(a: Arena, p: Ptr, pos: nat, key: int, v: Value): Arena
    requires Live(a, p) && pos <= |a.nodes[p].keys| == |a.nodes[p].vals| == MAX_KEYS
  {
    var right := |a.nodes|;
    var sep := RightLeaf(a.nodes[p], pos, key, v).keys[0];
    Arena(
      a.nodes[p := LeftLeaf(a.nodes[p], pos, key, v, right)] + [RightLeaf(a.nodes[p], pos, key, v)],
      a.root,
      a.spans[p := a.spans[p].(hi := Fin(sep))] + [a.spans[p].(lo := Fin(sep))])
  }

  function LeafSplitPending(a: Arena, p: Ptr, pos: nat, key: int, v: Value): Pending
    requires Live(a, p) && pos <= |a.nodes[p].keys| == |a.nodes[p].vals| == MAX_KEYS
  {
    Pending(p, RightLeaf(a.nodes[p], pos, key, v).keys[0], |a.nodes|)
  }

  /** The keys of a full leaf with one more merged in are sorted, in span, and start where the leaf starts. */
  lemma MergedLeafKeys(n: NodeView, s: Span, isRoot: bool, pos: nat, key: int)
    requires ShapeOk(n, s, isRoot) && n.leaf && |n.keys| == MAX_KEYS
    requires InSpan(key, s) && IsSlot(n.keys, pos, key)
    ensures var ks := InsertAt(n.keys, pos, key);
            && |ks| == ORDER && ks[0] < ks[1] < ks[2] < ks[3]
            && InSpan(ks[0], s) && InSpan(ks[1], s) && InSpan(ks[2], s) && InSpan(ks[3], s)
            && (s.lo.Fin? ==> ks[0] == s.lo.k)
  {
    InsertKeepsSorted(n.keys, pos, key);
    var ks := InsertAt(n.keys, pos, key);
    assert ks[0] < ks[1] < ks[2] < ks[3];
    assert forall i :: 0 <= i < |ks| ==> ks[i] == key || ks[i] in n.keys;
  }

  lemma LeafHalves(n: NodeView, s: Span, isRoot: bool, pos: nat, key: int, v: Value, right: Ptr)
    requires ShapeOk(n, s, isRoot) && n.leaf && |n.keys| == MAX_KEYS
    requires InSpan(key, s) && IsSlot(n.keys, pos, key)
    ensures var sep := RightLeaf(n, pos, key, v).keys[0];
            && ShapeOk(LeftLeaf(n, pos, key, v, right), s.(hi := Fin(sep)), false)
            && ShapeOk(RightLeaf(n, pos, key, v), s.(lo := Fin(sep)), false)
            && Below(s.lo, Fin(sep)) && Below(Fin(sep), s.hi)
  {
    var ks := InsertAt(n.keys, pos, key);
    MergedLeafKeys(n, s, isRoot, pos, key);
    assert ks[..HALF] == [ks[0], ks[1]] && ks[HALF..] == [ks[2], ks[3]];
    LeafHalf(LeftLeaf(n, pos, key, v, right), s.(hi := Fin(ks[HALF])), ks[0], ks[1]);
    LeafHalf(RightLeaf(n, pos, key, v), s.(lo := Fin(ks[HALF])), ks[2], ks[3]);
  }

  lemma LeafHalf(n: NodeView, s: Span, k0: int, k1: int)
    requires n.leaf && s.height == 0 && n.keys == [k0, k1] && |n.vals| == 2 && n.kids == []
    requires k0 < k1 && InSpan(k0, s) && InSpan(k1, s) && (s.lo.Fin? ==> k0 == s.lo.k)
    ensures ShapeOk(n, s, false)
  {
  }

  lemma LeafSplitPends(a: Arena, p: Ptr, pos: nat, key: int, v: Value)
    requires Inv(a, Settled) && Live(a, p) && a.nodes[p].leaf
    requires |a.nodes[p].vals| == |a.nodes[p].keys| == MAX_KEYS
    requires InSpan(key, a.spans[p]) && IsSlot(a.nodes[p].keys, pos, key)
    ensures Inv(LeafSplit(a, p, pos, key, v), LeafSplitPending(a, p, pos, key, v))
  {
    var b := LeafSplit(a, p, pos, key, v);
    var w := LeafSplitPending(a, p, pos, key, v);
    assert NodeOk(a, Settled, p);
    LeafHalves(a.nodes[p], a.spans[p], p == a.root, pos, key, v, w.right);
    forall q | Live(b, q) ensures NodeOk(b, w, q) {
      if q == w.right {
        assert LinkOk(b, w, q);
      } else {
        assert NodeOk(a, Settled, q);
        LeafSplitOther(a, b, w, q);
      }
    }
  }

  /** Splitting leaf w.left leaves the links of every older node in order. */
  lemma LeafSplitOther(a: Arena, b: Arena, w: Pending, q: Ptr)
    requires Inv(a, Settled) && Live(a, q)
    requires w.Pending? && PendingOk(b, w) && b.root == a.root && w.right == |a.nodes| && |b.nodes| == |a.nodes| + 1
    requires Live(a, w.left) && a.nodes[w.left].leaf && b.nodes[w.left].leaf && b.nodes[w.right].leaf
    requires forall p :: Live(a, p) && p != w.left ==> b.nodes[p] == a.nodes[p] && b.spans[p] == a.spans[p]
    requires b.spans[w.left] == a.spans[w.left].(hi := Fin(w.key))
    requires b.spans[w.right] == a.spans[w.left].(lo := Fin(w.key))
    requires b.nodes[w.left].parent == a.nodes[w.left].parent && b.nodes[w.left].kids == []
    requires b.nodes[w.left].next == w.right
    requires |b.nodes[w.left].keys| >= 1
    ensures KidsOk(b, w, q) && LinkOk(b, w, q) && ChainOk(b, q)
  {
    assert NodeOk(a, Settled, q);
    assert NodeOk(a, Settled, w.left);
    forall i | 0 <= i < |b.nodes[q].kids| ensures KidOk(b, w, q, i) {
      assert KidOk(a, Settled, q, i);
    }
    if q != b.root {
      assert NodeOk(a, Settled, a.nodes[q].parent);
    }
  }

  // ----------------------------------------------------------- inner nodes

  predicate PendingAt(a: Arena, w: Pending, idx: nat) {
    && w.Pending? && PendingOk(a, w)
    && Live(a, a.nodes[w.left].parent)
    && var q := a.nodes[a.nodes[w.left].parent];
       && !q.leaf && idx < |q.kids| == |q.keys| + 1 && q.kids[idx] == w.left
  }

  /** The keys and children of the parent with the pending ones merged in. */
  function MergedKeys(a: Arena, w: Pending, idx: nat): (r: seq<int>)
    requires PendingAt(a, w, idx)
    ensures |r| == |a.nodes[a.nodes[w.left].parent].keys| + 1
  {
    InsertAt(a.nodes[a.nodes[w.left].parent].keys, idx, w.key)
  }

  function MergedKids(a: Arena, w: Pending, idx: nat): (r: seq<Ptr>)
    requires PendingAt(a, w, idx)
    ensures |r| == |a.nodes[a.nodes[w.left].parent].keys| + 2
  {
    InsertAt(a.nodes[a.nodes[w.left].parent].kids, idx + 1, w.right)
  }

  /** No node appears twice among the children of one node. */
  lemma DistinctKids(a: Arena, w: Pending, q: Ptr, i: nat, j: nat)
    requires Inv(a, w) && Live(a, q)
    requires i < |a.nodes[q].kids| && j < |a.nodes[q].kids|
    ensures a.nodes[q].kids[i] == a.nodes[q].kids[j] ==> i == j
  {
    assert NodeOk(a, w, q);
    assert KidOk(a, w, q, i) && KidOk(a, w, q, j);
    if i < j {
      assert a.spans[a.nodes[q].kids[j]].lo == Fin(a.nodes[q].keys[j - 1]);
    } else if j < i {
      assert a.spans[a.nodes[q].kids[i]].lo == Fin(a.nodes[q].keys[i - 1]);
    }
  }

  /** A pending separator fits strictly between its neighbours in the parent. */
  lemma PendingSlot(a: Arena, w: Pending, idx: nat)
    requires Inv(a, w) && PendingAt(a, w, idx)
    ensures var q := a.nodes[w.left].parent;
            IsSlot(a.nodes[q].keys, idx, w.key)
            && a.spans[w.left].lo == SlotLo(a.nodes[q], a.spans[q], idx)
            && a.spans[w.right].hi == SlotHi(a.nodes[q], a.spans[q], idx)
            && Below(a.spans[q].lo, Fin(w.key)) && Below(Fin(w.key), a.spans[q].hi)
  {
    var q := a.nodes[w.left].parent;
    assert NodeOk(a, w, q);
    assert KidOk(a, w, q, idx);
    var ks := a.nodes[q].keys;
    assert idx > 0 ==> ks[idx - 1] < w.key;
    assert idx < |ks| ==> w.key < ks[idx];
  }

  /** Child i of the merged node: where it lives and which slot it owns. */
  predicate MergedKidOk(a: Arena, w: Pending, idx: nat, i: nat)
    requires PendingAt(a, w, idx) && i <= |MergedKeys(a, w, idx)|
  {
    var q := a.nodes[w.left].parent;
    var ks := MergedKeys(a, w, idx);
    var c := MergedKids(a, w, idx)[i];
    && Live(a, c) && c != a.root && c != q
    && a.nodes[c].parent == q
    && a.spans[c].height + 1 == a.spans[q].height
    && a.spans[c].lo == (if i == 0 then a.spans[q].lo else Fin(ks[i - 1]))
    && a.spans[c].hi == (if i == |ks| then a.spans[q].hi else Fin(ks[i]))
  }

  lemma MergedKid(a: Arena, w: Pending, idx: nat, i: nat)
    requires Inv(a, w) && PendingAt(a, w, idx) && i <= |MergedKeys(a, w, idx)|
    ensures MergedKidOk(a, w, idx, i)
  {
    if i < idx {
      KidBefore(a, w, idx, i);
    } else if i == idx {
      KidLeft(a, w, idx);
    } else if i == idx + 1 {
      KidRight(a, w, idx);
    } else {
      KidAfter(a, w, idx, i);
    }
  }

  lemma KidBefore(a: Arena, w: Pending, idx: nat, i: nat)
    requires Inv(a, w) && PendingAt(a, w, idx) && i < idx
    ensures MergedKidOk(a, w, idx, i)
  {
    var q := a.nodes[w.left].parent;
    assert NodeOk(a, w, q);
    assert KidOk(a, w, q, i);
    DistinctKids(a, w, q, i, idx);
  }

  lemma KidAfter(a: Arena, w: Pending, idx: nat, i: nat)
    requires Inv(a, w) && PendingAt(a, w, idx) && idx + 1 < i <= |MergedKeys(a, w, idx)|
    ensures MergedKidOk(a, w, idx, i)
  {
    var q := a.nodes[w.left].parent;
    assert NodeOk(a, w, q);
    assert KidOk(a, w, q, i - 1);
    DistinctKids(a, w, q, i - 1, idx);
  }

  /** The left half keeps its slot up to the new separator. */
  lemma KidLeft(a: Arena, w: Pending, idx: nat)
    requires Inv(a, w) && PendingAt(a, w, idx)
    ensures MergedKidOk(a, w, idx, idx)
  {
    var q := a.nodes[w.left].parent;
    assert NodeOk(a, w, q);
    assert KidOk(a, w, q, idx);
  }

  /** The right half takes over from the new separator on. */
  lemma KidRight(a: Arena, w: Pending, idx: nat)
    requires Inv(a, w) && PendingAt(a, w, idx)
    ensures MergedKidOk(a, w, idx, idx + 1)
  {
    var q := a.nodes[w.left].parent;
    assert NodeOk(a, w, q) && NodeOk(a, w, w.right);
    assert KidOk(a, w, q, idx);
  }

  /** The merged keys are sorted and strictly inside the parent's span. */
  lemma MergedShape(a: Arena, w: Pending, idx: nat)
    requires Inv(a, w) && PendingAt(a, w, idx)
    ensures var q := a.nodes[w.left].parent;
            var ks := MergedKeys(a, w, idx);
            && Sorted(ks)
            && forall i :: 0 <= i < |ks| ==> Below(a.spans[q].lo, Fin(ks[i])) && Below(Fin(ks[i]), a.spans[q].hi)
  {
    var q := a.nodes[w.left].parent;
    PendingSlot(a, w, idx);
    assert NodeOk(a, w, q);
    InsertKeepsSorted(a.nodes[q].keys, idx, w.key);
  }

  /** Merged children are pairwise distinct, so each goes to exactly one half. */
  lemma MergedDistinct(a: Arena, w: Pending, idx: nat, i: nat, j: nat)
    requires Inv(a, w) && PendingAt(a, w, idx) && i < j <= |MergedKeys(a, w, idx)|
    ensures MergedKids(a, w, idx)[i] != MergedKids(a, w, idx)[j]
  {
    hide MergedKeys, MergedKids;
    MergedKid(a, w, idx, i);
    MergedKid(a, w, idx, j);
    MergedShape(a, w, idx);
  }

  function InnerFilled(a: Arena, w: Pending, idx: nat): Arena
    requires PendingAt(a, w, idx)
  {
    var q := a.nodes[w.left].parent;
    a.(nodes := a.nodes[q := a.nodes[q].(keys := MergedKeys(a, w, idx), kids := MergedKids(a, w, idx))])
  }

  lemma InnerFillKeeps(a: Arena, w: Pending, idx: nat)
    requires Inv(a, w) && PendingAt(a, w, idx)
    requires |a.nodes[a.nodes[w.left].parent].keys| < MAX_KEYS
    ensures Inv(InnerFilled(a, w, idx), Settled)
  {
    var b := InnerFilled(a, w, idx);
    var q := a.nodes[w.left].parent;
    forall p | Live(b, p) ensures NodeOk(b, Settled, p) {
      assert NodeOk(a, w, p);
      if p == q {
        MergedShape(a, w, idx);
        assert ShapeOk(b.nodes[q], b.spans[q], q == b.root);
      }
      InnerFillKids(a, w, idx, p);
      InnerFillLinks(a, w, idx, p);
    }
  }

  lemma InnerFillKids(a: Arena, w: Pending, idx: nat, p: Ptr)
    requires Inv(a, w) && PendingAt(a, w, idx) && Live(a, p)
    ensures KidsOk(InnerFilled(a, w, idx), Settled, p)
  {
    var b := InnerFilled(a, w, idx);
    var q := a.nodes[w.left].parent;
    assert NodeOk(a, w, p);
    forall i | 0 <= i < |b.nodes[p].kids| ensures KidOk(b, Settled, p, i) {
      if p == q {
        MergedKid(a, w, idx, i);
      } else {
        assert KidOk(a, w, p, i);
        assert NodeOk(a, w, q);
        assert KidOk(a, w, q, idx);
      }
    }
  }

  lemma InnerFillLinks(a: Arena, w: Pending, idx: nat, p: Ptr)
    requires Inv(a, w) && PendingAt(a, w, idx) && Live(a, p)
    ensures LinkOk(InnerFilled(a, w, idx), Settled, p)
  {
    var b := InnerFilled(a, w, idx);
    var q := a.nodes[w.left].parent;
    assert NodeOk(a, w, p) && NodeOk(a, w, q) && NodeOk(a, w, w.left);
    assert KidOk(a, w, q, idx);
    if p == w.right {
      assert b.nodes[q].kids[idx + 1] == p;
    } else if p != b.root && a.nodes[p].parent == q {
      var i :| 0 <= i < |a.nodes[q].kids| && a.nodes[q].kids[i] == p;
      assert b.nodes[q].kids[if i <= idx then i else i + 1] == p;
    }
  }

  predicate SplitAt(a: Arena, w: Pending, idx: nat) {
    && PendingAt(a, w, idx)
    && |a.nodes[a.nodes[w.left].parent].keys| == MAX_KEYS
  }

  function LeftInner(a: Arena, w: Pending, idx: nat): NodeView
    requires SplitAt(a, w, idx)
  {
    a.nodes[a.nodes[w.left].parent].(keys := MergedKeys(a, w, idx)[..HALF], kids := MergedKids(a, w, idx)[..HALF + 1])
  }

  function RightInner(a: Arena, w: Pending, idx: nat): NodeView
    requires SplitAt(a, w, idx)
  {
    a.nodes[a.nodes[w.left].parent].(keys := MergedKeys(a, w, idx)[HALF + 1..],
        kids := MergedKids(a, w, idx)[HALF + 1..])
  }

  /** A node after the split: the full parent is halved, and children of the new node point to it. */
  function AfterSplit(a: Arena, w: Pending, idx: nat, p: Ptr): NodeView
    requires SplitAt(a, w, idx) && 0 <= p <= |a.nodes|
  {
    if p == |a.nodes| then RightInner(a, w, idx)
    else if p == a.nodes[w.left].parent then LeftInner(a, w, idx)
    else if p in MergedKids(a, w, idx)[HALF + 1..] then a.nodes[p].(parent := |a.nodes|)
    else a.nodes[p]
  }

  function InnerSplit(a: Arena, w: Pending, idx: nat): Arena
    requires SplitAt(a, w, idx)
  {
    var q := a.nodes[w.left].parent;
    var sep := Fin(MergedKeys(a, w, idx)[HALF]);
    Arena(
      seq(|a.nodes| + 1, p requires 0 <= p <= |a.nodes| => AfterSplit(a, w, idx, p)),
      a.root,
      a.spans[q := a.spans[q].(hi := sep)] + [a.spans[q].(lo := sep)])
  }

  function InnerSplitPending(a: Arena, w: Pending, idx: nat): Pending
    requires SplitAt(a, w, idx)
  {
    Pending(a.nodes[w.left].parent, MergedKeys(a, w, idx)[HALF], |a.nodes|)
  }

  lemma InnerSplitShapes(a: Arena, w: Pending, idx: nat)
    requires Inv(a, w) && SplitAt(a, w, idx)
    ensures var b := InnerSplit(a, w, idx);
            var z := InnerSplitPending(a, w, idx);
            && PendingOk(b, z)
            && ShapeOk(b.nodes[z.left], b.spans[z.left], z.left == b.root)
            && ShapeOk(b.nodes[z.right], b.spans[z.right], false)
  {
    MergedShape(a, w, idx);
    assert NodeOk(a, w, a.nodes[w.left].parent);
    var ks := MergedKeys(a, w, idx);
    assert ks[0] < ks[1] < ks[2] < ks[3];
  }

  lemma InnerSplitKids(a: Arena, w: Pending, idx: nat, p: Ptr)
    requires Inv(a, w) && SplitAt(a, w, idx) && 0 <= p <= |a.nodes|
    requires PendingOk(InnerSplit(a, w, idx), InnerSplitPending(a, w, idx))
    ensures KidsOk(InnerSplit(a, w, idx), InnerSplitPending(a, w, idx), p)
  {
    var b := InnerSplit(a, w, idx);
    var z := InnerSplitPending(a, w, idx);
    if p < |a.nodes| {
      assert NodeOk(a, w, p);
    }
    forall i | 0 <= i < |b.nodes[p].kids| ensures KidOk(b, z, p, i) {
      if p == z.left {
        InnerSplitLeftKid(a, w, idx, i);
      } else if p == z.right {
        InnerSplitRightKid(a, w, idx, i + HALF + 1);
      } else {
        InnerSplitFarKid(a, w, idx, p, i);
      }
    }
  }

  /** Merged child j now points to the half it was given to, and is otherwise unchanged. */
  lemma SplitMoves(a: Arena, w: Pending, idx: nat, j: nat)
    requires Inv(a, w) && SplitAt(a, w, idx) && j <= ORDER
    ensures var c := MergedKids(a, w, idx)[j];
            var q := a.nodes[w.left].parent;
            && Live(a, c) && c != q
            && AfterSplit(a, w, idx, c) == a.nodes[c].(parent := if j <= HALF then q else |a.nodes|)
            && InnerSplit(a, w, idx).spans[c] == a.spans[c]
  {
    hide MergedKeys, MergedKids;
    var cs := MergedKids(a, w, idx);
    MergedKid(a, w, idx, j);
    assert cs[HALF + 1..] == [cs[3], cs[4]];
    if j <= HALF {
      MergedDistinct(a, w, idx, j, 3);
      MergedDistinct(a, w, idx, j, 4);
    }
  }

  /** Merged child j sits in slot j of the left half. */
  lemma InnerSplitLeftKid(a: Arena, w: Pending, idx: nat, j: nat)
    requires Inv(a, w) && SplitAt(a, w, idx) && j <= HALF
    requires PendingOk(InnerSplit(a, w, idx), InnerSplitPending(a, w, idx))
    ensures KidOk(InnerSplit(a, w, idx), InnerSplitPending(a, w, idx), a.nodes[w.left].parent, j)
  {
    hide MergedKeys, MergedKids;
    MergedKid(a, w, idx, j);
    SplitMoves(a, w, idx, j);
  }

  /** Merged child j sits in slot j - HALF - 1 of the right half. */
  lemma InnerSplitRightKid(a: Arena, w: Pending, idx: nat, j: nat)
    requires Inv(a, w) && SplitAt(a, w, idx) && HALF < j <= ORDER
    requires PendingOk(InnerSplit(a, w, idx), InnerSplitPending(a, w, idx))
    ensures KidOk(InnerSplit(a, w, idx), InnerSplitPending(a, w, idx), |a.nodes|, j - HALF - 1)
  {
    hide MergedKeys, MergedKids;
    MergedKid(a, w, idx, j);
    SplitMoves(a, w, idx, j);
    assert MergedKids(a, w, idx)[HALF + 1..][j - HALF - 1] == MergedKids(a, w, idx)[j];
  }

  /** A node that does not hang below the split parent keeps its parent link. */
  lemma SplitSpares(a: Arena, w: Pending, idx: nat, c: Ptr)
    requires Inv(a, w) && SplitAt(a, w, idx) && Live(a, c)
    requires a.nodes[c].parent != a.nodes[w.left].parent
    ensures c !in MergedKids(a, w, idx)[HALF + 1..]
    ensures c != a.nodes[w.left].parent ==> AfterSplit(a, w, idx, c) == a.nodes[c]
  {
    hide MergedKeys, MergedKids;
    var cs := MergedKids(a, w, idx);
    MergedKid(a, w, idx, 3);
    MergedKid(a, w, idx, 4);
    assert cs[HALF + 1..] == [cs[3], cs[4]];
  }

  /** A child of any other node is untouched by the split, apart from a widened view of z.left. */
  lemma InnerSplitFarKid(a: Arena, w: Pending, idx: nat, p: Ptr, i: nat)
    requires Inv(a, w) && SplitAt(a, w, idx) && Live(a, p) && p != a.nodes[w.left].parent
    requires PendingOk(InnerSplit(a, w, idx), InnerSplitPending(a, w, idx))
    requires i < |a.nodes[p].kids| <= |a.nodes[p].keys| + 1
    ensures |InnerSplit(a, w, idx).nodes[p].kids| == |a.nodes[p].kids|
    ensures KidOk(InnerSplit(a, w, idx), InnerSplitPending(a, w, idx), p, i)
  {
    hide MergedKeys, MergedKids;
    assert NodeOk(a, w, p);
    assert KidOk(a, w, p, i);
    var c := a.nodes[p].kids[i];
    SplitSpares(a, w, idx, c);
    assert w.left != c by {
      assert NodeOk(a, w, w.left);
    }
  }

  lemma InnerSplitLinks(a: Arena, w: Pending, idx: nat, p: Ptr)
    requires Inv(a, w) && SplitAt(a, w, idx) && 0 <= p <= |a.nodes|
    requires PendingOk(InnerSplit(a, w, idx), InnerSplitPending(a, w, idx))
    ensures LinkOk(InnerSplit(a, w, idx), InnerSplitPending(a, w, idx), p)
  {
    var z := InnerSplitPending(a, w, idx);
    assert NodeOk(a, w, z.left);
    if p < |a.nodes| {
      assert NodeOk(a, w, p);
      if p == w.right || (p != a.root && a.nodes[p].parent == z.left) {
        var j := MergedSlot(a, w, idx, p);
        InnerSplitSlot(a, w, idx, j);
        MergedKid(a, w, idx, j);
      } else {
        InnerSplitFarLink(a, w, idx, p);
      }
    }
  }

  /** A node below the split parent has a place among the merged children. */
  lemma MergedSlot(a: Arena, w: Pending, idx: nat, p: Ptr) returns (j: nat)
    requires Inv(a, w) && PendingAt(a, w, idx) && Live(a, p)
    requires p == w.right || (p != a.root && a.nodes[p].parent == a.nodes[w.left].parent)
    ensures j < |MergedKids(a, w, idx)| && MergedKids(a, w, idx)[j] == p
  {
    var q := a.nodes[w.left].parent;
    assert NodeOk(a, w, p);
    if p == w.right {
      j := idx + 1;
    } else {
      var i :| 0 <= i < |a.nodes[q].kids| && a.nodes[q].kids[i] == p;
      j := if i <= idx then i else i + 1;
    }
  }

  lemma InnerSplitFarLink(a: Arena, w: Pending, idx: nat, p: Ptr)
    requires Inv(a, w) && SplitAt(a, w, idx) && Live(a, p)
    requires p != w.right && (p == a.root || a.nodes[p].parent != a.nodes[w.left].parent)
    requires PendingOk(InnerSplit(a, w, idx), InnerSplitPending(a, w, idx))
    ensures LinkOk(InnerSplit(a, w, idx), InnerSplitPending(a, w, idx), p)
  {
    assert NodeOk(a, w, p);
    assert NodeOk(a, w, a.nodes[w.left].parent);
    SplitSpares(a, w, idx, p);
  }

  /** Every merged child is found below the half it now points to. */
  lemma InnerSplitSlot(a: Arena, w: Pending, idx: nat, j: nat)
    requires Inv(a, w) && SplitAt(a, w, idx) && j <= ORDER
    ensures var b := InnerSplit(a, w, idx);
            var c := MergedKids(a, w, idx)[j];
            && 0 <= c < |b.nodes| && 0 <= b.nodes[c].parent < |b.nodes|
            && c in b.nodes[b.nodes[c].parent].kids
  {
    hide MergedKeys, MergedKids;
    var cs := MergedKids(a, w, idx);
    SplitMoves(a, w, idx, j);
    if j <= HALF {
      assert cs[..HALF + 1][j] == cs[j];
    } else {
      assert cs[HALF + 1..][j - HALF - 1] == cs[j];
    }
  }

  lemma InnerSplitPends(a: Arena, w: Pending, idx: nat)
    requires Inv(a, w) && SplitAt(a, w, idx)
    ensures Inv(InnerSplit(a, w, idx), InnerSplitPending(a, w, idx))
  {
    var b := InnerSplit(a, w, idx);
    var z := InnerSplitPending(a, w, idx);
    InnerSplitShapes(a, w, idx);
    forall p | Live(b, p) ensures NodeOk(b, z, p) {
      InnerSplitKids(a, w, idx, p);
      InnerSplitLinks(a, w, idx, p);
      if p != z.right {
        assert NodeOk(a, w, p);
      }
    }
  }

  // ------------------------------------------------------------------ root

  function RootGrown(a: Arena, w: Pending): Arena
    requires w.Pending? && PendingOk(a, w)
  {
    var r := |a.nodes|;
    Arena(
      a.nodes[w.left := a.nodes[w.left].(parent := r)][w.right := a.nodes[w.right].(parent := r)]
      + [NodeView(false, [w.key], [], [w.left, w.right], NULL, NULL)],
      r,
      a.spans + [Span(a.spans[w.left].height + 1, NegInf, PosInf)])
  }

  lemma RootGrowKeeps(a: Arena, w: Pending)
    requires Inv(a, w) && w.Pending? && w.left == a.root
    ensures Inv(RootGrown(a, w), Settled)
  {
    var b := RootGrown(a, w);
    assert NodeOk(a, w, w.left) && NodeOk(a, w, w.right);
    forall p | Live(b, p) ensures NodeOk(b, Settled, p) {
      if p == b.root {
        assert KidOk(b, Settled, p, 0) && KidOk(b, Settled, p, 1);
        assert NodeOk(b, Settled, p);
      } else {
        assert NodeOk(a, w, p);
        RootGrowOther(a, w, p);
      }
    }
  }

  lemma RootGrowOther(a: Arena, w: Pending, p: Ptr)
    requires Inv(a, w) && w.Pending? && w.left == a.root && Live(a, p)
    ensures NodeOk(RootGrown(a, w), Settled, p)
  {
    var b := RootGrown(a, w);
    assert NodeOk(a, w, p) && NodeOk(a, w, w.left) && NodeOk(a, w, w.right);
    forall i | 0 <= i < |b.nodes[p].kids| ensures KidOk(b, Settled, p, i) {
      assert KidOk(a, w, p, i);
    }
    if p == w.left {
      assert b.nodes[b.root].kids[0] == p;
    } else if p == w.right {
      assert b.nodes[b.root].kids[1] == p;
    }
  }
}
