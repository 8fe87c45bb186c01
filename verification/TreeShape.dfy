/**
 The shape of the order-4 B+ tree, stated on an arena of nodes.

 A node is named by its index in the arena; NULL is -1.  `NodeView` is what a
 node shows: exactly its live keys, values and children.  Every node carries a
 ghost `Span`: its height above the leaves and the half-open key interval it is
 responsible for.  The whole tree invariant is then local: it relates each node
 to its own span, to its children, to its parent and to the next leaf.
 */
module TreeShape {

  type Ptr = int
  type Value = int

  const NULL: Ptr := -1
  const ORDER: nat := 4
  const MAX_KEYS: nat := ORDER - 1

  datatype NodeView = NodeView(
    leaf: bool,
    keys: seq<int>,
    vals: seq<Value>,
    kids: seq<Ptr>,
    parent: Ptr,
    next: Ptr)

  /** An interval end; `Fin(k)` stands just below the key k. */
  datatype Bound = NegInf | Fin(k: int) | PosInf

  datatype Span = Span(height: nat, lo: Bound, hi: Bound)

  datatype Arena = Arena(nodes: seq<NodeView>, root: Ptr, spans: seq<Span>)

  /** Between a split and the update of the parent, the new right half has no slot yet. */
  datatype Pending = Settled | Pending(left: Ptr, key: int, right: Ptr)

  predicate Below(a: Bound, b: Bound) {
    match a
    case NegInf => !b.NegInf?
    case Fin(x) => b.PosInf? || (b.Fin? && x < b.k)
    case PosInf => false
  }

  predicate InSpan(k: int, s: Span) {
    Below(Fin(k), s.hi) && (s.lo == Fin(k) || Below(s.lo, Fin(k)))
  }

  predicate Sorted(ks: seq<int>) {
    forall i, j :: 0 <= i < j < |ks| ==> ks[i] < ks[j]
  }

  function InsertAt<T>(s: seq<T>, i: nat, x: T): (r: seq<T>)
    requires i <= |s|
  {
    s[..i] + [x] + s[i..]
  }

  function SlotLo(n: NodeView, s: Span, i: nat): Bound
    requires i <= |n.keys|
  {
    if i == 0 then s.lo else Fin(n.keys[i - 1])
  }

  function SlotHi(n: NodeView, s: Span, i: nat): Bound
    requires i <= |n.keys|
  {
    if i == |n.keys| then s.hi else Fin(n.keys[i])
  }

  /** p is a node of the arena. */
  predicate Live(a: Arena, p: Ptr) {
    0 <= p < |a.nodes| == |a.spans|
  }

  /** The upper end that p's parent expects: a pending left half still answers for both halves. */
  function TopHi(a: Arena, w: Pending, p: Ptr): Bound
    requires Live(a, p)
    requires w.Pending? ==> Live(a, w.right)
  {
    if w.Pending? && p == w.left then a.spans[w.right].hi else a.spans[p].hi
  }

  /** Occupancy, sorted keys, and keys inside the span. */
  predicate ShapeOk(n: NodeView, s: Span, isRoot: bool) {
    && (n.leaf <==> s.height == 0)
    && Sorted(n.keys)
    && |n.keys| <= MAX_KEYS
    && (n.leaf ==>
          && |n.vals| == |n.keys|
          && n.kids == []
          && (if isRoot then 1 else 2) <= |n.keys|
          && (s.lo.Fin? ==> n.keys[0] == s.lo.k)
          && forall i :: 0 <= i < |n.keys| ==> InSpan(n.keys[i], s))
    && (!n.leaf ==>
          && n.vals == []
          && n.next == NULL
          && 1 <= |n.keys|
          && |n.kids| == |n.keys| + 1
          && forall i :: 0 <= i < |n.keys| ==> Below(s.lo, Fin(n.keys[i])) && Below(Fin(n.keys[i]), s.hi))
  }

  /** Child i of q points back to q, sits one level lower and owns exactly slot i of q. */
  predicate KidOk(a: Arena, w: Pending, q: Ptr, i: nat)
    requires Live(a, q)
    requires i < |a.nodes[q].kids| <= |a.nodes[q].keys| + 1
    requires w.Pending? ==> Live(a, w.right)
  {
    var c := a.nodes[q].kids[i];
    && Live(a, c)
    && (w.Pending? ==> c != w.right)
    && c != a.root
    && a.nodes[c].parent == q
    && a.spans[c].height + 1 == a.spans[q].height
    && a.spans[c].lo == SlotLo(a.nodes[q], a.spans[q], i)
    && TopHi(a, w, c) == SlotHi(a.nodes[q], a.spans[q], i)
  }

  predicate KidsOk(a: Arena, w: Pending, q: Ptr)
    requires Live(a, q)
    requires w.Pending? ==> Live(a, w.right)
  {
    && |a.nodes[q].kids| <= |a.nodes[q].keys| + 1
    && forall i :: 0 <= i < |a.nodes[q].kids| ==> KidOk(a, w, q, i)
  }

  /** p hangs below its parent; the root alone has none. */
  predicate LinkOk(a: Arena, w: Pending, p: Ptr)
    requires Live(a, p) && Live(a, a.root)
    requires w.Pending? ==> Live(a, w.left) && Live(a, w.right)
  {
    if p == a.root then
      && a.nodes[p].parent == NULL
      && a.spans[p].lo == NegInf
      && TopHi(a, w, p) == PosInf
    else if w.Pending? && p == w.right then
      && a.nodes[p].parent == a.nodes[w.left].parent
      && a.spans[p].height == a.spans[w.left].height
      && a.spans[p].height <= a.spans[a.root].height
    else
      && Live(a, a.nodes[p].parent)
      && p in a.nodes[a.nodes[p].parent].kids
      && a.spans[p].height < a.spans[a.root].height
  }

  /** A leaf is chained to the leaf that starts where it ends. */
  predicate ChainOk(a: Arena, p: Ptr)
    requires Live(a, p)
  {
    a.nodes[p].leaf ==>
      if a.spans[p].hi == PosInf then
        a.nodes[p].next == NULL
      else
        && Live(a, a.nodes[p].next)
        && a.nodes[a.nodes[p].next].leaf
        && a.spans[a.nodes[p].next].lo == a.spans[p].hi
  }

  predicate PendingOk(a: Arena, w: Pending) {
    w.Pending? ==>
      && Live(a, w.left) && Live(a, w.right)
      && w.left != w.right && w.right != a.root
      && a.spans[w.left].hi == Fin(w.key) == a.spans[w.right].lo
      && Below(a.spans[w.left].lo, Fin(w.key))
      && Below(Fin(w.key), a.spans[w.right].hi)
  }

  predicate NodeOk(a: Arena, w: Pending, p: Ptr)
    requires Live(a, p) && Live(a, a.root) && PendingOk(a, w)
  {
    && ShapeOk(a.nodes[p], a.spans[p], p == a.root && w.Settled?)
    && KidsOk(a, w, p)
    && LinkOk(a, w, p)
    && ChainOk(a, p)
  }

  /** The tree invariant; with `Settled` it is the invariant of a tree at rest. */
  ghost predicate Inv(a: Arena, w: Pending) {
    && Live(a, a.root)
    && PendingOk(a, w)
    && forall p {:trigger NodeOk(a, w, p)} :: Live(a, p) ==> NodeOk(a, w, p)
  }

  predicate LeafHas(nodes: seq<NodeView>, p: Ptr, k: int) {
    0 <= p < |nodes| && nodes[p].leaf && k in nodes[p].keys
  }

  /** The map the leaves store: each leaf entry is in m, and each key of m is in a leaf. */
  ghost predicate Stores(nodes: seq<NodeView>, m: map<int, Value>) {
    && (forall p, i {:trigger nodes[p].keys[i]} ::
          0 <= p < |nodes| && nodes[p].leaf && |nodes[p].vals| == |nodes[p].keys| && 0 <= i < |nodes[p].keys|
          ==> nodes[p].keys[i] in m && m[nodes[p].keys[i]] == nodes[p].vals[i])
    && (forall k :: k in m ==> exists p :: LeafHas(nodes, p, k))
  }
}
