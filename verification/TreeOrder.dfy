/**
 What the local tree invariant means for the tree as a whole: one home for every
 key, the in-order sequence of leaves, the leaf chain, the stored entries in
 key order, separators, and the height bound.
 */
module TreeOrder {
  import opened TreeShape
  import opened TreeSteps

  // ------------------------------------------------------ the stored map

  lemma StoresFilled(a: Arena, p: Ptr, pos: nat, key: int, v: Value, m: map<int, Value>)
    requires Inv(a, Settled) && Live(a, p) && a.nodes[p].leaf
    requires pos <= |a.nodes[p].keys| == |a.nodes[p].vals|
    requires Stores(a.nodes, m) && key !in m
    ensures Stores(LeafFilled(a, p, pos, key, v).nodes, m[key := v])
  {
    var b := LeafFilled(a, p, pos, key, v);
    var n := a.nodes[p];
    forall q, i | 0 <= q < |b.nodes| && b.nodes[q].leaf && |b.nodes[q].vals| == |b.nodes[q].keys| &&
        0 <= i < |b.nodes[q].keys|
      ensures b.nodes[q].keys[i] in m[key := v] && m[key := v][b.nodes[q].keys[i]] == b.nodes[q].vals[i]
    {
      if q == p && i != pos {
        var j := if i < pos then i else i - 1;
        assert b.nodes[q].keys[i] == n.keys[j] && b.nodes[q].vals[i] == n.vals[j];
      } else if q != p {
        assert b.nodes[q] == a.nodes[q];
        assert a.nodes[q].keys[i] in m;
      }
    }
    var m' := m[key := v];
    forall k | k in m' ensures exists q :: LeafHas(b.nodes, q, k) {
      if k == key {
        assert b.nodes[p].keys[pos] == key;
        assert LeafHas(b.nodes, p, k);
      } else {
        var q :| LeafHas(a.nodes, q, k);
        if q == p {
          var i :| 0 <= i < |n.keys| && n.keys[i] == k;
          assert b.nodes[p].keys[if i < pos then i else i + 1] == k;
        }
        assert LeafHas(b.nodes, q, k);
      }
    }
  }

  /** The entries of leaf p of ns are shared out between p and a new leaf at the end of ms. */
  predicate SharedOut(ns: seq<NodeView>, ms: seq<NodeView>, p: Ptr) {
    && 0 <= p < |ns| && |ms| == |ns| + 1
    && ns[p].leaf && ms[p].leaf && ms[|ns|].leaf
    && ns[p].keys == ms[p].keys + ms[|ns|].keys && |ms[p].keys| == |ms[p].vals|
    && ns[p].vals == ms[p].vals + ms[|ns|].vals && |ms[|ns|].keys| == |ms[|ns|].vals|
    && forall q :: 0 <= q < |ns| && q != p ==> ms[q] == ns[q]
  }

  lemma SharedEntry(ns: seq<NodeView>, ms: seq<NodeView>, p: Ptr, m: map<int, Value>, q: Ptr, i: nat)
    requires SharedOut(ns, ms, p) && Stores(ns, m)
    requires 0 <= q < |ms| && ms[q].leaf && |ms[q].vals| == |ms[q].keys| && i < |ms[q].keys|
    ensures ms[q].keys[i] in m && m[ms[q].keys[i]] == ms[q].vals[i]
  {
    if q == |ns| {
      var j := |ms[p].keys| + i;
      assert ns[p].keys[j] == ms[q].keys[i] && ns[p].vals[j] == ms[q].vals[i];
    } else {
      assert ns[q].keys[i] == ms[q].keys[i] && ns[q].vals[i] == ms[q].vals[i];
    }
  }

  lemma SharedKey(ns: seq<NodeView>, ms: seq<NodeView>, p: Ptr, q: Ptr, k: int)
    requires SharedOut(ns, ms, p) && LeafHas(ns, q, k)
    ensures LeafHas(ms, q, k) || LeafHas(ms, |ns|, k)
  {
  }

  lemma StoresShared(ns: seq<NodeView>, ms: seq<NodeView>, p: Ptr, m: map<int, Value>)
    requires SharedOut(ns, ms, p) && Stores(ns, m)
    ensures Stores(ms, m)
  {
    forall q, i | 0 <= q < |ms| && ms[q].leaf && |ms[q].vals| == |ms[q].keys| && 0 <= i < |ms[q].keys|
      ensures ms[q].keys[i] in m && m[ms[q].keys[i]] == ms[q].vals[i]
    {
      SharedEntry(ns, ms, p, m, q, i);
    }
    forall k | k in m ensures exists q :: LeafHas(ms, q, k) {
      var q :| LeafHas(ns, q, k);
      SharedKey(ns, ms, p, q, k);
    }
  }

  /** Splitting a leaf only shares out what filling it would have stored. */
  lemma StoresSplit(a: Arena, p: Ptr, pos: nat, key: int, v: Value, m: map<int, Value>)
    requires Inv(a, Settled) && Live(a, p) && a.nodes[p].leaf
    requires pos <= |a.nodes[p].keys| == |a.nodes[p].vals| == MAX_KEYS
    requires Stores(a.nodes, m) && key !in m
    ensures Stores(LeafSplit(a, p, pos, key, v).nodes, m[key := v])
  {
    StoresFilled(a, p, pos, key, v, m);
    SplitShares(a, p, pos, key, v);
    StoresShared(LeafFilled(a, p, pos, key, v).nodes, LeafSplit(a, p, pos, key, v).nodes, p, m[key := v]);
  }

  lemma SplitShares(a: Arena, p: Ptr, pos: nat, key: int, v: Value)
    requires Live(a, p) && a.nodes[p].leaf && pos <= |a.nodes[p].keys| == |a.nodes[p].vals| == MAX_KEYS
    ensures SharedOut(LeafFilled(a, p, pos, key, v).nodes, LeafSplit(a, p, pos, key, v).nodes, p)
  {
    var ks, vs := InsertAt(a.nodes[p].keys, pos, key), InsertAt(a.nodes[p].vals, pos, v);
    assert ks == ks[..HALF] + ks[HALF..] && vs == vs[..HALF] + vs[HALF..];
  }

  predicate SameLeaves(ns: seq<NodeView>, ms: seq<NodeView>) {
    && |ns| <= |ms|
    && (forall p :: 0 <= p < |ns| ==> ms[p].leaf == ns[p].leaf)
    && (forall p :: 0 <= p < |ns| && ns[p].leaf ==> ms[p].keys == ns[p].keys && ms[p].vals == ns[p].vals)
    && (forall p :: |ns| <= p < |ms| ==> !ms[p].leaf)
  }

  lemma StoresSameLeaves(ns: seq<NodeView>, ms: seq<NodeView>, m: map<int, Value>)
    requires SameLeaves(ns, ms) && Stores(ns, m)
    ensures Stores(ms, m)
  {
    forall p, i | 0 <= p < |ms| && ms[p].leaf && |ms[p].vals| == |ms[p].keys| && 0 <= i < |ms[p].keys|
      ensures ms[p].keys[i] in m && m[ms[p].keys[i]] == ms[p].vals[i]
    {
      assert ns[p].keys[i] in m;
    }
    forall k | k in m ensures exists q :: LeafHas(ms, q, k) {
      var q :| LeafHas(ns, q, k);
      assert LeafHas(ms, q, k);
    }
  }

  // --------------------------------------------------- one home per key

  lemma UpSpan(a: Arena, p: Ptr, k: int) returns (i: nat)
    requires Inv(a, Settled) && Live(a, p) && p != a.root && InSpan(k, a.spans[p])
    ensures var q := a.nodes[p].parent;
            && Live(a, q) && InSpan(k, a.spans[q]) && a.spans[q].height == a.spans[p].height + 1
            && i < |a.nodes[q].kids| == |a.nodes[q].keys| + 1 && a.nodes[q].kids[i] == p && KidOk(a, Settled, q, i)
  {
    assert NodeOk(a, Settled, p);
    var q := a.nodes[p].parent;
    assert NodeOk(a, Settled, q);
    i :| 0 <= i < |a.nodes[q].kids| && a.nodes[q].kids[i] == p;
    assert KidOk(a, Settled, q, i);
  }

  /** At each height at most one node is responsible for a key. */
  lemma {:induction false} OneHome(a: Arena, p: Ptr, q: Ptr, k: int)
    requires Inv(a, Settled) && Live(a, p) && Live(a, q)
    requires a.spans[p].height == a.spans[q].height
    requires InSpan(k, a.spans[p]) && InSpan(k, a.spans[q])
    ensures p == q
    decreases a.spans[a.root].height - a.spans[p].height
  {
    assert NodeOk(a, Settled, p) && NodeOk(a, Settled, q);
    if p != a.root && q != a.root {
      var i := UpSpan(a, p, k);
      var j := UpSpan(a, q, k);
      var r := a.nodes[p].parent;
      assert NodeOk(a, Settled, r);
      OneHome(a, r, a.nodes[q].parent, k);
    }
  }

  /** Descending one step from an inner node keeps the key in span. */
  lemma DownSpan(a: Arena, q: Ptr, i: nat, k: int)
    requires Inv(a, Settled) && Live(a, q) && !a.nodes[q].leaf && InSpan(k, a.spans[q])
    requires i <= |a.nodes[q].keys|
    requires forall j :: 0 <= j < i ==> a.nodes[q].keys[j] <= k
    requires i < |a.nodes[q].keys| ==> k < a.nodes[q].keys[i]
    ensures i < |a.nodes[q].kids|
    ensures var c := a.nodes[q].kids[i];
            Live(a, c) && InSpan(k, a.spans[c]) && a.spans[c].height + 1 == a.spans[q].height
  {
    assert NodeOk(a, Settled, q);
    assert KidOk(a, Settled, q, i);
  }

  /** The leaf responsible for k decides membership of k, and holds its value. */
  lemma LeafDecides(a: Arena, p: Ptr, k: int, m: map<int, Value>)
    requires Inv(a, Settled) && Stores(a.nodes, m)
    requires Live(a, p) && a.nodes[p].leaf && InSpan(k, a.spans[p])
    ensures |a.nodes[p].vals| == |a.nodes[p].keys|
    ensures k in m <==> k in a.nodes[p].keys
    ensures forall i :: 0 <= i < |a.nodes[p].keys| && a.nodes[p].keys[i] == k ==> m[k] == a.nodes[p].vals[i]
  {
    assert NodeOk(a, Settled, p);
    if k in m {
      var q :| LeafHas(a.nodes, q, k);
      assert NodeOk(a, Settled, q);
      OneHome(a, p, q, k);
    }
  }

  // ------------------------------------------------------------- leaves

  /** The leaves below p, left to right. */
  ghost function Leaves(a: Arena, p: Ptr): (r: seq<Ptr>)
    requires Inv(a, Settled) && Live(a, p)
    decreases a.spans[p].height, 1
  {
    assert NodeOk(a, Settled, p);
    if a.nodes[p].leaf then [p] else LeavesBelow(a, p, |a.nodes[p].kids|)
  }

  /** The leaves below the first n children of p. */
  ghost function LeavesBelow(a: Arena, p: Ptr, n: nat): (r: seq<Ptr>)
    requires Inv(a, Settled) && Live(a, p) && n <= |a.nodes[p].kids|
    requires !a.nodes[p].leaf
    decreases a.spans[p].height, 0, n
  {
    if n == 0 then [] else
    assert NodeOk(a, Settled, p);
    assert KidOk(a, Settled, p, n - 1);
    LeavesBelow(a, p, n - 1) + Leaves(a, a.nodes[p].kids[n - 1])
  }

  /** A run of leaves in which each one starts where the one before ends. */
  ghost predicate Adjacent(a: Arena, l: seq<Ptr>) {
    && |a.spans| == |a.nodes|
    && (forall j :: 0 <= j < |l| ==> Live(a, l[j]) && a.nodes[l[j]].leaf)
    && (forall j {:trigger l[j]} :: 0 <= j < |l| - 1 ==>
       a.spans[l[j]].hi == a.spans[l[j + 1]].lo && a.spans[l[j]].hi.Fin?)
  }

  lemma {:induction false} LeavesAdjacent(a: Arena, p: Ptr)
    requires Inv(a, Settled) && Live(a, p)
    ensures var l := Leaves(a, p);
            && |l| >= 1 && Adjacent(a, l)
            && a.spans[l[0]].lo == a.spans[p].lo
            && a.spans[l[|l| - 1]].hi == a.spans[p].hi
    decreases a.spans[p].height, 1
  {
    assert NodeOk(a, Settled, p);
    if !a.nodes[p].leaf {
      LeavesBelowAdjacent(a, p, |a.nodes[p].kids|);
    }
  }

  lemma {:induction false} LeavesBelowAdjacent(a: Arena, p: Ptr, n: nat)
    requires Inv(a, Settled) && Live(a, p) && !a.nodes[p].leaf
    requires 1 <= n <= |a.nodes[p].kids| == |a.nodes[p].keys| + 1
    ensures var l := LeavesBelow(a, p, n);
            && |l| >= 1 && Adjacent(a, l)
            && a.spans[l[0]].lo == a.spans[p].lo
            && a.spans[l[|l| - 1]].hi == SlotHi(a.nodes[p], a.spans[p], n - 1)
    decreases a.spans[p].height, 0, n
  {
    KidSpan(a, p, n - 1);
    var c := a.nodes[p].kids[n - 1];
    LeavesAdjacent(a, c);
    if n == 1 {
      assert LeavesBelow(a, p, 0) == [];
      assert LeavesBelow(a, p, 1) == Leaves(a, c);
    } else {
      LeavesBelowAdjacent(a, p, n - 1);
      AdjacentConcat(a, LeavesBelow(a, p, n - 1), Leaves(a, c));
    }
  }

  lemma KidSpan(a: Arena, p: Ptr, i: nat)
    requires Inv(a, Settled) && Live(a, p) && i < |a.nodes[p].kids| == |a.nodes[p].keys| + 1
    ensures var c := a.nodes[p].kids[i];
            && Live(a, c)
            && a.spans[c].lo == SlotLo(a.nodes[p], a.spans[p], i)
            && a.spans[c].hi == SlotHi(a.nodes[p], a.spans[p], i)
            && a.spans[c].height < a.spans[p].height
  {
    assert NodeOk(a, Settled, p);
    assert KidOk(a, Settled, p, i);
  }

  lemma AdjacentConcat(a: Arena, l: seq<Ptr>, r: seq<Ptr>)
    requires Adjacent(a, l) && Adjacent(a, r) && l != [] && r != []
    requires a.spans[l[|l| - 1]].hi == a.spans[r[0]].lo && a.spans[r[0]].lo.Fin?
    ensures Adjacent(a, l + r)
  {
  }

  /** A leaf below p is below p's parent as well, hence below the root. */
  lemma {:induction false} LeafListed(a: Arena, leaf: Ptr, p: Ptr)
    requires Inv(a, Settled) && Live(a, p) && leaf in Leaves(a, p)
    ensures leaf in Leaves(a, a.root)
    decreases a.spans[a.root].height - a.spans[p].height
  {
    if p != a.root {
      assert NodeOk(a, Settled, p);
      var q := a.nodes[p].parent;
      assert NodeOk(a, Settled, q);
      var i :| 0 <= i < |a.nodes[q].kids| && a.nodes[q].kids[i] == p;
      assert KidOk(a, Settled, q, i);
      BelowMonotone(a, q, i + 1, |a.nodes[q].kids|);
      assert leaf in LeavesBelow(a, q, i + 1);
      LeafListed(a, leaf, q);
    }
  }

  lemma {:induction false} BelowMonotone(a: Arena, p: Ptr, m: nat, n: nat)
    requires Inv(a, Settled) && Live(a, p) && !a.nodes[p].leaf && m <= n <= |a.nodes[p].kids|
    ensures LeavesBelow(a, p, m) <= LeavesBelow(a, p, n)
    decreases n
  {
    if m < n {
      BelowMonotone(a, p, m, n - 1);
    }
  }

  /** The leaf chain: from its first leaf it visits every leaf exactly once, in tree order. */
  ghost predicate IsLeafChain(a: Arena, l: seq<Ptr>) {
    && l != []
    && (forall j :: 0 <= j < |l| ==> Live(a, l[j]) && a.nodes[l[j]].leaf)
    && (forall j {:trigger l[j]} :: 0 <= j < |l| - 1 ==> a.nodes[l[j]].next == l[j + 1])
    && a.nodes[l[|l| - 1]].next == NULL
    && (forall i, j :: 0 <= i < j < |l| ==> l[i] != l[j])
    && (forall p :: Live(a, p) && a.nodes[p].leaf ==> p in l)
  }

  predicate Within(l: seq<Ptr>, n: nat) {
    forall j :: 0 <= j < |l| ==> 0 <= l[j] < n
  }

  /** The keys (values) of a run of leaves, in order. */
  ghost function KeysOf(nodes: seq<NodeView>, l: seq<Ptr>): (r: seq<int>)
    requires Within(l, |nodes|)
  {
    if l == [] then [] else KeysOf(nodes, l[..|l| - 1]) + nodes[l[|l| - 1]].keys
  }

  ghost function ValsOf(nodes: seq<NodeView>, l: seq<Ptr>): (r: seq<Value>)
    requires Within(l, |nodes|)
  {
    if l == [] then [] else ValsOf(nodes, l[..|l| - 1]) + nodes[l[|l| - 1]].vals
  }

  lemma {:induction false} AdjacentSorted(a: Arena, l: seq<Ptr>)
    requires Inv(a, Settled) && Adjacent(a, l)
    ensures Sorted(KeysOf(a.nodes, l)) && |KeysOf(a.nodes, l)| == |ValsOf(a.nodes, l)|
    ensures l != [] ==> forall i :: 0 <= i < |KeysOf(a.nodes, l)| ==>
                          Below(Fin(KeysOf(a.nodes, l)[i]), a.spans[l[|l| - 1]].hi)
  {
    if l != [] {
      var f := l[..|l| - 1];
      var n := l[|l| - 1];
      assert NodeOk(a, Settled, n);
      hide Inv, KidsOk, LinkOk, ChainOk;
      forall j | 0 <= j < |f| - 1 ensures a.spans[f[j]].hi == a.spans[f[j + 1]].lo && a.spans[f[j]].hi.Fin? {
        assert f[j] == l[j] && f[j + 1] == l[j + 1];
      }
      AdjacentSorted(a, f);
      if f != [] {
        assert f[|f| - 1] == l[|l| - 2];
        assert a.spans[l[|l| - 2]].hi == a.spans[l[|l| - 2 + 1]].lo;
      }
    }
  }

  lemma AdjacentNext(a: Arena, l: seq<Ptr>, j: nat)
    requires Inv(a, Settled) && Adjacent(a, l) && j + 1 < |l|
    ensures a.nodes[l[j]].next == l[j + 1]
  {
    var p, q := l[j], l[j + 1];
    assert NodeOk(a, Settled, p) && NodeOk(a, Settled, q);
    var n := a.nodes[p].next;
    assert NodeOk(a, Settled, n);
    assert a.nodes[n].keys[0] == a.nodes[q].keys[0];
    OneHome(a, n, q, a.nodes[q].keys[0]);
  }

  lemma AdjacentDistinct(a: Arena, l: seq<Ptr>, i: nat, j: nat)
    requires Inv(a, Settled) && Adjacent(a, l) && i < j < |l|
    ensures a.nodes[l[i]].keys != [] && a.nodes[l[j]].keys != []
    ensures a.nodes[l[i]].keys[0] < a.nodes[l[j]].keys[0]
    decreases j
  {
    assert NodeOk(a, Settled, l[i]) && NodeOk(a, Settled, l[j]) && NodeOk(a, Settled, l[j - 1]);
    assert a.spans[l[j - 1]].hi == a.spans[l[j - 1 + 1]].lo;
    if i < j - 1 {
      AdjacentDistinct(a, l, i, j - 1);
    }
  }

  /** An adjacent run of all leaves that ends at the top end is the leaf chain. */
  lemma AdjacentIsChain(a: Arena, l: seq<Ptr>)
    requires Inv(a, Settled) && Adjacent(a, l) && l != []
    requires a.spans[l[|l| - 1]].hi == PosInf
    requires forall p :: Live(a, p) && a.nodes[p].leaf ==> p in l
    ensures IsLeafChain(a, l)
  {
    forall j | 0 <= j < |l| - 1 ensures a.nodes[l[j]].next == l[j + 1] {
      AdjacentNext(a, l, j);
    }
    assert NodeOk(a, Settled, l[|l| - 1]);
    forall i, j | 0 <= i < j < |l| ensures l[i] != l[j] {
      AdjacentDistinct(a, l, i, j);
    }
  }

  /** In every settled tree the `next` links run through the in-order leaves, all of them, once each. */
  lemma LeafChainComplete(a: Arena)
    requires Inv(a, Settled)
    ensures IsLeafChain(a, Leaves(a, a.root))
    ensures Adjacent(a, Leaves(a, a.root))
  {
    hide Leaves, Adjacent, IsLeafChain, NodeOk;
    LeavesAdjacent(a, a.root);
    RootSpan(a);
    AllLeavesListed(a);
    AdjacentIsChain(a, Leaves(a, a.root));
  }

  /** The root answers for every key. */
  lemma RootSpan(a: Arena)
    requires Inv(a, Settled)
    ensures a.spans[a.root].lo == NegInf && a.spans[a.root].hi == PosInf
  {
    assert NodeOk(a, Settled, a.root);
  }

  lemma AllLeavesListed(a: Arena)
    requires Inv(a, Settled)
    ensures forall p :: Live(a, p) && a.nodes[p].leaf ==> p in Leaves(a, a.root)
  {
    forall p | Live(a, p) && a.nodes[p].leaf ensures p in Leaves(a, a.root) {
      AllListed(a, p);
    }
  }

  lemma AllListed(a: Arena, p: Ptr)
    requires Inv(a, Settled) && Live(a, p) && a.nodes[p].leaf
    ensures p in Leaves(a, a.root)
  {
    assert p in Leaves(a, p);
    LeafListed(a, p, p);
  }

  // ------------------------------------------------------------ entries

  lemma {:induction false} KeyInKeysOf(nodes: seq<NodeView>, l: seq<Ptr>, k: int)
    requires Within(l, |nodes|)
    ensures k in KeysOf(nodes, l) <==> exists p :: p in l && k in nodes[p].keys
  {
    if l != [] {
      var f := l[..|l| - 1];
      KeyInKeysOf(nodes, f, k);
      assert l == f + [l[|l| - 1]];
    }
  }

  lemma {:induction false} EntryOf(nodes: seq<NodeView>, l: seq<Ptr>, i: nat) returns (p: Ptr, j: nat)
    requires forall j :: 0 <= j < |l| ==> 0 <= l[j] < |nodes| && |nodes[l[j]].keys| == |nodes[l[j]].vals|
    requires i < |KeysOf(nodes, l)|
    ensures |KeysOf(nodes, l)| == |ValsOf(nodes, l)|
    ensures p in l && j < |nodes[p].keys|
    ensures nodes[p].keys[j] == KeysOf(nodes, l)[i] && nodes[p].vals[j] == ValsOf(nodes, l)[i]
  {
    var f := l[..|l| - 1];
    SameLength(nodes, f);
    SameLength(nodes, l);
    if i < |KeysOf(nodes, f)| {
      p, j := EntryOf(nodes, f, i);
    } else {
      p, j := l[|l| - 1], i - |KeysOf(nodes, f)|;
    }
  }

  lemma {:induction false} SameLength(nodes: seq<NodeView>, l: seq<Ptr>)
    requires forall j :: 0 <= j < |l| ==> 0 <= l[j] < |nodes| && |nodes[l[j]].keys| == |nodes[l[j]].vals|
    ensures |KeysOf(nodes, l)| == |ValsOf(nodes, l)|
  {
    if l != [] {
      SameLength(nodes, l[..|l| - 1]);
    }
  }

  /** ks and vs list the map m in strictly increasing key order, missing nothing. */
  ghost predicate Lists(ks: seq<int>, vs: seq<Value>, m: map<int, Value>) {
    && |ks| == |vs|
    && Sorted(ks)
    && (forall i :: 0 <= i < |ks| ==> ks[i] in m && m[ks[i]] == vs[i])
    && (forall k :: k in m ==> k in ks)
  }

  /** Walking the leaf chain lists exactly the stored pairs, in increasing key order. */
  lemma ChainListsMap(a: Arena, m: map<int, Value>)
    requires Inv(a, Settled) && Stores(a.nodes, m)
    ensures var l := Leaves(a, a.root);
            IsLeafChain(a, l) && Lists(KeysOf(a.nodes, l), ValsOf(a.nodes, l), m)
  {
    LeafChainComplete(a);
    ChainLists(a, Leaves(a, a.root), m);
  }

  lemma ChainLists(a: Arena, l: seq<Ptr>, m: map<int, Value>)
    requires Inv(a, Settled) && Stores(a.nodes, m) && IsLeafChain(a, l) && Adjacent(a, l)
    ensures Lists(KeysOf(a.nodes, l), ValsOf(a.nodes, l), m)
  {
    var ks, vs := KeysOf(a.nodes, l), ValsOf(a.nodes, l);
    AdjacentSorted(a, l);
    forall j | 0 <= j < |l| ensures |a.nodes[l[j]].keys| == |a.nodes[l[j]].vals| {
      assert NodeOk(a, Settled, l[j]);
    }
    forall i | 0 <= i < |ks| ensures ks[i] in m && m[ks[i]] == vs[i] {
      var p, j := EntryOf(a.nodes, l, i);
    }
    forall k | k in m ensures k in ks {
      var p :| LeafHas(a.nodes, p, k);
      assert Live(a, p);
      KeyInKeysOf(a.nodes, l, k);
    }
  }

  // ------------------------------------------------- separators and height

  /** Each separator is the least key of the subtree on its right, and above all keys on its left. */
  lemma SeparatorIsLeast(a: Arena, q: Ptr, i: nat)
    requires Inv(a, Settled) && Live(a, q) && !a.nodes[q].leaf && i < |a.nodes[q].keys|
    ensures |a.nodes[q].kids| == |a.nodes[q].keys| + 1
    ensures Live(a, a.nodes[q].kids[i]) && Live(a, a.nodes[q].kids[i + 1])
    ensures Adjacent(a, Leaves(a, a.nodes[q].kids[i])) && Adjacent(a, Leaves(a, a.nodes[q].kids[i + 1]))
    ensures var right := KeysOf(a.nodes, Leaves(a, a.nodes[q].kids[i + 1]));
            right != [] && right[0] == a.nodes[q].keys[i] && Sorted(right)
    ensures forall k :: k in KeysOf(a.nodes, Leaves(a, a.nodes[q].kids[i])) ==> k < a.nodes[q].keys[i]
  {
    assert NodeOk(a, Settled, q);
    assert KidOk(a, Settled, q, i) && KidOk(a, Settled, q, i + 1);
    var l, r := a.nodes[q].kids[i], a.nodes[q].kids[i + 1];
    LeavesAdjacent(a, l);
    LeavesAdjacent(a, r);
    AdjacentSorted(a, Leaves(a, l));
    AdjacentSorted(a, Leaves(a, r));
    FirstKey(a, Leaves(a, r));
  }

  lemma {:induction false} FirstKey(a: Arena, l: seq<Ptr>)
    requires Inv(a, Settled) && Adjacent(a, l) && l != [] && a.spans[l[0]].lo.Fin?
    ensures KeysOf(a.nodes, l) != [] && KeysOf(a.nodes, l)[0] == a.spans[l[0]].lo.k
  {
    var f := l[..|l| - 1];
    assert NodeOk(a, Settled, l[|l| - 1]);
    if f != [] {
      forall j | 0 <= j < |f| - 1 ensures a.spans[f[j]].hi == a.spans[f[j + 1]].lo && a.spans[f[j]].hi.Fin? {
        assert f[j] == l[j] && f[j + 1] == l[j + 1];
      }
      FirstKey(a, f);
    }
  }

  ghost function Pow2(n: nat): nat {
    if n == 0 then 1 else 2 * Pow2(n - 1)
  }

  lemma KeysOfLast(nodes: seq<NodeView>, l: seq<Ptr>)
    requires Within(l, |nodes|) && l != []
    ensures KeysOf(nodes, l) == KeysOf(nodes, l[..|l| - 1]) + nodes[l[|l| - 1]].keys
  {
  }

  lemma {:induction false} KeysOfConcat(nodes: seq<NodeView>, l: seq<Ptr>, r: seq<Ptr>)
    requires Within(l, |nodes|)
    requires Within(r, |nodes|)
    ensures Within(l + r, |nodes|)
    ensures KeysOf(nodes, l + r) == KeysOf(nodes, l) + KeysOf(nodes, r)
  {
    if r == [] {
      assert l + r == l;
    } else {
      hide KeysOf;
      var f := r[..|r| - 1];
      KeysOfConcat(nodes, l, f);
      KeysOfLast(nodes, r);
      assert (l + r)[..|l + r| - 1] == l + f;
      assert (l + r)[|l + r| - 1] == r[|r| - 1];
      KeysOfLast(nodes, l + r);
    }
  }

  /** An inner node's leaves begin with those of its first two children. */
  lemma FirstTwoKids(a: Arena, p: Ptr) returns (rest: seq<Ptr>)
    requires Inv(a, Settled) && Live(a, p) && !a.nodes[p].leaf
    ensures |a.nodes[p].kids| >= 2 && Live(a, a.nodes[p].kids[0]) && Live(a, a.nodes[p].kids[1])
    ensures Leaves(a, p) == (Leaves(a, a.nodes[p].kids[0]) + Leaves(a, a.nodes[p].kids[1])) + rest
  {
    assert NodeOk(a, Settled, p);
    assert KidOk(a, Settled, p, 0) && KidOk(a, Settled, p, 1);
    var n := |a.nodes[p].kids|;
    var l0, l1 := Leaves(a, a.nodes[p].kids[0]), Leaves(a, a.nodes[p].kids[1]);
    assert LeavesBelow(a, p, 0) == [];
    assert LeavesBelow(a, p, 1) == l0;
    assert LeavesBelow(a, p, 2) == l0 + l1;
    BelowMonotone(a, p, 2, n);
    rest := LeavesBelow(a, p, n)[|l0 + l1|..];
  }

  lemma KeysOfThree(nodes: seq<NodeView>, l: seq<Ptr>, r: seq<Ptr>, rest: seq<Ptr>)
    requires Within(l + r + rest, |nodes|)
    requires Within(l, |nodes|)
    requires Within(r, |nodes|)
    ensures |KeysOf(nodes, l + r + rest)| >= |KeysOf(nodes, l)| + |KeysOf(nodes, r)|
  {
    assert forall j :: 0 <= j < |rest| ==> rest[j] == (l + r + rest)[|l + r| + j];
    KeysOfConcat(nodes, l, r);
    KeysOfConcat(nodes, l + r, rest);
  }

  lemma InnerSize(a: Arena, p: Ptr, n: nat)
    requires Inv(a, Settled) && Live(a, p) && !a.nodes[p].leaf && |a.nodes[p].kids| >= 2
    requires Live(a, a.nodes[p].kids[0]) && Live(a, a.nodes[p].kids[1]) && Adjacent(a, Leaves(a, p))
    requires Adjacent(a, Leaves(a, a.nodes[p].kids[0])) && |KeysOf(a.nodes, Leaves(a, a.nodes[p].kids[0]))| >= n
    requires Adjacent(a, Leaves(a, a.nodes[p].kids[1])) && |KeysOf(a.nodes, Leaves(a, a.nodes[p].kids[1]))| >= n
    ensures |KeysOf(a.nodes, Leaves(a, p))| >= 2 * n
  {
    var rest := FirstTwoKids(a, p);
    KeysOfThree(a.nodes, Leaves(a, a.nodes[p].kids[0]), Leaves(a, a.nodes[p].kids[1]), rest);
  }

  /** A subtree of height h below the root holds at least 2^(h+1) keys. */
  lemma {:induction false} SubtreeSize(a: Arena, p: Ptr)
    requires Inv(a, Settled) && Live(a, p) && (p != a.root || !a.nodes[p].leaf)
    ensures Adjacent(a, Leaves(a, p)) && |KeysOf(a.nodes, Leaves(a, p))| >= Pow2(a.spans[p].height + 1)
    decreases a.spans[p].height
  {
    assert NodeOk(a, Settled, p);
    LeavesAdjacent(a, p);
    if a.nodes[p].leaf {
      assert KeysOf(a.nodes, [p]) == KeysOf(a.nodes, []) + a.nodes[p].keys;
    } else {
      assert KidOk(a, Settled, p, 0) && KidOk(a, Settled, p, 1);
      hide Leaves, KeysOf, Adjacent;
      SubtreeSize(a, a.nodes[p].kids[0]);
      SubtreeSize(a, a.nodes[p].kids[1]);
      InnerSize(a, p, Pow2(a.spans[p].height));
    }
  }

  /** A tree with h >= 1 internal levels holds at least 2^(h+1) keys. */
  lemma HeightIsLogarithmic(a: Arena, m: map<int, Value>)
    requires Inv(a, Settled) && Stores(a.nodes, m) && a.spans[a.root].height >= 1
    ensures |m| >= Pow2(a.spans[a.root].height + 1)
  {
    assert NodeOk(a, Settled, a.root);
    SubtreeSize(a, a.root);
    ChainListsMap(a, m);
    SortedSize(KeysOf(a.nodes, Leaves(a, a.root)), m.Keys);
  }

  lemma {:induction false} SortedSize(ks: seq<int>, s: set<int>)
    requires Sorted(ks) && forall k :: k in ks ==> k in s
    ensures |ks| <= |s|
  {
    if ks != [] {
      var k := ks[|ks| - 1];
      SortedSize(ks[..|ks| - 1], s - {k});
    }
  }

  /** How many parent links lead from p to the root. */
  ghost function Depth(a: Arena, p: Ptr): (d: nat)
    requires Inv(a, Settled) && Live(a, p)
    decreases a.spans[a.root].height - a.spans[p].height
  {
    assert NodeOk(a, Settled, p);
    if p == a.root then 0 else
    var q := a.nodes[p].parent;
    assert NodeOk(a, Settled, q);
    var i :| 0 <= i < |a.nodes[q].kids| && a.nodes[q].kids[i] == p;
    assert KidOk(a, Settled, q, i);
    1 + Depth(a, q)
  }

  lemma {:induction false} DepthPlusHeight(a: Arena, p: Ptr)
    requires Inv(a, Settled) && Live(a, p)
    ensures Depth(a, p) + a.spans[p].height == a.spans[a.root].height
    decreases a.spans[a.root].height - a.spans[p].height
  {
    assert NodeOk(a, Settled, p);
    if p != a.root {
      var q := a.nodes[p].parent;
      assert NodeOk(a, Settled, q);
      var i :| 0 <= i < |a.nodes[q].kids| && a.nodes[q].kids[i] == p;
      assert KidOk(a, Settled, q, i);
      DepthPlusHeight(a, q);
    }
  }

  /** All leaves are equally deep. */
  lemma LeavesEquallyDeep(a: Arena, p: Ptr, q: Ptr)
    requires Inv(a, Settled) && Live(a, p) && Live(a, q) && a.nodes[p].leaf && a.nodes[q].leaf
    ensures Depth(a, p) == Depth(a, q)
  {
    assert NodeOk(a, Settled, p) && NodeOk(a, Settled, q);
    DepthPlusHeight(a, p);
    DepthPlusHeight(a, q);
  }

  /** Sorted keys, occupancy, and parent links inverse to child links, for every pair of nodes. */
  lemma NodesWellFormed(a: Arena, p: Ptr, q: Ptr)
    requires Inv(a, Settled) && Live(a, p) && Live(a, q)
    ensures Sorted(a.nodes[p].keys) && |a.nodes[p].keys| <= 3
    ensures if a.nodes[p].leaf then (p == a.root ==> |a.nodes[p].keys| >= 1) && (p != a.root ==> |a.nodes[p].keys| >= 2)
            else |a.nodes[p].keys| >= 1 && |a.nodes[p].kids| == |a.nodes[p].keys| + 1
    ensures p in a.nodes[q].kids <==> p != a.root && a.nodes[p].parent == q
    ensures p == a.root <==> a.nodes[p].parent == NULL
  {
    assert NodeOk(a, Settled, p) && NodeOk(a, Settled, q);
    if p in a.nodes[q].kids {
      var i :| 0 <= i < |a.nodes[q].kids| && a.nodes[q].kids[i] == p;
      assert KidOk(a, Settled, q, i);
    }
  }
}
