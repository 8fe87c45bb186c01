/**
 The id index as a running SELECT reads it: one node or one slot per step, from
 an arena that may be anything at all while an INSERT is at work on it.  On a
 tree at rest no step reads outside the arena, and the records collected in the
 end are those that a scan of the rows would have found.
 */
module IndexRead {
  import opened Records
  import opened TreeShape
  import opened TreeOrder
  import opened BPlusTree
  import opened LeafWalk
  import opened Users

  /** The index in memory. */
  datatype Index = Index(nodes: seq<Node>, root: Ptr)

  /** How far a reader has got; `index` is the slot of the node it looks at next. */
  datatype Stage =
    | Start
    | Down(node: Ptr, index: nat)
    | Look(leaf: Ptr, index: nat)
    | Seek(leaf: Ptr, index: nat)
    | Skip(leaf: Ptr, index: nat)
    | Collect(leaf: Ptr, index: nat, found: seq<Ref>)
    | DownFirst(node: Ptr)
    | Take(leaf: Ptr, index: nat, found: seq<Ref>)
    | Finished(found: seq<Ref>)
    | Crash

  /** The node a stage is about to read, if it reads one. */
  function Reads(stage: Stage): Ptr {
    match stage
    case Down(p, _) => p
    case Look(p, _) => p
    case Seek(p, _) => p
    case Skip(p, _) => p
    case Collect(p, _, _) => p
    case DownFirst(p) => p
    case Take(p, _, _) => p
    case _ => NULL
  }

  predicate Readable(ix: Index, p: Ptr) {
    0 <= p < |ix.nodes|
  }

  /** One step of a query by id: a read of one slot, or a move to another node. */
  function Next(ix: Index, op: Comparison, id: int, stage: Stage): Stage {
    if stage == Start then
      if ix.root == NULL then Finished([])
      else if op == Lt || op == Le then DownFirst(ix.root)
      else Down(ix.root, 0)
    else if stage.Finished? then stage
    else if Reads(stage) == NULL then PastEnd(stage)
    else if Readable(ix, Reads(stage)) then Visit(ix.nodes[Reads(stage)], op, id, stage)
    else Crash
  }

  /** The end of the leaf chain ends the query; anywhere else NULL is no node. */
  function PastEnd(stage: Stage): Stage {
    match stage
    case Skip(_, _) => Finished([])
    case Collect(_, _, found) => Finished(found)
    case Take(_, _, found) => Finished(found)
    case _ => Crash
  }

  /** A step that reads the node n. */
  function Visit(n: Node, op: Comparison, id: int, stage: Stage): Stage {
    match stage
    case Down(p, i) =>
      if n.isLeaf then (if op == Eq then Look(p, 0) else Seek(p, 0))
      else if i < n.numKeys && id >= n.keys[i] then Down(p, i + 1)
      else if i < ORDER then Down(n.children[i], 0)
      else Crash
    case Look(p, i) =>
      if i >= n.numKeys then Finished([])
      else if n.keys[i] != id then Look(p, i + 1)
      else Finished(if n.values[i] == NULL then [] else [n.values[i]])
    case Seek(p, i) =>
      if i < n.numKeys && n.keys[i] < id then Seek(p, i + 1) else Skip(p, i)
    case Skip(p, i) =>
      if i >= n.numKeys then Skip(n.next, 0)
      else if op == Gt && n.keys[i] <= id then Skip(p, i + 1)
      else Collect(p, i, [])
    case Collect(p, i, found) =>
      if i < n.numKeys then Collect(p, i + 1, found + [n.values[i]]) else Collect(n.next, 0, found)
    case DownFirst(p) =>
      if n.isLeaf then Take(p, 0, []) else DownFirst(n.children[0])
    case Take(p, i, found) =>
      if i >= n.numKeys then Take(n.next, 0, found)
      else if !Compare(n.keys[i], op, id) then Finished(found)
      else Take(p, i + 1, found + [n.values[i]])
    case _ => Crash
  }

  // ------------------------------------------------------------- a tree at rest

  ghost function ArenaOf(ix: Index, spans: seq<Span>): Arena {
    Arena(Views(ix.nodes), ix.root, spans)
  }

  /** At rest: empty, or a whole tree that stores m. */
  ghost predicate TreeOf(ix: Index, spans: seq<Span>, m: map<int, Value>) {
    if ix.root == NULL then ix.nodes == [] && m == map[]
    else Inv(ArenaOf(ix, spans), Settled) && Stores(Views(ix.nodes), m)
  }

  ghost predicate Holding(ix: Index, m: map<int, Value>) {
    exists spans :: TreeOf(ix, spans, m)
  }

  /** The tree seen as a whole: its spans, and the walk through its leaves. */
  datatype Sight = Sight(spans: seq<Span>, walk: Walk)

  ghost predicate Sees(ix: Index, v: Sight, m: map<int, Value>) {
    && ix.root != NULL
    && Inv(ArenaOf(ix, v.spans), Settled) && Stores(Views(ix.nodes), m)
    && IsLeafChain(ArenaOf(ix, v.spans), v.walk.leaves) && Adjacent(ArenaOf(ix, v.spans), v.walk.leaves)
    && Walks(ix.nodes, v.walk) && Lists(v.walk.ks, v.walk.vs, m)
  }

  lemma SeesTree(ix: Index, spans: seq<Span>, m: map<int, Value>) returns (v: Sight)
    requires TreeOf(ix, spans, m) && ix.root != NULL
    ensures Sees(ix, v, m)
  {
    var w := TreeWalk(ix.nodes, ArenaOf(ix, spans), m);
    v := Sight(spans, w);
  }

  /** An arena holds one map only. */
  lemma HoldsOne(ix: Index, m: map<int, Value>, m': map<int, Value>)
    requires Holding(ix, m) && Holding(ix, m')
    ensures m == m'
  {
    var spans :| TreeOf(ix, spans, m);
    var spans' :| TreeOf(ix, spans', m');
    if ix.root != NULL {
      StoredIn(ArenaOf(ix, spans), m, m');
      StoredIn(ArenaOf(ix, spans), m', m);
      assert forall k :: k in m <==> k in m';
      assert forall k :: k in m ==> m[k] == m'[k];
    }
  }

  lemma StoredIn(a: Arena, m: map<int, Value>, m': map<int, Value>)
    requires Inv(a, Settled) && Stores(a.nodes, m) && Stores(a.nodes, m')
    ensures forall k :: k in m ==> k in m' && m'[k] == m[k]
  {
    forall k | k in m ensures k in m' && m'[k] == m[k] {
      var p :| LeafHas(a.nodes, p, k);
      assert NodeOk(a, Settled, p);
      var i :| 0 <= i < |a.nodes[p].keys| && a.nodes[p].keys[i] == k;
      assert a.nodes[p].keys[i] in m';
    }
  }

  // -------------------------------------------------------------- what a stage knows

  /** The leaf responsible for id, scanned up to a slot. */
  ghost predicate InLeaf(ix: Index, v: Sight, id: int, p: Ptr, i: nat) {
    && Readable(ix, p) && p < |v.spans| && ix.nodes[p].isLeaf && InSpan(id, v.spans[p])
    && i <= ix.nodes[p].numKeys
  }

  predicate Stands(ix: Index, p: Ptr, i: nat) {
    if p == NULL then i == 0 else Readable(ix, p) && i <= ix.nodes[p].numKeys
  }

  /** Position i of leaf j of the walk. */
  ghost predicate Standing(ix: Index, v: Sight, j: nat, p: Ptr, i: nat) {
    && At(ix.nodes, v.walk, j, p) && Stands(ix, p, i)
    && v.walk.start[j] + i <= |v.walk.ks| == |v.walk.vs|
  }

  /** The first key that a query for larger ids wants. */
  function Lowest(op: Comparison, id: int): int {
    if op == Gt then id + 1 else id
  }

  ghost predicate SkipOk(ix: Index, v: Sight, op: Comparison, id: int, j: nat, p: Ptr, i: nat) {
    && Standing(ix, v, j, p, i)
    && (forall k :: 0 <= k < v.walk.start[j] + i ==> v.walk.ks[k] < Lowest(op, id))
    && (op == Ge ==> CutsAt(v.walk.ks, v.walk.start[j] + i, id))
  }

  ghost predicate CollectOk(ix: Index, v: Sight, op: Comparison, id: int, j: nat, p: Ptr, i: nat, found: seq<Ref>,
      cut: nat) {
    && Standing(ix, v, j, p, i)
    && CutsAt(v.walk.ks, cut, Lowest(op, id))
    && cut <= v.walk.start[j] + i && found == v.walk.vs[cut..v.walk.start[j] + i]
  }

  ghost predicate TakeOk(ix: Index, v: Sight, op: Comparison, id: int, j: nat, p: Ptr, i: nat, found: seq<Ref>) {
    && Standing(ix, v, j, p, i)
    && found == v.walk.vs[..v.walk.start[j] + i]
    && forall k :: 0 <= k < v.walk.start[j] + i ==> Compare(v.walk.ks[k], op, id)
  }

  /** found is exactly what the walk holds for the comparison. */
  ghost predicate Chosen(w: Walk, m: map<int, Value>, op: Comparison, id: int, found: seq<Ref>) {
    match op
    case Eq => found == if id in m && m[id] != NULL then [m[id]] else []
    case Gt => exists cut: nat :: CutsAt(w.ks, cut, id + 1) && cut <= |w.vs| && found == w.vs[cut..]
    case Ge => exists cut: nat :: CutsAt(w.ks, cut, id) && cut <= |w.vs| && found == w.vs[cut..]
    case _ => exists cut: nat :: Prefix(w, op, id, cut) && found == w.vs[..cut]
  }

  ghost predicate Prefix(w: Walk, op: Comparison, id: int, cut: nat) {
    && cut <= |w.ks| == |w.vs|
    && (forall k :: 0 <= k < cut ==> Compare(w.ks[k], op, id))
    && (cut < |w.ks| ==> !Compare(w.ks[cut], op, id))
  }

  ghost predicate StageOk(ix: Index, v: Sight, m: map<int, Value>, op: Comparison, id: int, stage: Stage) {
    match stage
    case Start => true
    case Down(p, i) =>
      && op != Lt && op != Le
      && Live(ArenaOf(ix, v.spans), p) && InSpan(id, v.spans[p])
      && i <= ix.nodes[p].numKeys && forall k :: 0 <= k < i ==> ix.nodes[p].keys[k] <= id
    case Look(p, i) =>
      op == Eq && InLeaf(ix, v, id, p, i) && forall k :: 0 <= k < i ==> ix.nodes[p].keys[k] != id
    case Seek(p, i) =>
      (op == Gt || op == Ge) && InLeaf(ix, v, id, p, i) && forall k :: 0 <= k < i ==> ix.nodes[p].keys[k] < id
    case Skip(p, i) =>
      (op == Gt || op == Ge) && exists j: nat :: SkipOk(ix, v, op, id, j, p, i)
    case Collect(p, i, found) =>
      (op == Gt || op == Ge) && exists j: nat, cut: nat :: CollectOk(ix, v, op, id, j, p, i, found, cut)
    case DownFirst(p) =>
      (op == Lt || op == Le) && Live(ArenaOf(ix, v.spans), p) && v.spans[p].lo == NegInf
    case Take(p, i, found) =>
      (op == Lt || op == Le) && exists j: nat :: TakeOk(ix, v, op, id, j, p, i, found)
    case Finished(found) => Chosen(v.walk, m, op, id, found)
    case Crash => false
  }

  // ------------------------------------------------------------ every step keeps it

  lemma StartStep(ix: Index, v: Sight, m: map<int, Value>, op: Comparison, id: int)
    requires Sees(ix, v, m)
    ensures StageOk(ix, v, m, op, id, Next(ix, op, id, Start))
  {
    assert NodeOk(ArenaOf(ix, v.spans), Settled, ix.root);
  }

  /** The child that the comparison leads to answers for id too. */
  lemma ChildSpan(ix: Index, v: Sight, m: map<int, Value>, id: int, p: Ptr, i: nat)
    requires Sees(ix, v, m) && Live(ArenaOf(ix, v.spans), p) && InSpan(id, v.spans[p]) && !ix.nodes[p].isLeaf
    requires i <= ix.nodes[p].numKeys && forall k :: 0 <= k < i ==> ix.nodes[p].keys[k] <= id
    requires i < ix.nodes[p].numKeys ==> id < ix.nodes[p].keys[i]
    ensures var c := ix.nodes[p].children[i];
            Live(ArenaOf(ix, v.spans), c) && InSpan(id, v.spans[c]) && v.spans[c].height < v.spans[p].height
  {
    var a := ArenaOf(ix, v.spans);
    assert a.nodes[p] == View(ix.nodes[p]);
    DownSpan(a, p, i, id);
  }

  lemma DownStep(ix: Index, v: Sight, m: map<int, Value>, op: Comparison, id: int, p: Ptr, i: nat)
    requires Sees(ix, v, m) && StageOk(ix, v, m, op, id, Down(p, i))
    ensures StageOk(ix, v, m, op, id, Next(ix, op, id, Down(p, i)))
  {
    hide Sees, InSpan;
    var n := ix.nodes[p];
    if !n.isLeaf && !(i < n.numKeys && id >= n.keys[i]) {
      ChildSpan(ix, v, m, id, p, i);
    }
  }

  lemma FirstChild(ix: Index, v: Sight, m: map<int, Value>, p: Ptr)
    requires Sees(ix, v, m) && Live(ArenaOf(ix, v.spans), p) && v.spans[p].lo == NegInf && !ix.nodes[p].isLeaf
    ensures var c := ix.nodes[p].children[0];
            Live(ArenaOf(ix, v.spans), c) && v.spans[c].lo == NegInf && v.spans[c].height < v.spans[p].height
  {
    var a := ArenaOf(ix, v.spans);
    assert a.nodes[p] == View(ix.nodes[p]) && NodeOk(a, Settled, p);
    assert KidOk(a, Settled, p, 0);
  }

  lemma FirstLeaf(ix: Index, v: Sight, m: map<int, Value>, op: Comparison, id: int, p: Ptr)
    requires Sees(ix, v, m) && Live(ArenaOf(ix, v.spans), p) && v.spans[p].lo == NegInf && ix.nodes[p].isLeaf
    ensures TakeOk(ix, v, op, id, 0, p, 0, [])
  {
    var a := ArenaOf(ix, v.spans);
    assert a.nodes[p] == View(ix.nodes[p]);
    LeftmostIsFirst(a, v.walk.leaves, p);
    assert WalkStep(ix.nodes, v.walk, 0) && WalkStep(ix.nodes, v.walk, |v.walk.leaves| - 1);
  }

  lemma DownFirstStep(ix: Index, v: Sight, m: map<int, Value>, op: Comparison, id: int, p: Ptr)
    requires Sees(ix, v, m) && StageOk(ix, v, m, op, id, DownFirst(p))
    ensures StageOk(ix, v, m, op, id, Next(ix, op, id, DownFirst(p)))
  {
    hide Sees, TakeOk;
    if ix.nodes[p].isLeaf {
      FirstLeaf(ix, v, m, op, id, p);
    } else {
      FirstChild(ix, v, m, p);
    }
  }

  /** The leaf responsible for id answers for the whole map. */
  lemma LeafAnswers(ix: Index, v: Sight, m: map<int, Value>, id: int, p: Ptr)
    requires Sees(ix, v, m) && InLeaf(ix, v, id, p, 0)
    ensures forall i :: 0 <= i < ix.nodes[p].numKeys && ix.nodes[p].keys[i] == id ==>
            id in m && m[id] == ix.nodes[p].values[i]
    ensures id in m ==> exists i :: 0 <= i < ix.nodes[p].numKeys && ix.nodes[p].keys[i] == id
  {
    var a, n := ArenaOf(ix, v.spans), ix.nodes[p];
    assert a.nodes[p] == View(n);
    LeafDecides(a, p, id, m);
    FoundEntries(n, a.nodes[p], id, m);
  }

  lemma LookStep(ix: Index, v: Sight, m: map<int, Value>, op: Comparison, id: int, p: Ptr, i: nat)
    requires Sees(ix, v, m) && StageOk(ix, v, m, op, id, Look(p, i))
    ensures StageOk(ix, v, m, op, id, Next(ix, op, id, Look(p, i)))
  {
    hide Sees;
    LeafAnswers(ix, v, m, id, p);
  }

  /** The slot found in the responsible leaf is where the walk passes id. */
  lemma SeekEnds(ix: Index, v: Sight, m: map<int, Value>, op: Comparison, id: int, p: Ptr, i: nat) returns (j: nat)
    requires Sees(ix, v, m) && InLeaf(ix, v, id, p, i) && (op == Gt || op == Ge)
    requires forall k :: 0 <= k < i ==> ix.nodes[p].keys[k] < id
    requires i < ix.nodes[p].numKeys ==> id <= ix.nodes[p].keys[i]
    ensures SkipOk(ix, v, op, id, j, p, i)
  {
    hide Sees, At, CutsAt, InSpan;
    j := LeafAt(ix, v, m, id, p);
    CutAt(ix, v, m, id, j, i);
    CutBelow(v.walk.ks, v.walk.start[j] + i, id, Lowest(op, id));
  }

  lemma CutBelow(ks: seq<int>, cut: nat, id: int, lowest: int)
    requires CutsAt(ks, cut, id) && id <= lowest
    ensures forall k :: 0 <= k < cut ==> ks[k] < lowest
  {
  }

  lemma CutAt(ix: Index, v: Sight, m: map<int, Value>, id: int, j: nat, i: nat)
    requires Sees(ix, v, m) && j < |v.walk.leaves| && InLeaf(ix, v, id, v.walk.leaves[j], i)
    requires forall k :: 0 <= k < i ==> ix.nodes[v.walk.leaves[j]].keys[k] < id
    requires i < ix.nodes[v.walk.leaves[j]].numKeys ==> id <= ix.nodes[v.walk.leaves[j]].keys[i]
    ensures j < |v.walk.start| && CutsAt(v.walk.ks, v.walk.start[j] + i, id)
  {
    LeafCut(ix.nodes, ArenaOf(ix, v.spans), v.walk, j, id, i);
  }

  lemma LeafAt(ix: Index, v: Sight, m: map<int, Value>, id: int, p: Ptr) returns (j: nat)
    requires Sees(ix, v, m) && InLeaf(ix, v, id, p, 0)
    ensures At(ix.nodes, v.walk, j, p) && j < |v.walk.leaves| && v.walk.leaves[j] == p
    ensures v.walk.start[j] + ix.nodes[p].numKeys <= |v.walk.ks| == |v.walk.vs|
  {
    var a := ArenaOf(ix, v.spans);
    assert a.nodes[p] == View(ix.nodes[p]);
    j := LeafPosition(a, v.walk, ix.nodes, p);
    AtNext(ix.nodes, v.walk, j, p);
  }

  lemma SeekStep(ix: Index, v: Sight, m: map<int, Value>, op: Comparison, id: int, p: Ptr, i: nat)
    requires Sees(ix, v, m) && StageOk(ix, v, m, op, id, Seek(p, i))
    ensures StageOk(ix, v, m, op, id, Next(ix, op, id, Seek(p, i)))
  {
    hide Sees, SkipOk;
    var n := ix.nodes[p];
    if !(i < n.numKeys && n.keys[i] < id) {
      var j := SeekEnds(ix, v, m, op, id, p, i);
    }
  }

  /** A slot of a leaf in the walk is an entry of the walk. */
  lemma SlotRead(ix: Index, v: Sight, j: nat, p: Ptr, i: nat)
    requires Standing(ix, v, j, p, i) && p != NULL && i < ix.nodes[p].numKeys
    ensures Standing(ix, v, j, p, i + 1)
    ensures ix.nodes[p].keys[i] == v.walk.ks[v.walk.start[j] + i] &&
            ix.nodes[p].values[i] == v.walk.vs[v.walk.start[j] + i]
  {
    AtNext(ix.nodes, v.walk, j, p);
  }

  /** The end of one leaf is the start of the next. */
  lemma LeafLeft(ix: Index, v: Sight, j: nat, p: Ptr)
    requires p != NULL && Readable(ix, p) && Standing(ix, v, j, p, ix.nodes[p].numKeys)
    ensures Standing(ix, v, j + 1, ix.nodes[p].next, 0)
    ensures v.walk.start[j + 1] == v.walk.start[j] + ix.nodes[p].numKeys
  {
    AtNext(ix.nodes, v.walk, j, p);
  }

  lemma WalkOver(ix: Index, v: Sight, j: nat)
    requires Standing(ix, v, j, NULL, 0)
    ensures j < |v.walk.start| && v.walk.start[j] == |v.walk.ks| == |v.walk.vs|
  {
    AtEnd(ix.nodes, v.walk, j, NULL);
  }

  lemma SkipOver(ix: Index, v: Sight, m: map<int, Value>, op: Comparison, id: int, j: nat)
    requires SkipOk(ix, v, op, id, j, NULL, 0) && (op == Gt || op == Ge)
    ensures Chosen(v.walk, m, op, id, [])
  {
    WalkOver(ix, v, j);
    assert CutsAt(v.walk.ks, |v.walk.ks|, Lowest(op, id)) && v.walk.vs[|v.walk.vs|..] == [];
  }

  lemma SkipLeaf(ix: Index, v: Sight, op: Comparison, id: int, j: nat, p: Ptr, i: nat)
    requires p != NULL && SkipOk(ix, v, op, id, j, p, i) && i >= ix.nodes[p].numKeys
    ensures SkipOk(ix, v, op, id, j + 1, ix.nodes[p].next, 0)
  {
    LeafLeft(ix, v, j, p);
    hide At;
  }

  lemma SkipSlot(ix: Index, v: Sight, id: int, j: nat, p: Ptr, i: nat)
    requires p != NULL && SkipOk(ix, v, Gt, id, j, p, i) && i < ix.nodes[p].numKeys && ix.nodes[p].keys[i] <= id
    ensures SkipOk(ix, v, Gt, id, j, p, i + 1)
  {
    SlotRead(ix, v, j, p, i);
    hide At;
  }

  lemma SkipEnds(ix: Index, v: Sight, op: Comparison, id: int, j: nat, p: Ptr, i: nat) returns (cut: nat)
    requires p != NULL && SkipOk(ix, v, op, id, j, p, i) && i < ix.nodes[p].numKeys
    requires op == Ge || (op == Gt && ix.nodes[p].keys[i] > id)
    ensures CollectOk(ix, v, op, id, j, p, i, [], cut)
  {
    SlotRead(ix, v, j, p, i);
    cut := v.walk.start[j] + i;
    assert Sorted(v.walk.ks);
    hide At;
    assert CutsAt(v.walk.ks, cut, Lowest(op, id));
    assert v.walk.vs[cut..cut] == [];
  }

  lemma SkipFrom(ix: Index, v: Sight, m: map<int, Value>, op: Comparison, id: int, j: nat, p: Ptr, i: nat)
    requires SkipOk(ix, v, op, id, j, p, i) && Stands(ix, p, i) && (op == Gt || op == Ge)
    ensures StageOk(ix, v, m, op, id, Next(ix, op, id, Skip(p, i)))
  {
    hide SkipOk, CollectOk, Chosen;
    if p == NULL {
      SkipOver(ix, v, m, op, id, j);
    } else if i >= ix.nodes[p].numKeys {
      SkipLeaf(ix, v, op, id, j, p, i);
    } else if op == Gt && ix.nodes[p].keys[i] <= id {
      SkipSlot(ix, v, id, j, p, i);
    } else {
      var cut := SkipEnds(ix, v, op, id, j, p, i);
      assert Next(ix, op, id, Skip(p, i)) == Collect(p, i, []);
    }
  }

  lemma CollectOver(ix: Index, v: Sight, m: map<int, Value>, op: Comparison, id: int, j: nat, found: seq<Ref>, cut: nat)
    requires CollectOk(ix, v, op, id, j, NULL, 0, found, cut) && (op == Gt || op == Ge)
    ensures Chosen(v.walk, m, op, id, found)
  {
    WalkOver(ix, v, j);
    assert found == v.walk.vs[cut..];
  }

  lemma CollectLeaf(ix: Index, v: Sight, op: Comparison, id: int, j: nat, p: Ptr, i: nat, found: seq<Ref>, cut: nat)
    requires p != NULL && CollectOk(ix, v, op, id, j, p, i, found, cut) && i >= ix.nodes[p].numKeys
    ensures CollectOk(ix, v, op, id, j + 1, ix.nodes[p].next, 0, found, cut)
  {
    LeafLeft(ix, v, j, p);
    hide At;
  }

  lemma CollectSlot(ix: Index, v: Sight, op: Comparison, id: int, j: nat, p: Ptr, i: nat, found: seq<Ref>, cut: nat)
    requires p != NULL && CollectOk(ix, v, op, id, j, p, i, found, cut) && i < ix.nodes[p].numKeys
    ensures CollectOk(ix, v, op, id, j, p, i + 1, found + [ix.nodes[p].values[i]], cut)
  {
    SlotRead(ix, v, j, p, i);
    var o := v.walk.start[j] + i;
    hide At;
    assert v.walk.vs[cut..o + 1] == v.walk.vs[cut..o] + [v.walk.vs[o]];
  }

  lemma CollectFrom(ix: Index, v: Sight, m: map<int, Value>, op: Comparison, id: int, j: nat, p: Ptr, i: nat,
      found: seq<Ref>, cut: nat)
    requires CollectOk(ix, v, op, id, j, p, i, found, cut) && Stands(ix, p, i) && (op == Gt || op == Ge)
    ensures StageOk(ix, v, m, op, id, Next(ix, op, id, Collect(p, i, found)))
  {
    hide CollectOk, Chosen;
    if p == NULL {
      CollectOver(ix, v, m, op, id, j, found, cut);
    } else if i < ix.nodes[p].numKeys {
      CollectSlot(ix, v, op, id, j, p, i, found, cut);
    } else {
      CollectLeaf(ix, v, op, id, j, p, i, found, cut);
    }
  }

  lemma TakeOver(ix: Index, v: Sight, m: map<int, Value>, op: Comparison, id: int, j: nat, found: seq<Ref>)
    requires TakeOk(ix, v, op, id, j, NULL, 0, found) && (op == Lt || op == Le)
    ensures Chosen(v.walk, m, op, id, found)
  {
    WalkOver(ix, v, j);
    assert Prefix(v.walk, op, id, v.walk.start[j]);
  }

  lemma TakeLeaf(ix: Index, v: Sight, op: Comparison, id: int, j: nat, p: Ptr, i: nat, found: seq<Ref>)
    requires p != NULL && TakeOk(ix, v, op, id, j, p, i, found) && i >= ix.nodes[p].numKeys
    ensures TakeOk(ix, v, op, id, j + 1, ix.nodes[p].next, 0, found)
  {
    LeafLeft(ix, v, j, p);
    hide At;
  }

  lemma TakeSlot(ix: Index, v: Sight, op: Comparison, id: int, j: nat, p: Ptr, i: nat, found: seq<Ref>)
    requires p != NULL && TakeOk(ix, v, op, id, j, p, i, found) && i < ix.nodes[p].numKeys
    requires Compare(ix.nodes[p].keys[i], op, id)
    ensures TakeOk(ix, v, op, id, j, p, i + 1, found + [ix.nodes[p].values[i]])
  {
    SlotRead(ix, v, j, p, i);
    var o := v.walk.start[j] + i;
    hide At, Compare;
    assert v.walk.vs[..o + 1] == v.walk.vs[..o] + [v.walk.vs[o]];
  }

  lemma TakeEnds(ix: Index, v: Sight, m: map<int, Value>, op: Comparison, id: int, j: nat, p: Ptr, i: nat,
      found: seq<Ref>)
    requires p != NULL && TakeOk(ix, v, op, id, j, p, i, found) && i < ix.nodes[p].numKeys
    requires !Compare(ix.nodes[p].keys[i], op, id) && (op == Lt || op == Le)
    ensures Chosen(v.walk, m, op, id, found)
  {
    SlotRead(ix, v, j, p, i);
    var o := v.walk.start[j] + i;
    hide At, Compare;
    assert Prefix(v.walk, op, id, o);
  }

  lemma TakeFrom(ix: Index, v: Sight, m: map<int, Value>, op: Comparison, id: int, j: nat, p: Ptr, i: nat,
      found: seq<Ref>)
    requires TakeOk(ix, v, op, id, j, p, i, found) && Stands(ix, p, i) && (op == Lt || op == Le)
    ensures StageOk(ix, v, m, op, id, Next(ix, op, id, Take(p, i, found)))
  {
    hide TakeOk, Chosen, Compare;
    if p == NULL {
      TakeOver(ix, v, m, op, id, j, found);
    } else if i >= ix.nodes[p].numKeys {
      TakeLeaf(ix, v, op, id, j, p, i, found);
    } else if Compare(ix.nodes[p].keys[i], op, id) {
      TakeSlot(ix, v, op, id, j, p, i, found);
    } else {
      TakeEnds(ix, v, m, op, id, j, p, i, found);
    }
  }

  /** A step along the leaf chain. */
  lemma ChainStep(ix: Index, v: Sight, m: map<int, Value>, op: Comparison, id: int, stage: Stage)
    requires StageOk(ix, v, m, op, id, stage) && (stage.Skip? || stage.Collect? || stage.Take?)
    ensures StageOk(ix, v, m, op, id, Next(ix, op, id, stage))
  {
    hide Next;
    match stage {
      case Skip(p, i) =>
        var j: nat :| SkipOk(ix, v, op, id, j, p, i);
        SkipFrom(ix, v, m, op, id, j, p, i);
      case Collect(p, i, found) =>
        var j: nat, cut: nat :| CollectOk(ix, v, op, id, j, p, i, found, cut);
        CollectFrom(ix, v, m, op, id, j, p, i, found, cut);
      case Take(p, i, found) =>
        var j: nat :| TakeOk(ix, v, op, id, j, p, i, found);
        TakeFrom(ix, v, m, op, id, j, p, i, found);
    }
  }

  lemma StageStep(ix: Index, v: Sight, m: map<int, Value>, op: Comparison, id: int, stage: Stage)
    requires Sees(ix, v, m) && StageOk(ix, v, m, op, id, stage)
    ensures StageOk(ix, v, m, op, id, Next(ix, op, id, stage))
  {
    match stage {
      case Start => StartStep(ix, v, m, op, id);
      case Down(p, i) => DownStep(ix, v, m, op, id, p, i);
      case Look(p, i) => LookStep(ix, v, m, op, id, p, i);
      case Seek(p, i) => SeekStep(ix, v, m, op, id, p, i);
      case DownFirst(p) => DownFirstStep(ix, v, m, op, id, p);
      case Finished(_) =>
      case _ => ChainStep(ix, v, m, op, id, stage);
    }
  }

  // ------------------------------------------------------------- every query ends

  /** The stage after n steps. */
  function StageAfter(ix: Index, op: Comparison, id: int, stage: Stage, n: nat): Stage
    decreases n
  {
    if n == 0 then stage else StageAfter(ix, op, id, Next(ix, op, id, stage), n - 1)
  }

  /** Slots left in a node, and one step for leaving it. */
  function SlotsLeft(ix: Index, p: Ptr, i: nat): nat {
    if Readable(ix, p) && i <= ix.nodes[p].numKeys then ix.nodes[p].numKeys - i + 1 else 0
  }

  lemma OneMore(ix: Index, op: Comparison, id: int, stage: Stage, n: nat)
    ensures StageAfter(ix, op, id, stage, n + 1) == StageAfter(ix, op, id, Next(ix, op, id, stage), n)
  {
  }

  lemma ChainPosition(ix: Index, v: Sight, j: nat, p: Ptr, i: nat)
    requires Standing(ix, v, j, p, i)
    ensures j <= |v.walk.leaves| && (p != NULL ==> j < |v.walk.leaves|)
  {
  }

  lemma {:induction false} CollectEnds(ix: Index, v: Sight, op: Comparison, id: int, j: nat, p: Ptr, i: nat,
                                       found: seq<Ref>, cut: nat) returns (n: nat)
    requires CollectOk(ix, v, op, id, j, p, i, found, cut)
    ensures StageAfter(ix, op, id, Collect(p, i, found), n).Finished?
    decreases |v.walk.leaves| - j, SlotsLeft(ix, p, i)
  {
    assert Stands(ix, p, i);
    ChainPosition(ix, v, j, p, i);
    hide CollectOk, StageAfter;
    if p == NULL {
      n := 0;
      Zero(ix, op, id, Next(ix, op, id, Collect(p, i, found)));
    } else if i < ix.nodes[p].numKeys {
      CollectSlot(ix, v, op, id, j, p, i, found, cut);
      n := CollectEnds(ix, v, op, id, j, p, i + 1, found + [ix.nodes[p].values[i]], cut);
    } else {
      CollectLeaf(ix, v, op, id, j, p, i, found, cut);
      n := CollectEnds(ix, v, op, id, j + 1, ix.nodes[p].next, 0, found, cut);
    }
    OneMore(ix, op, id, Collect(p, i, found), n);
    n := n + 1;
  }

  lemma Zero(ix: Index, op: Comparison, id: int, stage: Stage)
    ensures StageAfter(ix, op, id, stage, 0) == stage
  {
  }

  lemma {:induction false} SkipsEnd(ix: Index, v: Sight, op: Comparison, id: int, j: nat, p: Ptr, i: nat)
    returns (n: nat)
    requires SkipOk(ix, v, op, id, j, p, i) && (op == Gt || op == Ge)
    ensures StageAfter(ix, op, id, Skip(p, i), n).Finished?
    decreases |v.walk.leaves| - j, SlotsLeft(ix, p, i)
  {
    assert Stands(ix, p, i);
    ChainPosition(ix, v, j, p, i);
    hide SkipOk, CollectOk, StageAfter;
    if p == NULL {
      n := 0;
      Zero(ix, op, id, Next(ix, op, id, Skip(p, i)));
    } else if i >= ix.nodes[p].numKeys {
      SkipLeaf(ix, v, op, id, j, p, i);
      n := SkipsEnd(ix, v, op, id, j + 1, ix.nodes[p].next, 0);
    } else if op == Gt && ix.nodes[p].keys[i] <= id {
      SkipSlot(ix, v, id, j, p, i);
      n := SkipsEnd(ix, v, op, id, j, p, i + 1);
    } else {
      var cut := SkipEnds(ix, v, op, id, j, p, i);
      n := CollectEnds(ix, v, op, id, j, p, i, [], cut);
    }
    OneMore(ix, op, id, Skip(p, i), n);
    n := n + 1;
  }

  lemma {:induction false} TakesEnd(ix: Index, v: Sight, op: Comparison, id: int, j: nat, p: Ptr, i: nat,
                                    found: seq<Ref>) returns (n: nat)
    requires TakeOk(ix, v, op, id, j, p, i, found)
    ensures StageAfter(ix, op, id, Take(p, i, found), n).Finished?
    decreases |v.walk.leaves| - j, SlotsLeft(ix, p, i)
  {
    assert Stands(ix, p, i);
    ChainPosition(ix, v, j, p, i);
    hide TakeOk, StageAfter, Compare;
    if p == NULL || (i < ix.nodes[p].numKeys && !Compare(ix.nodes[p].keys[i], op, id)) {
      n := 0;
      Zero(ix, op, id, Next(ix, op, id, Take(p, i, found)));
    } else if i >= ix.nodes[p].numKeys {
      TakeLeaf(ix, v, op, id, j, p, i, found);
      n := TakesEnd(ix, v, op, id, j + 1, ix.nodes[p].next, 0, found);
    } else {
      TakeSlot(ix, v, op, id, j, p, i, found);
      n := TakesEnd(ix, v, op, id, j, p, i + 1, found + [ix.nodes[p].values[i]]);
    }
    OneMore(ix, op, id, Take(p, i, found), n);
    n := n + 1;
  }

  lemma {:induction false} LookEnds(ix: Index, op: Comparison, id: int, p: Ptr, i: nat) returns (n: nat)
    requires Readable(ix, p) && i <= ix.nodes[p].numKeys
    ensures StageAfter(ix, op, id, Look(p, i), n).Finished?
    decreases ix.nodes[p].numKeys - i
  {
    if i < ix.nodes[p].numKeys && ix.nodes[p].keys[i] != id {
      n := LookEnds(ix, op, id, p, i + 1);
    } else {
      n := 0;
      Zero(ix, op, id, Next(ix, op, id, Look(p, i)));
    }
    OneMore(ix, op, id, Look(p, i), n);
    n := n + 1;
  }

  lemma {:induction false} SeeksEnd(ix: Index, v: Sight, m: map<int, Value>, op: Comparison, id: int, p: Ptr, i: nat)
    returns (n: nat)
    requires Sees(ix, v, m) && StageOk(ix, v, m, op, id, Seek(p, i))
    ensures StageAfter(ix, op, id, Seek(p, i), n).Finished?
    decreases ix.nodes[p].numKeys - i
  {
    hide Sees, SkipOk, StageAfter;
    if i < ix.nodes[p].numKeys && ix.nodes[p].keys[i] < id {
      n := SeeksEnd(ix, v, m, op, id, p, i + 1);
    } else {
      var j := SeekEnds(ix, v, m, op, id, p, i);
      n := SkipsEnd(ix, v, op, id, j, p, i);
    }
    OneMore(ix, op, id, Seek(p, i), n);
    n := n + 1;
  }

  lemma {:induction false} DownEnds(ix: Index, v: Sight, m: map<int, Value>, op: Comparison, id: int, p: Ptr, i: nat)
    returns (n: nat)
    requires Sees(ix, v, m) && StageOk(ix, v, m, op, id, Down(p, i))
    ensures StageAfter(ix, op, id, Down(p, i), n).Finished?
    decreases v.spans[p].height, ix.nodes[p].numKeys - i
  {
    hide Sees, InSpan, StageAfter;
    var x := ix.nodes[p];
    if x.isLeaf {
      if op == Eq {
        n := LookEnds(ix, op, id, p, 0);
      } else {
        n := SeeksEnd(ix, v, m, op, id, p, 0);
      }
    } else if i < x.numKeys && id >= x.keys[i] {
      n := DownEnds(ix, v, m, op, id, p, i + 1);
    } else {
      ChildSpan(ix, v, m, id, p, i);
      n := DownEnds(ix, v, m, op, id, x.children[i], 0);
    }
    OneMore(ix, op, id, Down(p, i), n);
    n := n + 1;
  }

  lemma {:induction false} DownFirstEnds(ix: Index, v: Sight, m: map<int, Value>, op: Comparison, id: int, p: Ptr)
    returns (n: nat)
    requires Sees(ix, v, m) && StageOk(ix, v, m, op, id, DownFirst(p))
    ensures StageAfter(ix, op, id, DownFirst(p), n).Finished?
    decreases v.spans[p].height
  {
    hide Sees, TakeOk, StageAfter;
    if ix.nodes[p].isLeaf {
      FirstLeaf(ix, v, m, op, id, p);
      n := TakesEnd(ix, v, op, id, 0, p, 0, []);
    } else {
      FirstChild(ix, v, m, p);
      n := DownFirstEnds(ix, v, m, op, id, ix.nodes[p].children[0]);
    }
    OneMore(ix, op, id, DownFirst(p), n);
    n := n + 1;
  }

  /** From every stage a query on a tree at rest comes to its end. */
  lemma StageEnds(ix: Index, v: Sight, m: map<int, Value>, op: Comparison, id: int, stage: Stage) returns (n: nat)
    requires Sees(ix, v, m) && StageOk(ix, v, m, op, id, stage)
    ensures StageAfter(ix, op, id, stage, n).Finished?
  {
    assert ix.root != NULL;
    hide Sees, StageAfter;
    match stage {
      case Start =>
        StartStep(ix, v, m, op, id);
        if op == Lt || op == Le {
          n := DownFirstEnds(ix, v, m, op, id, ix.root);
        } else {
          n := DownEnds(ix, v, m, op, id, ix.root, 0);
        }
        OneMore(ix, op, id, Start, n);
        n := n + 1;
      case Down(p, i) => n := DownEnds(ix, v, m, op, id, p, i);
      case Look(p, i) => n := LookEnds(ix, op, id, p, i);
      case Seek(p, i) => n := SeeksEnd(ix, v, m, op, id, p, i);
      case Skip(p, i) =>
        var j: nat :| SkipOk(ix, v, op, id, j, p, i);
        n := SkipsEnd(ix, v, op, id, j, p, i);
      case Collect(p, i, found) =>
        var j: nat, cut: nat :| CollectOk(ix, v, op, id, j, p, i, found, cut);
        n := CollectEnds(ix, v, op, id, j, p, i, found, cut);
      case DownFirst(p) => n := DownFirstEnds(ix, v, m, op, id, p);
      case Take(p, i, found) =>
        var j: nat :| TakeOk(ix, v, op, id, j, p, i, found);
        n := TakesEnd(ix, v, op, id, j, p, i, found);
      case Finished(_) =>
        n := 0;
        Zero(ix, op, id, stage);
    }
  }

  // ----------------------------------------------------------- the index of a table

  /** The index at rest leads from the ids 1, 2, ... to the rows. */
  ghost predicate IndexesRows(ix: Index, rows: seq<Ref>) {
    exists m :: Holding(ix, m) && Indexes(m, rows)
  }

  /** What a reader at this stage has seen of an index that leads to the rows. */
  ghost predicate ReadOk(ix: Index, rows: seq<Ref>, op: Comparison, id: int, stage: Stage) {
    if ix.root == NULL then
      rows == [] && (stage == Start || stage == Finished([]))
    else
      exists v, m :: Sees(ix, v, m) && Indexes(m, rows) && StageOk(ix, v, m, op, id, stage)
  }

  lemma ReadStarts(ix: Index, rows: seq<Ref>, op: Comparison, id: int)
    requires IndexesRows(ix, rows)
    ensures ReadOk(ix, rows, op, id, Start)
  {
    var m :| Holding(ix, m) && Indexes(m, rows);
    var spans :| TreeOf(ix, spans, m);
    if ix.root == NULL {
      EmptyIndex(m, rows);
    } else {
      var v := SeesTree(ix, spans, m);
      assert Sees(ix, v, m) && StageOk(ix, v, m, op, id, Start);
    }
  }

  /** On an index at rest every step of a reader stays inside the arena and keeps to the rows. */
  lemma ReadAdvances(ix: Index, rows: seq<Ref>, op: Comparison, id: int, stage: Stage)
    requires ReadOk(ix, rows, op, id, stage)
    ensures ReadOk(ix, rows, op, id, Next(ix, op, id, stage))
  {
    if ix.root != NULL {
      var v, m :| Sees(ix, v, m) && Indexes(m, rows) && StageOk(ix, v, m, op, id, stage);
      StageStep(ix, v, m, op, id, stage);
    }
  }

  /** A query by id on an index at rest ends after finitely many steps. */
  lemma ReadTerminates(ix: Index, rows: seq<Ref>, op: Comparison, id: int, stage: Stage) returns (n: nat)
    requires ReadOk(ix, rows, op, id, stage)
    ensures StageAfter(ix, op, id, stage, n).Finished?
  {
    if ix.root == NULL {
      n := if stage == Start then 1 else 0;
      Zero(ix, op, id, Finished([]));
      OneMore(ix, op, id, Start, 0);
    } else {
      var v, m :| Sees(ix, v, m) && Indexes(m, rows) && StageOk(ix, v, m, op, id, stage);
      n := StageEnds(ix, v, m, op, id, stage);
    }
  }

  /** A reader that has kept to the rows has not left the arena. */
  lemma ReadIsSafe(ix: Index, rows: seq<Ref>, op: Comparison, id: int)
    ensures !ReadOk(ix, rows, op, id, Crash)
  {
  }

  /** What a reader has found in the end is what a scan of the rows finds. */
  lemma ReadEnds(ix: Index, rows: seq<Ref>, heap: seq<Record>, op: Comparison, id: int, found: seq<Ref>)
    requires ReadOk(ix, rows, op, id, Finished(found)) && RowIds(rows, heap)
    ensures found == Select(rows, heap, IdIs(op, id))
  {
    if ix.root == NULL {
      assert found == [];
    } else {
      var v, m :| Sees(ix, v, m) && Indexes(m, rows) && StageOk(ix, v, m, op, id, Finished(found));
      assert Lists(v.walk.ks, v.walk.vs, m);
      hide Sees, Lists, Indexes, RowIds, Select;
      ChosenIsSelect(v.walk, m, rows, heap, op, id, found);
    }
  }

  lemma ChosenById(m: map<int, Value>, rows: seq<Ref>, heap: seq<Record>, id: int)
    requires Indexes(m, rows) && RowIds(rows, heap)
    ensures Select(rows, heap, IdIs(Eq, id)) == if id in m && m[id] != NULL then [m[id]] else []
  {
    IndexAgrees(m, rows, heap, id);
    SelectById(rows, heap, id);
  }

  lemma ChosenIsSelect(w: Walk, m: map<int, Value>, rows: seq<Ref>, heap: seq<Record>, op: Comparison, id: int,
      found: seq<Ref>)
    requires Lists(w.ks, w.vs, m) && Indexes(m, rows) && RowIds(rows, heap) && Chosen(w, m, op, id, found)
    ensures found == Select(rows, heap, IdIs(op, id))
  {
    ListsRange(w.ks, w.vs, m, |rows|);
    assert w.vs == rows;
    hide Lists, RowIds, Indexes, Select;
    match op {
      case Eq =>
        ChosenById(m, rows, heap, id);
      case Gt =>
        var cut: nat :| CutsAt(w.ks, cut, id + 1) && cut <= |w.vs| && found == w.vs[cut..];
        RangeSuffix(rows, heap, w.ks, op, id, cut);
      case Ge =>
        var cut: nat :| CutsAt(w.ks, cut, id) && cut <= |w.vs| && found == w.vs[cut..];
        RangeSuffix(rows, heap, w.ks, op, id, cut);
      case _ =>
        var cut: nat :| Prefix(w, op, id, cut) && found == w.vs[..cut];
        RangePrefix(rows, heap, w.ks, op, id, cut);
    }
  }

  // ------------------------------------------------------------------- insertion

  /** What an insertion into the tree `before` leaves behind and reports. */
  ghost predicate InsertOutcome(before: Index, key: int, value: Value, after: Index, inserted: bool) {
    forall m :: Holding(before, m) ==>
      && (inserted <==> key !in m)
      && Holding(after, if inserted then m[key := value] else m)
  }

  /** A new id under which the next row is entered keeps the index in step with the rows. */
  lemma OutcomeIndexes(before: Index, rows: seq<Ref>, ref: Ref, after: Index, inserted: bool)
    requires IndexesRows(before, rows) && InsertOutcome(before, |rows| + 1, ref, after, inserted)
    ensures inserted && IndexesRows(after, rows + [ref])
  {
    var m :| Holding(before, m) && Indexes(m, rows);
    var m' := m[|rows| + 1 := ref];
    assert Holding(after, m') && Indexes(m', rows + [ref]);
  }

  /** The empty index of an empty table. */
  lemma EmptyIndexesRows()
    ensures IndexesRows(Index([], NULL), [])
  {
    var m: map<int, Value> := map[];
    assert TreeOf(Index([], NULL), [], m);
    assert Holding(Index([], NULL), m) && Indexes(m, []);
  }

  /** The tree's own insertion has this outcome. */
  method InsertInto(tree: Tree, key: int, value: Value) returns (inserted: bool)
    requires tree.Valid()
    modifies tree
    ensures tree.Valid()
    ensures InsertOutcome(old(Index(tree.nodes, tree.root)), key, value, Index(tree.nodes, tree.root), inserted)
  {
    ghost var before := Index(tree.nodes, tree.root);
    ghost var m := tree.contents;
    assert TreeOf(before, tree.spans, m);
    inserted := tree.Insert(key, value);
    ghost var after := Index(tree.nodes, tree.root);
    assert TreeOf(after, tree.spans, tree.contents);
    forall m' | Holding(before, m')
      ensures (inserted <==> key !in m') && Holding(after, if inserted then m'[key := value] else m')
    {
      HoldsOne(before, m, m');
    }
  }
}
