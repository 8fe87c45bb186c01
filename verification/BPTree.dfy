/**
 The order-4 B+ tree as the engine runs it: nodes with fixed key, value and
 child buffers that are shifted and overwritten in place, parent links, a leaf
 chain, splits that cascade upwards, and root growth.

 Nodes live in an arena; allocating a node appends to it and never fails.
 */
module BPlusTree {
  import opened TreeShape
  import opened TreeSteps
  import opened TreeOrder

  datatype NodeBuffer = NodeBuffer(
    isLeaf: bool,
    numKeys: nat,
    keys: seq<int>,
    values: seq<Value>,
    children: seq<Ptr>,
    parent: Ptr,
    next: Ptr)

  predicate Sized(n: NodeBuffer) {
    n.numKeys <= MAX_KEYS == |n.keys| == |n.values| && |n.children| == ORDER
  }

  /** A zeroed node, as the allocator hands it out. */
  function BlankNode(isLeaf: bool): (n: NodeBuffer)
    ensures Sized(n)
  {
    NodeBuffer(isLeaf, 0, [0, 0, 0], [NULL, NULL, NULL], [NULL, NULL, NULL, NULL], NULL, NULL)
  }

  type Node = n: NodeBuffer | Sized(n) witness BlankNode(true)

  /** The live part of a node's buffers. */
  function View(n: Node): NodeView {
    NodeView(
      n.isLeaf,
      n.keys[..n.numKeys],
      if n.isLeaf then n.values[..n.numKeys] else [],
      if n.isLeaf then [] else n.children[..n.numKeys + 1],
      n.parent,
      n.next)
  }

  function Views(nodes: seq<Node>): (r: seq<NodeView>)
    ensures |r| == |nodes|
    ensures forall i :: 0 <= i < |nodes| ==> r[i] == View(nodes[i])
  {
    seq(|nodes|, i requires 0 <= i < |nodes| => View(nodes[i]))
  }

  /** First position whose key is not below `key`. */
  method FindInsertIndex(keys: seq<int>, numKeys: nat, key: int) returns (index: nat)
    requires numKeys <= |keys|
    ensures index <= numKeys
    ensures forall i :: 0 <= i < index ==> keys[i] < key
    ensures index < numKeys ==> key <= keys[index]
  {
    index := 0;
    while index < numKeys && keys[index] < key
      invariant index <= numKeys
      invariant forall i :: 0 <= i < index ==> keys[i] < key
    {
      index := index + 1;
    }
  }

  /** Shifts the entries low..high of a buffer one place right and writes x into the gap. */
  method ShiftIn<T>(buffer: seq<T>, low: nat, high: nat, x: T) returns (r: seq<T>)
    requires low <= high < |buffer|
    ensures |r| == |buffer|
    ensures r[..high + 1] == InsertAt(buffer[..high], low, x)
    ensures r[high + 1..] == buffer[high + 1..]
  {
    r := buffer;
    var index := high;
    while index > low
      invariant low <= index <= high && |r| == |buffer|
      invariant forall i :: 0 <= i < |r| && (i <= index || i > high) && i != high ==> r[i] == buffer[i]
      invariant forall i :: index < i <= high ==> r[i] == buffer[i - 1]
    {
      r := r[index := r[index - 1]];
      index := index - 1;
    }
    r := r[low := x];
    assert r[..high + 1] == InsertAt(buffer[..high], low, x);
  }

  /** Copies a buffer into a temporary one, placing x at position insertIndex on the way. */
  method MergeEntries<T(0)>(buffer: seq<T>, insertIndex: nat, x: T) returns (temp: array<T>)
    requires insertIndex <= |buffer|
    ensures fresh(temp) && temp[..] == InsertAt(buffer, insertIndex, x)
  {
    temp := new T[|buffer| + 1];
    var tempIndex := 0;
    for index := 0 to |buffer|
      invariant tempIndex == if index <= insertIndex then index else index + 1
      invariant forall i :: 0 <= i < tempIndex && i < insertIndex ==> temp[i] == buffer[i]
      invariant insertIndex < tempIndex ==> temp[insertIndex] == x
      invariant forall i :: insertIndex < i < tempIndex ==> temp[i] == buffer[i - 1]
    {
      if tempIndex == insertIndex {
        temp[tempIndex] := x;
        tempIndex := tempIndex + 1;
      }
      temp[tempIndex] := buffer[index];
      tempIndex := tempIndex + 1;
    }
    if tempIndex == insertIndex {
      temp[tempIndex] := x;
    }
    assert temp[..] == InsertAt(buffer, insertIndex, x);
  }

  /** Overwrites the front of a buffer with the given entries. */
  method CopyInto<T>(buffer: seq<T>, entries: seq<T>) returns (r: seq<T>)
    requires |entries| <= |buffer|
    ensures |r| == |buffer| && r[..|entries|] == entries
  {
    r := buffer;
    for index := 0 to |entries|
      invariant |r| == |buffer|
      invariant forall i :: 0 <= i < index ==> r[i] == entries[i]
    {
      r := r[index := entries[index]];
    }
  }

  /** Merges a full inner node's keys and children with the pending ones in temporary buffers. */
  method MergeInternal(n: Node, insertIndex: nat, key: int, rightChild: Ptr)
    returns (tempKeys: seq<int>, tempChildren: seq<Ptr>)
    requires !n.isLeaf && n.numKeys == MAX_KEYS && insertIndex <= MAX_KEYS
    ensures tempKeys == InsertAt(View(n).keys, insertIndex, key)
    ensures tempChildren == InsertAt(View(n).kids, insertIndex + 1, rightChild)
  {
    tempKeys := ShiftIn(n.keys + [0], insertIndex, n.numKeys, key);
    tempChildren := ShiftIn(n.children + [NULL], insertIndex + 1, n.numKeys + 1, rightChild);
    assert tempKeys[..ORDER] == tempKeys && (n.keys + [0])[..MAX_KEYS] == View(n).keys;
    assert tempChildren[..ORDER + 1] == tempChildren && (n.children + [NULL])[..ORDER] == View(n).kids;
  }

  /** The position of `key` among a leaf's live keys, or numKeys when it is not there. */
  method ScanLeaf(n: Node, key: int) returns (index: nat)
    requires n.isLeaf
    ensures index <= n.numKeys
    ensures if index < n.numKeys then n.keys[index] == key else key !in View(n).keys
  {
    index := 0;
    while index < n.numKeys
      invariant index <= n.numKeys
      invariant forall i :: 0 <= i < index ==> n.keys[i] != key
    {
      if n.keys[index] == key {
        return;
      }
      index := index + 1;
    }
  }

  /** Fills the two halves of an overfull inner node: the old node keeps the left one. */
  method HalveInternal(n: Node, tempKeys: seq<int>, tempChildren: seq<Ptr>) returns (left: Node, right: Node)
    requires !n.isLeaf && |tempKeys| == ORDER && |tempChildren| == ORDER + 1
    ensures View(left) == View(n).(keys := tempKeys[..HALF], kids := tempChildren[..HALF + 1]) &&
            left.parent == n.parent
    ensures View(right) == NodeView(false, tempKeys[HALF + 1..], [], tempChildren[HALF + 1..], n.parent, NULL)
  {
    var blank := BlankNode(false);
    var leftKeys := CopyInto(n.keys, tempKeys[..HALF]);
    var leftChildren := CopyInto(n.children, tempChildren[..HALF + 1]);
    var rightKeys := CopyInto(blank.keys, tempKeys[HALF + 1..]);
    var rightChildren := CopyInto(blank.children, tempChildren[HALF + 1..]);
    left := n.(numKeys := HALF, keys := leftKeys, children := leftChildren);
    right := blank.(numKeys := ORDER - HALF - 1, keys := rightKeys, children := rightChildren, parent := n.parent);
  }

  class Tree {
    var nodes: seq<Node>
    var root: Ptr
    ghost var spans: seq<Span>
    ghost var contents: map<int, Value>

    ghost function Arena(): TreeShape.Arena
      reads this
    {
      TreeShape.Arena(Views(nodes), root, spans)
    }

    /** At rest: either empty, or the whole tree invariant holds and the leaves store `contents`. */
    ghost predicate Valid()
      reads this
    {
      if root == NULL then
        nodes == [] && spans == [] && contents == map[]
      else
        Inv(Arena(), Settled) && Stores(Views(nodes), contents)
    }

    constructor ()
      ensures Valid() && contents == map[]
    {
      nodes, root := [], NULL;
      spans, contents := [], map[];
    }

    /** Walks from the root to the leaf responsible for `key`. */
    method FindLeaf(key: int) returns (current: Ptr)
      requires Valid()
      ensures root == NULL <==> current == NULL
      ensures root != NULL ==>
                && 0 <= current < |nodes| == |spans| && nodes[current].isLeaf
                && InSpan(key, spans[current])
                && (key in contents <==> key in View(nodes[current]).keys)
                && forall i :: 0 <= i < nodes[current].numKeys && nodes[current].keys[i] == key ==>
                     key in contents && contents[key] == nodes[current].values[i]
    {
      if root == NULL {
        return NULL;
      }
      current := root;
      ghost var a := Arena();
      assert NodeOk(a, Settled, root);
      while !nodes[current].isLeaf
        invariant Live(a, current) && InSpan(key, spans[current])
        decreases spans[current].height
      {
        var index := 0;
        var n := nodes[current];
        while index < n.numKeys && key >= n.keys[index]
          invariant index <= n.numKeys
          invariant forall i :: 0 <= i < index ==> n.keys[i] <= key
        {
          index := index + 1;
        }
        assert a.nodes[current] == View(n);
        DownSpan(a, current, index, key);
        current := n.children[index];
      }
      LeafDecides(a, current, key, contents);
      FoundEntries(nodes[current], a.nodes[current], key, contents);
    }

    /** Inserts a pair into a leaf that has room, shifting later entries right. */
    method InsertIntoLeaf(leaf: Ptr, key: int, value: Value) returns (ghost position: nat)
      requires 0 <= leaf < |nodes| && nodes[leaf].isLeaf && nodes[leaf].numKeys < MAX_KEYS
      requires Sorted(View(nodes[leaf]).keys) && key !in View(nodes[leaf]).keys
      modifies this`nodes
      ensures |nodes| == |old(nodes)| && IsSlot(View(old(nodes)[leaf]).keys, position, key)
      ensures Views(nodes) == old(Views(nodes))[leaf := FilledLeaf(View(old(nodes)[leaf]), position, key, value)]
    {
      var n := nodes[leaf];
      var pos := FindInsertIndex(n.keys, n.numKeys, key);
      SlotFound(n, pos, key);
      var keys := ShiftIn(n.keys, pos, n.numKeys, key);
      var values := ShiftIn(n.values, pos, n.numKeys, value);
      nodes := nodes[leaf := n.(keys := keys, values := values, numKeys := n.numKeys + 1)];
      position := pos;
      assert View(nodes[leaf]) == FilledLeaf(View(n), pos, key, value);
    }

    /** Builds a new root above the two halves of the old one. */
    method CreateNewRoot(left: Ptr, key: int, right: Ptr)
      requires 0 <= left < |nodes| && 0 <= right < |nodes| && left != right
      modifies this`nodes, this`root
      ensures root == |old(nodes)|
      ensures Views(nodes) ==
                old(Views(nodes))[left := old(Views(nodes))[left].(parent := root)]
                    [right := old(Views(nodes))[right].(parent := root)]
                + [NodeView(false, [key], [], [left, right], NULL, NULL)]
    {
      var r := |nodes|;
      var blank := BlankNode(false);
      nodes := nodes +
          [blank.(keys := blank.keys[0 := key], children := blank.children[0 := left][1 := right], numKeys := 1)];
      nodes := nodes[left := nodes[left].(parent := r)];
      nodes := nodes[right := nodes[right].(parent := r)];
      root := r;
      assert View(nodes[r]) == NodeView(false, [key], [], [left, right], NULL, NULL);
    }

    /** Adds a promoted key and its right child to an inner node that has room. */
    method InsertIntoInternal(parent: Ptr, insertIndex: nat, key: int, rightChild: Ptr)
      requires 0 <= parent < |nodes| && !nodes[parent].isLeaf && nodes[parent].numKeys < MAX_KEYS
      requires insertIndex <= nodes[parent].numKeys
      requires 0 <= rightChild < |nodes| && rightChild != parent
      modifies this`nodes
      ensures Views(nodes) == old(Views(nodes))
                [parent := old(Views(nodes))[parent]
                   .(keys := InsertAt(old(Views(nodes))[parent].keys, insertIndex, key),
                     kids := InsertAt(old(Views(nodes))[parent].kids, insertIndex + 1, rightChild))]
                [rightChild := old(Views(nodes))[rightChild].(parent := parent)]
    {
      var n := nodes[parent];
      var keys := ShiftIn(n.keys, insertIndex, n.numKeys, key);
      var children := ShiftIn(n.children, insertIndex + 1, n.numKeys + 1, rightChild);
      nodes := nodes[parent := n.(keys := keys, children := children)];
      nodes := nodes[rightChild := nodes[rightChild].(parent := parent)];
      nodes := nodes[parent := nodes[parent].(numKeys := n.numKeys + 1)];
      assert View(nodes[parent]).keys == InsertAt(View(n).keys, insertIndex, key);
      assert View(nodes[parent]).kids == InsertAt(View(n).kids, insertIndex + 1, rightChild);
    }

    /** The position of `left` among the children of `parent`. */
    method FindChildSlot(parent: Ptr, left: Ptr) returns (insertIndex: nat)
      requires 0 <= parent < |nodes| && !nodes[parent].isLeaf && left in Views(nodes)[parent].kids
      ensures insertIndex <= nodes[parent].numKeys && Views(nodes)[parent].kids[insertIndex] == left
    {
      insertIndex := 0;
      ghost var kids := View(nodes[parent]).kids;
      ghost var i :| 0 <= i < |kids| && kids[i] == left;
      while insertIndex <= nodes[parent].numKeys && nodes[parent].children[insertIndex] != left
        invariant insertIndex <= i
      {
        insertIndex := insertIndex + 1;
      }
    }

    /** Root case of a pending separator. */
    method SettleAtRoot(left: Ptr, key: int, right: Ptr)
      requires root != NULL && Inv(Arena(), Pending(left, key, right)) && Arena().nodes[left].parent == NULL
      requires Stores(Views(nodes), contents)
      modifies this`nodes, this`root, this`spans
      ensures Valid() && root != NULL
    {
      ghost var a, w := Arena(), Pending(left, key, right);
      RootStep(a, w, contents);
      CreateNewRoot(left, key, right);
      spans := spans + [Span(spans[left].height + 1, NegInf, PosInf)];
      assert Arena() == RootGrown(a, w);
    }

    /** A parent with room absorbs a pending separator. */
    method SettleInParent(parent: Ptr, insertIndex: nat, left: Ptr, key: int, right: Ptr)
      requires root != NULL && Inv(Arena(), Pending(left, key, right)) && Stores(Views(nodes), contents)
      requires PendingAt(Arena(), Pending(left, key, right), insertIndex) && Arena().nodes[left].parent == parent
      requires nodes[parent].numKeys < MAX_KEYS
      modifies this`nodes
      ensures Valid() && root != NULL
    {
      ghost var a, w := Arena(), Pending(left, key, right);
      FillStep(a, w, insertIndex, contents);
      InsertIntoInternal(parent, insertIndex, key, right);
      assert Arena() == InnerFilled(a, w, insertIndex);
    }

    /** Pushes a separator upward after a split; ends at a node with room or at a new root. */
    method InsertIntoParent(left: Ptr, key: int, right: Ptr)
      requires root != NULL && Inv(Arena(), Pending(left, key, right))
      requires Stores(Views(nodes), contents)
      modifies this`nodes, this`root, this`spans
      ensures Valid() && root != NULL
      decreases spans[root].height - spans[left].height, 1
    {
      ghost var w := Pending(left, key, right);
      ParentOf(Arena(), w);
      var parent := nodes[left].parent;
      assert parent == Arena().nodes[left].parent;
      if parent == NULL {
        SettleAtRoot(left, key, right);
      } else {
        var insertIndex := FindChildSlot(parent, left);
        if nodes[parent].numKeys < MAX_KEYS {
          SettleInParent(parent, insertIndex, left, key, right);
        } else {
          SplitInternalAndInsert(parent, insertIndex, key, right, left);
        }
      }
    }

    /** Points each of the given children back at `parent`. */
    method Reparent(kids: seq<Ptr>, parent: Ptr)
      requires forall i :: 0 <= i < |kids| ==> kids[i] == NULL || 0 <= kids[i] < |nodes|
      modifies this`nodes
      ensures |nodes| == |old(nodes)|
      ensures forall p :: 0 <= p < |nodes| ==>
                nodes[p] == if p in kids then old(nodes)[p].(parent := parent) else old(nodes)[p]
    {
      for index := 0 to |kids|
        invariant |nodes| == |old(nodes)|
        invariant forall p :: 0 <= p < |nodes| ==>
                    nodes[p] == if p in kids[..index] then old(nodes)[p].(parent := parent) else old(nodes)[p]
      {
        var child := kids[index];
        if child != NULL {
          nodes := nodes[child := nodes[child].(parent := parent)];
        }
        assert kids[..index + 1] == kids[..index] + [child];
      }
      assert kids[..|kids|] == kids;
    }

    /** Keeps the left half in `parent` and moves the right half to a new node, re-parenting children. */
    method DistributeInternal(parent: Ptr, tempKeys: seq<int>, tempChildren: seq<Ptr>) returns (rightParent: Ptr)
      requires 0 <= parent < |nodes| && !nodes[parent].isLeaf
      requires |tempKeys| == ORDER && |tempChildren| == ORDER + 1
      requires forall i :: 0 <= i <= ORDER ==>
                 0 <= tempChildren[i] < |nodes| && tempChildren[i] != parent && nodes[tempChildren[i]].parent == parent
      modifies this`nodes
      ensures rightParent == |old(nodes)| && |nodes| == |old(nodes)| + 1
      ensures View(nodes[parent]) ==
              View(old(nodes)[parent]).(keys := tempKeys[..HALF], kids := tempChildren[..HALF + 1])
      ensures View(nodes[rightParent]) ==
                NodeView(false, tempKeys[HALF + 1..], [], tempChildren[HALF + 1..], old(nodes)[parent].parent, NULL)
      ensures forall p :: 0 <= p < |old(nodes)| && p != parent ==>
                nodes[p] == if p in tempChildren[HALF + 1..] then old(nodes)[p].(parent := rightParent)
                    else old(nodes)[p]
    {
      var left, right := HalveInternal(nodes[parent], tempKeys, tempChildren);
      rightParent := |nodes|;
      nodes := nodes[parent := left] + [right];
      Reparent(tempChildren[..HALF + 1], parent);
      Reparent(tempChildren[HALF + 1..], rightParent);
      assert nodes[parent] == left && nodes[rightParent] == right;
    }

    /** Splits a full inner node around its middle key and returns that key and the new node. */
    method SplitInternal(parent: Ptr, insertIndex: nat, key: int, rightChild: Ptr, ghost a: TreeShape.Arena,
        ghost w: Pending)
      returns (promoteKey: int, rightParent: Ptr)
      requires a.nodes == Views(nodes) && w.Pending? && w.key == key && w.right == rightChild
      requires SplitAt(a, w, insertIndex) && a.nodes[w.left].parent == parent
      requires a.nodes[parent].vals == [] && a.nodes[parent].next == NULL
      requires forall i :: 0 <= i <= ORDER ==>
                 var c := MergedKids(a, w, insertIndex)[i];
                 0 <= c < |a.nodes| && c != parent && a.nodes[c].parent == parent
      modifies this`nodes
      ensures Pending(parent, promoteKey, rightParent) == InnerSplitPending(a, w, insertIndex)
      ensures Views(nodes) == InnerSplit(a, w, insertIndex).nodes
    {
      assert View(nodes[parent]) == a.nodes[parent];
      var tempKeys, tempChildren := MergeInternal(nodes[parent], insertIndex, key, rightChild);
      assert tempKeys == MergedKeys(a, w, insertIndex) && tempChildren == MergedKids(a, w, insertIndex);
      promoteKey := tempKeys[HALF];
      rightParent := DistributeInternal(parent, tempKeys, tempChildren);
      forall p | 0 <= p < |nodes| ensures View(nodes[p]) == AfterSplit(a, w, insertIndex, p) {
      }
    }

    /** Splits a full inner node and passes the promoted key on to the next level. */
    method SplitInternalAndInsert(parent: Ptr, insertIndex: nat, key: int, rightChild: Ptr, ghost left: Ptr)
      requires root != NULL && Inv(Arena(), Pending(left, key, rightChild))
      requires Stores(Views(nodes), contents)
      requires SplitAt(Arena(), Pending(left, key, rightChild), insertIndex) && Arena().nodes[left].parent == parent
      modifies this`nodes, this`root, this`spans
      ensures Valid() && root != NULL
      decreases spans[root].height - spans[left].height, 0
    {
      ghost var a, w := Arena(), Pending(left, key, rightChild);
      ParentOf(a, w);
      SplitStep(a, w, insertIndex, contents);
      var promoteKey, rightParent := SplitInternal(parent, insertIndex, key, rightChild, a, w);
      spans := spans[parent := spans[parent].(hi := Fin(promoteKey))] + [spans[parent].(lo := Fin(promoteKey))];
      assert Arena() == InnerSplit(a, w, insertIndex);
      InsertIntoParent(parent, promoteKey, rightParent);
    }

    /** Keeps the left half in `leaf`, moves the right half to a new leaf and links it into the chain. */
    method DistributeLeaf(leaf: Ptr, tempKeys: seq<int>, tempValues: seq<Value>) returns (rightLeaf: Ptr)
      requires 0 <= leaf < |nodes| && nodes[leaf].isLeaf
      requires |tempKeys| == |tempValues| == ORDER
      modifies this`nodes
      ensures rightLeaf == |old(nodes)|
      ensures Views(nodes) ==
                old(Views(nodes))[leaf :=
                    old(Views(nodes))[leaf].(keys := tempKeys[..HALF], vals := tempValues[..HALF], next := rightLeaf)]
                + [old(Views(nodes))[leaf].(keys := tempKeys[HALF..], vals := tempValues[HALF..])]
    {
      var n, blank := nodes[leaf], BlankNode(true);
      rightLeaf := |nodes|;
      var leftKeys := CopyInto(n.keys, tempKeys[..HALF]);
      var leftValues := CopyInto(n.values, tempValues[..HALF]);
      var rightKeys := CopyInto(blank.keys, tempKeys[HALF..]);
      var rightValues := CopyInto(blank.values, tempValues[HALF..]);
      var left: Node := n.(numKeys := HALF, keys := leftKeys, values := leftValues, next := rightLeaf);
      var right: Node :=
          blank.(numKeys := ORDER - HALF, keys := rightKeys, values := rightValues, parent := n.parent, next := n.next);
      nodes := nodes[leaf := left] + [right];
      assert View(left) == View(n).(keys := tempKeys[..HALF], vals := tempValues[..HALF], next := rightLeaf);
      assert View(right) == View(n).(keys := tempKeys[HALF..], vals := tempValues[HALF..]);
    }

    /** Splits a full leaf around the new pair; returns the first key of the new right leaf. */
    method SplitLeaf(leaf: Ptr, key: int, value: Value) returns (sep: int, rightLeaf: Ptr, ghost position: nat)
      requires 0 <= leaf < |nodes| && nodes[leaf].isLeaf && nodes[leaf].numKeys == MAX_KEYS
      requires Sorted(Views(nodes)[leaf].keys) && key !in Views(nodes)[leaf].keys
      modifies this`nodes
      ensures var n := old(Views(nodes))[leaf];
              && IsSlot(n.keys, position, key)
              && rightLeaf == |old(nodes)| && sep == RightLeaf(n, position, key, value).keys[0]
              && Views(nodes) == old(Views(nodes))[leaf := LeftLeaf(n, position, key, value, rightLeaf)] +
                 [RightLeaf(n, position, key, value)]
    {
      var n := nodes[leaf];
      var insertIndex := FindInsertIndex(n.keys, n.numKeys, key);
      SlotFound(n, insertIndex, key);
      position := insertIndex;
      var tempKeys := MergeEntries(n.keys, insertIndex, key);
      var tempValues := MergeEntries(n.values, insertIndex, value);
      assert View(n).keys == n.keys && View(n).vals == n.values;
      rightLeaf := DistributeLeaf(leaf, tempKeys[..], tempValues[..]);
      sep := nodes[rightLeaf].keys[0];
      assert sep == Views(nodes)[rightLeaf].keys[0];
    }

    /** Splits a full leaf to make room for a new pair and pushes the separator upward. */
    method SplitLeafAndInsert(leaf: Ptr, key: int, value: Value)
      requires Valid() && root != NULL && key !in contents
      requires 0 <= leaf < |nodes| == |spans| && nodes[leaf].isLeaf && nodes[leaf].numKeys == MAX_KEYS
      requires InSpan(key, spans[leaf])
      modifies this
      ensures Valid() && root != NULL && contents == old(contents)[key := value]
    {
      ghost var a, m := Arena(), contents;
      LeafReady(a, leaf, key, m);
      var sep, rightLeaf, position := SplitLeaf(leaf, key, value);
      LeafSplitPends(a, leaf, position, key, value);
      StoresSplit(a, leaf, position, key, value, m);
      spans := spans[leaf := spans[leaf].(hi := Fin(sep))] + [spans[leaf].(lo := Fin(sep))];
      contents := contents[key := value];
      assert Arena() == LeafSplit(a, leaf, position, key, value);
      InsertIntoParent(leaf, sep, rightLeaf);
    }

    /** Fills a leaf that has room. */
    method FillLeaf(leaf: Ptr, key: int, value: Value)
      requires Valid() && root != NULL && key !in contents
      requires 0 <= leaf < |nodes| == |spans| && nodes[leaf].isLeaf && nodes[leaf].numKeys < MAX_KEYS
      requires InSpan(key, spans[leaf])
      modifies this
      ensures Valid() && root != NULL && contents == old(contents)[key := value]
    {
      ghost var a, m := Arena(), contents;
      LeafReady(a, leaf, key, m);
      var position := InsertIntoLeaf(leaf, key, value);
      LeafFillKeeps(a, leaf, position, key, value);
      StoresFilled(a, leaf, position, key, value, m);
      contents := contents[key := value];
      assert Arena() == LeafFilled(a, leaf, position, key, value);
    }

    /** Puts the first pair into an empty tree. */
    method PlantRoot(key: int, value: Value)
      requires Valid() && root == NULL
      modifies this
      ensures Valid() && root != NULL && contents == map[key := value]
    {
      var blank := BlankNode(true);
      nodes := [blank.(keys := blank.keys[0 := key], values := blank.values[0 := value], numKeys := 1)];
      root := 0;
      spans := [Span(0, NegInf, PosInf)];
      contents := map[key := value];
      assert View(nodes[0]) == NodeView(true, [key], [value], [], NULL, NULL);
      forall p | Live(Arena(), p) ensures NodeOk(Arena(), Settled, p) {
        assert p == 0;
      }
      assert LeafHas(Views(nodes), 0, key);
    }

    /** Inserts a pair; refuses, changing nothing, exactly when the key is already stored. */
    method Insert(key: int, value: Value) returns (inserted: bool)
      requires Valid()
      modifies this
      ensures Valid()
      ensures inserted <==> key !in old(contents)
      ensures contents == if inserted then old(contents)[key := value] else old(contents)
      ensures !inserted ==> nodes == old(nodes) && root == old(root)
    {
      if root == NULL {
        PlantRoot(key, value);
        return true;
      }
      var leaf := FindLeaf(key);
      var n := nodes[leaf];
      var index := ScanLeaf(n, key);
      if index < n.numKeys {
        return false;
      }
      if n.numKeys < MAX_KEYS {
        FillLeaf(leaf, key, value);
      } else {
        SplitLeafAndInsert(leaf, key, value);
      }
      return true;
    }

    /** Looks a key up; the answer is the map's, or NULL when the key is absent. */
    method Search(key: int) returns (value: Value)
      requires Valid()
      ensures value == if key in contents then contents[key] else NULL
    {
      var leaf := FindLeaf(key);
      if leaf == NULL {
        return NULL;
      }
      var index := ScanLeaf(nodes[leaf], key);
      return if index < nodes[leaf].numKeys then nodes[leaf].values[index] else NULL;
    }
  }

  lemma FoundEntries(n: Node, v: NodeView, key: int, m: map<int, Value>)
    requires n.isLeaf && v == View(n) && |v.vals| == |v.keys|
    requires key in m <==> key in v.keys
    requires forall i :: 0 <= i < |v.keys| && v.keys[i] == key ==> m[key] == v.vals[i]
    ensures forall i :: 0 <= i < n.numKeys && n.keys[i] == key ==> key in m && m[key] == n.values[i]
  {
  }

  /** The leaf responsible for an absent key is sorted and does not hold it. */
  lemma LeafReady(a: Arena, leaf: Ptr, key: int, m: map<int, Value>)
    requires Inv(a, Settled) && Stores(a.nodes, m) && key !in m
    requires Live(a, leaf) && a.nodes[leaf].leaf && InSpan(key, a.spans[leaf])
    ensures Sorted(a.nodes[leaf].keys) && key !in a.nodes[leaf].keys && |a.nodes[leaf].vals| == |a.nodes[leaf].keys|
  {
    assert NodeOk(a, Settled, leaf);
    LeafDecides(a, leaf, key, m);
  }

  lemma RootStep(a: Arena, w: Pending, m: map<int, Value>)
    requires Inv(a, w) && w.Pending? && a.nodes[w.left].parent == NULL && Stores(a.nodes, m)
    ensures Inv(RootGrown(a, w), Settled) && Stores(RootGrown(a, w).nodes, m)
  {
    assert NodeOk(a, w, w.left);
    RootGrowKeeps(a, w);
    StoresSameLeaves(a.nodes, RootGrown(a, w).nodes, m);
  }

  lemma FillStep(a: Arena, w: Pending, idx: nat, m: map<int, Value>)
    requires Inv(a, w) && PendingAt(a, w, idx) && Stores(a.nodes, m)
    requires |a.nodes[a.nodes[w.left].parent].keys| < MAX_KEYS
    ensures Inv(InnerFilled(a, w, idx), Settled) && Stores(InnerFilled(a, w, idx).nodes, m)
    ensures var q := a.nodes[w.left].parent;
            && w.right != q
            && a.nodes[q := a.nodes[q].(keys := InsertAt(a.nodes[q].keys, idx, w.key),
                                        kids := InsertAt(a.nodes[q].kids, idx + 1, w.right))]
                 [w.right := a.nodes[w.right].(parent := q)]
               == InnerFilled(a, w, idx).nodes
  {
    assert NodeOk(a, w, w.right) && NodeOk(a, w, a.nodes[w.left].parent);
    assert KidOk(a, w, a.nodes[w.left].parent, idx);
    InnerFillKeeps(a, w, idx);
    StoresSameLeaves(a.nodes, InnerFilled(a, w, idx).nodes, m);
  }

  lemma SplitStep(a: Arena, w: Pending, idx: nat, m: map<int, Value>)
    requires Inv(a, w) && SplitAt(a, w, idx) && Stores(a.nodes, m)
    ensures Inv(InnerSplit(a, w, idx), InnerSplitPending(a, w, idx)) && Stores(InnerSplit(a, w, idx).nodes, m)
    ensures var q := a.nodes[w.left].parent;
            && a.nodes[q].vals == [] && a.nodes[q].next == NULL
            && forall i :: 0 <= i <= ORDER ==>
                 var c := MergedKids(a, w, idx)[i];
                 0 <= c < |a.nodes| && c != q && a.nodes[c].parent == q
  {
    assert NodeOk(a, w, a.nodes[w.left].parent);
    forall i | 0 <= i <= ORDER
      ensures var q := a.nodes[w.left].parent;
              var c := MergedKids(a, w, idx)[i];
              0 <= c < |a.nodes| && c != q && a.nodes[c].parent == q
    {
      MergedKid(a, w, idx, i);
    }
    InnerSplitPends(a, w, idx);
    StoresSameLeaves(a.nodes, InnerSplit(a, w, idx).nodes, m);
  }

  lemma SlotFound(n: Node, pos: nat, key: int)
    requires pos <= n.numKeys
    requires forall i :: 0 <= i < pos ==> n.keys[i] < key
    requires pos < n.numKeys ==> key <= n.keys[pos]
    requires Sorted(View(n).keys) && key !in View(n).keys
    ensures IsSlot(View(n).keys, pos, key)
  {
  }

  /** A pending left half either is the root or hangs in a slot of its parent, one level up. */
  lemma ParentOf(a: Arena, w: Pending)
    requires Inv(a, w) && w.Pending?
    ensures var q := a.nodes[w.left].parent;
            q != NULL ==>
              && Live(a, q) && !a.nodes[q].leaf && w.left in a.nodes[q].kids &&
                 |a.nodes[q].kids| == |a.nodes[q].keys| + 1
              && a.spans[q].height == a.spans[w.left].height + 1 <= a.spans[a.root].height
  {
    var q := a.nodes[w.left].parent;
    assert NodeOk(a, w, w.left);
    if q != NULL {
      assert NodeOk(a, w, q);
      var i :| 0 <= i < |a.nodes[q].kids| && a.nodes[q].kids[i] == w.left;
      assert KidOk(a, w, q, i);
    }
  }
}
