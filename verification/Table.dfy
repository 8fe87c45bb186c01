/**
 The in-memory users table: an append-only array of record references, the
 records themselves, and the B+ tree that indexes them by id.
 */
module Users {
  import opened Records
  import opened TreeShape
  import opened TreeOrder
  import opened BPlusTree
  import opened LeafWalk

  /** A growable array of record references, owned by the query that fills it. */
  class ResultBuffer {
    var items: array<Ref>
    var count: nat

    ghost predicate Valid()
      reads this
    {
      count <= items.Length
    }

    ghost function Contents(): (s: seq<Ref>)
      requires Valid()
      reads this, items
    {
      items[..count]
    }

    constructor ()
      ensures Valid() && fresh(items) && Contents() == []
    {
      items := new Ref[0];
      count := 0;
    }

    /** Appends one reference, doubling the array when it is full. */
    method Append(record: Ref)
      requires Valid()
      modifies this, items
      ensures Valid() && (items == old(items) || fresh(items))
      ensures Contents() == old(Contents()) + [record]
    {
      if count == items.Length {
        var capacity := if items.Length == 0 then 8 else items.Length * 2;
        var grown := new Ref[capacity];
        forall i | 0 <= i < count {
          grown[i] := items[i];
        }
        items := grown;
      }
      items[count] := record;
      count := count + 1;
    }
  }

  /** Appends the values of one leaf from a slot on. */
  method AppendLeaf(result: ResultBuffer, n: Node, start: nat)
    requires result.Valid() && start <= n.numKeys
    modifies result, result.items
    ensures result.Valid() && (result.items == old(result.items) || fresh(result.items))
    ensures result.Contents() == old(result.Contents()) + n.values[start..n.numKeys]
  {
    for index := start to n.numKeys
      invariant result.Valid() && (result.items == old(result.items) || fresh(result.items))
      invariant result.Contents() == old(result.Contents()) + n.values[start..index]
    {
      assert n.values[start..index + 1] == n.values[start..index] + [n.values[index]];
      result.Append(n.values[index]);
    }
  }

  /** Collects every value of the chain from one slot on. */
  method CollectLeafChain(nodes: seq<Node>, leaf0: Ptr, startIndex: nat, ghost w: Walk, ghost j0: nat)
    returns (result: ResultBuffer)
    requires At(nodes, w, j0, leaf0) && leaf0 != NULL && startIndex <= nodes[leaf0].numKeys
    ensures fresh(result) && fresh(result.items) && result.Valid()
    ensures w.start[j0] + startIndex <= |w.vs| && result.Contents() == w.vs[w.start[j0] + startIndex..]
  {
    result := new ResultBuffer();
    var leaf: Ptr, start: nat := leaf0, startIndex;
    ghost var j := j0;
    ghost var base := w.start[j0] + startIndex;
    AdvanceLeaf(nodes, w, j, leaf, base, start);
    while leaf != NULL
      invariant At(nodes, w, j, leaf)
      invariant if leaf == NULL then start == 0 else start <= nodes[leaf].numKeys
      invariant fresh(result) && fresh(result.items) && result.Valid()
      invariant base <= w.start[j] + start <= |w.vs| && result.Contents() == w.vs[base..w.start[j] + start]
      decreases |w.leaves| - j
    {
      AdvanceLeaf(nodes, w, j, leaf, base, start);
      AppendLeaf(result, nodes[leaf], start);
      leaf := nodes[leaf].next;
      start := 0;
      j := j + 1;
    }
    AtEnd(nodes, w, j, leaf);
  }

  /** What one leaf adds to a collection that began at entry `base` of the walk. */
  lemma AdvanceLeaf(nodes: seq<Node>, w: Walk, j: nat, leaf: Ptr, base: nat, start: nat)
    requires At(nodes, w, j, leaf) && leaf != NULL && start <= nodes[leaf].numKeys && base <= w.start[j] + start
    ensures j < |w.leaves| && At(nodes, w, j + 1, nodes[leaf].next)
    ensures w.start[j] + start <= w.start[j + 1] <= |w.vs|
    ensures w.vs[base..w.start[j] + start] +
            nodes[leaf].values[start..nodes[leaf].numKeys] == w.vs[base..w.start[j + 1]]
  {
  }

  /** Appends the values of one leaf until a key fails the comparison. */
  method AppendWhile(result: ResultBuffer, n: Node, comparison: Comparison, id: int)
    returns (stopped: bool, ghost taken: nat)
    requires result.Valid()
    modifies result, result.items
    ensures result.Valid() && (result.items == old(result.items) || fresh(result.items))
    ensures taken <= n.numKeys && result.Contents() == old(result.Contents()) + n.values[..taken]
    ensures forall i :: 0 <= i < taken ==> Compare(n.keys[i], comparison, id)
    ensures if stopped then taken < n.numKeys && !Compare(n.keys[taken], comparison, id) else taken == n.numKeys
  {
    for index := 0 to n.numKeys
      invariant result.Valid() && (result.items == old(result.items) || fresh(result.items))
      invariant result.Contents() == old(result.Contents()) + n.values[..index]
      invariant forall i :: 0 <= i < index ==> Compare(n.keys[i], comparison, id)
    {
      if !Compare(n.keys[index], comparison, id) {
        return true, index;
      }
      assert n.values[..index + 1] == n.values[..index] + [n.values[index]];
      result.Append(n.values[index]);
    }
    return false, n.numKeys;
  }

  /** Collects values from the start of the chain as long as their keys satisfy the comparison. */
  method CollectWhile(nodes: seq<Node>, leaf0: Ptr, comparison: Comparison, id: int, ghost w: Walk)
    returns (result: ResultBuffer, ghost cut: nat)
    requires At(nodes, w, 0, leaf0)
    ensures fresh(result) && fresh(result.items) && result.Valid()
    ensures cut <= |w.ks| == |w.vs| && result.Contents() == w.vs[..cut]
    ensures forall i :: 0 <= i < cut ==> Compare(w.ks[i], comparison, id)
    ensures cut < |w.ks| ==> !Compare(w.ks[cut], comparison, id)
  {
    result := new ResultBuffer();
    var leaf := leaf0;
    ghost var j := 0;
    while leaf != NULL
      invariant At(nodes, w, j, leaf)
      invariant fresh(result) && fresh(result.items) && result.Valid()
      invariant w.start[j] <= |w.ks| == |w.vs| && result.Contents() == w.vs[..w.start[j]]
      invariant forall i :: 0 <= i < w.start[j] ==> Compare(w.ks[i], comparison, id)
      decreases |w.leaves| - j
    {
      AtEnd(nodes, w, j, leaf);
      AtNext(nodes, w, j, leaf);
      var stopped, taken := AppendWhile(result, nodes[leaf], comparison, id);
      LeafTake(w, nodes[leaf], w.start[j], taken, comparison, id);
      if stopped {
        cut := w.start[j] + taken;
        return;
      }
      leaf := nodes[leaf].next;
      j := j + 1;
    }
    AtEnd(nodes, w, j, leaf);
    cut := w.start[j];
  }

  lemma LeafTake(w: Walk, n: Node, o: nat, taken: nat, comparison: Comparison, id: int)
    requires Covers(w, n, o) && taken <= n.numKeys
    requires forall i :: 0 <= i < o ==> Compare(w.ks[i], comparison, id)
    requires forall i :: 0 <= i < taken ==> Compare(n.keys[i], comparison, id)
    ensures w.vs[..o] + n.values[..taken] == w.vs[..o + taken]
    ensures forall i :: 0 <= i < o + taken ==> Compare(w.ks[i], comparison, id)
    ensures taken < n.numKeys ==> n.keys[taken] == w.ks[o + taken]
  {
    assert forall i :: 0 <= i < taken ==> n.values[i] == w.vs[o + i];
    forall i | o <= i < o + taken ensures Compare(w.ks[i], comparison, id) {
      assert n.keys[i - o] == w.ks[o + (i - o)];
    }
  }

  /** In a map that stores exactly the ids 1..n, the sorted listing is 1, 2, ..., n. */
  lemma {:induction false} ListsRange(ks: seq<int>, vs: seq<Value>, m: map<int, Value>, n: nat)
    requires Lists(ks, vs, m)
    requires forall k :: k in m <==> 1 <= k <= n
    ensures |ks| == n && forall i :: 0 <= i < n ==> ks[i] == i + 1 && vs[i] == m[i + 1]
  {
    RangeLow(ks, |ks|);
    if |ks| > 0 {
      assert ks[|ks| - 1] in m;
    }
    if |ks| < n {
      assert n in m && n in ks;
      var i :| 0 <= i < |ks| && ks[i] == n;
      RangeUp(ks, n, i);
    }
    forall i | 0 <= i < |ks| ensures ks[i] == i + 1 {
      RangeUp(ks, n, i);
    }
  }

  /** Sorted positive keys grow at least as fast as their positions. */
  lemma {:induction false} RangeLow(ks: seq<int>, j: nat)
    requires Sorted(ks) && j <= |ks| && forall i :: 0 <= i < |ks| ==> 1 <= ks[i]
    ensures forall i :: 0 <= i < j ==> i + 1 <= ks[i]
  {
    if j > 0 {
      RangeLow(ks, j - 1);
      if j > 1 {
        assert ks[j - 2] < ks[j - 1];
      }
    }
  }

  /** If every number in 1..n occurs in the sorted ks, position i holds at most i + 1. */
  lemma {:induction false} RangeUp(ks: seq<int>, n: nat, i: nat)
    requires Sorted(ks) && i < |ks|
    requires forall j :: 0 <= j < |ks| ==> 1 <= ks[j] <= n
    requires forall k :: 1 <= k <= n ==> k in ks
    ensures ks[i] <= i + 1
  {
    if ks[i] > 1 {
      var k := ks[i] - 1;
      assert k in ks;
      var j :| 0 <= j < |ks| && ks[j] == k;
      RangeUp(ks, n, j);
    }
  }

  /** Row i holds the record with id i + 1. */
  ghost predicate RowIds(rows: seq<Ref>, heap: seq<Record>) {
    && Resolved(rows, heap)
    && forall i :: 0 <= i < |rows| ==> heap[rows[i]].id == i + 1
  }

  /** The index maps exactly the ids 1..n, id i + 1 to row i. */
  ghost predicate Indexes(m: map<int, Value>, rows: seq<Ref>) {
    && (forall k :: k in m <==> 1 <= k <= |rows|)
    && (forall i {:trigger rows[i]} :: 0 <= i < |rows| ==> m[i + 1] == rows[i])
  }

  class Table {
    var nextId: int
    var rows: array<Ref>
    var size: nat
    var heap: seq<Record>
    const pkIndex: Tree

    ghost predicate Valid()
      reads this, rows, pkIndex
    {
      && size <= rows.Length
      && nextId == size + 1
      && RowIds(rows[..size], heap)
      && pkIndex.Valid()
      && Indexes(pkIndex.contents, rows[..size])
    }

    ghost function Rows(): (s: seq<Ref>)
      requires Valid()
      reads this, rows, pkIndex
      ensures Resolved(s, heap)
    {
      rows[..size]
    }

    constructor ()
      ensures Valid() && fresh(rows) && fresh(pkIndex) && Rows() == [] && heap == []
    {
      nextId, size, heap := 1, 0, [];
      rows := new Ref[0];
      pkIndex := new Tree();
    }

    /** Doubles the row array when it is full; the rows stay what they were. */
    method EnsureCapacity()
      requires Valid()
      modifies this`rows
      ensures Valid() && size < rows.Length && Rows() == old(Rows())
      ensures rows == old(rows) || fresh(rows)
    {
      ghost var before := rows[..size];
      if size < rows.Length {
        return;
      }
      var capacity := if rows.Length == 0 then 8 else rows.Length * 2;
      var grown := new Ref[capacity];
      forall i | 0 <= i < size {
        grown[i] := rows[i];
      }
      rows := grown;
      assert rows[..size] == before;
    }

    /** Stores one record under the next id; the index never refuses it. */
    method Insert(name: string, age: int) returns (record: Ref)
      requires Valid()
      modifies this, rows, pkIndex
      ensures Valid() && (rows == old(rows) || fresh(rows))
      ensures record == |old(heap)|
      ensures heap == old(heap) + [Record(old(nextId), StoredName(name), age)]
      ensures Rows() == old(Rows()) + [record] && nextId == old(nextId) + 1
    {
      EnsureCapacity();
      ghost var before, m, stored := Rows(), pkIndex.contents, heap;
      record := |heap|;
      heap := heap + [Record(0, "", 0)];
      heap := heap[record := heap[record].(id := nextId)];
      nextId := nextId + 1;
      heap := heap[record := heap[record].(name := StoredName(name))];
      heap := heap[record := heap[record].(age := age)];
      rows[size] := record;
      AppendKeeps(before, stored, m, Record(old(nextId), StoredName(name), age));
      assert heap == stored + [Record(old(nextId), StoredName(name), age)];
      var inserted := pkIndex.Insert(heap[record].id, record);
      if !inserted {
        assert false;
        return NULL;
      }
      size := size + 1;
      assert rows[..size] == before + [record];
    }

    /** Looks a record up through the index. */
    method FindById(id: int) returns (record: Ref)
      requires Valid()
      ensures record == FirstWithId(Rows(), heap, id)
    {
      record := pkIndex.Search(id);
      IndexAgrees(pkIndex.contents, rows[..size], heap, id);
    }

    /** Looks a record up by scanning the rows. */
    method ScanById(id: int) returns (record: Ref)
      requires Valid()
      ensures record == FirstWithId(Rows(), heap, id)
    {
      for index := 0 to size
        invariant FirstWithId(rows[..index], heap, id) == -1
      {
        assert rows[..index + 1][..index] == rows[..index];
        if heap[rows[index]].id == id {
          FirstPrefix(rows[..size], index + 1, heap, id);
          return rows[index];
        }
      }
      return NULL;
    }

    /** Copies all rows into a standalone result. */
    method CollectAll() returns (result: ResultBuffer)
      requires Valid()
      ensures fresh(result) && fresh(result.items) && result.Valid()
      ensures result.Contents() == Select(Rows(), heap, Everything)
    {
      result := new ResultBuffer();
      result.items := new Ref[size];
      forall i | 0 <= i < size {
        result.items[i] := rows[i];
      }
      result.count := size;
      SelectRange(Rows(), heap, Everything, 0, size);
      assert result.Contents() == rows[..size];
    }

    /** Collects the rows that satisfy a condition by a linear scan. */
    method ScanWhere(c: Condition) returns (result: ResultBuffer)
      requires Valid()
      ensures fresh(result) && fresh(result.items) && result.Valid()
      ensures result.Contents() == Select(Rows(), heap, c)
    {
      result := new ResultBuffer();
      for index := 0 to size
        invariant fresh(result) && fresh(result.items) && result.Valid()
        invariant result.Contents() == SelectTo(rows[..size], heap, c, index)
      {
        if Matches(heap[rows[index]], c) {
          result.Append(rows[index]);
        }
      }
    }

    /** Walks down the first children to the leftmost leaf. */
    method FindLeftmostLeaf() returns (node: Ptr)
      requires Valid()
      ensures pkIndex.root == NULL <==> node == NULL
      ensures node != NULL ==>
                && 0 <= node < |pkIndex.nodes| == |pkIndex.spans| && pkIndex.nodes[node].isLeaf
                && pkIndex.spans[node].lo == NegInf
    {
      if pkIndex.root == NULL {
        return NULL;
      }
      ghost var a := pkIndex.Arena();
      node := pkIndex.root;
      assert NodeOk(a, Settled, node);
      while !pkIndex.nodes[node].isLeaf
        invariant Live(a, node) && a.spans[node].lo == NegInf
        decreases a.spans[node].height
      {
        assert NodeOk(a, Settled, node);
        assert KidOk(a, Settled, node, 0);
        assert a.nodes[node] == View(pkIndex.nodes[node]);
        node := pkIndex.nodes[node].children[0];
      }
    }

    /** The walk of the index: ids 1, 2, ... in order, each with its row. */
    ghost method IndexWalk() returns (w: Walk)
      requires Valid() && pkIndex.root != NULL
      ensures IsLeafChain(pkIndex.Arena(), w.leaves) && Adjacent(pkIndex.Arena(), w.leaves) && Walks(pkIndex.nodes, w)
      ensures |w.ks| == |w.vs| == size && w.vs == Rows() && forall i :: 0 <= i < size ==> w.ks[i] == i + 1
    {
      w := TreeWalk(pkIndex.nodes, pkIndex.Arena(), pkIndex.contents);
      ListsRange(w.ks, w.vs, pkIndex.contents, size);
      assert w.vs == rows[..size];
    }

    /** Records with id above (or at least) a bound, collected through the index. */
    method FindFromId(comparison: Comparison, id: int) returns (result: ResultBuffer)
      requires Valid() && (comparison == Gt || comparison == Ge)
      ensures fresh(result) && fresh(result.items) && result.Valid()
      ensures result.Contents() == Select(Rows(), heap, IdIs(comparison, id))
    {
      var leaf := pkIndex.FindLeaf(id);
      if leaf == NULL {
        result := new ResultBuffer();
        EmptyIndex(pkIndex.contents, rows[..size]);
        return;
      }
      result := CollectFrom(comparison, id, leaf);
    }

    /** Collects the records above (or at least) id, starting in the leaf responsible for id. */
    method CollectFrom(comparison: Comparison, id: int, leaf: Ptr) returns (result: ResultBuffer)
      requires Valid() && pkIndex.root != NULL && (comparison == Gt || comparison == Ge)
      requires 0 <= leaf < |pkIndex.nodes| == |pkIndex.spans| && pkIndex.nodes[leaf].isLeaf
      requires InSpan(id, pkIndex.spans[leaf])
      ensures fresh(result) && fresh(result.items) && result.Valid()
      ensures result.Contents() == Select(Rows(), heap, IdIs(comparison, id))
    {
      hide RowIds, Indexes, Select;
      ghost var w := IndexWalk();
      var first, index, j := SeekFrom(comparison, id, leaf, w);
      RangeSuffix(Rows(), heap, w.ks, comparison, id, w.start[j] + index);
      AtEnd(pkIndex.nodes, w, j, first);
      if first == NULL {
        result := new ResultBuffer();
      } else {
        result := CollectLeafChain(pkIndex.nodes, first, index, w, j);
      }
    }

    /** Finds the first entry above (or at least) id, starting in the leaf responsible for id. */
    method SeekFrom(comparison: Comparison, id: int, leaf: Ptr, ghost w: Walk)
      returns (first: Ptr, index: nat, ghost j: nat)
      requires Valid() && pkIndex.root != NULL && (comparison == Gt || comparison == Ge)
      requires IsLeafChain(pkIndex.Arena(), w.leaves) && Adjacent(pkIndex.Arena(), w.leaves) && Walks(pkIndex.nodes, w)
      requires 0 <= leaf < |pkIndex.nodes| == |pkIndex.spans| && pkIndex.nodes[leaf].isLeaf &&
               InSpan(id, pkIndex.spans[leaf])
      ensures At(pkIndex.nodes, w, j, first)
      ensures first != NULL ==> index < pkIndex.nodes[first].numKeys
      ensures CutsAt(w.ks, w.start[j] + index, if comparison == Gt then id + 1 else id)
    {
      j := LeafPosition(pkIndex.Arena(), w, pkIndex.nodes, leaf);
      index := FindInsertIndex(pkIndex.nodes[leaf].keys, pkIndex.nodes[leaf].numKeys, id);
      LeafCut(pkIndex.nodes, pkIndex.Arena(), w, j, id, index);
      if comparison == Gt {
        first, index, j := SkipUpTo(pkIndex.nodes, leaf, index, id, w, j);
      } else {
        first, index, j := SkipEmpty(pkIndex.nodes, leaf, index, w, j);
      }
    }

    /** Records with id below (or at most) a bound, collected through the index. */
    method FindToId(comparison: Comparison, id: int) returns (result: ResultBuffer)
      requires Valid() && (comparison == Lt || comparison == Le)
      ensures fresh(result) && fresh(result.items) && result.Valid()
      ensures result.Contents() == Select(Rows(), heap, IdIs(comparison, id))
    {
      hide RowIds, Indexes;
      var leaf := FindLeftmostLeaf();
      if leaf == NULL {
        result := new ResultBuffer();
        EmptyIndex(pkIndex.contents, rows[..size]);
        return;
      }
      ghost var w := IndexWalk();
      LeftmostIsFirst(pkIndex.Arena(), w.leaves, leaf);
      assert WalkStep(pkIndex.nodes, w, 0) && WalkStep(pkIndex.nodes, w, |w.leaves| - 1);
      ghost var cut;
      result, cut := CollectWhile(pkIndex.nodes, leaf, comparison, id, w);
      RangePrefix(Rows(), heap, w.ks, comparison, id, cut);
    }

    /** The record with a given id, if any, as a result. */
    method FindEqualId(id: int) returns (result: ResultBuffer)
      requires Valid()
      ensures fresh(result) && fresh(result.items) && result.Valid()
      ensures result.Contents() == Select(Rows(), heap, IdIs(Eq, id))
    {
      hide RowIds, Indexes, Select;
      SelectById(Rows(), heap, id);
      var record := FindById(id);
      result := new ResultBuffer();
      if record != NULL {
        result.Append(record);
      }
    }

    /** Every record whose id satisfies the comparison: the index agrees with a scan of the rows. */
    method FindByIdCondition(comparison: Comparison, id: int) returns (result: ResultBuffer)
      requires Valid()
      ensures fresh(result) && fresh(result.items) && result.Valid()
      ensures result.Contents() == Select(Rows(), heap, IdIs(comparison, id))
    {
      if comparison == Eq {
        result := FindEqualId(id);
      } else if comparison == Gt || comparison == Ge {
        result := FindFromId(comparison, id);
      } else {
        result := FindToId(comparison, id);
      }
    }
  }

  lemma EmptyIndex(m: map<int, Value>, rows: seq<Ref>)
    requires Indexes(m, rows) && m == map[]
    ensures rows == []
  {
    assert 1 in m <==> 1 <= 1 <= |rows|;
  }

  lemma LeafPosition(a: Arena, w: Walk, nodes: seq<Node>, leaf: Ptr) returns (j: nat)
    requires IsLeafChain(a, w.leaves) && Walks(nodes, w) && Live(a, leaf) && a.nodes[leaf].leaf
    ensures j < |w.leaves| && w.leaves[j] == leaf && At(nodes, w, j, leaf)
  {
    j :| 0 <= j < |w.leaves| && w.leaves[j] == leaf;
    assert WalkStep(nodes, w, j) && WalkStep(nodes, w, |w.leaves| - 1);
  }

  lemma SelectById(rows: seq<Ref>, heap: seq<Record>, id: int)
    requires RowIds(rows, heap)
    ensures var r := FirstWithId(rows, heap, id);
            Select(rows, heap, IdIs(Eq, id)) == if r == -1 then [] else [r]
  {
    var r := FirstWithId(rows, heap, id);
    if r == -1 {
      SelectRange(rows, heap, IdIs(Eq, id), |rows|, |rows|);
    } else {
      var i :| 0 <= i < |rows| && rows[i] == r;
      SelectRange(rows, heap, IdIs(Eq, id), i, i + 1);
    }
  }

  lemma RangeSuffix(rows: seq<Ref>, heap: seq<Record>, ks: seq<int>, comparison: Comparison, id: int, cut: nat)
    requires RowIds(rows, heap) && |ks| == |rows| && forall i :: 0 <= i < |ks| ==> ks[i] == i + 1
    requires (comparison == Gt && CutsAt(ks, cut, id + 1)) || (comparison == Ge && CutsAt(ks, cut, id))
    ensures cut <= |rows| && Select(rows, heap, IdIs(comparison, id)) == rows[cut..]
  {
    forall i | 0 <= i < |rows| ensures Matches(heap[rows[i]], IdIs(comparison, id)) <==> cut <= i {
      assert heap[rows[i]].id == ks[i];
    }
    SelectRange(rows, heap, IdIs(comparison, id), cut, |rows|);
  }

  lemma RangePrefix(rows: seq<Ref>, heap: seq<Record>, ks: seq<int>, comparison: Comparison, id: int, cut: nat)
    requires RowIds(rows, heap) && |ks| == |rows| && forall i :: 0 <= i < |ks| ==> ks[i] == i + 1
    requires (comparison == Lt || comparison == Le) && cut <= |ks|
    requires forall i :: 0 <= i < cut ==> Compare(ks[i], comparison, id)
    requires cut < |ks| ==> !Compare(ks[cut], comparison, id)
    ensures Select(rows, heap, IdIs(comparison, id)) == rows[..cut]
  {
    forall i | 0 <= i < |rows| ensures Matches(heap[rows[i]], IdIs(comparison, id)) <==> i < cut {
      assert heap[rows[i]].id == ks[i];
    }
    SelectRange(rows, heap, IdIs(comparison, id), 0, cut);
  }

  /** Appending a record under the next free id keeps rows and index in step. */
  lemma AppendKeeps(rows: seq<Ref>, heap: seq<Record>, m: map<int, Value>, r: Record)
    requires RowIds(rows, heap) && Indexes(m, rows) && r.id == |rows| + 1
    ensures r.id !in m
    ensures RowIds(rows + [|heap|], heap + [r]) && Indexes(m[r.id := |heap|], rows + [|heap|])
  {
  }

  /** The index and a scan of the rows agree on every id. */
  lemma IndexAgrees(m: map<int, Value>, rows: seq<Ref>, heap: seq<Record>, id: int)
    requires RowIds(rows, heap) && Indexes(m, rows)
    ensures FirstWithId(rows, heap, id) == if id in m then m[id] else NULL
  {
    if id in m {
      assert heap[rows[id - 1]].id == id;
      var r := FirstWithId(rows, heap, id);
      var i :| 0 <= i < |rows| && rows[i] == r;
      assert i == id - 1;
      assert m[i + 1] == rows[i];
    }
  }

  lemma {:induction false} FirstPrefix(rows: seq<Ref>, n: nat, heap: seq<Record>, id: int)
    requires Resolved(rows, heap) && n <= |rows| && FirstWithId(rows[..n], heap, id) != -1
    ensures FirstWithId(rows, heap, id) == FirstWithId(rows[..n], heap, id)
    decreases |rows|
  {
    if n < |rows| {
      var front := rows[..|rows| - 1];
      assert front[..n] == rows[..n];
      FirstPrefix(front, n, heap, id);
    } else {
      assert rows[..n] == rows;
    }
  }
}
