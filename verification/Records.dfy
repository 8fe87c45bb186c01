/** Records, comparisons, and the row-by-row meaning of a query on the users table. */
module Records {

  type Ref = int

  const NAME_SIZE: nat := 64

  datatype Record = Record(id: int, name: string, age: int)

  datatype Comparison = Eq | Lt | Le | Gt | Ge

  predicate Compare(left: int, comparison: Comparison, right: int) {
    match comparison
    case Eq => left == right
    case Lt => left < right
    case Le => left <= right
    case Gt => left > right
    case Ge => left >= right
  }

  /** What fits in a record's name field, leaving room for the terminator. */
  function StoredName(name: string): (r: string)
    ensures |name| < 64 ==> r == name
    ensures |name| >= 64 ==> r == name[..63]
  {
    if |name| < NAME_SIZE then name else name[..NAME_SIZE - 1]
  }

  datatype Condition =
    | Everything
    | IdIs(idOp: Comparison, id: int)
    | NameIs(name: string)
    | AgeIs(ageOp: Comparison, age: int)

  predicate Matches(r: Record, c: Condition) {
    match c
    case Everything => true
    case IdIs(op, v) => Compare(r.id, op, v)
    case NameIs(s) => r.name == s
    case AgeIs(op, v) => Compare(r.age, op, v)
  }

  predicate Resolved(rows: seq<Ref>, heap: seq<Record>) {
    forall i :: 0 <= i < |rows| ==> 0 <= rows[i] < |heap|
  }

  /** The rows among the first n that satisfy c, in row order. */
  function SelectTo(rows: seq<Ref>, heap: seq<Record>, c: Condition, n: nat): (r: seq<Ref>)
    requires Resolved(rows, heap) && n <= |rows|
  {
    if n == 0 then [] else
    SelectTo(rows, heap, c, n - 1) + if Matches(heap[rows[n - 1]], c) then [rows[n - 1]] else []
  }

  /** All rows that satisfy c, in row order: the plain scan every access path must agree with. */
  function Select(rows: seq<Ref>, heap: seq<Record>, c: Condition): (r: seq<Ref>)
    requires Resolved(rows, heap)
  {
    SelectTo(rows, heap, c, |rows|)
  }

  /** The first row with the given id, or -1. */
  function FirstWithId(rows: seq<Ref>, heap: seq<Record>, id: int): (r: Ref)
    requires Resolved(rows, heap)
    ensures r == -1 <==> forall i :: 0 <= i < |rows| ==> heap[rows[i]].id != id
    ensures r != -1 ==> 0 <= r < |heap| && heap[r].id == id
    ensures r != -1 ==> exists i :: 0 <= i < |rows| && rows[i] == r && forall j :: 0 <= j < i ==> heap[rows[j]].id != id
  {
    if rows == [] then -1 else
    var before := FirstWithId(rows[..|rows| - 1], heap, id);
    if before != -1 then before
    else if heap[rows[|rows| - 1]].id == id then rows[|rows| - 1]
    else -1
  }

  /** If exactly the rows lo..hi satisfy c, selecting c yields that block. */
  lemma SelectRange(rows: seq<Ref>, heap: seq<Record>, c: Condition, lo: nat, hi: nat)
    requires Resolved(rows, heap) && lo <= hi <= |rows|
    requires forall i :: 0 <= i < |rows| ==> (Matches(heap[rows[i]], c) <==> lo <= i < hi)
    ensures Select(rows, heap, c) == rows[lo..hi]
  {
    SelectRangeTo(rows, heap, c, lo, hi, |rows|);
  }

  lemma {:induction false} SelectRangeTo(rows: seq<Ref>, heap: seq<Record>, c: Condition, lo: nat, hi: nat, n: nat)
    requires Resolved(rows, heap) && lo <= hi <= |rows| && n <= |rows|
    requires forall i :: 0 <= i < |rows| ==> (Matches(heap[rows[i]], c) <==> lo <= i < hi)
    ensures SelectTo(rows, heap, c, n) == Block(rows, lo, hi, n)
  {
    if n > 0 {
      SelectRangeTo(rows, heap, c, lo, hi, n - 1);
      BlockGrows(rows, lo, hi, n);
    }
  }

  /** The part of the block lo..hi that lies in the first n rows. */
  function Block(rows: seq<Ref>, lo: nat, hi: nat, n: nat): seq<Ref>
    requires lo <= hi <= |rows| && n <= |rows|
  {
    if n <= lo then [] else if n <= hi then rows[lo..n] else rows[lo..hi]
  }

  lemma BlockGrows(rows: seq<Ref>, lo: nat, hi: nat, n: nat)
    requires lo <= hi <= |rows| && 0 < n <= |rows|
    ensures Block(rows, lo, hi, n) == Block(rows, lo, hi, n - 1) + if lo <= n - 1 < hi then [rows[n - 1]] else []
  {
  }

  /** A selection names stored records only. */
  lemma {:induction false} SelectResolved(rows: seq<Ref>, heap: seq<Record>, c: Condition, n: nat)
    requires Resolved(rows, heap) && n <= |rows|
    ensures Resolved(SelectTo(rows, heap, c, n), heap)
  {
    if n > 0 {
      SelectResolved(rows, heap, c, n - 1);
    }
  }
}
