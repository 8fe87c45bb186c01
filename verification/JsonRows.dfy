/** The JSON body of a row set, rendered into a buffer whose size is computed before the rows are written. */
module JsonRows {
  import opened Records
  import opened SqlText
  import opened Json
  import opened Decimals

  const ULONG_MAX: int := 0xFFFF_FFFF_FFFF_FFFF

  function Pow10(k: nat): nat {
    if k == 0 then 1 else 10 * Pow10(k - 1)
  }

  lemma {:induction false} DecimalLength(n: nat, k: nat)
    requires k >= 1 && n < Pow10(k)
    ensures 1 <= |Decimal(n)| <= k
  {
    if n >= 10 {
      assert k > 1;
      DecimalLength(n / 10, k - 1);
    }
  }

  lemma IntLength(n: int)
    requires -INT_MAX - 1 <= n <= INT_MAX
    ensures |SignedDecimal(n)| <= 11
  {
    assert Pow10(10) == 10_000_000_000 by {
      assert Pow10(5) == 100_000;
      assert Pow10(7) == 10_000_000;
    }
    DecimalLength(if n < 0 then -n else n, 10);
  }

  lemma LongLength(n: nat)
    requires n <= ULONG_MAX
    ensures |Decimal(n)| <= 20
  {
    assert Pow10(5) == 100_000;
    assert Pow10(10) == 10_000_000_000 by { assert Pow10(7) == 10_000_000; }
    assert Pow10(12) == 1_000_000_000_000;
    assert Pow10(15) == 1_000_000_000_000_000 by { assert Pow10(14) == 100_000_000_000_000; }
    assert Pow10(18) == 1_000_000_000_000_000_000 by { assert Pow10(17) == 100_000_000_000_000_000; }
    assert Pow10(20) == 100_000_000_000_000_000_000;
    DecimalLength(n, 20);
  }

  // ------------------------------------------------------------------ the text

  function Header(count: nat, usedIndex: bool): string {
    "{\"ok\":true," + ("\"status\":\"ok\"," + ("\"action\":\"select\"," + ("\"rowCount\":" + (Decimal(count)
    + (",\"usedIndex\":" + ((if usedIndex then "true" else "false") + ",\"rows\":["))))))
  }

  function RowText(r: Record, first: bool): string {
    (if first then "" else ",") + "{\"id\":" + SignedDecimal(r.id) + ",\"name\":\"" + Escaped(r.name)
    + "\",\"age\":" + SignedDecimal(r.age) + "}"
  }

  /** The texts of the first n rows, one after the other. */
  function Pieces(rows: seq<Record>, row: (Record, bool) -> string, n: nat): string
    requires n <= |rows|
  {
    if n == 0 then "" else Pieces(rows, row, n - 1) + row(rows[n - 1], n == 1)
  }

  function Body(rows: seq<Record>, usedIndex: bool): string {
    Header(|rows|, usedIndex) + Pieces(rows, RowText, |rows|) + "]}"
  }

  /** The size computed in advance for the first n rows. */
  function Capacity(rows: seq<Record>, n: nat): nat
    requires n <= |rows|
  {
    if n == 0 then 160 else Capacity(rows, n - 1) + 6 * |rows[n - 1].name| + 96
  }

  function NameLengths(rows: seq<Record>): nat {
    if rows == [] then 0 else NameLengths(rows[..|rows| - 1]) + |rows[|rows| - 1].name|
  }

  /** The capacity in closed form. */
  lemma {:induction false} CapacityMeans(rows: seq<Record>, n: nat)
    requires n <= |rows|
    ensures Capacity(rows, n) == 160 + 6 * NameLengths(rows[..n]) + 96 * n
  {
    if n > 0 {
      CapacityMeans(rows, n - 1);
      assert rows[..n][..n - 1] == rows[..n - 1];
    }
  }

  /** Records as C can hold them. */
  predicate Representable(rows: seq<Record>) {
    && |rows| <= ULONG_MAX
    && forall i :: 0 <= i < |rows| ==>
         -INT_MAX - 1 <= rows[i].id <= INT_MAX && -INT_MAX - 1 <= rows[i].age <= INT_MAX
  }

  lemma HeaderLength(count: nat, usedIndex: bool)
    requires count <= ULONG_MAX
    ensures |Header(count, usedIndex)| <= 101
  {
    LongLength(count);
  }

  lemma RowLength(r: Record, first: bool)
    requires -INT_MAX - 1 <= r.id <= INT_MAX && -INT_MAX - 1 <= r.age <= INT_MAX
    ensures |RowText(r, first)| <= 6 * |r.name| + 47
  {
    IntLength(r.id);
    IntLength(r.age);
    EscapedLength(r.name);
  }

  lemma {:induction false} CapacityGrows(rows: seq<Record>, n: nat)
    requires n <= |rows|
    ensures Capacity(rows, n) <= Capacity(rows, |rows|)
    decreases |rows| - n
  {
    if n < |rows| {
      CapacityGrows(rows, n + 1);
    }
  }

  /** No row text is longer than its share of the capacity. */
  ghost predicate Modest(rows: seq<Record>, row: (Record, bool) -> string) {
    forall i, first {:trigger row(rows[i], first)} :: 0 <= i < |rows| ==>
        |row(rows[i], first)| <= 6 * |rows[i].name| + 96
  }

  /** Header, n rows, closing brackets and terminator always fit what was reserved for n rows. */
  lemma {:induction false} PrefixFits(rows: seq<Record>, row: (Record, bool) -> string, h: nat, n: nat)
    requires Modest(rows, row) && n <= |rows| && h + 3 <= 160
    ensures h + |Pieces(rows, row, n)| + 3 <= Capacity(rows, n) <= Capacity(rows, |rows|)
  {
    CapacityGrows(rows, n);
    if n > 0 {
      PrefixFits(rows, row, h, n - 1);
    }
  }

  lemma RowsModest(rows: seq<Record>)
    requires Representable(rows)
    ensures Modest(rows, RowText)
  {
    forall i, first | 0 <= i < |rows| ensures |RowText(rows[i], first)| <= 6 * |rows[i].name| + 96 {
      RowLength(rows[i], first);
    }
  }

  /** For any rows the finished body and its terminator fit the precomputed capacity. */
  lemma BodyFits(rows: seq<Record>, usedIndex: bool)
    requires Representable(rows)
    ensures |Body(rows, usedIndex)| + 1 <= Capacity(rows, |rows|)
  {
    HeaderLength(|rows|, usedIndex);
    RowsModest(rows);
    PrefixFits(rows, RowText, |Header(|rows|, usedIndex)|, |rows|);
  }

  // ------------------------------------------------------------------- the code

  /** snprintf into what is left of a buffer: truncates if it must, and returns the untruncated length. */
  method Print(buffer: array<char>, offset: nat, text: string) returns (written: nat)
    requires offset < buffer.Length
    modifies buffer
    ensures written == |text|
    ensures buffer[..offset] == old(buffer[..offset])
    ensures offset + |text| < buffer.Length ==>
            buffer[..offset + |text|] == old(buffer[..offset]) + text && buffer[offset + |text|] == '\0'
  {
    var room := buffer.Length - offset - 1;
    var n := if |text| <= room then |text| else room;
    for i := 0 to n
      invariant buffer[..offset + i] == old(buffer[..offset]) + text[..i]
    {
      buffer[offset + i] := text[i];
    }
    assert n == |text| ==> text[..n] == text;
    buffer[offset + n] := '\0';
    assert buffer[..offset] == buffer[..offset + n][..offset];
    written := |text|;
  }

  method ComputeCapacity(rows: seq<Record>) returns (capacity: nat)
    ensures capacity == Capacity(rows, |rows|) == 160 + 6 * NameLengths(rows) + 96 * |rows|
  {
    capacity := 160;
    for index := 0 to |rows|
      invariant capacity == Capacity(rows, index)
    {
      capacity := capacity + |rows[index].name| * 6 + 96;
    }
    CapacityMeans(rows, |rows|);
    assert rows[..|rows|] == rows;
  }

  /** Prints header, rows and closing brackets; the running offset never passes the capacity. */
  method PrintAll(header: string, rows: seq<Record>, row: (Record, bool) -> string)
    returns (body: array<char>, offset: nat)
    requires Modest(rows, row) && |header| + 3 <= 160
    ensures fresh(body) && body.Length == Capacity(rows, |rows|) && offset < body.Length
    ensures body[..offset] == header + Pieces(rows, row, |rows|) + "]}" && body[offset] == '\0'
  {
    var capacity := ComputeCapacity(rows);
    PrefixFits(rows, row, |header|, 0);
    body := new char[capacity];
    var written := Print(body, 0, header);
    assert body[..written] == header;
    offset := PrintRows(body, written, rows, row);
    written := Print(body, offset, "]}");
    offset := offset + written;
  }

  lemma PiecesJoin(a: string, b: string, c: string)
    ensures a + b + c == a + (b + c)
  {
  }

  /** Prints a text for which there is room. */
  method PrintWhole(body: array<char>, offset: nat, text: string) returns (next: nat)
    requires offset + |text| < body.Length
    modifies body
    ensures next == offset + |text| && body[..next] == old(body[..offset]) + text
  {
    var written := Print(body, offset, text);
    next := offset + written;
  }

  lemma PiecesGrow(rows: seq<Record>, row: (Record, bool) -> string, n: nat)
    requires n < |rows|
    ensures Pieces(rows, row, n + 1) == Pieces(rows, row, n) + row(rows[n], n == 0)
    ensures Pieces(rows, row, 0) == ""
  {
  }

  /** The loop over the rows, after a header of the given length. */
  method PrintRows(body: array<char>, start: nat, rows: seq<Record>, row: (Record, bool) -> string)
    returns (offset: nat)
    requires Modest(rows, row) && start + 3 <= 160 && body.Length == Capacity(rows, |rows|) && start < body.Length
    modifies body
    ensures offset + 3 <= body.Length && body[..offset] == old(body[..start]) + Pieces(rows, row, |rows|)
  {
    offset := start;
    PrefixFits(rows, row, start, 0);
    assert Pieces(rows, row, 0) == "";
    hide Pieces, Capacity, Modest;
    ghost var header := body[..start];
    for index := 0 to |rows|
      invariant offset == start + |Pieces(rows, row, index)| && offset + 3 <= body.Length
      invariant body[..offset] == header + Pieces(rows, row, index)
    {
      PrefixFits(rows, row, start, index + 1);
      PiecesGrow(rows, row, index);
      var text := row(rows[index], index == 0);
      PiecesJoin(header, Pieces(rows, row, index), text);
      offset := PrintWhole(body, offset, text);
    }
  }
}
