/**
 The SQL executor: which statement a text denotes, what that statement does to
 the users table, and the code that parses and executes in one pass.
 */
module Sql {
  import opened Records
  import opened SqlText
  import opened Users

  const IDENTIFIER_SIZE: nat := 32

  datatype Status = StatusOk | NotFound | SyntaxError | QueryError | Exit | Error

  datatype SqlAction = NoAction | Inserted | SelectedRows

  datatype SqlResult = SqlResult(status: Status, action: SqlAction, records: seq<Ref>, insertedId: int, rowCount: nat)

  function Failed(status: Status): SqlResult {
    SqlResult(status, NoAction, [], 0, 0)
  }

  datatype Statement =
    | ExitStatement
    | Rejected(why: Status)
    | InsertStatement(name: string, age: int)
    | SelectStatement(condition: Condition)

  // ---------------------------------------------------------------- parsing

  function ParseStatement(s: string): Statement {
    var start := SpacesEnd(s, 0);
    var exit :=
      if KeywordEnd(s, start, "EXIT").Some? then KeywordEnd(s, start, "EXIT") else KeywordEnd(s, start, "QUIT");
    if exit.Some? then
      if StatementEnd(s, exit.value).0 then ExitStatement else Rejected(SyntaxError)
    else if KeywordEnd(s, 0, "INSERT").Some? then
      ParseInsert(s, KeywordEnd(s, 0, "INSERT").value)
    else if KeywordEnd(s, 0, "SELECT").Some? then
      ParseSelect(s, KeywordEnd(s, 0, "SELECT").value)
    else
      Rejected(SyntaxError)
  }

  /** The rest of an INSERT, from just after the keyword. */
  function ParseInsert(s: string, i: nat): (r: Statement)
    requires i <= |s|
    ensures !r.SelectStatement? && !r.ExitStatement?
  {
    var into := KeywordEnd(s, SpacesEnd(s, i), "INTO");
    if into.None? then Rejected(SyntaxError) else
    var table := IdentifierAt(s, into.value, IDENTIFIER_SIZE);
    if table.None? || !SameWord(table.value.0, "users") then Rejected(SyntaxError) else
    var values := KeywordEnd(s, SpacesEnd(s, table.value.1), "VALUES");
    if values.None? then Rejected(SyntaxError) else
    ParseValues(s, values.value)
  }

  /** The parenthesised values and the end of an INSERT. */
  function ParseValues(s: string, i: nat): (r: Statement)
    requires i <= |s|
    ensures !r.SelectStatement? && !r.ExitStatement?
  {
    var open := CharAt(s, i, '(');
    if open.None? then Rejected(SyntaxError) else
    var name := StringAt(s, open.value, NAME_SIZE);
    if name.None? then Rejected(SyntaxError) else
    var comma := CharAt(s, name.value.1, ',');
    if comma.None? then Rejected(SyntaxError) else ParseAge(s, comma.value, name.value.0)
  }

  /** The age, the closing parenthesis and the end of an INSERT. */
  function ParseAge(s: string, i: nat, name: string): (r: Statement)
    requires i <= |s|
    ensures !r.SelectStatement? && !r.ExitStatement?
  {
    var age := IntAt(s, i);
    if age.None? then Rejected(SyntaxError) else
    var close := CharAt(s, age.value.1, ')');
    if close.None? || !StatementEnd(s, close.value).0 then Rejected(SyntaxError) else
    InsertStatement(name, age.value.0)
  }

  datatype Column = IdColumn | NameColumn | AgeColumn | UnknownColumn

  function ColumnOf(word: string): Column {
    if SameWord(word, "id") then IdColumn
    else if SameWord(word, "name") then NameColumn
    else if SameWord(word, "age") then AgeColumn
    else UnknownColumn
  }

  /** Either a refusal, or the position to go on from. */
  datatype Head = Stop(why: Status) | Go(at: nat)

  /** The rest of a SELECT, from just after the keyword. */
  function ParseSelect(s: string, i: nat): (r: Statement)
    requires i <= |s|
    ensures !r.InsertStatement? && !r.ExitStatement?
  {
    match SelectHead(s, i)
    case Stop(why) => Rejected(why)
    case Go(j) => ParseFilter(s, j)
  }

  /** The select list, FROM and the table name. */
  function SelectHead(s: string, i: nat): (r: Head)
    requires i <= |s|
    ensures r.Go? ==> r.at <= |s|
  {
    var star := CharAt(s, SpacesEnd(s, i), '*');
    if star.None? then
      var column := IdentifierAt(s, SpacesEnd(s, i), IDENTIFIER_SIZE);
      Stop(if column.Some? && ColumnOf(column.value.0) == UnknownColumn then QueryError else SyntaxError)
    else
    var from := KeywordEnd(s, SpacesEnd(s, star.value), "FROM");
    if from.None? then Stop(SyntaxError) else
    var table := IdentifierAt(s, from.value, IDENTIFIER_SIZE);
    if table.None? || !SameWord(table.value.0, "users") then Stop(SyntaxError) else Go(table.value.1)
  }

  /** What follows the table name of a SELECT: the end, or WHERE and a condition. */
  function ParseFilter(s: string, i: nat): (r: Statement)
    requires i <= |s|
    ensures !r.InsertStatement? && !r.ExitStatement?
  {
    var end := StatementEnd(s, SpacesEnd(s, i));
    if end.0 then SelectStatement(Everything) else
    var where := KeywordEnd(s, end.1, "WHERE");
    if where.None? then Rejected(SyntaxError) else ParseWhere(s, where.value)
  }

  /** The condition after WHERE. */
  function ParseWhere(s: string, i: nat): (r: Statement)
    requires i <= |s|
    ensures !r.InsertStatement? && !r.ExitStatement?
  {
    var head := WhereHead(s, i);
    if head.None? then Rejected(SyntaxError) else ParseCondition(s, head.value.2, head.value.0, head.value.1)
  }

  /** The column and the comparison, and where the value begins. */
  function WhereHead(s: string, i: nat): (r: Option<(Column, Comparison, nat)>)
    requires i <= |s|
    ensures r.Some? ==> r.value.2 <= |s|
  {
    var column := IdentifierAt(s, i, IDENTIFIER_SIZE);
    if column.None? then None else
    var comparison := ComparisonAt(s, column.value.1);
    if comparison.None? then None else Some((ColumnOf(column.value.0), comparison.value.0, comparison.value.1))
  }

  /** The value of a condition on a given column, and the end of the statement. */
  function ParseCondition(s: string, i: nat, column: Column, op: Comparison): (r: Statement)
    requires i <= |s|
    ensures !r.InsertStatement? && !r.ExitStatement?
  {
    match column
    case UnknownColumn => Rejected(QueryError)
    case NameColumn =>
      if op != Eq then Rejected(SyntaxError) else
      var v := StringAt(s, i, NAME_SIZE);
      if v.None? || !StatementEnd(s, v.value.1).0 then Rejected(SyntaxError) else SelectStatement(NameIs(v.value.0))
    case _ =>
      var v := IntAt(s, i);
      if v.None? || !StatementEnd(s, v.value.1).0 then Rejected(SyntaxError)
      else
        var number := v.value.0;
        SelectStatement(if column == IdColumn then IdIs(op, number) else AgeIs(op, number))
  }

  // --------------------------------------------------------------- meaning

  /** The table as a value: row references in order, and the records they name. */
  datatype Db = Db(rows: seq<Ref>, heap: seq<Record>)

  ghost predicate DbOk(db: Db) {
    RowIds(db.rows, db.heap)
  }

  /** The table after a statement. */
  ghost function Effect(db: Db, st: Statement): (r: Db)
    requires DbOk(db)
    ensures DbOk(r) && db.heap <= r.heap && db.rows <= r.rows
    ensures !st.InsertStatement? ==> r == db
  {
    match st
    case InsertStatement(name, age) =>
      Db(db.rows + [|db.heap|], db.heap + [Record(|db.rows| + 1, StoredName(name), age)])
    case _ => db
  }

  /** The result of a statement. */
  ghost function Answer(db: Db, st: Statement): SqlResult
    requires DbOk(db)
  {
    match st
    case ExitStatement => Failed(Exit)
    case Rejected(why) => Failed(why)
    case InsertStatement(_, _) => SqlResult(StatusOk, Inserted, [], |db.rows| + 1, 1)
    case SelectStatement(c) =>
      var found := Select(db.rows, db.heap, c);
      SqlResult(if found == [] && c != Everything then NotFound else StatusOk, SelectedRows, found, 0, |found|)
  }

  /** What an INSERT stores is found again, and alone, under the id it reported. */
  lemma InsertedIsFound(db: Db, name: string, age: int)
    requires DbOk(db)
    ensures var after := Effect(db, InsertStatement(name, age));
            var id := Answer(db, InsertStatement(name, age)).insertedId;
            var found := Answer(after, SelectStatement(IdIs(Eq, id))).records;
            found == [|db.heap|] && after.heap[found[0]] == Record(id, StoredName(name), age)
  {
    var after := Effect(db, InsertStatement(name, age));
    SelectRange(after.rows, after.heap, IdIs(Eq, |db.rows| + 1), |db.rows|, |db.rows| + 1);
  }

  // -------------------------------------------------------------- execution

  ghost function DbOf(table: Table): (r: Db)
    requires table.Valid()
    reads table, table.rows, table.pkIndex
    ensures DbOk(r)
  {
    Db(table.Rows(), table.heap)
  }

  method SelectRows(table: Table, c: Condition) returns (r: SqlResult)
    requires table.Valid()
    ensures r == Answer(DbOf(table), SelectStatement(c))
  {
    var found: ResultBuffer;
    match c {
      case Everything => found := table.CollectAll();
      case IdIs(op, v) => found := table.FindByIdCondition(op, v);
      case _ => found := table.ScanWhere(c);
    }
    var records := found.items[..found.count];
    var status := if found.count == 0 && c != Everything then NotFound else StatusOk;
    r := SqlResult(status, SelectedRows, records, 0, found.count);
  }

  method InsertRecord(table: Table, name: string, age: int) returns (r: SqlResult)
    requires table.Valid()
    modifies table, table.rows, table.pkIndex
    ensures table.Valid() && (table.rows == old(table.rows) || fresh(table.rows))
    ensures r == Answer(old(DbOf(table)), InsertStatement(name, age))
    ensures DbOf(table) == Effect(old(DbOf(table)), InsertStatement(name, age))
  {
    r := SqlResult(StatusOk, Inserted, [], table.nextId, 1);
    var record := table.Insert(name, age);
  }

  /** Reads the rest of an INSERT with the cursor helpers. */
  method ReadInsert(s: CString, i: nat) returns (st: Statement)
    requires i <= |s|
    ensures st == ParseInsert(s, i)
  {
    st := Rejected(SyntaxError);
    var c := SkipSpaces(s, i);
    var into := MatchKeyword(s, c, "INTO");
    if into.None? { return; }
    var tableName := ParseIdentifier(s, into.value, IDENTIFIER_SIZE);
    if tableName.None? || !SameWord(tableName.value.0, "users") { return; }
    c := SkipSpaces(s, tableName.value.1);
    var values := MatchKeyword(s, c, "VALUES");
    if values.None? { return; }
    st := ReadValues(s, values.value);
  }

  method ReadValues(s: CString, i: nat) returns (st: Statement)
    requires i <= |s|
    ensures st == ParseValues(s, i)
  {
    st := Rejected(SyntaxError);
    var open := CharAt(s, i, '(');
    if open.None? { return; }
    var name := ParseString(s, open.value, NAME_SIZE);
    if name.None? { return; }
    var comma := CharAt(s, name.value.1, ',');
    if comma.None? { return; }
    var age := ParseInt(s, comma.value);
    if age.None? { return; }
    var close := CharAt(s, age.value.1, ')');
    if close.None? || !StatementEnd(s, close.value).0 { return; }
    st := InsertStatement(name.value.0, age.value.0);
  }

  /** Reads the rest of a SELECT with the cursor helpers. */
  method ReadSelect(s: CString, i: nat) returns (st: Statement)
    requires i <= |s|
    ensures st == ParseSelect(s, i)
  {
    st := Rejected(SyntaxError);
    var c := SkipSpaces(s, i);
    var star := CharAt(s, c, '*');
    if star.None? {
      var column := ParseIdentifier(s, c, IDENTIFIER_SIZE);
      if column.Some? && ColumnOf(column.value.0) == UnknownColumn {
        st := Rejected(QueryError);
      }
      return;
    }
    c := SkipSpaces(s, star.value);
    var from := MatchKeyword(s, c, "FROM");
    if from.None? { return; }
    var tableName := ParseIdentifier(s, from.value, IDENTIFIER_SIZE);
    if tableName.None? || !SameWord(tableName.value.0, "users") { return; }
    st := ReadFilter(s, tableName.value.1);
  }

  method ReadFilter(s: CString, i: nat) returns (st: Statement)
    requires i <= |s|
    ensures st == ParseFilter(s, i)
  {
    var c := SkipSpaces(s, i);
    var end := StatementEnd(s, c);
    if end.0 { return SelectStatement(Everything); }
    var where := MatchKeyword(s, end.1, "WHERE");
    if where.None? { return Rejected(SyntaxError); }
    st := ReadWhere(s, where.value);
  }

  method ReadWhere(s: CString, i: nat) returns (st: Statement)
    requires i <= |s|
    ensures st == ParseWhere(s, i)
  {
    st := Rejected(SyntaxError);
    var column := ParseIdentifier(s, i, IDENTIFIER_SIZE);
    if column.None? { return; }
    var comparison := ComparisonAt(s, column.value.1);
    if comparison.None? { return; }
    st := ReadCondition(s, comparison.value.1, ColumnOf(column.value.0), comparison.value.0);
  }

  method ReadCondition(s: CString, i: nat, column: Column, op: Comparison) returns (st: Statement)
    requires i <= |s|
    ensures st == ParseCondition(s, i, column, op)
  {
    st := Rejected(SyntaxError);
    if column == IdColumn {
      var v := ParseInt(s, i);
      if v.None? || !StatementEnd(s, v.value.1).0 { return; }
      st := SelectStatement(IdIs(op, v.value.0));
    } else if column == NameColumn {
      if op != Eq { return; }
      var v := ParseString(s, i, NAME_SIZE);
      if v.None? || !StatementEnd(s, v.value.1).0 { return; }
      st := SelectStatement(NameIs(v.value.0));
    } else if column == AgeColumn {
      var v := ParseInt(s, i);
      if v.None? || !StatementEnd(s, v.value.1).0 { return; }
      st := SelectStatement(AgeIs(op, v.value.0));
    } else {
      st := Rejected(QueryError);
    }
  }

  /** Executes an INSERT; None when the text is not one, so that SELECT is tried next. */
  method ExecuteInsert(table: Table, s: CString) returns (r: Option<SqlResult>)
    requires table.Valid()
    modifies table, table.rows, table.pkIndex
    ensures table.Valid() && (table.rows == old(table.rows) || fresh(table.rows))
    ensures r.None? <==> KeywordEnd(s, 0, "INSERT").None?
    ensures r.None? ==> DbOf(table) == old(DbOf(table))
    ensures r.Some? ==>
              var st := ParseInsert(s, KeywordEnd(s, 0, "INSERT").value);
              r.value == Answer(old(DbOf(table)), st) && DbOf(table) == Effect(old(DbOf(table)), st)
  {
    var insert := MatchKeyword(s, 0, "INSERT");
    if insert.None? { return None; }
    var st := ReadInsert(s, insert.value);
    if st.InsertStatement? {
      var inserted := InsertRecord(table, st.name, st.age);
      r := Some(inserted);
    } else {
      r := Some(Failed(st.why));
    }
  }

  /** Executes a SELECT; None when the text is not one. */
  method ExecuteSelect(table: Table, s: CString) returns (r: Option<SqlResult>)
    requires table.Valid()
    ensures r.None? <==> KeywordEnd(s, 0, "SELECT").None?
    ensures r.Some? ==> r.value == Answer(DbOf(table), ParseSelect(s, KeywordEnd(s, 0, "SELECT").value))
  {
    var select := MatchKeyword(s, 0, "SELECT");
    if select.None? { return None; }
    var st := ReadSelect(s, select.value);
    if st.SelectStatement? {
      var found := SelectRows(table, st.condition);
      r := Some(found);
    } else {
      r := Some(Failed(st.why));
    }
  }

  /** Parses one statement and executes it against the table. */
  method Execute(table: Table, s: CString) returns (r: SqlResult)
    requires table.Valid()
    modifies table, table.rows, table.pkIndex
    ensures table.Valid() && (table.rows == old(table.rows) || fresh(table.rows))
    ensures r == Answer(old(DbOf(table)), ParseStatement(s))
    ensures DbOf(table) == Effect(old(DbOf(table)), ParseStatement(s))
  {
    var cursor := SkipSpaces(s, 0);
    var exit := MatchKeyword(s, cursor, "EXIT");
    if exit.None? {
      exit := MatchKeyword(s, cursor, "QUIT");
    }
    if exit.Some? {
      return Failed(if StatementEnd(s, exit.value).0 then Exit else SyntaxError);
    }
    var inserted := ExecuteInsert(table, s);
    if inserted.Some? {
      return inserted.value;
    }
    var selected := ExecuteSelect(table, s);
    r := if selected.Some? then selected.value else Failed(SyntaxError);
  }
}
