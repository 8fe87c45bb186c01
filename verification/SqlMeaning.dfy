/**
 What queries mean, from their texts to the rows, said with plain comparisons of
 numbers and strings and without the executor's own helpers.
 */
module SqlMeaning {
  import opened Records
  import opened SqlText
  import opened Decimals
  import opened Sql
  import opened SqlTokens
  import opened SqlGrammar

  // ------------------------------------------------------------- rows by position

  /** found lists exactly the rows whose flag is set, in row order, each once. */
  ghost predicate Picks(rows: seq<Ref>, found: seq<Ref>, keep: seq<bool>) {
    exists pos: seq<nat> :: PicksAt(rows, found, keep, pos, |rows|)
  }

  /** pos are the positions of the first n rows whose flag is set. */
  ghost predicate PicksAt(rows: seq<Ref>, found: seq<Ref>, keep: seq<bool>, pos: seq<nat>, n: nat) {
    && |keep| == |rows| >= n && |pos| == |found|
    && (forall k :: 0 <= k < |pos| ==> pos[k] < n && found[k] == rows[pos[k]])
    && (forall j, k :: 0 <= j < k < |pos| ==> pos[j] < pos[k])
    && (forall i {:trigger keep[i]} :: 0 <= i < n ==> (keep[i] <==> i in pos))
  }

  lemma {:induction false} SelectPicksTo(rows: seq<Ref>, heap: seq<Record>, c: Condition, keep: seq<bool>, n: nat)
    returns (pos: seq<nat>)
    requires Resolved(rows, heap) && n <= |rows| == |keep|
    requires forall i :: 0 <= i < |rows| ==> (keep[i] <==> Matches(heap[rows[i]], c))
    ensures PicksAt(rows, SelectTo(rows, heap, c, n), keep, pos, n)
  {
    hide Matches;
    if n == 0 {
      pos := [];
    } else {
      var before := SelectPicksTo(rows, heap, c, keep, n - 1);
      pos := before + if keep[n - 1] then [n - 1] else [];
      PicksGrow(rows, SelectTo(rows, heap, c, n - 1), keep, before, n);
    }
  }

  lemma PicksGrow(rows: seq<Ref>, found: seq<Ref>, keep: seq<bool>, pos: seq<nat>, n: nat)
    requires 0 < n <= |rows| && PicksAt(rows, found, keep, pos, n - 1)
    ensures var more, place := if keep[n - 1] then [rows[n - 1]] else [], if keep[n - 1] then [n - 1] else [];
            PicksAt(rows, found + more, keep, pos + place, n)
  {
    if keep[n - 1] {
      assert (pos + [n - 1])[|pos|] == n - 1;
      forall i | 0 <= i < n ensures keep[i] <==> i in pos + [n - 1] {
        if i < n - 1 {
          assert keep[i] <==> i in pos;
        }
      }
    } else {
      assert found + [] == found && pos + [] == pos;
    }
  }

  lemma SelectPicks(rows: seq<Ref>, heap: seq<Record>, c: Condition, keep: seq<bool>)
    requires Resolved(rows, heap) && |keep| == |rows|
    requires forall i :: 0 <= i < |rows| ==> (keep[i] <==> Matches(heap[rows[i]], c))
    ensures Picks(rows, Select(rows, heap, c), keep)
  {
    hide Matches, PicksAt;
    var pos := SelectPicksTo(rows, heap, c, keep, |rows|);
  }

  /** WHERE id compares the number of the row, counted from one. */
  lemma IdConditionsMean(db: Db, op: Comparison, v: int, keep: seq<bool>)
    requires DbOk(db) && |keep| == |db.rows|
    requires forall i :: 0 <= i < |keep| ==>
               (keep[i] <==> match op
                             case Eq => i + 1 == v
                             case Lt => i + 1 < v
                             case Le => i + 1 <= v
                             case Gt => i + 1 > v
                             case Ge => i + 1 >= v)
    ensures Picks(db.rows, Answer(db, SelectStatement(IdIs(op, v))).records, keep)
  {
    SelectPicks(db.rows, db.heap, IdIs(op, v), keep);
  }

  /** WHERE age compares the stored age. */
  lemma AgeConditionsMean(db: Db, op: Comparison, v: int, keep: seq<bool>)
    requires DbOk(db) && |keep| == |db.rows|
    requires forall i :: 0 <= i < |keep| ==>
               (keep[i] <==> match op
                             case Eq => db.heap[db.rows[i]].age == v
                             case Lt => db.heap[db.rows[i]].age < v
                             case Le => db.heap[db.rows[i]].age <= v
                             case Gt => db.heap[db.rows[i]].age > v
                             case Ge => db.heap[db.rows[i]].age >= v)
    ensures Picks(db.rows, Answer(db, SelectStatement(AgeIs(op, v))).records, keep)
  {
    SelectPicks(db.rows, db.heap, AgeIs(op, v), keep);
  }

  /** WHERE name compares the stored name. */
  lemma NameConditionMeans(db: Db, s: string, keep: seq<bool>)
    requires DbOk(db) && |keep| == |db.rows|
    requires forall i :: 0 <= i < |keep| ==> (keep[i] <==> db.heap[db.rows[i]].name == s)
    ensures Picks(db.rows, Answer(db, SelectStatement(NameIs(s))).records, keep)
  {
    SelectPicks(db.rows, db.heap, NameIs(s), keep);
  }

  /** Without WHERE the answer is all rows, in order. */
  lemma NoConditionMeansAll(db: Db)
    requires DbOk(db)
    ensures Answer(db, SelectStatement(Everything)).records == db.rows
  {
    SelectRange(db.rows, db.heap, Everything, 0, |db.rows|);
  }

  /** What is reported besides the rows. */
  lemma ReportsMean(db: Db, st: Statement)
    requires DbOk(db)
    ensures st.SelectStatement? ==>
              var r := Answer(db, st);
              && r.action == SelectedRows && r.rowCount == |r.records|
              && r.status == if r.rowCount == 0 && st.condition != Everything then NotFound else StatusOk
    ensures st.InsertStatement? ==>
              var r := Answer(db, st);
              r.action == Inserted && r.status == StatusOk && r.insertedId == |db.rows| + 1 && r.records == []
    ensures st.ExitStatement? ==> Answer(db, st).status == Exit && Answer(db, st).action == NoAction
    ensures st.Rejected? ==> Answer(db, st).status == st.why && Answer(db, st).action == NoAction
  {
  }

  // ---------------------------------------------------------------- from the text

  /** The table after a text, and the answer to it. */
  ghost function After(db: Db, t: string): (r: Db)
    requires DbOk(db)
    ensures DbOk(r)
  {
    Effect(db, ParseStatement(t))
  }

  ghost function Reply(db: Db, t: string): SqlResult
    requires DbOk(db)
  {
    Answer(db, ParseStatement(t))
  }

  /** The records found under an id. */
  ghost function UnderId(db: Db, id: int): (r: seq<Ref>)
    requires DbOk(db)
    ensures Resolved(r, db.heap)
  {
    SelectResolved(db.rows, db.heap, IdIs(Eq, id), |db.rows|);
    Select(db.rows, db.heap, IdIs(Eq, id))
  }

  /** Whatever spells an INSERT stores exactly that name and age, to be found again, and alone, under the
      reported id. */
  lemma SpelledInsertIsFound(db: Db, sp: InsertSpelling, name: string, age: int)
    requires DbOk(db) && SpellsInsert(sp, name, age)
    ensures var t := InsertText(sp, name);
            var id := Reply(db, t).insertedId;
            var found := UnderId(After(db, t), id);
            && id == |db.rows| + 1 && |found| == 1
            && After(db, t).heap[found[0]] == Record(id, name, age)
            && found == Answer(After(db, t), SelectStatement(IdIs(Eq, id))).records
  {
    assert |name| < 64;
    InsertReads(sp, name, age);
    hide ParseStatement, SpellsInsert, InsertText;
    InsertedIsFound(db, name, age);
  }

  lemma Merge(x: string)
    ensures "SELECT" + (" " + ("*" + (" " + ("FROM" + (" " + ("users" + x)))))) == "SELECT * FROM users" + x
    ensures " " + ("WHERE" + (" " + x)) == " WHERE " + x
  {
    var a, b := "SELECT" + " " + "*", " " + "FROM" + " " + "users";
    assert a == "SELECT *" && b == " FROM users";
    assert a + b == "SELECT * FROM users";
    assert "SELECT" + (" " + ("*" + (" " + ("FROM" + (" " + ("users" + x)))))) == a + b + x;
    assert " " + "WHERE" + " " == " WHERE ";
    assert " " + ("WHERE" + (" " + x)) == (" " + "WHERE" + " ") + x;
  }

  lemma NumberText(column: string, op: Comparison, n: string)
    ensures "SELECT * FROM users" + (" WHERE " + (column + (" " + (OpText(op) + (" " + (n + "")))))) ==
            "SELECT * FROM users WHERE " + column + " " + OpText(op) + " " + n
  {
    var head := "SELECT * FROM users" + " WHERE ";
    assert head == "SELECT * FROM users WHERE ";
    hide OpText;
    assert "SELECT * FROM users" + (" WHERE " + (column + (" " + (OpText(op) + (" " + (n + "")))))) ==
           head + column + " " + OpText(op) + " " + n;
  }

  /** A plain query by id or age, as a user would type it. */
  function QueryText(column: string, symbol: string, v: int): string {
    "SELECT * FROM users WHERE " + column + " " + symbol + " " + SignedDecimal(v)
  }

  lemma PlainNumberText(c: Condition)
    requires c.IdIs? || c.AgeIs?
    ensures SelectText(PlainSelect(c, Bare(" ")), c) ==
            QueryText(if c.IdIs? then "id" else "age", OpText(OpOf(c)), if c.IdIs? then c.id else c.age)
  {
    var column := if c.IdIs? then "id" else "age";
    var n := SignedDecimal(if c.IdIs? then c.id else c.age);
    hide SignedDecimal, OpText;
    Merge(" " + ("WHERE" + (" " + (column + (" " + (OpText(OpOf(c)) + (" " + (n + ""))))))));
    Merge(column + (" " + (OpText(OpOf(c)) + (" " + (n + "")))));
    NumberText(column, OpOf(c), n);
  }

  lemma QueryIsRead(c: Condition)
    requires Expressible(SelectStatement(c)) && (c.IdIs? || c.AgeIs?)
    ensures ParseStatement(QueryText(if c.IdIs? then "id" else "age", OpText(OpOf(c)), if c.IdIs? then c.id
            else c.age)) ==
            SelectStatement(c)
  {
    hide ParseStatement, SelectText, QueryText, Expressible;
    PlainNumberText(c);
    PlainSelectReads(c, Bare(" "));
  }

  /** The comparison that a symbol stands for. */
  function Meant(symbol: string): (op: Option<Comparison>) {
    if symbol == "=" then Some(Eq) else if symbol == "<" then Some(Lt) else if symbol == "<=" then Some(Le)
    else if symbol == ">" then Some(Gt) else if symbol == ">=" then Some(Ge) else None
  }

  lemma SymbolsDiffer(op: Comparison)
    ensures Meant(OpText(op)) == Some(op)
  {
    assert |"="| == 1 && |"<"| == 1 && |">"| == 1 && |"<="| == 2 && |">="| == 2;
    assert "="[0] == '=' && "<"[0] == '<' && ">"[0] == '>' && "<="[0] == '<' && ">="[0] == '>';
  }

  lemma SymbolMeans(symbol: string)
    requires Meant(symbol).Some?
    ensures OpText(Meant(symbol).value) == symbol
  {
  }

  /** A query by id, typed with its symbol, returns the rows whose number, counted from one, compares as the
      symbol says. */
  lemma IdQueriesMean(db: Db, symbol: string, v: int, keep: seq<bool>)
    requires DbOk(db) && -0x8000_0000 <= v <= 0x7FFF_FFFF && |keep| == |db.rows|
    requires symbol == "=" || symbol == "<" || symbol == "<=" || symbol == ">" || symbol == ">="
    requires forall i :: 0 <= i < |keep| ==>
               (keep[i] <==> if symbol == "=" then i + 1 == v else if symbol == "<" then i + 1 < v
                             else if symbol == "<=" then i + 1 <= v else if symbol == ">" then i + 1 > v
                             else i + 1 >= v)
    ensures Picks(db.rows,
            Reply(db, "SELECT * FROM users WHERE " + "id" + " " + symbol + " " + SignedDecimal(v)).records, keep)
  {
    var op := Meant(symbol).value;
    SymbolMeans(symbol);
    SymbolsDiffer(op);
    hide ParseStatement, Picks, Answer, OpText;
    QueryIsRead(IdIs(op, v));
    IdConditionsMean(db, op, v, keep);
  }

  /** A query by age, typed with its symbol, returns the rows whose age compares as the symbol says. */
  lemma AgeQueriesMean(db: Db, symbol: string, v: int, keep: seq<bool>)
    requires DbOk(db) && -0x8000_0000 <= v <= 0x7FFF_FFFF && |keep| == |db.rows|
    requires symbol == "=" || symbol == "<" || symbol == "<=" || symbol == ">" || symbol == ">="
    requires forall i :: 0 <= i < |keep| ==>
               (keep[i] <==> var age := db.heap[db.rows[i]].age;
                             if symbol == "=" then age == v else if symbol == "<" then age < v
                             else if symbol == "<=" then age <= v else if symbol == ">" then age > v
                             else age >= v)
    ensures Picks(db.rows,
            Reply(db, "SELECT * FROM users WHERE " + "age" + " " + symbol + " " + SignedDecimal(v)).records, keep)
  {
    var op := Meant(symbol).value;
    SymbolMeans(symbol);
    SymbolsDiffer(op);
    hide ParseStatement, Picks, Answer, OpText;
    QueryIsRead(AgeIs(op, v));
    AgeConditionsMean(db, op, v, keep);
  }

  lemma MergeInsert(x: string)
    ensures "INSERT" + (" " + ("INTO" + (" " + ("users" + (" " + ("VALUES" + (" " + ("(" + ("" + ("'" + x)))))))))) ==
            "INSERT INTO users VALUES ('" + x
  {
    var a, b, c := "INSERT" + " " + "INTO", " " + "users" + " ", "VALUES" + " " + "(" + "" + "'";
    assert a == "INSERT INTO" && b == " users " && c == "VALUES ('";
    assert a + b + c == "INSERT INTO users VALUES ('";
    assert "INSERT" + (" " + ("INTO" + (" " + ("users" + (" " + ("VALUES" + (" " + ("(" + ("" + ("'" + x)))))))))) ==
           a + b + c + x;
  }

  lemma MergeValues(name: string, n: string)
    ensures "INSERT INTO users VALUES ('" + (name + ("'" + ("" + ("," + (" " + (n + ("" + (")" + "")))))))) ==
            "INSERT INTO users VALUES ('" + name + "', " + n + ")"
  {
    var head, middle := "INSERT INTO users VALUES ('", "'" + "," + " ";
    assert middle == "', ";
    assert head + (name + ("'" + ("" + ("," + (" " + (n + ("" + (")" + "")))))))) == head + name + middle + n + ")";
  }

  lemma PlainInsertText(name: string, age: int)
    ensures InsertText(PlainInsert(age), name) == "INSERT INTO users VALUES ('" + name + "', " + SignedDecimal(age) +
            ")"
  {
    var n := SignedDecimal(age);
    hide SignedDecimal;
    MergeInsert(name + ("'" + ("" + ("," + (" " + (n + ("" + (")" + ""))))))));
    MergeValues(name, n);
  }

  /** An INSERT as a user would type it stores its name and its age, to be found again under the reported id. */
  lemma InsertQueryMeans(db: Db, name: string, age: int)
    requires DbOk(db) && -0x8000_0000 <= age <= 0x7FFF_FFFF
    requires |name| < 64 && forall i :: 0 <= i < |name| ==> name[i] != '\''
    ensures var t := "INSERT INTO users VALUES ('" + name + "', " + SignedDecimal(age) + ")";
            && Reply(db, t).insertedId == |db.rows| + 1
            && |UnderId(After(db, t), |db.rows| + 1)| == 1
            && After(db, t).heap[UnderId(After(db, t), |db.rows| + 1)[0]] == Record(|db.rows| + 1, name, age)
  {
    assert Quotable(name) && IsInt(age);
    PlainInsertText(name, age);
    PlainInsertReads(name, age);
    hide ParseStatement, InsertText, Quotable, IsInt;
    InsertedIsFound(db, name, age);
  }

  lemma PlainNameText(s: string)
    ensures SelectText(PlainSelect(NameIs(s), Bare(" ")), NameIs(s)) == "SELECT * FROM users WHERE name = '" + s + "'"
  {
    var x := "name" + (" " + ("=" + (" " + ("'" + (s + ("'" + ""))))));
    Merge(" " + ("WHERE" + (" " + x)));
    Merge(x);
    NameTail(s);
  }

  lemma NameTail(s: string)
    ensures "SELECT * FROM users" + (" WHERE " + ("name" + (" " + ("=" + (" " + ("'" + (s + ("'" + "")))))))) ==
            "SELECT * FROM users WHERE name = '" + s + "'"
  {
    var a, b := "SELECT * FROM users" + " WHERE ", "name" + " " + "=" + " " + "'";
    assert b == "name = '";
    assert a + b == "SELECT * FROM users WHERE name = '";
    assert "SELECT * FROM users" + (" WHERE " + ("name" + (" " + ("=" + (" " + ("'" + (s + ("'" + "")))))))) == a +
           b + s + "'";
  }

  /** A query by name, as a user would type it, returns the rows with that name. */
  lemma NameQueryMeans(db: Db, s: string, keep: seq<bool>)
    requires DbOk(db) && |s| < 64 && (forall i :: 0 <= i < |s| ==> s[i] != '\'') && |keep| == |db.rows|
    requires forall i :: 0 <= i < |keep| ==> (keep[i] <==> db.heap[db.rows[i]].name == s)
    ensures Picks(db.rows, Reply(db, "SELECT * FROM users WHERE name = '" + s + "'").records, keep)
  {
    assert Quotable(s);
    hide ParseStatement, Picks, Answer, SelectText;
    PlainNameText(s);
    PlainSelectReads(NameIs(s), Bare(" "));
    NameConditionMeans(db, s, keep);
  }
}
