/**
 A reader of JSON texts (RFC 8259, without insignificant blanks), independent of
 the server's renderer, and what it finds in the bodies the server sends.
 */
module JsonRead {
  import opened Records
  import opened SqlText
  import opened SqlTokens
  import opened Decimals
  import opened Json
  import opened JsonRows

  datatype Value =
    | Str(text: string)
    | Num(number: int)
    | Truth(holds: bool)
    | Arr(items: seq<Value>)
    | Obj(fields: seq<Field>)

  datatype Field = Field(name: string, value: Value)

  // ------------------------------------------------------------------ the reader

  /** Reads one value off the front of a text. */
  function ReadValue(t: string): (r: Option<(Value, string)>)
    ensures r.Some? ==> |r.value.1| < |t|
    decreases |t|, 0
  {
    if t == "" then None
    else if t[0] == '"' then
      var s := StandardRead(t[1..]);
      if s.None? then None else Some((Str(s.value.0), s.value.1))
    else if t[0] == '[' then
      var items := if At(t, 1) == ']' then Some(([], t[2..])) else ReadItems(t[1..]);
      if items.None? then None else Some((Arr(items.value.0), items.value.1))
    else if t[0] == '{' then
      var fields := if At(t, 1) == '}' then Some(([], t[2..])) else ReadFields(t[1..]);
      if fields.None? then None else Some((Obj(fields.value.0), fields.value.1))
    else if "true" <= t then Some((Truth(true), t[4..]))
    else if "false" <= t then Some((Truth(false), t[5..]))
    else ReadNumber(t)
  }

  /** One or more values up to the closing bracket. */
  function ReadItems(t: string): (r: Option<(seq<Value>, string)>)
    ensures r.Some? ==> |r.value.1| < |t|
    decreases |t|, 1
  {
    var v := ReadValue(t);
    if v.None? then None
    else if At(v.value.1, 0) == ']' then Some(([v.value.0], v.value.1[1..]))
    else if At(v.value.1, 0) == ',' then
      var more := ReadItems(v.value.1[1..]);
      if more.None? then None else Some(([v.value.0] + more.value.0, more.value.1))
    else None
  }

  /** A name, a colon and a value. */
  function ReadField(t: string): (r: Option<(Field, string)>)
    ensures r.Some? ==> |r.value.1| < |t|
    decreases |t|, 0
  {
    if At(t, 0) != '"' then None else
    var name := StandardRead(t[1..]);
    if name.None? || At(name.value.1, 0) != ':' then None else
    var v := ReadValue(name.value.1[1..]);
    if v.None? then None else Some((Field(name.value.0, v.value.0), v.value.1))
  }

  /** One or more fields up to the closing brace. */
  function ReadFields(t: string): (r: Option<(seq<Field>, string)>)
    ensures r.Some? ==> |r.value.1| < |t|
    decreases |t|, 1
  {
    var f := ReadField(t);
    if f.None? then None
    else if At(f.value.1, 0) == '}' then Some(([f.value.0], f.value.1[1..]))
    else if At(f.value.1, 0) == ',' then
      var more := ReadFields(f.value.1[1..]);
      if more.None? then None else Some(([f.value.0] + more.value.0, more.value.1))
    else None
  }

  function ReadNumber(t: string): (r: Option<(Value, string)>)
    ensures r.Some? ==> |r.value.1| < |t|
  {
    var k := if At(t, 0) == '-' then 1 else 0;
    var e := DigitsEnd(t, k);
    if e == k then None else
    var n: int := Digits(t, k, e);
    Some((Num(if k == 1 then -n else n), t[e..]))
  }

  /** The first field with the given name. */
  function Lookup(fields: seq<Field>, name: string): Option<Value> {
    if fields == [] then None
    else if fields[0].name == name then Some(fields[0].value)
    else Lookup(fields[1..], name)
  }

  /** The value of a field of an object. */
  function Get(v: Value, name: string): Option<Value> {
    if v.Obj? then Lookup(v.fields, name) else None
  }

  // ------------------------------------------------------------ the compact form

  function Written(v: Value): string
    decreases v, 0
  {
    match v
    case Str(s) => "\"" + (Escaped(s) + "\"")
    case Num(n) => SignedDecimal(n)
    case Truth(b) => if b then "true" else "false"
    case Arr(items) => "[" + (WrittenItems(items) + "]")
    case Obj(fields) => "{" + (WrittenFields(fields) + "}")
  }

  function WrittenItems(items: seq<Value>): string
    decreases items, 1
  {
    if items == [] then ""
    else if |items| == 1 then Written(items[0])
    else Written(items[0]) + ("," + WrittenItems(items[1..]))
  }

  function WrittenField(f: Field): string
    decreases f, 1
  {
    "\"" + (Escaped(f.name) + ("\":" + Written(f.value)))
  }

  function WrittenFields(fields: seq<Field>): string
    decreases fields, 1
  {
    if fields == [] then ""
    else if |fields| == 1 then WrittenField(fields[0])
    else WrittenField(fields[0]) + ("," + WrittenFields(fields[1..]))
  }

  /** No digit follows, so a number ends here. */
  predicate Ends(rest: string) {
    !IsDigit(At(rest, 0))
  }

  // --------------------------------------------------------- reading it back

  lemma NaturalBack(t: string, k: nat, n: nat, rest: string)
    requires k <= |t| && t[k..] == Decimal(n) + rest && Ends(rest)
    ensures var e := k + |Decimal(n)|;
            e <= |t| && t[e..] == rest && DigitsEnd(t, k) == e && Digits(t, k, e) == n && IsDigit(t[k])
  {
    hide Decimal, Digits, DigitsEnd;
    Split(t, k, Decimal(n), rest);
    DigitsOfDecimal(t, k, n);
    DigitRun(t, k, k + |Decimal(n)|);
  }

  lemma NumberBack(n: int, rest: string)
    requires Ends(rest)
    ensures ReadNumber(SignedDecimal(n) + rest) == Some((Num(n), rest))
    ensures SignedDecimal(n) != "" && (SignedDecimal(n)[0] == '-' || IsDigit(SignedDecimal(n)[0]))
  {
    hide Decimal, Digits, DigitsEnd;
    var t := SignedDecimal(n) + rest;
    if n < 0 {
      assert t[1..] == Decimal(-n) + rest && t[0] == '-';
      NaturalBack(t, 1, -n, rest);
    } else {
      assert t[0..] == Decimal(n) + rest;
      NaturalBack(t, 0, n, rest);
      assert t[0] == Decimal(n)[0];
    }
  }

  lemma StrBack(s: string, rest: string)
    ensures ReadValue("\"" + (Escaped(s) + "\"") + rest) == Some((Str(s), rest))
  {
    var t := "\"" + (Escaped(s) + "\"") + rest;
    StandardReaderRecovers(s, rest);
    hide Escaped, StandardRead;
    assert t[0] == '"' && t[1..] == Escaped(s) + ("\"" + rest);
  }

  lemma NumBack(n: int, rest: string)
    requires Ends(rest)
    ensures ReadValue(SignedDecimal(n) + rest) == Some((Num(n), rest))
  {
    var t := SignedDecimal(n) + rest;
    NumberBack(n, rest);
    hide SignedDecimal, ReadNumber;
    assert t[0] == SignedDecimal(n)[0];
    assert !("true" <= t) && !("false" <= t);
  }

  lemma TruthBack(b: bool, rest: string)
    ensures ReadValue((if b then "true" else "false") + rest) == Some((Truth(b), rest))
  {
    var t := (if b then "true" else "false") + rest;
    if b {
      assert t[..4] == "true" && t[4..] == rest && t[0] == 't';
    } else {
      assert t[..5] == "false" && t[5..] == rest && t[0] == 'f';
    }
  }

  /** Every value is told from a closing mark by its first character. */
  lemma FirstMark(v: Value)
    ensures Written(v) != "" && Written(v)[0] != ']' && Written(v)[0] != '}'
  {
    if v.Num? {
      NumberBack(v.number, "");
    }
  }

  lemma {:induction false} ValueBack(v: Value, rest: string)
    requires Ends(rest)
    ensures Written(v) != "" && Written(v)[0] != ']' && Written(v)[0] != '}'
    ensures ReadValue(Written(v) + rest) == Some((v, rest))
    decreases v, 0
  {
    hide ReadValue, Escaped, SignedDecimal;
    FirstMark(v);
    match v {
      case Str(s) => StrBack(s, rest);
      case Num(n) => NumBack(n, rest);
      case Truth(b) => TruthBack(b, rest);
      case Arr(items) => ArrBack(items, rest);
      case Obj(fields) => ObjBack(fields, rest);
    }
  }

  lemma {:induction false} ArrBack(items: seq<Value>, rest: string)
    ensures ReadValue(Written(Arr(items)) + rest) == Some((Arr(items), rest))
    decreases items, 2
  {
    var t := Written(Arr(items)) + rest;
    assert t == "[" + (WrittenItems(items) + ("]" + rest));
    assert t[1..] == WrittenItems(items) + ("]" + rest);
    if items != [] {
      ItemsBack(items, rest);
    } else {
      assert t[2..] == rest;
    }
  }

  lemma LastItem(t: string, v: Value, rest: string)
    requires ReadValue(t) == Some((v, "]" + rest))
    ensures ReadItems(t) == Some(([v], rest))
  {
    assert ("]" + rest)[1..] == rest;
  }

  lemma MoreItems(t: string, v: Value, tail: string, vs: seq<Value>, rest: string)
    requires ReadValue(t) == Some((v, "," + tail)) && ReadItems(tail) == Some((vs, rest))
    ensures ReadItems(t) == Some(([v] + vs, rest))
  {
    hide ReadValue;
    assert ("," + tail)[1..] == tail;
  }

  lemma {:induction false} ItemsBack(items: seq<Value>, rest: string)
    requires items != []
    ensures WrittenItems(items) != "" && WrittenItems(items)[0] != ']'
    ensures ReadItems(WrittenItems(items) + ("]" + rest)) == Some((items, rest))
    decreases items, 1
  {
    hide ReadValue, ReadItems, Written;
    var t := WrittenItems(items) + ("]" + rest);
    if |items| == 1 {
      ValueBack(items[0], "]" + rest);
      LastItem(t, items[0], rest);
      assert items == [items[0]];
    } else {
      var tail := WrittenItems(items[1..]) + ("]" + rest);
      ItemsBack(items[1..], rest);
      assert t == Written(items[0]) + ("," + tail);
      ValueBack(items[0], "," + tail);
      MoreItems(t, items[0], tail, items[1..], rest);
      assert items == [items[0]] + items[1..];
    }
  }

  lemma {:induction false} FieldBack(f: Field, rest: string)
    requires Ends(rest)
    ensures WrittenField(f) != "" && WrittenField(f)[0] == '"'
    ensures ReadField(WrittenField(f) + rest) == Some((f, rest))
    decreases f, 1
  {
    var tail := Written(f.value) + rest;
    var t := WrittenField(f) + rest;
    assert t == "\"" + (Escaped(f.name) + ("\"" + (":" + tail)));
    assert t[1..] == Escaped(f.name) + ("\"" + (":" + tail));
    StandardReaderRecovers(f.name, ":" + tail);
    assert (":" + tail)[1..] == tail;
    ValueBack(f.value, rest);
  }

  lemma {:induction false} ObjBack(fields: seq<Field>, rest: string)
    ensures ReadValue(Written(Obj(fields)) + rest) == Some((Obj(fields), rest))
    decreases fields, 2
  {
    var t := Written(Obj(fields)) + rest;
    assert t == "{" + (WrittenFields(fields) + ("}" + rest));
    assert t[1..] == WrittenFields(fields) + ("}" + rest);
    if fields != [] {
      FieldsBack(fields, rest);
    } else {
      assert t[2..] == rest;
    }
  }

  lemma LastField(t: string, f: Field, rest: string)
    requires ReadField(t) == Some((f, "}" + rest))
    ensures ReadFields(t) == Some(([f], rest))
  {
    hide ReadField;
    assert ("}" + rest)[1..] == rest;
  }

  lemma MoreFields(t: string, f: Field, tail: string, fs: seq<Field>, rest: string)
    requires ReadField(t) == Some((f, "," + tail)) && ReadFields(tail) == Some((fs, rest))
    ensures ReadFields(t) == Some(([f] + fs, rest))
  {
    hide ReadField;
    assert ("," + tail)[1..] == tail;
  }

  lemma {:induction false} FieldsBack(fields: seq<Field>, rest: string)
    requires fields != []
    ensures WrittenFields(fields) != "" && WrittenFields(fields)[0] != '}'
    ensures ReadFields(WrittenFields(fields) + ("}" + rest)) == Some((fields, rest))
    decreases fields, 1
  {
    hide ReadField, ReadFields, WrittenField;
    var t := WrittenFields(fields) + ("}" + rest);
    if |fields| == 1 {
      FieldBack(fields[0], "}" + rest);
      LastField(t, fields[0], rest);
      assert fields == [fields[0]];
    } else {
      var tail := WrittenFields(fields[1..]) + ("}" + rest);
      FieldsBack(fields[1..], rest);
      assert t == WrittenField(fields[0]) + ("," + tail);
      FieldBack(fields[0], "," + tail);
      MoreFields(t, fields[0], tail, fields[1..], rest);
      assert fields == [fields[0]] + fields[1..];
    }
  }

  /** Whatever is written in compact form is read back, with nothing left over. */
  lemma CompactReadsBack(v: Value)
    ensures ReadValue(Written(v)) == Some((v, ""))
  {
    ValueBack(v, "");
    assert Written(v) + "" == Written(v);
  }

  // ---------------------------------------------------------------- the bodies

  function RowValue(r: Record): Value {
    Obj([Field("id", Num(r.id)), Field("name", Str(r.name)), Field("age", Num(r.age))])
  }

  function RowValues(rows: seq<Record>, n: nat): (r: seq<Value>)
    requires n <= |rows|
    ensures |r| == n && forall i :: 0 <= i < n ==> r[i] == RowValue(rows[i])
  {
    if n == 0 then [] else RowValues(rows, n - 1) + [RowValue(rows[n - 1])]
  }

  function BodyValue(rows: seq<Record>, usedIndex: bool): Value {
    Obj([Field("ok", Truth(true)), Field("status", Str("ok")), Field("action", Str("select")),
         Field("rowCount", Num(|rows|)), Field("usedIndex", Truth(usedIndex)),
             Field("rows", Arr(RowValues(rows, |rows|)))])
  }

  lemma {:induction false} PlainEscape(s: string)
    requires forall i :: 0 <= i < |s| ==> IsAlpha(s[i])
    ensures Escaped(s) == s
  {
    if s != "" {
      PlainEscape(s[1..]);
      assert s == [s[0]] + s[1..];
    }
  }

  /** A field with a plain name: quoted name, colon, value. */
  lemma PlainField(name: string, v: Value)
    requires forall i :: 0 <= i < |name| ==> IsAlpha(name[i])
    ensures WrittenField(Field(name, v)) == "\"" + name + "\":" + Written(v)
  {
    PlainEscape(name);
    assert "\"" + (name + ("\":" + Written(v))) == "\"" + name + "\":" + Written(v);
  }

  lemma FieldsCons(f: Field, fs: seq<Field>)
    ensures WrittenFields([f]) == WrittenField(f)
    ensures fs != [] ==> WrittenFields([f] + fs) == WrittenField(f) + ("," + WrittenFields(fs))
  {
    assert fs != [] ==> ([f] + fs)[1..] == fs;
  }

  lemma Nest8(a: string, b: string, c: string, d: string, e: string, f: string, g: string, h: string)
    ensures a + b + c + d + e + f + g + h == a + (b + (c + (d + (e + (f + (g + h))))))
  {
  }

  lemma RowShape(a: string, e: string, c: string)
    ensures "{" + ((("\"id\":" + a) + ("," + (("\"name\":" + ("\"" + (e + "\""))) + ("," + ("\"age\":" + c))))) +
            "}") ==
            "{\"id\":" + (a + (",\"name\":\"" + (e + ("\",\"age\":" + (c + "}")))))
  {
  }

  /** The names of the fields, quoted. */
  lemma NamedField(name: string, v: Value)
    requires name in {"id", "name", "age", "ok", "status", "action", "rowCount", "usedIndex", "rows", "insertedId"}
    ensures WrittenField(Field(name, v)) == ("\"" + name + "\":") + Written(v)
  {
    PlainField(name, v);
  }

  lemma RowFields(r: Record)
    ensures Written(RowValue(r)) ==
            "{" + ((("\"id\":" + SignedDecimal(r.id)) + ("," + (("\"name\":" + ("\"" + (Escaped(r.name) + "\"")))
            + ("," + ("\"age\":" + SignedDecimal(r.age)))))) + "}")
  {
    var x, y, z := Field("id", Num(r.id)), Field("name", Str(r.name)), Field("age", Num(r.age));
    NamedField("id", Num(r.id));
    NamedField("name", Str(r.name));
    NamedField("age", Num(r.age));
    assert "\"" + "id" + "\":" == "\"id\":";
    assert "\"" + "name" + "\":" == "\"name\":";
    assert "\"" + "age" + "\":" == "\"age\":";
    FieldsCons(z, []);
    FieldsCons(y, [z]);
    FieldsCons(x, [y] + [z]);
    assert [x] + ([y] + [z]) == [x, y, z];
  }

  lemma RowWritten(r: Record, first: bool)
    ensures RowText(r, first) == (if first then "" else ",") + Written(RowValue(r))
  {
    RowFields(r);
    hide Written, SignedDecimal, Escaped;
    RowShape(SignedDecimal(r.id), Escaped(r.name), SignedDecimal(r.age));
    Nest8(if first then "" else ",", "{\"id\":", SignedDecimal(r.id), ",\"name\":\"", Escaped(r.name),
      "\",\"age\":", SignedDecimal(r.age), "}");
  }

  lemma {:induction false} ItemsAppend(items: seq<Value>, v: Value)
    ensures WrittenItems(items + [v]) == (if items == [] then "" else WrittenItems(items) + ",") + Written(v)
  {
    hide Written;
    if items == [] {
      assert items + [v] == [v];
    } else {
      ItemsAppend(items[1..], v);
      assert (items + [v])[1..] == items[1..] + [v] && (items + [v])[0] == items[0];
      if |items| > 1 {
        Nest4(Written(items[0]), ",", WrittenItems(items[1..]) + ",", Written(v));
        Nest4(Written(items[0]), ",", WrittenItems(items[1..]), ",");
      } else {
        assert items[1..] == [];
      }
    }
  }

  lemma Nest4(a: string, b: string, c: string, d: string)
    ensures a + (b + (c + d)) == (a + (b + c)) + d
  {
  }

  lemma {:induction false} PiecesWritten(rows: seq<Record>, n: nat)
    requires n <= |rows|
    ensures Pieces(rows, RowText, n) == WrittenItems(RowValues(rows, n))
  {
    if n > 0 {
      hide Written, RowText, RowValue;
      PiecesWritten(rows, n - 1);
      RowWritten(rows[n - 1], n == 1);
      ItemsAppend(RowValues(rows, n - 1), RowValue(rows[n - 1]));
      PiecesShape(Pieces(rows, RowText, n - 1), n == 1, Written(RowValue(rows[n - 1])));
    }
  }

  lemma PiecesShape(p: string, first: bool, w: string)
    requires first ==> p == ""
    ensures p + ((if first then "" else ",") + w) == (if first then "" else p + ",") + w
  {
  }

  /** Six fields between braces. */
  function SixFields(a: string, b: string, c: string, d: string, e: string, f: string): string {
    "{" + ((a + ("," + (b + ("," + (c + ("," + (d + ("," + (e + ("," + f)))))))))) + "}")
  }

  lemma SixNest(a: string, b: string, c: string, d: string, n: string, e: string, u: string, f: string, p: string)
    ensures SixFields(a, b, c, d + n, e + u, f + ("[" + (p + "]"))) ==
            ("{" + a + ",") + ((b + ",") + ((c + ",") + (d + (n + (("," + e) + (u + (("," + f + "[") + (p + "]}"))))))))
  {
  }

  lemma BodyWords()
    ensures "{" + "\"ok\":true" + "," == "{\"ok\":true," && "\"status\":\"ok\"" + "," == "\"status\":\"ok\","
    ensures "\"action\":\"select\"" + "," == "\"action\":\"select\"," && "," + "\"usedIndex\":" == ",\"usedIndex\":"
    ensures "," + "\"rows\":" + "[" == ",\"rows\":["
    ensures "\"ok\":" + "true" == "\"ok\":true" && "\"status\":" + "\"ok\"" == "\"status\":\"ok\""
    ensures "\"action\":" + "\"select\"" == "\"action\":\"select\""
  {
  }

  lemma BodyShape(n: string, u: string, p: string)
    ensures SixFields("\"ok\":" + "true", "\"status\":" + "\"ok\"", "\"action\":" + "\"select\"",
              "\"rowCount\":" + n, "\"usedIndex\":" + u, "\"rows\":" + ("[" + (p + "]"))) ==
            "{\"ok\":true," + ("\"status\":\"ok\"," + ("\"action\":\"select\"," + ("\"rowCount\":" + (n
            + (",\"usedIndex\":" + (u + (",\"rows\":[" + (p + "]}"))))))))
  {
    hide SixFields;
    SixNest("\"ok\":true", "\"status\":\"ok\"", "\"action\":\"select\"", "\"rowCount\":", n, "\"usedIndex\":", u,
        "\"rows\":", p);
    BodyWords();
  }

  lemma SixWritten(a: Field, b: Field, c: Field, d: Field, e: Field, f: Field)
    ensures Written(Obj([a, b, c, d, e, f])) ==
            SixFields(WrittenField(a), WrittenField(b), WrittenField(c), WrittenField(d), WrittenField(e),
                WrittenField(f))
  {
    hide WrittenField;
    FieldsCons(f, []);
    FieldsCons(e, [f]);
    FieldsCons(d, [e] + [f]);
    FieldsCons(c, [d] + ([e] + [f]));
    FieldsCons(b, [c] + ([d] + ([e] + [f])));
    FieldsCons(a, [b] + ([c] + ([d] + ([e] + [f]))));
    assert [a] + ([b] + ([c] + ([d] + ([e] + [f])))) == [a, b, c, d, e, f];
  }

  lemma BodyNest(a: string, b: string, c: string, d: string, n: string, e: string, u: string, f: string, p: string,
      z: string)
    ensures (a + (b + (c + (d + (n + (e + (u + f))))))) + p + z ==
            a + (b + (c + (d + (n + (e + (u + (f + (p + z))))))))
  {
  }

  lemma QuotedWord(w: string)
    requires forall i :: 0 <= i < |w| ==> IsAlpha(w[i])
    ensures Written(Str(w)) == "\"" + (w + "\"")
  {
    PlainEscape(w);
  }

  lemma QuotedWords()
    ensures Written(Str("ok")) == "\"ok\"" && Written(Str("select")) == "\"select\"" &&
            Written(Str("insert")) == "\"insert\""
  {
    hide Written;
    QuotedWord("ok");
    QuotedWord("select");
    QuotedWord("insert");
    QuotesAround();
  }

  lemma QuotesAround()
    ensures "\"" + ("ok" + "\"") == "\"ok\"" && "\"" + ("select" + "\"") == "\"select\""
    ensures "\"" + ("insert" + "\"") == "\"insert\""
  {
  }

  lemma QuotedNames()
    ensures "\"" + "ok" + "\":" == "\"ok\":" && "\"" + "status" + "\":" == "\"status\":"
    ensures "\"" + "action" + "\":" == "\"action\":" && "\"" + "rowCount" + "\":" == "\"rowCount\":"
    ensures "\"" + "usedIndex" + "\":" == "\"usedIndex\":" && "\"" + "rows" + "\":" == "\"rows\":"
    ensures "\"" + "insertedId" + "\":" == "\"insertedId\":"
  {
  }

  /** The body is the compact form of an object that says all there is to say about the row set. */
  lemma BodyWritten(rows: seq<Record>, usedIndex: bool)
    ensures Body(rows, usedIndex) == Written(BodyValue(rows, usedIndex))
  {
    var n, u, p := Decimal(|rows|), if usedIndex then "true" else "false", Pieces(rows, RowText, |rows|);
    var items := Arr(RowValues(rows, |rows|));
    PiecesWritten(rows, |rows|);
    QuotedWords();
    QuotedNames();
    NamedField("ok", Truth(true));
    NamedField("status", Str("ok"));
    NamedField("action", Str("select"));
    NamedField("rowCount", Num(|rows|));
    NamedField("usedIndex", Truth(usedIndex));
    NamedField("rows", items);
    hide Pieces, WrittenField, WrittenItems, RowValues, Decimal;
    SixWritten(Field("ok", Truth(true)), Field("status", Str("ok")), Field("action", Str("select")),
      Field("rowCount", Num(|rows|)), Field("usedIndex", Truth(usedIndex)), Field("rows", items));
    BodyShape(n, u, p);
    BodyNest("{\"ok\":true,", "\"status\":\"ok\",", "\"action\":\"select\",", "\"rowCount\":", n, ",\"usedIndex\":",
        u, ",\"rows\":[", p, "]}");
  }

  /** The text says exactly this about a row set, by name: how many rows, whether through the index, and each row. */
  ghost predicate DescribesRows(t: string, rows: seq<Record>, usedIndex: bool) {
    exists v, items ::
      && ReadValue(t) == Some((v, ""))
      && Get(v, "ok") == Some(Truth(true)) && Get(v, "action") == Some(Str("select"))
      && Get(v, "rowCount") == Some(Num(|rows|)) && Get(v, "usedIndex") == Some(Truth(usedIndex))
      && Get(v, "rows") == Some(Arr(items)) && |items| == |rows|
      && forall i :: 0 <= i < |rows| ==> DescribesRow(items[i], rows[i])
  }

  predicate DescribesRow(v: Value, r: Record) {
    Get(v, "id") == Some(Num(r.id)) && Get(v, "name") == Some(Str(r.name)) && Get(v, "age") == Some(Num(r.age))
  }

  lemma {:induction false} LookupAt(fs: seq<Field>, k: nat)
    requires k < |fs| && forall j :: 0 <= j < k ==> fs[j].name != fs[k].name
    ensures Lookup(fs, fs[k].name) == Some(fs[k].value)
  {
    if k > 0 {
      assert fs[0].name != fs[k].name;
      LookupAt(fs[1..], k - 1);
    }
  }

  lemma RowNames(r: Record)
    ensures DifferentNames(RowValue(r).fields)
  {
    var fs := RowValue(r).fields;
    assert |fs[0].name| == 2 && |fs[1].name| == 4 && |fs[2].name| == 3;
  }

  lemma RowDescribed(r: Record)
    ensures DescribesRow(RowValue(r), r)
  {
    var fs := RowValue(r).fields;
    hide Lookup, DifferentNames;
    RowNames(r);
    LookupsFind(fs);
    assert fs[0].name == "id" && fs[1].name == "name" && fs[2].name == "age";
  }

  predicate DifferentNames(fs: seq<Field>) {
    forall i, j :: 0 <= i < j < |fs| ==> fs[i].name != fs[j].name
  }

  lemma LookupsFind(fs: seq<Field>)
    requires DifferentNames(fs)
    ensures forall k :: 0 <= k < |fs| ==> Lookup(fs, fs[k].name) == Some(fs[k].value)
  {
    forall k | 0 <= k < |fs| ensures Lookup(fs, fs[k].name) == Some(fs[k].value) {
      LookupAt(fs, k);
    }
  }

  lemma BodyNames(rows: seq<Record>, usedIndex: bool)
    ensures DifferentNames(BodyValue(rows, usedIndex).fields)
  {
    hide RowValues;
    var fs := BodyValue(rows, usedIndex).fields;
    assert |fs[0].name| == 2 && |fs[1].name| == 6 && |fs[2].name| == 6;
    assert |fs[3].name| == 8 && |fs[4].name| == 9 && |fs[5].name| == 4;
    assert fs[1].name[0] == 's' && fs[2].name[0] == 'a';
  }

  lemma BodyDescribed(rows: seq<Record>, usedIndex: bool)
    ensures var v := BodyValue(rows, usedIndex);
            && Get(v, "ok") == Some(Truth(true)) && Get(v, "action") == Some(Str("select"))
            && Get(v, "rowCount") == Some(Num(|rows|)) && Get(v, "usedIndex") == Some(Truth(usedIndex))
            && Get(v, "rows") == Some(Arr(RowValues(rows, |rows|)))
  {
    var fs := BodyValue(rows, usedIndex).fields;
    hide Lookup, RowValues, DifferentNames;
    BodyNames(rows, usedIndex);
    LookupsFind(fs);
    assert fs[0].name == "ok" && fs[2].name == "action" && fs[3].name == "rowCount";
    assert fs[4].name == "usedIndex" && fs[5].name == "rows";
  }

  /** The body of a row set describes that row set: every row with its own id, name and age, in order. */
  lemma BodyReadsBack(rows: seq<Record>, usedIndex: bool)
    ensures DescribesRows(Body(rows, usedIndex), rows, usedIndex)
  {
    var v := BodyValue(rows, usedIndex);
    BodyWritten(rows, usedIndex);
    CompactReadsBack(v);
    BodyDescribed(rows, usedIndex);
    hide ReadValue, Written, Body, BodyValue, Get;
    forall i | 0 <= i < |rows| ensures DescribesRow(RowValues(rows, |rows|)[i], rows[i]) {
      RowDescribed(rows[i]);
    }
  }

  /** Renders the row set; nothing is truncated, and what is sent describes exactly the rows. */
  method RenderRows(rows: seq<Record>, usedIndex: bool) returns (body: array<char>, offset: nat)
    requires Representable(rows)
    ensures fresh(body) && offset < body.Length && body[offset] == '\0'
    ensures DescribesRows(body[..offset], rows, usedIndex)
  {
    HeaderLength(|rows|, usedIndex);
    RowsModest(rows);
    body, offset := PrintAll(Header(|rows|, usedIndex), rows, RowText);
    BodyReadsBack(rows, usedIndex);
  }

  // ------------------------------------------------------- the answer to an INSERT

  function InsertBody(id: int): string {
    "{\"ok\":true," + ("\"status\":\"ok\"," + ("\"action\":\"insert\"," + ("\"insertedId\":" + (SignedDecimal(id)
    + ",\"usedIndex\":false}"))))
  }

  function InsertValue(id: int): Value {
    Obj([Field("ok", Truth(true)), Field("status", Str("ok")), Field("action", Str("insert")),
         Field("insertedId", Num(id)), Field("usedIndex", Truth(false))])
  }

  /** The text reports one inserted row under this id, and nothing else. */
  ghost predicate DescribesInsert(t: string, id: int) {
    exists v ::
      && ReadValue(t) == Some((v, ""))
      && Get(v, "ok") == Some(Truth(true)) && Get(v, "action") == Some(Str("insert"))
      && Get(v, "insertedId") == Some(Num(id)) && Get(v, "usedIndex") == Some(Truth(false)) && Get(v, "rows") == None
  }

  /** Five fields between braces. */
  function FiveFields(a: string, b: string, c: string, d: string, e: string): string {
    "{" + ((a + ("," + (b + ("," + (c + ("," + (d + ("," + e)))))))) + "}")
  }

  lemma FiveNest(a: string, b: string, c: string, d: string, n: string, e: string)
    ensures FiveFields(a, b, c, d + n, e) == ("{" + a + ",") + ((b + ",") + ((c + ",") + (d + (n + ("," + e + "}")))))
  {
  }

  lemma FiveWritten(a: Field, b: Field, c: Field, d: Field, e: Field)
    ensures Written(Obj([a, b, c, d, e])) ==
            FiveFields(WrittenField(a), WrittenField(b), WrittenField(c), WrittenField(d), WrittenField(e))
  {
    hide WrittenField;
    FieldsCons(e, []);
    FieldsCons(d, [e]);
    FieldsCons(c, [d] + [e]);
    FieldsCons(b, [c] + ([d] + [e]));
    FieldsCons(a, [b] + ([c] + ([d] + [e])));
    assert [a] + ([b] + ([c] + ([d] + [e]))) == [a, b, c, d, e];
  }

  lemma InsertWords()
    ensures "\"action\":" + "\"insert\"" == "\"action\":\"insert\""
    ensures "\"action\":\"insert\"" + "," == "\"action\":\"insert\","
    ensures "\"usedIndex\":" + "false" == "\"usedIndex\":false"
    ensures "," + "\"usedIndex\":false" + "}" == ",\"usedIndex\":false}"
  {
  }

  lemma InsertWritten(id: int)
    ensures InsertBody(id) == Written(InsertValue(id))
  {
    QuotedWords();
    QuotedNames();
    BodyWords();
    InsertWords();
    NamedField("ok", Truth(true));
    NamedField("status", Str("ok"));
    NamedField("action", Str("insert"));
    NamedField("insertedId", Num(id));
    NamedField("usedIndex", Truth(false));
    hide WrittenField, SignedDecimal, FiveFields;
    FiveWritten(Field("ok", Truth(true)), Field("status", Str("ok")), Field("action", Str("insert")),
      Field("insertedId", Num(id)), Field("usedIndex", Truth(false)));
    FiveNest("\"ok\":true", "\"status\":\"ok\"", "\"action\":\"insert\"", "\"insertedId\":", SignedDecimal(id),
      "\"usedIndex\":false");
  }

  lemma {:induction false} LookupMisses(fs: seq<Field>, name: string)
    requires forall k :: 0 <= k < |fs| ==> fs[k].name != name
    ensures Lookup(fs, name) == None
  {
    if fs != [] {
      assert fs[0].name != name;
      LookupMisses(fs[1..], name);
    }
  }

  lemma InsertNames(id: int)
    ensures DifferentNames(InsertValue(id).fields)
    ensures forall k :: 0 <= k < 5 ==> InsertValue(id).fields[k].name != "rows"
  {
    var fs := InsertValue(id).fields;
    assert |fs[0].name| == 2 && |fs[1].name| == 6 && |fs[2].name| == 6 && |fs[3].name| == 10 && |fs[4].name| == 9;
    assert fs[1].name[0] == 's' && fs[2].name[0] == 'a' && |"rows"| == 4;
  }

  lemma InsertDescribed(id: int)
    ensures var v := InsertValue(id);
            && Get(v, "ok") == Some(Truth(true)) && Get(v, "action") == Some(Str("insert"))
            && Get(v, "insertedId") == Some(Num(id)) && Get(v, "usedIndex") == Some(Truth(false)) &&
               Get(v, "rows") == None
  {
    var fs := InsertValue(id).fields;
    hide Lookup, DifferentNames;
    InsertNames(id);
    LookupsFind(fs);
    LookupMisses(fs, "rows");
    assert fs[0].name == "ok" && fs[2].name == "action" && fs[3].name == "insertedId" && fs[4].name == "usedIndex";
  }

  /** The body that answers an INSERT reports its id. */
  lemma InsertReadsBack(id: int)
    ensures DescribesInsert(InsertBody(id), id)
  {
    InsertWritten(id);
    CompactReadsBack(InsertValue(id));
    InsertDescribed(id);
    hide ReadValue, Written, InsertBody, InsertValue, Get;
  }

  lemma InsertLength(id: int)
    requires -INT_MAX - 1 <= id <= INT_MAX
    ensures |InsertBody(id)| < 256
  {
    hide SignedDecimal;
    IntLength(id);
  }

  /** Renders the answer to an INSERT into its fixed buffer; it always fits. */
  method RenderInsert(id: int) returns (body: array<char>, length: nat)
    requires -INT_MAX - 1 <= id <= INT_MAX
    ensures fresh(body) && body.Length == 256 && length < 256 && body[length] == '\0'
    ensures DescribesInsert(body[..length], id)
  {
    InsertLength(id);
    hide InsertBody, DescribesInsert;
    body := new char[256];
    length := Print(body, 0, InsertBody(id));
    assert body[..length] == InsertBody(id);
    InsertReadsBack(id);
  }
}
